/** The valuation of one holding (a `Portfolio` row): its cost basis, its
    market value and its profit. */
module Valuation {
  import opened Basics

  /** A `Portfolio` row. `latestPrice` is the nullable cached close;
      `investmentId` is the optional link to an investment. */
  datatype Holding = Holding(
    id: nat,
    symbol: Symbol,
    shares: real,
    averagePrice: real,
    latestPrice: Option<real>,
    account: string,
    investmentId: Option<nat>)

  /** The per-share price the market value is taken at: the cached latest price
      when it is truthy, otherwise the average (cost-basis) price. */
  function PriceUsed(h: Holding): real {
    if Truthy(h.latestPrice) then h.latestPrice.value else h.averagePrice
  }

  /** `total_cost`: shares times average price. */
  function TotalCost(h: Holding): real {
    h.shares * h.averagePrice
  }

  /** `market_value`: shares times the latest price, falling back to the average
      price when the latest price is missing or zero. */
  function MarketValue(h: Holding): real {
    h.shares * PriceUsed(h)
  }

  /** `profit`: market value minus total cost. */
  function Profit(h: Holding): real {
    MarketValue(h) - TotalCost(h)
  }

  /** With a usable latest price the market value is taken at that price, and
      the profit is the per-share gain over the cost basis times the shares;
      without one the market value is the cost basis and the profit is zero. */
  lemma ValuationCases(h: Holding)
    ensures Truthy(h.latestPrice) ==>
      MarketValue(h) == h.shares * h.latestPrice.value &&
      Profit(h) == h.shares * (h.latestPrice.value - h.averagePrice)
    ensures !Truthy(h.latestPrice) ==>
      MarketValue(h) == TotalCost(h) && Profit(h) == 0.0
  {
  }

  /** For a holding of a positive number of shares the profit is positive
      exactly when a usable latest price lies above the average price, and
      negative exactly when it lies below. */
  lemma ProfitSign(h: Holding)
    requires h.shares > 0.0
    ensures Profit(h) > 0.0 <==> Truthy(h.latestPrice) && h.latestPrice.value > h.averagePrice
    ensures Profit(h) < 0.0 <==> Truthy(h.latestPrice) && h.latestPrice.value < h.averagePrice
  {
    ValuationCases(h);
    if Truthy(h.latestPrice) {
      var gain := h.latestPrice.value - h.averagePrice;
      assert Profit(h) == h.shares * gain;
    }
  }
}
