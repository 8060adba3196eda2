/** The "my stocks" view: holdings grouped by symbol, with the shares, cost,
    market value and profit of each group summed, a blended average price,
    and a latest price taken from the first holding that has one. */
module Aggregation {
  import opened Basics
  import opened Valuation

  /** The four running sums of a group. */
  datatype Totals = Totals(shares: real, cost: real, marketValue: real, profit: real)

  const Zero := Totals(0.0, 0.0, 0.0, 0.0)

  function Plus(a: Totals, b: Totals): Totals {
    Totals(a.shares + b.shares, a.cost + b.cost, a.marketValue + b.marketValue, a.profit + b.profit)
  }

  /** What one holding adds to its group. */
  function Contribution(h: Holding): Totals {
    Totals(h.shares, TotalCost(h), MarketValue(h), Profit(h))
  }

  /** The sums over the holdings of `sym`. */
  function TotalsOf(hs: seq<Holding>, sym: Symbol): Totals {
    if hs == [] then Zero
    else
      var h := hs[|hs| - 1];
      var t := TotalsOf(hs[..|hs| - 1], sym);
      if h.symbol == sym then Plus(t, Contribution(h)) else t
  }

  /** The sums over all holdings, whatever their symbol. */
  function GrandTotals(hs: seq<Holding>): Totals {
    if hs == [] then Zero
    else Plus(GrandTotals(hs[..|hs| - 1]), Contribution(hs[|hs| - 1]))
  }

  /** The distinct symbols of the holdings, in order of first appearance (the
      insertion order of the grouping dictionary). */
  function DistinctSymbols(hs: seq<Holding>): (keys: seq<Symbol>)
    ensures forall s :: s in keys <==> exists i | 0 <= i < |hs| :: hs[i].symbol == s
    ensures forall i, j | 0 <= i < j < |keys| :: keys[i] != keys[j]
  {
    if hs == [] then []
    else
      var h := hs[|hs| - 1];
      var init := hs[..|hs| - 1];
      var keys := DistinctSymbols(init);
      assert forall i | 0 <= i < |init| :: init[i] == hs[i];
      if h.symbol in keys then keys else keys + [h.symbol]
  }

  /** A holding of `sym` whose cached latest price is truthy. */
  predicate PricedAt(h: Holding, sym: Symbol) {
    h.symbol == sym && Truthy(h.latestPrice)
  }

  /** The latest price of the first holding of `sym` in list order that has a
      truthy one, else 0. */
  function FirstLatestPrice(hs: seq<Holding>, sym: Symbol): real {
    if hs == [] then 0.0
    else if PricedAt(hs[0], sym) then hs[0].latestPrice.value
    else FirstLatestPrice(hs[1..], sym)
  }

  /** The blended average price: total cost over total shares, 0 without shares. */
  function AveragePrice(t: Totals): real {
    if t.shares > 0.0 then t.cost / t.shares else 0.0
  }

  /** One row of the view. */
  datatype SymbolGroup = SymbolGroup(
    symbol: Symbol,
    totalShares: real,
    totalCost: real,
    marketValue: real,
    profit: real,
    averagePrice: real,
    latestPrice: real)

  /** The row the view shows for `sym`. */
  function GroupOf(hs: seq<Holding>, sym: Symbol): SymbolGroup {
    var t := TotalsOf(hs, sym);
    SymbolGroup(sym, t.shares, t.cost, t.marketValue, t.profit, AveragePrice(t), FirstLatestPrice(hs, sym))
  }

  /** The holdings the view is computed over: every holding but NON-STOCK ones. */
  function StockHoldings(hs: seq<Holding>): (r: seq<Holding>)
    ensures forall h :: h in r <==> h in hs && h.symbol != NonStock
  {
    if hs == [] then []
    else if hs[0].symbol != NonStock then [hs[0]] + StockHoldings(hs[1..])
    else StockHoldings(hs[1..])
  }

  lemma {:induction false} TotalsOfAbsent(hs: seq<Holding>, sym: Symbol)
    requires forall i | 0 <= i < |hs| :: hs[i].symbol != sym
    ensures TotalsOf(hs, sym) == Zero
  {
    if hs != [] {
      TotalsOfAbsent(hs[..|hs| - 1], sym);
    }
  }

  /** A group's profit is its market value minus its cost, as for a single
      holding, although the view sums the three separately. */
  lemma {:induction false} GroupProfitIsGain(hs: seq<Holding>, sym: Symbol)
    ensures TotalsOf(hs, sym).profit == TotalsOf(hs, sym).marketValue - TotalsOf(hs, sym).cost
  {
    if hs != [] {
      GroupProfitIsGain(hs[..|hs| - 1], sym);
    }
  }

  /** The first holding of `sym` with a truthy latest price gives the group's
      latest price. */
  lemma {:induction false} FirstPricedWins(hs: seq<Holding>, sym: Symbol, k: nat)
    requires k < |hs| && PricedAt(hs[k], sym)
    requires forall m | 0 <= m < k :: !PricedAt(hs[m], sym)
    ensures FirstLatestPrice(hs, sym) == hs[k].latestPrice.value
  {
    if k > 0 {
      assert !PricedAt(hs[0], sym);
      FirstPricedWins(hs[1..], sym, k - 1);
    }
  }

  /** Without a holding of `sym` that has a truthy latest price the group's
      latest price is 0. */
  lemma {:induction false} NoPricedIsZero(hs: seq<Holding>, sym: Symbol)
    requires forall m | 0 <= m < |hs| :: !PricedAt(hs[m], sym)
    ensures FirstLatestPrice(hs, sym) == 0.0
  {
    if hs != [] {
      assert !PricedAt(hs[0], sym);
      NoPricedIsZero(hs[1..], sym);
    }
  }

  /** The sum of the groups' sums over a list of distinct keys. */
  function SumOverKeys(hs: seq<Holding>, keys: seq<Symbol>): Totals {
    if keys == [] then Zero
    else Plus(SumOverKeys(hs, keys[..|keys| - 1]), TotalsOf(hs, keys[|keys| - 1]))
  }

  lemma {:induction false} SumOverKeysStep(hs: seq<Holding>, h: Holding, keys: seq<Symbol>)
    requires forall i, j | 0 <= i < j < |keys| :: keys[i] != keys[j]
    ensures SumOverKeys(hs + [h], keys) ==
      if h.symbol in keys then Plus(SumOverKeys(hs, keys), Contribution(h)) else SumOverKeys(hs, keys)
  {
    var hs' := hs + [h];
    assert hs'[..|hs'| - 1] == hs;
    if keys != [] {
      var init := keys[..|keys| - 1];
      var last := keys[|keys| - 1];
      SumOverKeysStep(hs, h, init);
      assert h.symbol in keys <==> h.symbol in init || h.symbol == last;
      assert last !in init;
    }
  }

  /** Grouping loses nothing and counts nothing twice: summed over the groups,
      the shares, cost, market value and profit are those of all holdings. */
  lemma {:induction false} GroupsPreserveTotals(hs: seq<Holding>)
    ensures SumOverKeys(hs, DistinctSymbols(hs)) == GrandTotals(hs)
  {
    if hs != [] {
      var h := hs[|hs| - 1];
      var init := hs[..|hs| - 1];
      assert init + [h] == hs;
      var keys := DistinctSymbols(init);
      GroupsPreserveTotals(init);
      SumOverKeysStep(init, h, keys);
      if h.symbol !in keys {
        assert forall i | 0 <= i < |init| :: init[i].symbol != h.symbol;
        TotalsOfAbsent(init, h.symbol);
        var keys' := keys + [h.symbol];
        assert keys'[..|keys'| - 1] == keys;
        SumOverKeysStep(init, h, keys);
      }
    }
  }

  /** The view's keys are exactly the distinct symbols other than NON-STOCK. */
  lemma StockGroupKeys(hs: seq<Holding>)
    ensures forall s :: s in DistinctSymbols(StockHoldings(hs)) <==>
      s != NonStock && exists i | 0 <= i < |hs| :: hs[i].symbol == s
  {
    var st := StockHoldings(hs);
    forall s ensures s in DistinctSymbols(st) <==> s != NonStock && exists i | 0 <= i < |hs| :: hs[i].symbol == s {
      if s in DistinctSymbols(st) {
        var i :| 0 <= i < |st| && st[i].symbol == s;
        assert st[i] in hs;
      }
      if s != NonStock && exists i | 0 <= i < |hs| :: hs[i].symbol == s {
        var i :| 0 <= i < |hs| && hs[i].symbol == s;
        assert hs[i] in st;
      }
    }
  }

  /** One more holding adds its contribution to its own symbol's sums only. */
  lemma TotalsOfSnoc(hs: seq<Holding>, h: Holding)
    ensures forall s ::
              TotalsOf(hs + [h], s) ==
              if h.symbol == s then Plus(TotalsOf(hs, s), Contribution(h)) else TotalsOf(hs, s)
  {
    var hs' := hs + [h];
    assert hs'[..|hs'| - 1] == hs;
  }

  /** One more holding adds its symbol to the keys when it is new. */
  lemma DistinctSymbolsSnoc(hs: seq<Holding>, h: Holding)
    ensures DistinctSymbols(hs + [h]) ==
      if h.symbol in DistinctSymbols(hs) then DistinctSymbols(hs) else DistinctSymbols(hs) + [h.symbol]
  {
    var hs' := hs + [h];
    assert hs'[..|hs'| - 1] == hs;
  }

  /** The grouping loop of the view: one entry per symbol, created on the
      symbol's first appearance, to which each holding adds its contribution. */
  method GroupTotals(hs: seq<Holding>) returns (keys: seq<Symbol>, acc: map<Symbol, Totals>)
    ensures keys == DistinctSymbols(hs)
    ensures forall s :: s in acc <==> s in keys
    ensures forall s | s in acc :: acc[s] == TotalsOf(hs, s)
  {
    keys, acc := [], map[];
    var i := 0;
    while i < |hs|
      invariant 0 <= i <= |hs|
      invariant keys == DistinctSymbols(hs[..i])
      invariant forall s :: s in acc <==> s in keys
      invariant forall s | s in acc :: acc[s] == TotalsOf(hs[..i], s)
    {
      var h := hs[i];
      assert hs[..i + 1] == hs[..i] + [h];
      TotalsOfSnoc(hs[..i], h);
      DistinctSymbolsSnoc(hs[..i], h);
      if h.symbol !in acc {
        TotalsOfAbsent(hs[..i], h.symbol);
        keys := keys + [h.symbol];
        acc := acc[h.symbol := Zero];
      }
      acc := acc[h.symbol := Plus(acc[h.symbol], Contribution(h))];
      i := i + 1;
    }
    assert hs[..i] == hs;
  }

  /** The search for a group's latest price: the first holding of the symbol
      with a truthy latest price, 0 when the search runs off the end. */
  method FindLatestPrice(hs: seq<Holding>, sym: Symbol) returns (latest: real)
    ensures latest == FirstLatestPrice(hs, sym)
    ensures latest != 0.0 <==> exists m | 0 <= m < |hs| :: PricedAt(hs[m], sym)
  {
    latest := 0.0;
    var k := 0;
    while k < |hs|
      invariant 0 <= k <= |hs|
      invariant forall m | 0 <= m < k :: !PricedAt(hs[m], sym)
    {
      if PricedAt(hs[k], sym) {
        FirstPricedWins(hs, sym, k);
        latest := hs[k].latestPrice.value;
        return;
      }
      k := k + 1;
    }
    NoPricedIsZero(hs, sym);
  }

  /** The loop over the groups of the view: each one's sums are those of its
      symbol, and its average price and latest price are set from them. */
  method GroupRows(hs: seq<Holding>, keys: seq<Symbol>, acc: map<Symbol, Totals>)
    returns (groups: seq<SymbolGroup>)
    requires forall s | s in keys :: s in acc && acc[s] == TotalsOf(hs, s)
    ensures |groups| == |keys|
    ensures forall g | 0 <= g < |groups| :: groups[g] == GroupOf(hs, keys[g])
  {
    groups := [];
    var j := 0;
    while j < |keys|
      invariant 0 <= j <= |keys|
      invariant |groups| == j
      invariant forall g | 0 <= g < j :: groups[g] == GroupOf(hs, keys[g])
    {
      var s := keys[j];
      var t := acc[s];
      var average := if t.shares > 0.0 then t.cost / t.shares else 0.0;
      var latest := FindLatestPrice(hs, s);
      groups := groups + [SymbolGroup(s, t.shares, t.cost, t.marketValue, t.profit, average, latest)];
      j := j + 1;
    }
  }

  /** The view: the grouping loop, then the loop over the groups that sets
      each one's average price and latest price. */
  method Aggregate(hs: seq<Holding>) returns (groups: seq<SymbolGroup>)
    ensures |groups| == |DistinctSymbols(hs)|
    ensures forall g | 0 <= g < |groups| :: groups[g] == GroupOf(hs, DistinctSymbols(hs)[g])
  {
    var keys, acc := GroupTotals(hs);
    groups := GroupRows(hs, keys, acc);
  }
}
