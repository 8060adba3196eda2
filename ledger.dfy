/** The ledger store (`investments.db`): investments with their transactions,
    portfolio holdings, and the two snapshot logs, with the mutations the
    application's routes perform on them. */
module Ledger {
  import opened Basics
  import opened Valuation
  import opened Prices
  import opened Aggregation

  /** An `Investment` row. `totalAmount` is the running sum of its
      transactions; `actualAmount` is a valuation the user enters. */
  datatype Investment = Investment(
    id: nat,
    name: string,
    platform: string,
    accountName: string,
    kind: string,
    totalAmount: real,
    actualAmount: real,
    profitLoss: real)

  /** A `Transaction` row: a signed cash movement of one investment. */
  datatype Transaction = Transaction(id: nat, date: Date, amount: real, investmentId: nat, notes: string)

  /** A stored timestamp: `day` is its `%Y-%m-%d` rendering, `clock` the rest. */
  datatype Timestamp = Timestamp(day: string, clock: string)

  /** An `InvestmentSnapshot` row. */
  datatype InvestmentSnapshot = InvestmentSnapshot(
    id: nat,
    at: Timestamp,
    totalInvested: real,
    currentValue: real,
    profitLoss: real,
    profitLossPct: real)

  /** One entry of the `accounts` list a client posts to save account snapshots. */
  datatype AccountEntry = AccountEntry(
    accountName: string,
    goal: string,
    platform: string,
    kind: string,
    totalInvested: real,
    currentValue: real,
    profitLoss: real,
    profitLossPct: real)

  /** An `AccountSnapshot` row: an entry as it was saved, with its id and time. */
  datatype AccountSnapshot = AccountSnapshot(id: nat, at: Timestamp, entry: AccountEntry)

  /** How a route that looks a row up by id ends: done, or the 404 of `get_or_404`. */
  datatype Status = Done | NotFound

  // ---------------------------------------------------------------- row ids

  /** The id SQLite gives the next row of a table: one more than the largest
      id in use, 1 for an empty table. */
  function NextId(ids: seq<nat>): (n: nat)
    ensures n >= 1 && forall k | k in ids :: k < n
  {
    if ids == [] then 1
    else
      var rest := NextId(ids[..|ids| - 1]);
      assert forall k | k in ids :: k in ids[..|ids| - 1] || k == ids[|ids| - 1];
      if ids[|ids| - 1] + 1 > rest then ids[|ids| - 1] + 1 else rest
  }

  predicate DistinctIds(ids: seq<nat>) {
    forall i, j | 0 <= i < j < |ids| :: ids[i] != ids[j]
  }

  /** The index of the row with id `id`, None when there is none. */
  function IndexOf(ids: seq<nat>, id: nat): (r: Option<nat>)
    ensures r.None? <==> id !in ids
    ensures r.Some? ==> r.value < |ids| && ids[r.value] == id
  {
    if ids == [] then None
    else if ids[0] == id then Some(0)
    else match IndexOf(ids[1..], id)
      case None => None
      case Some(k) => Some(k + 1)
  }

  function InvestmentIds(s: seq<Investment>): (r: seq<nat>)
    ensures |r| == |s| && forall i | 0 <= i < |s| :: r[i] == s[i].id
  {
    seq(|s|, i requires 0 <= i < |s| => s[i].id)
  }

  function TransactionIds(s: seq<Transaction>): (r: seq<nat>)
    ensures |r| == |s| && forall i | 0 <= i < |s| :: r[i] == s[i].id
  {
    seq(|s|, i requires 0 <= i < |s| => s[i].id)
  }

  function HoldingIds(s: seq<Holding>): (r: seq<nat>)
    ensures |r| == |s| && forall i | 0 <= i < |s| :: r[i] == s[i].id
  {
    seq(|s|, i requires 0 <= i < |s| => s[i].id)
  }

  function InvestmentSnapshotIds(s: seq<InvestmentSnapshot>): (r: seq<nat>)
    ensures |r| == |s| && forall i | 0 <= i < |s| :: r[i] == s[i].id
  {
    seq(|s|, i requires 0 <= i < |s| => s[i].id)
  }

  function AccountSnapshotIds(s: seq<AccountSnapshot>): (r: seq<nat>)
    ensures |r| == |s| && forall i | 0 <= i < |s| :: r[i] == s[i].id
  {
    seq(|s|, i requires 0 <= i < |s| => s[i].id)
  }

  /** A sequence without its element at index `k`. */
  function RemoveAt<T>(s: seq<T>, k: nat): (r: seq<T>)
    requires k < |s|
    ensures |r| == |s| - 1
    ensures forall i | 0 <= i < k :: r[i] == s[i]
    ensures forall i | k <= i < |r| :: r[i] == s[i + 1]
  {
    s[..k] + s[k + 1..]
  }

  /** The id given to a new row is not in use, so the ids stay distinct. */
  lemma AppendFreshId(ids: seq<nat>)
    requires DistinctIds(ids)
    ensures DistinctIds(ids + [NextId(ids)])
  {
    var r := ids + [NextId(ids)];
    forall i, j | 0 <= i < j < |r| ensures r[i] != r[j] {
      assert r[i] == ids[i] && ids[i] in ids;
    }
  }

  /** Rows given consecutive ids from the next free one keep the ids distinct. */
  lemma AppendConsecutiveIds(ids: seq<nat>, added: seq<nat>)
    requires DistinctIds(ids)
    requires forall k | 0 <= k < |added| :: added[k] == NextId(ids) + k
    ensures DistinctIds(ids + added)
  {
    var r := ids + added;
    forall i, j | 0 <= i < j < |r| ensures r[i] != r[j] {
      if j >= |ids| && i < |ids| {
        assert r[i] == ids[i] && ids[i] in ids;
      }
    }
  }

  lemma RemoveAtKeepsDistinct(ids: seq<nat>, k: nat)
    requires DistinctIds(ids) && k < |ids|
    ensures DistinctIds(RemoveAt(ids, k))
  {
    var r := RemoveAt(ids, k);
    forall i, j | 0 <= i < j < |r| ensures r[i] != r[j] {
      var i' := if i < k then i else i + 1;
      var j' := if j < k then j else j + 1;
      assert r[i] == ids[i'] && r[j] == ids[j'];
    }
  }

  // ------------------------------------------------------ the accumulator

  /** The sum of the amounts of the transactions of investment `id`. */
  function AmountSum(txs: seq<Transaction>, id: nat): real {
    if txs == [] then 0.0
    else
      var t := txs[|txs| - 1];
      AmountSum(txs[..|txs| - 1], id) + (if t.investmentId == id then t.amount else 0.0)
  }

  /** The transactions left after `filter_by(investment_id=id).delete()`. */
  function WithoutInvestment(txs: seq<Transaction>, id: nat): (r: seq<Transaction>)
    ensures forall t :: t in r <==> t in txs && t.investmentId != id
  {
    if txs == [] then []
    else
      var t := txs[|txs| - 1];
      var init := txs[..|txs| - 1];
      assert forall x | x in txs :: x in init || x == t;
      if t.investmentId == id then WithoutInvestment(init, id) else WithoutInvestment(init, id) + [t]
  }

  lemma AmountSumAppend(txs: seq<Transaction>, t: Transaction, id: nat)
    ensures AmountSum(txs + [t], id) == AmountSum(txs, id) + (if t.investmentId == id then t.amount else 0.0)
  {
    assert (txs + [t])[..|txs|] == txs;
  }

  lemma {:induction false} AmountSumUnreferenced(txs: seq<Transaction>, id: nat)
    requires forall t | t in txs :: t.investmentId != id
    ensures AmountSum(txs, id) == 0.0
  {
    if txs != [] {
      AmountSumUnreferenced(txs[..|txs| - 1], id);
    }
  }

  /** Deleting the transactions of one investment leaves the sum of every
      other investment's transactions as it was. */
  lemma {:induction false} AmountSumWithout(txs: seq<Transaction>, id: nat, other: nat)
    requires other != id
    ensures AmountSum(WithoutInvestment(txs, id), other) == AmountSum(txs, other)
  {
    if txs != [] {
      var t := txs[|txs| - 1];
      var init := txs[..|txs| - 1];
      AmountSumWithout(init, id, other);
      if t.investmentId != id {
        AmountSumAppend(WithoutInvestment(init, id), t, other);
      }
    }
  }

  lemma {:induction false} WithoutInvestmentKeepsDistinct(txs: seq<Transaction>, id: nat)
    requires DistinctIds(TransactionIds(txs))
    ensures DistinctIds(TransactionIds(WithoutInvestment(txs, id)))
  {
    if txs != [] {
      var t := txs[|txs| - 1];
      var init := txs[..|txs| - 1];
      var all := TransactionIds(txs);
      assert TransactionIds(init) == all[..|txs| - 1];
      WithoutInvestmentKeepsDistinct(init, id);
      if t.investmentId != id {
        var w := WithoutInvestment(init, id);
        var ids := TransactionIds(w + [t]);
        forall i, j | 0 <= i < j < |ids| ensures ids[i] != ids[j] {
          assert ids[i] == w[i].id && w[i] in init;
          if j == |w| {
            var m :| 0 <= m < |init| && init[m] == w[i];
            assert all[m] == w[i].id && all[|txs| - 1] == t.id;
          } else {
            assert ids[j] == TransactionIds(w)[j] && ids[i] == TransactionIds(w)[i];
          }
        }
      }
    }
  }

  /** Each investment's total amount is the sum of its transactions' amounts. */
  predicate Tracks(invs: seq<Investment>, txs: seq<Transaction>) {
    forall i | 0 <= i < |invs| :: invs[i].totalAmount == AmountSum(txs, invs[i].id)
  }

  /** Every transaction belongs to one of the investments. */
  predicate Linked(invs: seq<Investment>, txs: seq<Transaction>) {
    forall t | t in txs :: t.investmentId in InvestmentIds(invs)
  }

  /** Creating an investment, with or without its initial transaction, keeps
      the ids distinct and the transactions attached. */
  lemma NewInvestmentKeepsLedgerConsistent(invs: seq<Investment>, txs: seq<Transaction>,
                                           inv: Investment, extra: seq<Transaction>)
    requires DistinctIds(InvestmentIds(invs)) && DistinctIds(TransactionIds(txs)) && Linked(invs, txs)
    requires inv.id == NextId(InvestmentIds(invs))
    requires extra == [] ||
      (|extra| == 1 && extra[0].id == NextId(TransactionIds(txs)) && extra[0].investmentId == inv.id)
    ensures DistinctIds(InvestmentIds(invs + [inv]))
    ensures DistinctIds(TransactionIds(txs + extra))
    ensures Linked(invs + [inv], txs + extra)
  {
    var ids := InvestmentIds(invs);
    var ids' := InvestmentIds(invs + [inv]);
    assert ids' == ids + [inv.id];
    AppendFreshId(ids);
    if extra != [] {
      assert TransactionIds(txs + extra) == TransactionIds(txs) + [extra[0].id];
      AppendFreshId(TransactionIds(txs));
    } else {
      assert txs + extra == txs;
    }
    forall t | t in txs + extra ensures t.investmentId in ids' {
      if t in txs {
        var j :| 0 <= j < |ids| && ids[j] == t.investmentId;
        assert ids'[j] == ids[j];
      }
    }
  }

  /** When the totals were the sums of the transactions, they still are after
      an investment is created exactly when it got its initial transaction or
      starts at zero. */
  lemma NewInvestmentKeepsTotals(invs: seq<Investment>, txs: seq<Transaction>,
                                 inv: Investment, extra: seq<Transaction>)
    requires Linked(invs, txs) && Tracks(invs, txs)
    requires inv.id == NextId(InvestmentIds(invs))
    requires extra == [] ||
      (|extra| == 1 && extra[0].investmentId == inv.id && extra[0].amount == inv.totalAmount)
    ensures Tracks(invs + [inv], txs + extra) <==> extra != [] || inv.totalAmount == 0.0
  {
    var ids := InvestmentIds(invs);
    assert forall t | t in txs :: t.investmentId != inv.id;
    AmountSumUnreferenced(txs, inv.id);
    var all := invs + [inv];
    if extra != [] {
      assert txs + extra == txs + [extra[0]];
      forall i | 0 <= i < |all| ensures AmountSum(txs + extra, all[i].id) ==
        AmountSum(txs, all[i].id) + (if all[i].id == inv.id then inv.totalAmount else 0.0)
      {
        AmountSumAppend(txs, extra[0], all[i].id);
      }
    } else {
      assert txs + extra == txs;
    }
    forall i | 0 <= i < |invs| ensures all[i].totalAmount == AmountSum(txs + extra, all[i].id) {
      assert all[i] == invs[i] && invs[i].id == ids[i] && ids[i] in ids;
    }
    assert all[|invs|] == inv;
  }

  /** Recording a transaction against investment `k` and growing that
      investment's total by its amount keeps the ids distinct, the
      transactions attached, and every total equal to its transactions' sum. */
  lemma NewTransactionKeepsLedgerConsistent(invs: seq<Investment>, txs: seq<Transaction>, k: nat, tx: Transaction)
    requires DistinctIds(InvestmentIds(invs)) && DistinctIds(TransactionIds(txs)) && Linked(invs, txs)
    requires k < |invs| && tx.investmentId == invs[k].id && tx.id == NextId(TransactionIds(txs))
    ensures var invs' := invs[k := invs[k].(totalAmount := invs[k].totalAmount + tx.amount)];
      && DistinctIds(InvestmentIds(invs'))
      && DistinctIds(TransactionIds(txs + [tx]))
      && Linked(invs', txs + [tx])
      && (Tracks(invs, txs) ==> Tracks(invs', txs + [tx]))
  {
    var invs' := invs[k := invs[k].(totalAmount := invs[k].totalAmount + tx.amount)];
    assert InvestmentIds(invs') == InvestmentIds(invs);
    AppendFreshId(TransactionIds(txs));
    assert TransactionIds(txs + [tx]) == TransactionIds(txs) + [tx.id];
    assert InvestmentIds(invs)[k] == tx.investmentId;
    if Tracks(invs, txs) {
      forall i | 0 <= i < |invs'| ensures invs'[i].totalAmount == AmountSum(txs + [tx], invs'[i].id) {
        AmountSumAppend(txs, tx, invs[i].id);
        assert InvestmentIds(invs)[i] == invs[i].id;
      }
    }
  }

  /** Deleting an investment together with its transactions keeps every other
      investment's total equal to the sum of its transactions, and keeps every
      remaining transaction attached to a remaining investment. */
  lemma DeleteKeepsLedgerConsistent(invs: seq<Investment>, txs: seq<Transaction>, k: nat)
    requires k < |invs| && DistinctIds(InvestmentIds(invs))
    ensures DistinctIds(InvestmentIds(RemoveAt(invs, k)))
    ensures DistinctIds(TransactionIds(txs)) ==> DistinctIds(TransactionIds(WithoutInvestment(txs, invs[k].id)))
    ensures Linked(invs, txs) ==> Linked(RemoveAt(invs, k), WithoutInvestment(txs, invs[k].id))
    ensures Tracks(invs, txs) ==> Tracks(RemoveAt(invs, k), WithoutInvestment(txs, invs[k].id))
  {
    var id := invs[k].id;
    var invs' := RemoveAt(invs, k);
    var txs' := WithoutInvestment(txs, id);
    var oldIds, newIds := InvestmentIds(invs), InvestmentIds(invs');
    assert newIds == RemoveAt(oldIds, k);
    RemoveAtKeepsDistinct(oldIds, k);
    if DistinctIds(TransactionIds(txs)) {
      WithoutInvestmentKeepsDistinct(txs, id);
    }
    forall i | 0 <= i < |invs'| ensures invs'[i].id != id && (Tracks(invs, txs) ==> invs'[i].totalAmount == AmountSum(txs', invs'[i].id)) {
      var j := if i < k then i else i + 1;
      assert invs'[i] == invs[j] && oldIds[j] != oldIds[k];
      AmountSumWithout(txs, id, invs'[i].id);
    }
    if Linked(invs, txs) {
      forall t | t in txs' ensures t.investmentId in newIds {
        var j :| 0 <= j < |oldIds| && oldIds[j] == t.investmentId;
        assert j != k;
        if j < k { assert newIds[j] == oldIds[j]; } else { assert newIds[j - 1] == oldIds[j]; }
      }
    }
  }

  // ------------------------------------------------------ price refresh

  /** A holding after one pass of the price refresh: its latest price becomes
      the latest close of its symbol when the price store has one and it is
      truthy; NON-STOCK holdings are passed over when the route's query
      excludes them. */
  function Refreshed(h: Holding, prices: seq<PriceRow>, includeNonStock: bool): Holding {
    var close := LatestClose(prices, h.symbol);
    if (includeNonStock || h.symbol != NonStock) && Truthy(close) then h.(latestPrice := close) else h
  }

  /** The refresh writes only the latest price; a holding in the pass whose
      symbol's greatest-date row has a non-zero close gets that close; a
      holding left out of the pass, or whose symbol has no price row, is
      unchanged; whatever it writes is such a close; and a second pass changes
      nothing. */
  lemma RefreshProperties(h: Holding, prices: seq<PriceRow>, includeNonStock: bool)
    ensures Refreshed(h, prices, includeNonStock).(latestPrice := h.latestPrice) == h
    ensures ((includeNonStock || h.symbol != NonStock) &&
             LatestRow(prices, h.symbol).Some? && LatestRow(prices, h.symbol).value.close != 0.0) ==>
              Refreshed(h, prices, includeNonStock).latestPrice == Some(LatestRow(prices, h.symbol).value.close)
    ensures !(includeNonStock || h.symbol != NonStock) ==> Refreshed(h, prices, includeNonStock) == h
    ensures (forall x | x in prices :: x.symbol != h.symbol) ==> Refreshed(h, prices, includeNonStock) == h
    ensures Refreshed(h, prices, includeNonStock) != h ==>
      exists x | x in prices && x.symbol == h.symbol ::
        x.close != 0.0 &&
        Refreshed(h, prices, includeNonStock).latestPrice == Some(x.close) &&
        forall y | y in prices && y.symbol == h.symbol :: y.date <= x.date
    ensures Refreshed(Refreshed(h, prices, includeNonStock), prices, includeNonStock) ==
      Refreshed(h, prices, includeNonStock)
  {
    var lr := LatestRow(prices, h.symbol);
    if lr.Some? {
      assert lr.value in prices;
    }
  }

  /** After a refresh a holding is valued at the latest close of its symbol
      whenever that close is truthy and the holding was in the pass. */
  lemma RefreshedValuation(h: Holding, prices: seq<PriceRow>, includeNonStock: bool)
    requires includeNonStock || h.symbol != NonStock
    requires Truthy(LatestClose(prices, h.symbol))
    ensures MarketValue(Refreshed(h, prices, includeNonStock)) == h.shares * LatestClose(prices, h.symbol).value
  {
  }

  // ------------------------------------------------------ account snapshots

  /** Whether a snapshot is selected by the bulk delete's filters; an empty
      filter selects everything. */
  predicate SnapshotSelected(s: AccountSnapshot, account: string, day: string) {
    (account == "" || s.entry.accountName == account) && (day == "" || s.at.day == day)
  }

  /** The snapshots a bulk delete leaves. */
  function Unselected(snaps: seq<AccountSnapshot>, account: string, day: string): (r: seq<AccountSnapshot>)
    ensures forall s :: s in r <==> s in snaps && !SnapshotSelected(s, account, day)
    ensures |r| <= |snaps|
  {
    if snaps == [] then []
    else if SnapshotSelected(snaps[0], account, day) then Unselected(snaps[1..], account, day)
    else [snaps[0]] + Unselected(snaps[1..], account, day)
  }

  /** The number of snapshots a bulk delete removes. */
  function SelectedCount(snaps: seq<AccountSnapshot>, account: string, day: string): nat {
    if snaps == [] then 0
    else (if SnapshotSelected(snaps[0], account, day) then 1 else 0) + SelectedCount(snaps[1..], account, day)
  }

  /** The bulk delete removes exactly the selected snapshots: what is left and
      what is counted add up to what there was, and with both filters empty it
      removes every snapshot. */
  lemma {:induction false} BulkDeleteAccounting(snaps: seq<AccountSnapshot>, account: string, day: string)
    ensures |Unselected(snaps, account, day)| + SelectedCount(snaps, account, day) == |snaps|
    ensures account == "" && day == "" ==> Unselected(snaps, account, day) == []
    ensures (forall s | s in snaps :: !SnapshotSelected(s, account, day)) ==> Unselected(snaps, account, day) == snaps
  {
    if snaps != [] {
      BulkDeleteAccounting(snaps[1..], account, day);
    }
  }

  /** The rows one account-snapshot request saves: one per entry, in order,
      with consecutive ids from `base` and the request's single timestamp. */
  method NewAccountSnapshots(entries: seq<AccountEntry>, base: nat, now: Timestamp)
    returns (added: seq<AccountSnapshot>)
    ensures |added| == |entries|
    ensures forall k | 0 <= k < |entries| :: added[k] == AccountSnapshot(base + k, now, entries[k])
  {
    added := [];
    var k := 0;
    while k < |entries|
      invariant 0 <= k <= |entries|
      invariant |added| == k
      invariant forall m | 0 <= m < k :: added[m] == AccountSnapshot(base + m, now, entries[m])
    {
      added := added + [AccountSnapshot(base + k, now, entries[k])];
      k := k + 1;
    }
  }

  /** Snapshots numbered consecutively from the next free id keep the ids of
      the table distinct. */
  lemma AppendAccountSnapshotsKeepsDistinct(snaps: seq<AccountSnapshot>, added: seq<AccountSnapshot>)
    requires DistinctIds(AccountSnapshotIds(snaps))
    requires forall k | 0 <= k < |added| :: added[k].id == NextId(AccountSnapshotIds(snaps)) + k
    ensures DistinctIds(AccountSnapshotIds(snaps + added))
  {
    assert AccountSnapshotIds(snaps + added) == AccountSnapshotIds(snaps) + AccountSnapshotIds(added);
    AppendConsecutiveIds(AccountSnapshotIds(snaps), AccountSnapshotIds(added));
  }

  // ------------------------------------------------------ the store

  /** The ledger database: one sequence per table, in row order. */
  class Store {
    var investments: seq<Investment>
    var transactions: seq<Transaction>
    var portfolios: seq<Holding>
    var investmentSnapshots: seq<InvestmentSnapshot>
    var accountSnapshots: seq<AccountSnapshot>

    /** Every table's ids are distinct, and every transaction belongs to a
        live investment. */
    ghost predicate Valid()
      reads this
    {
      && DistinctIds(InvestmentIds(investments))
      && DistinctIds(TransactionIds(transactions))
      && DistinctIds(HoldingIds(portfolios))
      && DistinctIds(InvestmentSnapshotIds(investmentSnapshots))
      && DistinctIds(AccountSnapshotIds(accountSnapshots))
      && Linked(investments, transactions)
    }

    /** Each investment's total amount is the sum of its transactions' amounts. */
    ghost predicate TotalsTracked()
      reads this
    {
      Tracks(investments, transactions)
    }

    constructor ()
      ensures Valid() && TotalsTracked()
      ensures investments == [] && transactions == [] && portfolios == []
      ensures investmentSnapshots == [] && accountSnapshots == []
    {
      investments, transactions, portfolios := [], [], [];
      investmentSnapshots, accountSnapshots := [], [];
    }

    /** `add_investment`: the new investment starts with total and actual
        amount equal to the initial amount, and gets an "Initial investment"
        transaction of that amount only when the amount is positive. */
    method AddInvestment(name: string, platform: string, accountName: string, kind: string,
                         initial: real, today: Date) returns (id: nat)
      requires Valid()
      modifies this
      ensures Valid()
      ensures id == NextId(InvestmentIds(old(investments)))
      ensures investments == old(investments) + [Investment(id, name, platform, accountName, kind, initial, initial, 0.0)]
      ensures transactions == old(transactions) +
        if initial > 0.0
        then [Transaction(NextId(TransactionIds(old(transactions))), today, initial, id, "Initial investment")]
        else []
      ensures portfolios == old(portfolios)
      ensures investmentSnapshots == old(investmentSnapshots) && accountSnapshots == old(accountSnapshots)
      ensures old(TotalsTracked()) ==> (TotalsTracked() <==> initial >= 0.0)
    {
      id := NextId(InvestmentIds(investments));
      var investment := Investment(id, name, platform, accountName, kind, initial, initial, 0.0);
      var initialTx := if initial > 0.0
        then [Transaction(NextId(TransactionIds(transactions)), today, initial, id, "Initial investment")]
        else [];
      NewInvestmentKeepsLedgerConsistent(investments, transactions, investment, initialTx);
      if TotalsTracked() {
        NewInvestmentKeepsTotals(investments, transactions, investment, initialTx);
      }
      investments := investments + [investment];
      transactions := transactions + initialTx;
    }

    /** `transactions` POST: the transaction is appended and only its
        investment's total amount grows, by exactly its amount. */
    method AddTransaction(investmentId: nat, date: Date, amount: real, notes: string) returns (status: Status)
      requires Valid()
      modifies this
      ensures Valid()
      ensures status == NotFound <==> investmentId !in InvestmentIds(old(investments))
      ensures status == NotFound ==>
        investments == old(investments) && transactions == old(transactions)
      ensures status == Done ==>
        var k := IndexOf(InvestmentIds(old(investments)), investmentId).value;
        investments == old(investments)[k := old(investments)[k].(totalAmount := old(investments)[k].totalAmount + amount)] &&
        transactions == old(transactions) + [Transaction(NextId(TransactionIds(old(transactions))), date, amount, investmentId, notes)]
      ensures portfolios == old(portfolios)
      ensures investmentSnapshots == old(investmentSnapshots) && accountSnapshots == old(accountSnapshots)
      ensures old(TotalsTracked()) ==> TotalsTracked()
    {
      var found := IndexOf(InvestmentIds(investments), investmentId);
      if found.None? {
        return NotFound;
      }
      var k := found.value;
      var tx := Transaction(NextId(TransactionIds(transactions)), date, amount, investmentId, notes);
      NewTransactionKeepsLedgerConsistent(investments, transactions, k, tx);
      investments := investments[k := investments[k].(totalAmount := investments[k].totalAmount + amount)];
      transactions := transactions + [tx];
      status := Done;
    }

    /** `delete_investment`: the investment's transactions are deleted, then
        the investment; no other transaction and no holding changes, so a
        holding linked to it keeps a dangling `investmentId`. */
    method DeleteInvestment(id: nat) returns (status: Status)
      requires Valid()
      modifies this
      ensures Valid()
      ensures status == NotFound <==> id !in InvestmentIds(old(investments))
      ensures status == NotFound ==>
        investments == old(investments) && transactions == old(transactions)
      ensures status == Done ==>
        investments == RemoveAt(old(investments), IndexOf(InvestmentIds(old(investments)), id).value) &&
        transactions == WithoutInvestment(old(transactions), id)
      ensures forall t | t in transactions :: t.investmentId != id
      ensures portfolios == old(portfolios)
      ensures investmentSnapshots == old(investmentSnapshots) && accountSnapshots == old(accountSnapshots)
      ensures old(TotalsTracked()) ==> TotalsTracked()
    {
      var found := IndexOf(InvestmentIds(investments), id);
      if found.None? {
        return NotFound;
      }
      var k := found.value;
      DeleteKeepsLedgerConsistent(investments, transactions, k);
      transactions := WithoutInvestment(transactions, id);
      investments := RemoveAt(investments, k);
      status := Done;
    }

    /** `update_actual_amount`: only the investment's actual amount changes. */
    method UpdateActualAmount(id: nat, actual: real) returns (status: Status)
      requires Valid()
      modifies this
      ensures Valid()
      ensures status == NotFound <==> id !in InvestmentIds(old(investments))
      ensures status == NotFound ==> investments == old(investments)
      ensures status == Done ==>
        var k := IndexOf(InvestmentIds(old(investments)), id).value;
        investments == old(investments)[k := old(investments)[k].(actualAmount := actual)]
      ensures transactions == old(transactions) && portfolios == old(portfolios)
      ensures investmentSnapshots == old(investmentSnapshots) && accountSnapshots == old(accountSnapshots)
      ensures old(TotalsTracked()) ==> TotalsTracked()
    {
      var found := IndexOf(InvestmentIds(investments), id);
      if found.None? {
        return NotFound;
      }
      var k := found.value;
      investments := investments[k := investments[k].(actualAmount := actual)];
      assert InvestmentIds(investments) == InvestmentIds(old(investments));
      status := Done;
    }

    /** `add_portfolio` POST: a holding without a latest price is appended. */
    method AddHolding(symbol: Symbol, shares: real, averagePrice: real, account: string,
                      investmentId: Option<nat>) returns (id: nat)
      requires Valid()
      modifies this
      ensures Valid()
      ensures id == NextId(HoldingIds(old(portfolios)))
      ensures portfolios == old(portfolios) + [Holding(id, symbol, shares, averagePrice, None, account, investmentId)]
      ensures investments == old(investments) && transactions == old(transactions)
      ensures investmentSnapshots == old(investmentSnapshots) && accountSnapshots == old(accountSnapshots)
      ensures old(TotalsTracked()) ==> TotalsTracked()
    {
      id := NextId(HoldingIds(portfolios));
      var h := Holding(id, symbol, shares, averagePrice, None, account, investmentId);
      AppendFreshId(HoldingIds(portfolios));
      assert HoldingIds(portfolios + [h]) == HoldingIds(portfolios) + [id];
      portfolios := portfolios + [h];
    }

    /** `delete_portfolio`: the holding with that id is removed. */
    method DeleteHolding(id: nat) returns (status: Status)
      requires Valid()
      modifies this
      ensures Valid()
      ensures status == NotFound <==> id !in HoldingIds(old(portfolios))
      ensures status == NotFound ==> portfolios == old(portfolios)
      ensures status == Done ==>
        portfolios == RemoveAt(old(portfolios), IndexOf(HoldingIds(old(portfolios)), id).value)
      ensures investments == old(investments) && transactions == old(transactions)
      ensures investmentSnapshots == old(investmentSnapshots) && accountSnapshots == old(accountSnapshots)
      ensures old(TotalsTracked()) ==> TotalsTracked()
    {
      var found := IndexOf(HoldingIds(portfolios), id);
      if found.None? {
        return NotFound;
      }
      var k := found.value;
      var oldIds := HoldingIds(portfolios);
      RemoveAtKeepsDistinct(oldIds, k);
      portfolios := RemoveAt(portfolios, k);
      assert HoldingIds(portfolios) == RemoveAt(oldIds, k);
      status := Done;
    }

    /** `update_market_value`: the account's NON-STOCK holding is created
        (one share, average and latest price both the value) when the account
        has none; otherwise the first one gets the value as its average and
        latest price and nothing else of it changes. */
    method UpdateMarketValue(account: string, value: real)
      requires Valid()
      modifies this
      ensures Valid()
      ensures FirstNonStock(old(portfolios), account).None? ==>
        portfolios == old(portfolios) +
          [Holding(NextId(HoldingIds(old(portfolios))), NonStock, 1.0, value, Some(value), account, None)]
      ensures FirstNonStock(old(portfolios), account).Some? ==>
        var k := FirstNonStock(old(portfolios), account).value;
        portfolios == old(portfolios)[k := old(portfolios)[k].(averagePrice := value, latestPrice := Some(value))]
      ensures investments == old(investments) && transactions == old(transactions)
      ensures investmentSnapshots == old(investmentSnapshots) && accountSnapshots == old(accountSnapshots)
      ensures old(TotalsTracked()) ==> TotalsTracked()
    {
      var found := FirstNonStock(portfolios, account);
      if found.None? {
        var h := Holding(NextId(HoldingIds(portfolios)), NonStock, 1.0, value, Some(value), account, None);
        AppendFreshId(HoldingIds(portfolios));
        assert HoldingIds(portfolios + [h]) == HoldingIds(portfolios) + [h.id];
        portfolios := portfolios + [h];
      } else {
        var k := found.value;
        portfolios := portfolios[k := portfolios[k].(averagePrice := value, latestPrice := Some(value))];
        assert HoldingIds(portfolios) == HoldingIds(old(portfolios));
      }
    }

    /** The refresh loop the investment, portfolio, price-update and my-stocks
        routes run: every holding in the pass gets the latest close of its
        symbol when there is a truthy one, and nothing else changes. */
    method RefreshLatestPrices(prices: seq<PriceRow>, includeNonStock: bool)
      requires Valid()
      modifies this
      ensures Valid()
      ensures |portfolios| == |old(portfolios)|
      ensures forall i | 0 <= i < |portfolios| :: portfolios[i] == Refreshed(old(portfolios)[i], prices, includeNonStock)
      ensures investments == old(investments) && transactions == old(transactions)
      ensures investmentSnapshots == old(investmentSnapshots) && accountSnapshots == old(accountSnapshots)
      ensures old(TotalsTracked()) ==> TotalsTracked()
    {
      var i := 0;
      while i < |portfolios|
        invariant 0 <= i <= |portfolios| == |old(portfolios)|
        invariant HoldingIds(portfolios) == HoldingIds(old(portfolios))
        invariant forall m | 0 <= m < i :: portfolios[m] == Refreshed(old(portfolios)[m], prices, includeNonStock)
        invariant forall m | i <= m < |portfolios| :: portfolios[m] == old(portfolios)[m]
        invariant investments == old(investments) && transactions == old(transactions)
        invariant investmentSnapshots == old(investmentSnapshots) && accountSnapshots == old(accountSnapshots)
      {
        var p := portfolios[i];
        if includeNonStock || p.symbol != NonStock {
          var latest := LatestClose(prices, p.symbol);
          if Truthy(latest) {
            portfolios := portfolios[i := p.(latestPrice := latest)];
          }
        }
        i := i + 1;
      }
    }

    /** `my_stocks`: the refresh over the holdings other than NON-STOCK, then
        the grouping of those holdings by symbol. */
    method MyStocks(prices: seq<PriceRow>) returns (groups: seq<SymbolGroup>)
      requires Valid()
      modifies this
      ensures Valid()
      ensures |portfolios| == |old(portfolios)|
      ensures forall i | 0 <= i < |portfolios| :: portfolios[i] == Refreshed(old(portfolios)[i], prices, false)
      ensures |groups| == |DistinctSymbols(StockHoldings(portfolios))|
      ensures forall g | 0 <= g < |groups| ::
        groups[g] == GroupOf(StockHoldings(portfolios), DistinctSymbols(StockHoldings(portfolios))[g])
      ensures investments == old(investments) && transactions == old(transactions)
      ensures investmentSnapshots == old(investmentSnapshots) && accountSnapshots == old(accountSnapshots)
    {
      RefreshLatestPrices(prices, false);
      groups := Aggregate(StockHoldings(portfolios));
    }

    /** `save_snapshot`: one portfolio snapshot is appended. */
    method SaveSnapshot(totalInvested: real, currentValue: real, profitLoss: real, profitLossPct: real,
                        now: Timestamp) returns (id: nat)
      requires Valid()
      modifies this
      ensures Valid()
      ensures id == NextId(InvestmentSnapshotIds(old(investmentSnapshots)))
      ensures investmentSnapshots == old(investmentSnapshots) +
        [InvestmentSnapshot(id, now, totalInvested, currentValue, profitLoss, profitLossPct)]
      ensures investments == old(investments) && transactions == old(transactions)
      ensures portfolios == old(portfolios) && accountSnapshots == old(accountSnapshots)
    {
      id := NextId(InvestmentSnapshotIds(investmentSnapshots));
      var s := InvestmentSnapshot(id, now, totalInvested, currentValue, profitLoss, profitLossPct);
      AppendFreshId(InvestmentSnapshotIds(investmentSnapshots));
      assert InvestmentSnapshotIds(investmentSnapshots + [s]) == InvestmentSnapshotIds(investmentSnapshots) + [id];
      investmentSnapshots := investmentSnapshots + [s];
    }

    /** `delete_snapshot`: the portfolio snapshot with that id is removed. */
    method DeleteSnapshot(id: nat) returns (status: Status)
      requires Valid()
      modifies this
      ensures Valid()
      ensures status == NotFound <==> id !in InvestmentSnapshotIds(old(investmentSnapshots))
      ensures status == NotFound ==> investmentSnapshots == old(investmentSnapshots)
      ensures status == Done ==>
        investmentSnapshots ==
          RemoveAt(old(investmentSnapshots), IndexOf(InvestmentSnapshotIds(old(investmentSnapshots)), id).value)
      ensures investments == old(investments) && transactions == old(transactions)
      ensures portfolios == old(portfolios) && accountSnapshots == old(accountSnapshots)
    {
      var found := IndexOf(InvestmentSnapshotIds(investmentSnapshots), id);
      if found.None? {
        return NotFound;
      }
      var k := found.value;
      var oldIds := InvestmentSnapshotIds(investmentSnapshots);
      RemoveAtKeepsDistinct(oldIds, k);
      investmentSnapshots := RemoveAt(investmentSnapshots, k);
      assert InvestmentSnapshotIds(investmentSnapshots) == RemoveAt(oldIds, k);
      status := Done;
    }

    /** `save_account_snapshot`: one account snapshot per posted entry, in
        order, all stamped with the time of the save; the count is returned. */
    method SaveAccountSnapshots(entries: seq<AccountEntry>, now: Timestamp) returns (saved: nat)
      requires Valid()
      modifies this
      ensures Valid()
      ensures saved == |entries|
      ensures |accountSnapshots| == |old(accountSnapshots)| + |entries|
      ensures accountSnapshots[..|old(accountSnapshots)|] == old(accountSnapshots)
      ensures forall k | 0 <= k < |entries| ::
        accountSnapshots[|old(accountSnapshots)| + k] ==
          AccountSnapshot(NextId(AccountSnapshotIds(old(accountSnapshots))) + k, now, entries[k])
      ensures investments == old(investments) && transactions == old(transactions)
      ensures portfolios == old(portfolios) && investmentSnapshots == old(investmentSnapshots)
    {
      var base := NextId(AccountSnapshotIds(accountSnapshots));
      var added := NewAccountSnapshots(entries, base, now);
      AppendAccountSnapshotsKeepsDistinct(accountSnapshots, added);
      saved := |added|;
      accountSnapshots := accountSnapshots + added;
    }

    /** `delete_account_snapshot`: the account snapshot with that id is removed. */
    method DeleteAccountSnapshot(id: nat) returns (status: Status)
      requires Valid()
      modifies this
      ensures Valid()
      ensures status == NotFound <==> id !in AccountSnapshotIds(old(accountSnapshots))
      ensures status == NotFound ==> accountSnapshots == old(accountSnapshots)
      ensures status == Done ==>
        accountSnapshots == RemoveAt(old(accountSnapshots), IndexOf(AccountSnapshotIds(old(accountSnapshots)), id).value)
      ensures investments == old(investments) && transactions == old(transactions)
      ensures portfolios == old(portfolios) && investmentSnapshots == old(investmentSnapshots)
    {
      var found := IndexOf(AccountSnapshotIds(accountSnapshots), id);
      if found.None? {
        return NotFound;
      }
      var k := found.value;
      var oldIds := AccountSnapshotIds(accountSnapshots);
      RemoveAtKeepsDistinct(oldIds, k);
      accountSnapshots := RemoveAt(accountSnapshots, k);
      assert AccountSnapshotIds(accountSnapshots) == RemoveAt(oldIds, k);
      status := Done;
    }

    /** `bulk_delete_account_snapshots`: the snapshots selected by the account
        and day filters (ANDed, an empty one ignored) are deleted and counted. */
    method BulkDeleteAccountSnapshots(account: string, day: string) returns (count: nat)
      requires Valid()
      modifies this
      ensures Valid()
      ensures accountSnapshots == Unselected(old(accountSnapshots), account, day)
      ensures count == SelectedCount(old(accountSnapshots), account, day)
      ensures count == |old(accountSnapshots)| - |accountSnapshots|
      ensures investments == old(investments) && transactions == old(transactions)
      ensures portfolios == old(portfolios) && investmentSnapshots == old(investmentSnapshots)
    {
      UnselectedKeepsDistinctIds(accountSnapshots, account, day);
      BulkDeleteAccounting(accountSnapshots, account, day);
      count := SelectedCount(accountSnapshots, account, day);
      accountSnapshots := Unselected(accountSnapshots, account, day);
    }
  }

  /** The first holding of the account whose symbol is NON-STOCK
      (`filter_by(account=..., symbol='NON-STOCK').first()`). */
  function FirstNonStock(ps: seq<Holding>, account: string): (r: Option<nat>)
    ensures r.None? <==> forall i | 0 <= i < |ps| :: !(ps[i].account == account && ps[i].symbol == NonStock)
    ensures r.Some? ==>
      r.value < |ps| && ps[r.value].account == account && ps[r.value].symbol == NonStock &&
      forall i | 0 <= i < r.value :: !(ps[i].account == account && ps[i].symbol == NonStock)
  {
    if ps == [] then None
    else if ps[0].account == account && ps[0].symbol == NonStock then Some(0)
    else match FirstNonStock(ps[1..], account)
      case None => None
      case Some(k) => Some(k + 1)
  }

  lemma {:induction false} UnselectedKeepsDistinctIds(snaps: seq<AccountSnapshot>, account: string, day: string)
    requires DistinctIds(AccountSnapshotIds(snaps))
    ensures DistinctIds(AccountSnapshotIds(Unselected(snaps, account, day)))
  {
    if snaps != [] {
      var rest := snaps[1..];
      assert AccountSnapshotIds(rest) == AccountSnapshotIds(snaps)[1..];
      UnselectedKeepsDistinctIds(rest, account, day);
      if !SnapshotSelected(snaps[0], account, day) {
        var r := Unselected(rest, account, day);
        var ids := AccountSnapshotIds([snaps[0]] + r);
        forall i, j | 0 <= i < j < |ids| ensures ids[i] != ids[j] {
          if i == 0 {
            assert ([snaps[0]] + r)[j] in rest;
            var m :| 0 <= m < |rest| && rest[m] == ([snaps[0]] + r)[j];
            assert AccountSnapshotIds(snaps)[m + 1] == rest[m].id;
          } else {
            assert ids[i] == AccountSnapshotIds(r)[i - 1] && ids[j] == AccountSnapshotIds(r)[j - 1];
          }
        }
      }
    }
  }
}
