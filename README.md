# InvestMon in Dafny

InvestMon is a small Flask application that keeps two SQLite databases:

- a **price store** (`stocks`): daily OHLCV rows keyed by `(symbol, date)`, loaded from folders of CSV files;
- a **ledger** (`investments.db`): investments and their cash transactions, portfolio holdings (`Portfolio` rows) and two snapshot logs.

The table logic of the upload, price-listing, refresh, my-stocks and ledger-mutation routes is modelled with proved contracts. The other routes, and the templates and SQL plumbing, are listed under "## Left out".

The model has five modules:

- `Basics` (`basics.dfy`):
  - `Option`;
  - dates as integers ordered like the stored `YYYY-MM-DD` strings;
  - the `NON-STOCK` sentinel symbol;
  - Python truthiness of a nullable float (`None` and `0.0` are falsy).
- `Valuation` (`valuation.dfy`): a holding's total cost, market value and profit.
  - The market value falls back to the average price when the latest price is falsy.
- `Prices` (`prices.dfy`): the `stocks` table as a `PriceStore` class. It covers:
  - the replace-by-date folder upload;
  - the latest close of a symbol;
  - the latest day's listing with previous close and change percent.
- `Aggregation` (`aggregation.dfy`): the "my stocks" view.
  - Holdings other than `NON-STOCK` are grouped by symbol, and each group's shares, cost, market value and profit are summed.
  - A blended average price is guarded against zero shares.
  - The group's latest price is taken from the first holding with a usable one.
- `Ledger` (`ledger.dfy`): the ledger database as a `Store` class with one sequence per table.
  - Each method models one route: add, delete and update of investments, transactions, holdings and snapshots.
  - Also here: the latest-price refresh loop the routes share, and the get-or-create of the `NON-STOCK` valuation row.
  - It proves that `Valid()` (distinct ids per table, every transaction belongs to an existing investment) is preserved.
  - It proves that every operation except `add_investment` with a negative amount keeps the accumulator invariant. The invariant: each investment's `total_amount` equals the sum of its transactions' amounts.

Modelling conventions:

- Money, prices and share counts are `real`.
- Row ids follow SQLite's rule for an `INTEGER PRIMARY KEY`: one more than the largest id in use (`NextId`).
- `get_or_404` becomes the `NotFound` status, with the table unchanged.
- Clock readings (`datetime.now()`, `datetime.utcnow()`) are parameters.
- The price rows a refresh reads are a parameter `prices` of the ledger methods, since they live in the other database.
- Tables are sequences in row order. The queries behind the "first" rules have no `ORDER BY`: `.first()` in `update_market_value` (line 535, `FirstNonStock`), the search loop of `my_stocks` (line 724, `FirstLatestPrice`) and the grouping dictionary's insertion order (`DistinctSymbols`). They read rows in SQLite's rowid scan order. That order is the sequence order here because new rows are always appended with id max + 1 (`NextId`).

`add_investment` records an initial transaction only when the initial amount is positive (`investmon.py:434`). A negative initial amount therefore leaves `total_amount` out of step with the transactions, and `Ledger.Store.AddInvestment` states exactly that.

A file that repeats a `(symbol, date)` key is handled as the code handles it:

- the delete of its dates has already been committed (line 222);
- the insert then violates `UNIQUE(symbol, date)`;
- the error is caught and the file is reported and skipped.

So the model does not exclude such files by a precondition. `Prices.PriceStore.UploadFile` returns `ok = false` for them, and the table keeps only the delete.

## Model

| member | source | states |
|---|---|---|
| Valuation.PriceUsed | investmon.py:63-64 | definition: the cached latest price when it is truthy, otherwise the average price |
| Valuation.TotalCost | investmon.py:58-60 | definition: shares × average price |
| Valuation.MarketValue | investmon.py:62-64 | definition: shares × the price used |
| Valuation.Profit | investmon.py:66-68 | definition: market value − total cost |
| Valuation.ValuationCases | investmon.py:58-68 | with a truthy latest price the market value is shares × latest price and the profit is shares × (latest − average); otherwise the market value is the total cost and the profit is 0 |
| Valuation.ProfitSign | investmon.py:62-68 | for a positive number of shares, profit > 0 iff a truthy latest price exceeds the average price, and profit < 0 iff it is below it |
| Basics.Truthy | investmon.py:64 | definition: Python truthiness of a nullable float, false for `None` and `0.0`; also the tests at lines 157, 303 and 725 |
| Prices.NoDuplicateKeys | investmon.py:115 | definition: no two rows share both symbol and date, the `UNIQUE(symbol, date)` constraint |
| Prices.Dates | investmon.py:212 | definition: the set of dates occurring in the rows, `df['date'].unique()` |
| Prices.Select | investmon.py:218-221 | a `WHERE` filter keeps exactly the rows satisfying the predicate, in table order, and never more rows |
| Prices.ReplaceByDate | investmon.py:214-225 | definition: the rows whose date is not among the file's dates, in table order, followed by the file's rows |
| Prices.UploadReplacesFileDates | investmon.py:211-225 | after an upload, the rows stored for any date in the file are exactly the file's rows of that date, whatever symbols the table held for it |
| Prices.UploadKeepsOtherDates | investmon.py:214-225 | after an upload, the rows for a date absent from the file are those the table had before |
| Prices.UploadIdempotent | investmon.py:211-225 | uploading the same file twice yields the same table as uploading it once |
| Prices.InsertSucceedsIffFileUnique | investmon.py:214-225 | on a table with unique keys, the table after delete-then-insert has unique keys iff the file has no duplicate key, so only a file's own duplicates can make the insert fail |
| Prices.IsCsvName | investmon.py:192 | definition: the last four characters, ASCII letters folded to lower case, are `.csv`; this agrees with `lower().endswith('.csv')` because no other character lowers to `.`, `c`, `s` or `v` |
| Prices.UploadStep | investmon.py:192-232 | definition: a non-CSV file leaves the table; a file without duplicate keys replaces its dates; any other file leaves only the committed delete |
| Prices.UploadAll | investmon.py:191-232 | definition: the files applied by `UploadStep` one after another, in order |
| Prices.Accepted | investmon.py:192-228 | definition: a file is processed when its name is a CSV name and its insert succeeds |
| Prices.AcceptedCount | investmon.py:227 | definition: the number of processed files |
| Prices.AcceptedRecords | investmon.py:228 | definition: the total number of records of the processed files |
| Prices.PriceStore.UploadFile | investmon.py:211-225 | keeps `UNIQUE(symbol, date)`; reports success iff the file has no duplicate key; on success the table is the rows of other dates followed by the file; on failure the committed delete alone remains |
| Prices.PriceStore.UploadFolder | investmon.py:183-237 | no-file and empty-first-name requests change nothing; otherwise files are processed in order (non-CSV names skipped, failing files skipped after their delete), and the counts are the number of accepted files and their records |
| Prices.LastFileWins | investmon.py:191-225 | after a folder upload whose last file is accepted, the rows of that file's dates are exactly its rows |
| Prices.LatestRow | investmon.py:293-301 | absent iff the symbol has no row; otherwise a row of the symbol whose date no other row of the symbol exceeds |
| Prices.LatestRowIsUnique | investmon.py:293-301 | with unique keys, the latest row is the single row of the symbol at its greatest date |
| Prices.LatestClose | investmon.py:293-301 | definition: the close of `LatestRow`, absent when it is absent |
| Prices.PriceStore.LatestCloseOf | investmon.py:293-301 | absent exactly when the symbol has no row (the `COUNT(*) > 0` guard); otherwise the close of a row of the symbol with the greatest date |
| Prices.MaxDate | investmon.py:127 | `MAX(date)` is absent only on an empty table and otherwise is a stored date that no row exceeds |
| Prices.PreviousClose | investmon.py:139-148 | definition: the latest close of the symbol among the rows strictly before the day |
| Prices.PreviousCloseSpec | investmon.py:139-148 | the previous close is absent iff the symbol has no row strictly before the latest date; otherwise it is the close of its latest such row |
| Prices.ChangePct | investmon.py:155-160 | definition: (close − previous) / previous × 100 when the previous close is truthy, else 0 |
| Prices.ChangePctInverse | investmon.py:155-160 | with a truthy previous close, previous × (1 + change/100) recovers the close; with an absent or zero previous close the change is 0 |
| Prices.OneRowPerSymbolOnDay | investmon.py:129-135 | with unique keys the rows of one day carry distinct symbols |
| Prices.QuoteOf | investmon.py:149-160 | definition: a row of the latest day with its symbol's previous close and the change percent against it |
| Prices.QuotesOf | investmon.py:138-160 | one quote per row of the day, in order, each with that symbol's previous close and the guarded change percent |
| Prices.PriceStore.LatestQuotes | investmon.py:125-160 | absent on an empty table; otherwise one quote for each row dated at the table's greatest date, with its previous close and change percent |
| Aggregation.DistinctSymbols | investmon.py:699-709 | the group keys contain a symbol iff some holding has it, each once |
| Aggregation.StockHoldings | investmon.py:679 | the view's holdings are exactly the holdings whose symbol is not `NON-STOCK` |
| Aggregation.StockGroupKeys | investmon.py:679-709 | the view's keys are exactly the distinct symbols of the holdings other than `NON-STOCK` |
| Aggregation.Contribution | investmon.py:711-714 | definition: a holding adds its shares, total cost, market value and profit |
| Aggregation.TotalsOf | investmon.py:700-714 | definition: the sum of the contributions of the holdings of the symbol |
| Aggregation.GroupProfitIsGain | investmon.py:711-714 | each group's summed profit equals its summed market value minus its summed cost |
| Aggregation.GroupsPreserveTotals | investmon.py:699-714 | summed over all groups, shares, cost, market value and profit equal the sums over all holdings: nothing is lost or counted twice |
| Aggregation.FirstLatestPrice | investmon.py:723-729 | definition: the latest price of the first holding of the symbol with a truthy one, else 0 |
| Aggregation.AveragePrice | investmon.py:717-721 | definition: total cost / total shares when the shares are positive, else 0 |
| Aggregation.GroupOf | investmon.py:699-729 | definition: the group row of a symbol: its sums, the average price and the first truthy latest price |
| Aggregation.PricedAt | investmon.py:725 | definition: the holding has the symbol and a truthy latest price |
| Aggregation.FirstPricedWins | investmon.py:723-727 | the group's latest price is that of the first holding of the symbol, in list order, with a truthy latest price |
| Aggregation.NoPricedIsZero | investmon.py:728-729 | without such a holding the group's latest price is 0 |
| Aggregation.GroupTotals | investmon.py:699-714 | the grouping loop creates one entry per distinct symbol, in first-appearance order, holding the sums over that symbol's holdings |
| Aggregation.FindLatestPrice | investmon.py:723-729 | the `for … break … else` search returns the first truthy latest price of the symbol, and is non-zero iff such a holding exists |
| Aggregation.GroupRows | investmon.py:717-729 | each group row carries its symbol's sums, the guarded average price and the searched latest price |
| Aggregation.Aggregate | investmon.py:699-729 | one row per distinct symbol, in first-appearance order, each equal to the specified group of that symbol |
| Ledger.NextId | investmon.py:26 | a new row's id is positive and larger than every id in use |
| Ledger.IndexOf | investmon.py:476 | the lookup by id finds an index iff the id is in use, and the row at that index has the id |
| Ledger.AmountSum | investmon.py:503 | definition: the sum of the amounts of the transactions of one investment, which `total_amount` is meant to track |
| Ledger.WithoutInvestment | investmon.py:477 | the filtered delete keeps exactly the transactions of other investments |
| Ledger.AmountSumWithout | investmon.py:477 | deleting one investment's transactions leaves every other investment's transaction sum unchanged |
| Ledger.NewInvestmentKeepsLedgerConsistent | investmon.py:422-442 | creating an investment, with or without its initial transaction, keeps ids distinct and every transaction attached to an investment |
| Ledger.NewInvestmentKeepsTotals | investmon.py:427-442 | if totals tracked transaction sums before, they still do after a creation iff the initial transaction was recorded or the initial amount is 0 |
| Ledger.NewTransactionKeepsLedgerConsistent | investmon.py:496-506 | appending a transaction and growing its investment's total by the amount keeps ids distinct, transactions attached and totals tracking their sums |
| Ledger.DeleteKeepsLedgerConsistent | investmon.py:476-479 | deleting an investment with its transactions keeps ids distinct, transactions attached and the other totals tracking their sums |
| Ledger.Refreshed | investmon.py:292-305 | definition: a holding in the pass takes the latest close of its symbol when that close is truthy; any other holding is unchanged |
| Ledger.RefreshProperties | investmon.py:291-305 | the refresh changes only the latest price; a holding in the pass whose symbol's greatest-date row has a non-zero close gets that close; a holding outside the pass (the `symbol != 'NON-STOCK'` query) or without price rows is unchanged; a changed price is such a close; a second pass changes nothing |
| Ledger.RefreshedValuation | investmon.py:291-305 | after a refresh that found a truthy close, the holding's market value is shares × that close |
| Ledger.SnapshotSelected | investmon.py:403-406 | definition: the account filter, if non-empty, matches the account name, and the day filter, if non-empty, matches the snapshot's day |
| Ledger.SelectedCount | investmon.py:407 | definition: the number of snapshots the filters select |
| Ledger.Unselected | investmon.py:400-407 | the bulk delete keeps exactly the snapshots not matched by both non-empty filters |
| Ledger.BulkDeleteAccounting | investmon.py:400-409 | kept plus counted equals the snapshots there were; with both filters empty everything is deleted; when nothing matches nothing is deleted |
| Ledger.NewAccountSnapshots | investmon.py:349-361 | one row per posted entry, in order, with consecutive ids and the request's timestamp |
| Ledger.AppendAccountSnapshotsKeepsDistinct | investmon.py:349-362 | rows numbered consecutively from the next free id keep the table's ids distinct |
| Ledger.FirstNonStock | investmon.py:535 | finds an index iff the account has a `NON-STOCK` holding, and the index found is the first such holding's |
| Ledger.Store.AddInvestment | investmon.py:419-442 | appends the investment with total = actual = initial and profit 0; appends one "Initial investment" transaction of that amount iff initial > 0; totals keep tracking their sums iff initial ≥ 0 |
| Ledger.Store.AddTransaction | investmon.py:487-506 | unknown investment: nothing changes; otherwise the transaction is appended and only that investment's total grows, by exactly the amount |
| Ledger.Store.DeleteInvestment | investmon.py:476-479 | unknown id: nothing changes; otherwise the investment and exactly its transactions are removed, and holdings are untouched (links may dangle) |
| Ledger.Store.UpdateActualAmount | investmon.py:520-523 | unknown id: nothing changes; otherwise only that investment's actual amount is replaced |
| Ledger.Store.AddHolding | investmon.py:597-606 | appends a holding with a fresh id and no latest price; nothing else changes |
| Ledger.Store.DeleteHolding | investmon.py:648-652 | unknown id: nothing changes; otherwise exactly that holding is removed |
| Ledger.Store.UpdateMarketValue | investmon.py:535-550 | without a `NON-STOCK` holding for the account one is appended (1 share, average = latest = value); otherwise only the first one's average and latest prices become the value |
| Ledger.Store.RefreshLatestPrices | investmon.py:291-305 | every holding in the pass gets the latest close of its symbol when it is truthy; no other field or table changes |
| Ledger.Store.MyStocks | investmon.py:679-729 | the refresh over non-`NON-STOCK` holdings, then one row per distinct stock symbol equal to its specified group over the refreshed holdings |
| Ledger.Store.SaveSnapshot | investmon.py:314-323 | appends one portfolio snapshot with a fresh id and the given figures and time |
| Ledger.Store.DeleteSnapshot | investmon.py:339-342 | unknown id: nothing changes; otherwise exactly that snapshot is removed |
| Ledger.Store.SaveAccountSnapshots | investmon.py:346-363 | appends one account snapshot per entry, in order, with consecutive fresh ids and one timestamp, and reports how many were saved |
| Ledger.Store.DeleteAccountSnapshot | investmon.py:393-396 | unknown id: nothing changes; otherwise exactly that account snapshot is removed |
| Ledger.Store.BulkDeleteAccountSnapshots | investmon.py:400-409 | removes exactly the snapshots matched by the ANDed non-empty filters and returns how many were removed |

## Left out

- Flask routing, templates, `flash` messages, redirects, the filter query-string passthrough, the theme cookie (`set_theme`), `app.run` and the SSL setup: HTTP and presentation plumbing.
- SQL text, SQLAlchemy sessions and commits, and pandas frames: the tables are sequences updated once per route.
- The two separate commits of `add_investment` (lines 432 and 442): the method's steps are atomic here, so a failure between them is not modelled.
- CSV parsing: `pd.read_csv`, header lower-casing, the `nfb/nfs` rename, headerless detection and date normalisation. A file arrives as parsed records with normalised dates. A file that fails to parse is not representable; the code would skip it before its delete. Nor can a file that parses but fails at `to_sql` for another reason be expressed as `PriceRow` records: a column the table lacks, or an empty symbol or date cell that hits `NOT NULL`. For such a file the code keeps only the committed delete, as for a duplicate-key file.
- Float semantics: IEEE rounding in sums and products, and the `.round(2)` of the change percent. Arithmetic is exact `real`.
- NaN: pandas turns the `None` previous closes into NaN once they mix with numbers, and NaN is truthy. The model uses the guard as written on `None`.
- `close` is modelled as non-null although the column allows NULL.
- Prices.PriceStore.LatestQuotes: lists the latest day's rows in table order, not by `ORDER BY symbol`; the model has no string ordering.
- Prices.PriceStore.LatestQuotes: an empty table makes the merge with an empty frame fail; the model reports that as an absent result rather than a server error.
- Prices.PriceStore.UploadFile: the insert's all-or-nothing behaviour is assumed of `to_sql`.
- Clock readings are parameters. `SaveAccountSnapshots` gives every row of one request the same time, whereas each row's `utcnow` default may differ slightly.
- `datetime.now().date()` for the initial transaction is the parameter `today`.
- Form and JSON decoding errors (`float(...)`, `strptime`, a missing key) end a request with a server error; they are not modelled. `data.get('accounts', [])` is the `entries` parameter.
- `add_portfolio` upper-cases the symbol and maps an empty `investment_id` to NULL; the method takes the result of both as its arguments.
- `edit_investment` and `edit_portfolio`: field overwrites from a form, outside this model.
- `edit_portfolio` stores the raw `investment_id` string, which can be `''`; not modelled.
- The read-only listings are outside this model: `investments`, `portfolio` and `transactions` GET rendering, `investment_snapshots`, `account_snapshots`, `account_history`, the symbol dropdowns, and `symbol_detail`'s statistics and charts. Their refresh loops are modelled, by `Ledger.Store.RefreshLatestPrices`: all holdings for `investments` and `update_prices`; holdings other than `NON-STOCK` for `portfolio` and `my_stocks`.
- Ledger.Store.RefreshLatestPrices: the close is read from a `prices` parameter standing for the `stocks` table of the other database.
