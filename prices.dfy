/** The price store (`stocks` table): daily OHLCV rows keyed by (symbol, date),
    replaced a whole day at a time by CSV uploads, and the two read paths over
    it: the latest close of a symbol and the latest day's quotes with their
    day-over-day change. */
module Prices {
  import opened Basics

  /** One row of `stocks`; `netFlow` is the nullable `nfb_nfs` column. */
  datatype PriceRow = PriceRow(
    symbol: Symbol,
    date: Date,
    open: real,
    high: real,
    low: real,
    close: real,
    volume: real,
    netFlow: Option<real>)

  /** The `UNIQUE(symbol, date)` constraint of the table. */
  predicate NoDuplicateKeys(rows: seq<PriceRow>) {
    forall i, j | 0 <= i < j < |rows| :: rows[i].symbol != rows[j].symbol || rows[i].date != rows[j].date
  }

  /** The distinct dates a file or table mentions. */
  function Dates(rows: seq<PriceRow>): set<Date> {
    set r | r in rows :: r.date
  }

  /** The row filters the store's queries use. */
  datatype Selector =
    | OutsideDates(dates: set<Date>)  // `date NOT IN (...)`: what a delete by dates keeps
    | OnDay(day: Date)                // `date = ?`
    | BeforeDay(bound: Date)          // `date < ?`

  predicate Matches(r: PriceRow, sel: Selector) {
    match sel
    case OutsideDates(ds) => r.date !in ds
    case OnDay(d) => r.date == d
    case BeforeDay(b) => r.date < b
  }

  /** The rows that satisfy `sel`, in table order. */
  function Select(rows: seq<PriceRow>, sel: Selector): (r: seq<PriceRow>)
    ensures forall x :: x in r <==> x in rows && Matches(x, sel)
    ensures |r| <= |rows|
  {
    if rows == [] then []
    else if Matches(rows[0], sel) then [rows[0]] + Select(rows[1..], sel)
    else Select(rows[1..], sel)
  }

  /** The stored table after an upload of `file` succeeds: every row whose date
      occurs in the file is deleted, whatever its symbol, then all the file's
      rows are appended. */
  function ReplaceByDate(table: seq<PriceRow>, file: seq<PriceRow>): seq<PriceRow> {
    Select(table, OutsideDates(Dates(file))) + file
  }

  lemma {:induction false} SelectConcat(a: seq<PriceRow>, b: seq<PriceRow>, sel: Selector)
    ensures Select(a + b, sel) == Select(a, sel) + Select(b, sel)
  {
    if a == [] {
      assert a + b == b;
    } else {
      assert (a + b)[0] == a[0];
      assert (a + b)[1..] == a[1..] + b;
      SelectConcat(a[1..], b, sel);
      if Matches(a[0], sel) {
        calc {
          Select(a + b, sel);
          [a[0]] + Select(a[1..] + b, sel);
          [a[0]] + (Select(a[1..], sel) + Select(b, sel));
          ([a[0]] + Select(a[1..], sel)) + Select(b, sel);
        }
      }
    }
  }

  lemma {:induction false} SelectAll(rows: seq<PriceRow>, sel: Selector)
    requires forall x | x in rows :: Matches(x, sel)
    ensures Select(rows, sel) == rows
  {
    if rows != [] {
      SelectAll(rows[1..], sel);
    }
  }

  lemma SelectNone(rows: seq<PriceRow>, sel: Selector)
    requires forall x | x in rows :: !Matches(x, sel)
    ensures Select(rows, sel) == []
  {
  }

  lemma {:induction false} NoDuplicateKeysCons(x: PriceRow, rows: seq<PriceRow>)
    ensures NoDuplicateKeys([x] + rows) <==>
      NoDuplicateKeys(rows) && forall y | y in rows :: y.symbol != x.symbol || y.date != x.date
  {
    var s := [x] + rows;
    assert s[1..] == rows;
    if NoDuplicateKeys(s) {
      forall y | y in rows ensures y.symbol != x.symbol || y.date != x.date {
        var j :| 0 <= j < |rows| && rows[j] == y;
        assert s[0] == x && s[j + 1] == y;
      }
      forall i, j | 0 <= i < j < |rows|
        ensures rows[i].symbol != rows[j].symbol || rows[i].date != rows[j].date
      {
        assert s[i + 1] == rows[i] && s[j + 1] == rows[j];
      }
    }
  }

  /** A filtered table keeps the uniqueness of its keys. */
  lemma {:induction false} SelectNoDuplicateKeys(rows: seq<PriceRow>, sel: Selector)
    requires NoDuplicateKeys(rows)
    ensures NoDuplicateKeys(Select(rows, sel))
  {
    if rows != [] {
      NoDuplicateKeysCons(rows[0], rows[1..]);
      assert [rows[0]] + rows[1..] == rows;
      SelectNoDuplicateKeys(rows[1..], sel);
      if Matches(rows[0], sel) {
        NoDuplicateKeysCons(rows[0], Select(rows[1..], sel));
      }
    }
  }

  /** Two tables with unique keys and no key in common concatenate to a table
      with unique keys, and a shared key means the concatenation has a duplicate. */
  lemma {:induction false} NoDuplicateKeysConcat(a: seq<PriceRow>, b: seq<PriceRow>)
    ensures NoDuplicateKeys(a + b) <==>
      NoDuplicateKeys(a) && NoDuplicateKeys(b) &&
      forall x, y | x in a && y in b :: x.symbol != y.symbol || x.date != y.date
  {
    if a == [] {
      assert a + b == b;
    } else {
      assert a + b == [a[0]] + (a[1..] + b);
      assert a == [a[0]] + a[1..];
      NoDuplicateKeysCons(a[0], a[1..] + b);
      NoDuplicateKeysCons(a[0], a[1..]);
      NoDuplicateKeysConcat(a[1..], b);
    }
  }

  /** After an upload the rows stored for each date present in the file are
      exactly the file's rows for that date, in the file's order, including for
      symbols the file does not mention. */
  lemma UploadReplacesFileDates(table: seq<PriceRow>, file: seq<PriceRow>, d: Date)
    requires d in Dates(file)
    ensures Select(ReplaceByDate(table, file), OnDay(d)) == Select(file, OnDay(d))
  {
    var kept := Select(table, OutsideDates(Dates(file)));
    SelectConcat(kept, file, OnDay(d));
    SelectNone(kept, OnDay(d));
  }

  /** An upload leaves the rows of every date absent from the file untouched. */
  lemma UploadKeepsOtherDates(table: seq<PriceRow>, file: seq<PriceRow>, d: Date)
    requires d !in Dates(file)
    ensures Select(ReplaceByDate(table, file), OnDay(d)) == Select(table, OnDay(d))
  {
    var ds := Dates(file);
    var kept := Select(table, OutsideDates(ds));
    SelectConcat(kept, file, OnDay(d));
    SelectNone(file, OnDay(d));
    DaySurvivesDelete(table, ds, d);
  }

  lemma {:induction false} DaySurvivesDelete(table: seq<PriceRow>, ds: set<Date>, d: Date)
    requires d !in ds
    ensures Select(Select(table, OutsideDates(ds)), OnDay(d)) == Select(table, OnDay(d))
  {
    if table != [] {
      DaySurvivesDelete(table[1..], ds, d);
    }
  }

  /** Uploading the same file twice gives the same table as uploading it once. */
  lemma UploadIdempotent(table: seq<PriceRow>, file: seq<PriceRow>)
    ensures ReplaceByDate(ReplaceByDate(table, file), file) == ReplaceByDate(table, file)
  {
    var ds := Dates(file);
    var sel := OutsideDates(ds);
    var kept := Select(table, sel);
    assert ReplaceByDate(table, file) == kept + file;
    SelectConcat(kept, file, sel);
    SelectAll(kept, sel);
    forall x | x in file ensures !Matches(x, sel) {
      assert x.date in ds;
    }
    SelectNone(file, sel);
    assert Select(kept + file, sel) == kept;
  }

  /** After the delete, no remaining row shares a key with a row of the file,
      so the insert can break `UNIQUE(symbol, date)` only through a duplicate
      inside the file itself: the upload succeeds exactly when the file has no
      duplicate key. */
  lemma InsertSucceedsIffFileUnique(table: seq<PriceRow>, file: seq<PriceRow>)
    requires NoDuplicateKeys(table)
    ensures NoDuplicateKeys(ReplaceByDate(table, file)) <==> NoDuplicateKeys(file)
  {
    var kept := Select(table, OutsideDates(Dates(file)));
    SelectNoDuplicateKeys(table, OutsideDates(Dates(file)));
    NoDuplicateKeysConcat(kept, file);
  }

  /** The row with the greatest date among the rows of `sym`
      (`ORDER BY date DESC LIMIT 1`), or None when the symbol has no row. */
  function LatestRow(rows: seq<PriceRow>, sym: Symbol): (r: Option<PriceRow>)
    ensures r.None? <==> forall x | x in rows :: x.symbol != sym
    ensures r.Some? ==>
      r.value in rows && r.value.symbol == sym &&
      forall x | x in rows && x.symbol == sym :: x.date <= r.value.date
  {
    if rows == [] then None
    else
      var rest := LatestRow(rows[1..], sym);
      if rows[0].symbol != sym then rest
      else if rest.Some? && rest.value.date > rows[0].date then rest
      else Some(rows[0])
  }

  /** In a table with unique keys the latest row of a symbol is THE row of that
      symbol whose date is not exceeded by any other of its rows. */
  lemma LatestRowIsUnique(rows: seq<PriceRow>, sym: Symbol, x: PriceRow)
    requires NoDuplicateKeys(rows)
    requires x in rows && x.symbol == sym
    requires forall y | y in rows && y.symbol == sym :: y.date <= x.date
    ensures LatestRow(rows, sym) == Some(x)
  {
    var r := LatestRow(rows, sym).value;
    var i :| 0 <= i < |rows| && rows[i] == r;
    var j :| 0 <= j < |rows| && rows[j] == x;
    assert i == j;
  }

  /** The latest close of a symbol, or None when the symbol has no row (the
      `COUNT(*) > 0` guard). */
  function LatestClose(rows: seq<PriceRow>, sym: Symbol): Option<real> {
    match LatestRow(rows, sym)
    case None => None
    case Some(r) => Some(r.close)
  }

  /** `MAX(date)` over the whole table, None on an empty table. */
  function MaxDate(rows: seq<PriceRow>): (m: Option<Date>)
    ensures m.None? <==> rows == []
    ensures m.Some? ==> m.value in Dates(rows) && forall x | x in rows :: x.date <= m.value
  {
    if rows == [] then None
    else
      var rest := MaxDate(rows[1..]);
      if rest.Some? && rest.value > rows[0].date then rest else Some(rows[0].date)
  }

  /** The close of the most recent row of `sym` strictly before `day`. */
  function PreviousClose(rows: seq<PriceRow>, sym: Symbol, day: Date): Option<real> {
    LatestClose(Select(rows, BeforeDay(day)), sym)
  }

  /** The previous close is absent exactly when the symbol has no row strictly
      before the day, and otherwise is the close of its latest such row. */
  lemma PreviousCloseSpec(rows: seq<PriceRow>, sym: Symbol, day: Date)
    ensures PreviousClose(rows, sym, day).None? <==>
      forall x | x in rows && x.symbol == sym :: x.date >= day
    ensures PreviousClose(rows, sym, day).Some? ==>
      exists p | p in rows && p.symbol == sym && p.date < day ::
        PreviousClose(rows, sym, day).value == p.close &&
        forall x | x in rows && x.symbol == sym && x.date < day :: x.date <= p.date
  {
    var before := Select(rows, BeforeDay(day));
    var lr := LatestRow(before, sym);
    if lr.Some? {
      var p := lr.value;
      assert p in rows && p.symbol == sym && p.date < day;
      forall x | x in rows && x.symbol == sym && x.date < day ensures x.date <= p.date {
        assert x in before;
      }
    }
  }

  /** The change percent of a close against the previous close: the relative
      change times 100 when the previous close exists and is non-zero, else 0. */
  function ChangePct(close: real, previous: Option<real>): real {
    if Truthy(previous) then (close - previous.value) / previous.value * 100.0 else 0.0
  }

  /** The change percent is the inverse of applying a percentage change: from a
      usable previous close and the change percent the close is recovered;
      without a usable previous close the change is 0. */
  lemma ChangePctInverse(close: real, previous: Option<real>)
    ensures Truthy(previous) ==>
      previous.value + previous.value * ChangePct(close, previous) / 100.0 == close
    ensures !Truthy(previous) ==> ChangePct(close, previous) == 0.0
  {
    if Truthy(previous) {
      var p := previous.value;
      var q := (close - p) / p;
      assert q * p == close - p;
      assert ChangePct(close, previous) == q * 100.0;
      assert p * (q * 100.0) / 100.0 == p * q;
    }
  }

  /** One record of the latest-day listing. */
  datatype Quote = Quote(row: PriceRow, previousClose: Option<real>, changePct: real)

  /** What the listing shows for a row of the latest day `day`. */
  function QuoteOf(rows: seq<PriceRow>, r: PriceRow, day: Date): Quote {
    var prev := PreviousClose(rows, r.symbol, day);
    Quote(r, prev, ChangePct(r.close, prev))
  }

  /** The loop over the rows of the latest day `latest`: each row's previous
      close is looked up and its change percent computed. */
  method QuotesOf(rows: seq<PriceRow>, day: seq<PriceRow>, latest: Date) returns (quotes: seq<Quote>)
    ensures |quotes| == |day|
    ensures forall i | 0 <= i < |day| :: quotes[i] == QuoteOf(rows, day[i], latest)
  {
    quotes := [];
    var i := 0;
    while i < |day|
      invariant 0 <= i <= |day|
      invariant |quotes| == i
      invariant forall k | 0 <= k < i :: quotes[k] == QuoteOf(rows, day[k], latest)
    {
      var previous := PreviousClose(rows, day[i].symbol, latest);
      quotes := quotes + [Quote(day[i], previous, ChangePct(day[i].close, previous))];
      i := i + 1;
    }
  }

  /** In a table with unique keys the latest day holds one row per symbol. */
  lemma OneRowPerSymbolOnDay(rows: seq<PriceRow>, d: Date)
    requires NoDuplicateKeys(rows)
    ensures var day := Select(rows, OnDay(d));
      forall i, j | 0 <= i < j < |day| :: day[i].symbol != day[j].symbol
  {
    var day := Select(rows, OnDay(d));
    SelectNoDuplicateKeys(rows, OnDay(d));
    forall i, j | 0 <= i < j < |day| ensures day[i].symbol != day[j].symbol {
      assert day[i] in day && day[j] in day;
    }
  }

  /** The ASCII case folding of `str.lower()`. */
  function LowerAscii(c: char): char {
    if 'A' <= c <= 'Z' then (c as int - 'A' as int + 'a' as int) as char else c
  }

  /** `filename.lower().endswith('.csv')`. */
  predicate IsCsvName(name: string) {
    |name| >= 4 &&
    name[|name| - 4] == '.' &&
    LowerAscii(name[|name| - 3]) == 'c' &&
    LowerAscii(name[|name| - 2]) == 's' &&
    LowerAscii(name[|name| - 1]) == 'v'
  }

  /** An uploaded file, its records already parsed with normalised dates. */
  datatype UploadFile = UploadFile(filename: string, records: seq<PriceRow>)

  /** What an upload request reports. */
  datatype UploadOutcome =
    | NoFilesSelected
    | Processed(files: nat, records: nat)

  /** The table after one file of a folder upload: a file that is not a CSV is
      skipped; otherwise the rows of its dates are deleted (and committed), and
      its rows are inserted unless that would break the key constraint. */
  function UploadStep(table: seq<PriceRow>, f: UploadFile): seq<PriceRow> {
    if !IsCsvName(f.filename) then table
    else if NoDuplicateKeys(f.records) then ReplaceByDate(table, f.records)
    else Select(table, OutsideDates(Dates(f.records)))
  }

  /** The table after the files of a folder are processed in order. */
  function UploadAll(table: seq<PriceRow>, files: seq<UploadFile>): seq<PriceRow> {
    if files == [] then table
    else UploadStep(UploadAll(table, files[..|files| - 1]), files[|files| - 1])
  }

  /** Whether one file of the folder counts as processed. */
  predicate Accepted(f: UploadFile) {
    IsCsvName(f.filename) && NoDuplicateKeys(f.records)
  }

  /** The number of processed files and their total number of records. */
  function AcceptedCount(files: seq<UploadFile>): nat {
    if files == [] then 0
    else AcceptedCount(files[..|files| - 1]) + (if Accepted(files[|files| - 1]) then 1 else 0)
  }

  function AcceptedRecords(files: seq<UploadFile>): nat {
    if files == [] then 0
    else
      var f := files[|files| - 1];
      AcceptedRecords(files[..|files| - 1]) + (if Accepted(f) then |f.records| else 0)
  }

  /** Uploading a folder of files whose names are CSV and whose records have
      no duplicate key leaves, for the dates of the last file, exactly its rows. */
  lemma LastFileWins(table: seq<PriceRow>, files: seq<UploadFile>, d: Date)
    requires files != [] && Accepted(files[|files| - 1])
    requires d in Dates(files[|files| - 1].records)
    ensures Select(UploadAll(table, files), OnDay(d)) == Select(files[|files| - 1].records, OnDay(d))
  {
    UploadReplacesFileDates(UploadAll(table, files[..|files| - 1]), files[|files| - 1].records, d);
  }

  /** The `stocks` table. */
  class PriceStore {
    var rows: seq<PriceRow>

    /** The table's `UNIQUE(symbol, date)` constraint. */
    ghost predicate Valid()
      reads this
    {
      NoDuplicateKeys(rows)
    }

    constructor ()
      ensures Valid() && rows == []
    {
      rows := [];
    }

    /** The replace-by-date upload of one parsed file. The delete is committed
        before the insert; the insert is rejected as a whole when it would
        break the key constraint, and then `ok` is false. */
    method UploadFile(file: seq<PriceRow>) returns (ok: bool)
      requires Valid()
      modifies this
      ensures Valid()
      ensures ok == NoDuplicateKeys(file)
      ensures ok ==> rows == ReplaceByDate(old(rows), file)
      ensures !ok ==> rows == Select(old(rows), OutsideDates(Dates(file)))
    {
      InsertSucceedsIffFileUnique(rows, file);
      SelectNoDuplicateKeys(rows, OutsideDates(Dates(file)));
      var uniqueDates := Dates(file);
      rows := Select(rows, OutsideDates(uniqueDates));
      ok := NoDuplicateKeys(rows + file);
      if ok {
        rows := rows + file;
      }
    }

    /** The upload of a folder: nothing happens when no file is selected;
        otherwise every file is processed in turn, a failing file being
        reported and skipped, and the processed files and their records are
        counted. */
    method UploadFolder(files: seq<UploadFile>) returns (outcome: UploadOutcome)
      requires Valid()
      modifies this
      ensures Valid()
      ensures outcome.NoFilesSelected? <==> files == [] || files[0].filename == ""
      ensures outcome.NoFilesSelected? ==> rows == old(rows)
      ensures outcome.Processed? ==>
        rows == UploadAll(old(rows), files) &&
        outcome.files == AcceptedCount(files) &&
        outcome.records == AcceptedRecords(files)
    {
      if files == [] || files[0].filename == "" {
        return NoFilesSelected;
      }
      var processed, total := 0, 0;
      var i := 0;
      while i < |files|
        invariant 0 <= i <= |files|
        invariant Valid()
        invariant rows == UploadAll(old(rows), files[..i])
        invariant processed == AcceptedCount(files[..i])
        invariant total == AcceptedRecords(files[..i])
      {
        var f := files[i];
        assert files[..i + 1][..i] == files[..i];
        if IsCsvName(f.filename) {
          var ok := UploadFile(f.records);
          if ok {
            processed := processed + 1;
            total := total + |f.records|;
          }
        }
        i := i + 1;
      }
      assert files[..i] == files;
      outcome := Processed(processed, total);
    }

    /** The latest close of a symbol. */
    method LatestCloseOf(sym: Symbol) returns (c: Option<real>)
      requires Valid()
      ensures c.None? <==> forall x | x in rows :: x.symbol != sym
      ensures c.Some? ==> exists x | x in rows && x.symbol == sym ::
        c.value == x.close && forall y | y in rows && y.symbol == sym :: y.date <= x.date
    {
      c := LatestClose(rows, sym);
    }

    /** The listing of the latest day: None on an empty table (the merge with an
        empty list of previous closes has no `symbol` column to join on);
        otherwise one quote per row dated at the table's greatest date, in table
        order, each with its previous close and change percent. */
    method LatestQuotes() returns (q: Option<seq<Quote>>)
      requires Valid()
      ensures q.None? <==> rows == []
      ensures q.Some? ==>
        var latest := MaxDate(rows).value;
        var day := Select(rows, OnDay(latest));
        |q.value| == |day| &&
        forall i | 0 <= i < |day| :: q.value[i] == QuoteOf(rows, day[i], latest)
    {
      var latestDate := MaxDate(rows);
      if latestDate.None? {
        return None;
      }
      var latest := latestDate.value;
      var quotes := QuotesOf(rows, Select(rows, OnDay(latest)), latest);
      q := Some(quotes);
    }
  }
}
