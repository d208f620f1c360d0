/** The insider-purchase alert script: from the rows of the screener table to the email and
    the seen set it stores. */
module InsiderAlerts {
  import opened Wrappers
  import Seqs
  import Text
  import Dates
  import Pipeline

  /** One table row as the page gives it: the text of each of its cells, unstripped. */
  type RawRow = seq<string>

  /** A trade as `fetch_trades` returns it; `id` is its identity key. */
  datatype Trade = Trade(id: string, filed: string, ticker: string, company: string,
                         insider: string, value: string)

  // ---- fetch_trades ----

  /** The rows the loop visits: every row but the first, which is the header. */
  function DataRows(table: seq<RawRow>): (rows: seq<RawRow>)
    ensures table != [] ==> table == table[..1] + rows
    ensures table == [] ==> rows == []
  {
    if table == [] then [] else table[1..]
  }

  /** `[c.text.strip() for c in row.find_all("td")]`. */
  function Cells(row: RawRow): (cols: seq<string>)
    ensures |cols| == |row|
    ensures forall i :: 0 <= i < |row| ==> cols[i] == Text.Strip(row[i])
  {
    Seqs.Map(Text.Strip, row)
  }

  /** `cols[i]` where the row has that cell; only read where it does. */
  function Cell(cols: seq<string>, i: nat): string
  {
    if i < |cols| then cols[i] else ""
  }

  /** `cols[:6]`: the first six cells, or all of them when there are fewer. */
  function FirstSix(cols: seq<string>): (r: seq<string>)
    ensures |r| <= 6 && |r| <= |cols| && r == cols[..|r|]
    ensures |cols| >= 6 ==> |r| == 6
    ensures |cols| < 6 ==> r == cols
  {
    if |cols| <= 6 then cols else cols[..6]
  }

  /** The identity key `"|".join(cols[:6])`. */
  function Key(cols: seq<string>): string
  {
    Text.Join('|', FirstSix(cols))
  }

  /** The trade type test `cols[6].lower() == "purchase"`, on a row that has a seventh cell. */
  predicate IsPurchase(cols: seq<string>)
    requires |cols| > 6
  {
    Text.Lower(cols[6]) == "purchase"
  }

  /** A row the loop turns into a trade when it is long enough: a purchase. */
  predicate IsPurchaseRow(row: RawRow)
  {
    |row| > 6 && IsPurchase(Cells(row))
  }

  /** A row that does not get past the trade type test silently: too short to have a
      type, or a purchase. */
  predicate Considered(row: RawRow)
  {
    |row| <= 6 || IsPurchaseRow(row)
  }

  /** The `IndexError` a considered row raises: reading the type in cell 6, or the value
      in cell 11. */
  function CellError(row: RawRow): Option<Pipeline.FetchError>
  {
    if |row| <= 6 then Some(Pipeline.CellOutOfRange(6))
    else if |row| <= 11 then Some(Pipeline.CellOutOfRange(11))
    else None
  }

  /** The trade projected from the stripped cells of a row. */
  function ToTrade(row: RawRow): Trade
  {
    var cols := Cells(row);
    Trade(Key(cols), Cell(cols, 1), Cell(cols, 3), Cell(cols, 4), Cell(cols, 5), Cell(cols, 11))
  }

  /** One pass of the row loop: raise, skip (`continue`), or append a trade. */
  function ExtractRow(row: RawRow): Result<Option<Trade>, Pipeline.FetchError>
  {
    var cols := Cells(row);
    if |cols| <= 6 then Err(Pipeline.CellOutOfRange(6))
    else if !IsPurchase(cols) then Ok(None)
    else if |cols| <= 11 then Err(Pipeline.CellOutOfRange(11))
    else Ok(Some(ToTrade(row)))
  }

  function Fetch(table: seq<RawRow>): Result<seq<Trade>, Pipeline.FetchError>
  {
    Pipeline.Collect(ExtractRow, DataRows(table))
  }

  /** The body of the row loop of `fetch_trades`: strip the cells, test the trade type,
      build the trade. `Ok(None)` is the `continue`. It implements `ExtractRow` statement by
      statement; what a row yields is stated by `ExtractRowExtracts`, and what the whole
      loop returns by `FetchContents`. */
  method ReadRow(row: RawRow) returns (r: Result<Option<Trade>, Pipeline.FetchError>)
    ensures r == ExtractRow(row)
    ensures |row| <= 6 ==> r == Err(Pipeline.CellOutOfRange(6))
    ensures |row| > 6 && !IsPurchaseRow(row) ==> r == Ok(None)
    ensures IsPurchaseRow(row) && |row| <= 11 ==> r == Err(Pipeline.CellOutOfRange(11))
    ensures IsPurchaseRow(row) && |row| > 11 ==> r.Ok? && r.value.Some? && ProjectedFrom(r.value.value, row)
  {
    var cols := Cells(row);
    if |cols| <= 6 {
      return Err(Pipeline.CellOutOfRange(6));
    }
    var tradeType := cols[6];
    if Text.Lower(tradeType) != "purchase" {
      return Ok(None);
    }
    var id := Key(cols);
    if |cols| <= 11 {
      return Err(Pipeline.CellOutOfRange(11));
    }
    return Ok(Some(Trade(id, cols[1], cols[3], cols[4], cols[5], cols[11])));
  }

  /** The row loop of `fetch_trades`, skipping the header row. */
  method FetchTrades(table: seq<RawRow>) returns (r: Result<seq<Trade>, Pipeline.FetchError>)
    ensures r == Fetch(table)
  {
    var rows := DataRows(table);
    var trades := [];
    for i := 0 to |rows|
      invariant Pipeline.Collect(ExtractRow, rows[..i]) == Ok(trades)
    {
      Pipeline.CollectStep(ExtractRow, rows, i, trades);
      var step := ReadRow(rows[i]);
      match step {
        case Err(e) =>
          Pipeline.CollectError(ExtractRow, rows, i + 1);
          return Err(e);
        case Ok(None) =>
        case Ok(Some(t)) =>
          trades := trades + [t];
      }
    }
    assert rows[..|rows|] == rows;
    return Ok(trades);
  }

  lemma ExtractRowExtracts()
    ensures Pipeline.Extracts(ExtractRow, Considered, CellError, ToTrade)
  {
  }

  /** Rows the loop gets through without an `IndexError`: each has a seventh cell, and
      each purchase a twelfth. */
  predicate RowsComplete(rows: seq<RawRow>)
  {
    forall row :: row in rows ==> |row| > 6 && (IsPurchaseRow(row) ==> |row| > 11)
  }

  /** `row` is one whose processing raises `e`: it has no seventh cell and `e` is the
      `IndexError` for cell 6, or it is a purchase with no twelfth cell and `e` is the
      `IndexError` for cell 11. */
  predicate RaisesAt(row: RawRow, e: Pipeline.FetchError)
  {
    || (|row| <= 6 && e == Pipeline.CellOutOfRange(6))
    || (IsPurchaseRow(row) && |row| <= 11 && e == Pipeline.CellOutOfRange(11))
  }

  lemma CellErrorRaises(row: RawRow, e: Pipeline.FetchError)
    requires Considered(row) && CellError(row) == Some(e)
    ensures RaisesAt(row, e)
  {
  }

  lemma CompleteIffNoCellError(rows: seq<RawRow>)
    ensures RowsComplete(rows) <==>
      forall row :: row in Seqs.Filter(Considered, rows) ==> CellError(row).None?
  {
    Seqs.FilterMembers(Considered, rows);
  }

  lemma CompleteKeepsPurchases(rows: seq<RawRow>)
    requires RowsComplete(rows)
    ensures Seqs.Filter(Considered, rows) == Seqs.Filter(IsPurchaseRow, rows)
  {
    Seqs.FilterSame(Considered, IsPurchaseRow, rows);
  }

  /** What `fetch_trades` returns: it raises exactly when a data row has no seventh cell,
      or a purchase row has no twelfth; otherwise it returns, in order, the trade projected
      from every purchase row. The header row plays no part. */
  lemma FetchContents(table: seq<RawRow>)
    ensures Fetch(table).Ok? <==> RowsComplete(DataRows(table))
    ensures Fetch(table).Ok? ==>
      Fetch(table).value == Seqs.Map(ToTrade, Seqs.Filter(IsPurchaseRow, DataRows(table)))
    ensures Fetch(table).Err? ==> exists row :: row in DataRows(table) && RaisesAt(row, Fetch(table).error)
  {
    var rows := DataRows(table);
    ExtractRowExtracts();
    Pipeline.CollectContents(ExtractRow, Considered, CellError, ToTrade, rows);
    CompleteIffNoCellError(rows);
    if Fetch(table).Ok? {
      CompleteKeepsPurchases(rows);
    } else {
      Seqs.FilterMembers(Considered, rows);
      var row :| row in Seqs.Filter(Considered, rows) && CellError(row) == Some(Fetch(table).error);
      CellErrorRaises(row, Fetch(table).error);
      assert row in rows;
    }
  }

  /** `t` is the trade the source builds from the stripped cells of `row`: the first six
      joined by `|`, then cells 1, 3, 4, 5 and 11. */
  predicate ProjectedFrom(t: Trade, row: RawRow)
    requires |row| >= 12
  {
    var cols := Cells(row);
    t == Trade(Text.Join('|', cols[..6]), cols[1], cols[3], cols[4], cols[5], cols[11])
  }

  lemma ToTradeProjects(row: RawRow)
    requires |row| >= 12
    ensures ProjectedFrom(ToTrade(row), row)
  {
    assert Cells(row)[..6] == FirstSix(Cells(row));
  }

  /** Every fetched trade comes from a purchase row of at least twelve cells: its key is
      the first six stripped cells joined by `|`, and its fields are cells 1, 3, 4, 5 and 11. */
  lemma FetchedTradesProject(table: seq<RawRow>, trades: seq<Trade>)
    requires Fetch(table) == Ok(trades)
    ensures forall t :: t in trades ==>
      exists row :: row in DataRows(table) && IsPurchaseRow(row) && |row| >= 12 && ProjectedFrom(t, row)
  {
    FetchContents(table);
    var kept := Seqs.Filter(IsPurchaseRow, DataRows(table));
    Seqs.FilterMembers(IsPurchaseRow, DataRows(table));
    assert trades == Seqs.Map(ToTrade, kept);
    forall t | t in trades
      ensures exists row :: row in DataRows(table) && IsPurchaseRow(row) && |row| >= 12 && ProjectedFrom(t, row)
    {
      var i :| 0 <= i < |trades| && trades[i] == t;
      var row := kept[i];
      assert row in kept;
      assert t == ToTrade(row);
      ToTradeProjects(row);
    }
  }

  /** The first row of the table is never read. */
  lemma HeaderIgnored(h1: RawRow, h2: RawRow, rows: seq<RawRow>)
    ensures Fetch([h1] + rows) == Fetch([h2] + rows)
  {
    assert DataRows([h1] + rows) == rows;
    assert DataRows([h2] + rows) == rows;
  }

  /** The trade type test is case-blind and exact: it holds when cell 6 spells `purchase`
      in any mix of cases, and fails for any other text, such as `P - Purchase`. */
  lemma PurchaseAnyCase(c: string)
    ensures Text.Lower(c) == "purchase" <==>
      |c| == 8 && forall i :: 0 <= i < 8 ==> c[i] == "purchase"[i] || c[i] == "PURCHASE"[i]
  {
    if |c| == 8 && forall i :: 0 <= i < 8 ==> c[i] == "purchase"[i] || c[i] == "PURCHASE"[i] {
      assert forall i :: 0 <= i < 8 ==> Text.LowerChar(c[i]) == "purchase"[i];
    }
    if Text.Lower(c) == "purchase" {
      forall i | 0 <= i < 8
        ensures c[i] == "purchase"[i] || c[i] == "PURCHASE"[i]
      {
        assert Text.LowerChar(c[i]) == "purchase"[i];
      }
    }
  }

  /** The key reads only the first six cells: rows equal in those get equal keys, whatever
      their trade type, value or any later cell. */
  lemma KeyIgnoresLaterCells(a: seq<string>, b: seq<string>)
    requires |a| >= 6 && |b| >= 6 && a[..6] == b[..6]
    ensures Key(a) == Key(b)
  {
    assert FirstSix(a) == a[..6];
    assert FirstSix(b) == b[..6];
  }

  /** Keys of rows whose first six cells hold no `|` are equal only when those cells are. */
  lemma KeyInjective(a: seq<string>, b: seq<string>)
    requires |a| >= 6 && |b| >= 6
    requires forall k :: 0 <= k < 6 ==> '|' !in a[k] && '|' !in b[k]
    requires Key(a) == Key(b)
    ensures a[..6] == b[..6]
  {
    Text.JoinInjective('|', a[..6], b[..6]);
  }

  /** The key is not escaped: a `|` inside a cell lets two different rows share a key. */
  lemma KeyCollision(x: string, y: string, z: string, rest: seq<string>)
    requires |rest| == 4
    ensures [x + "|" + y, z] + rest != [x, y + "|" + z] + rest
    ensures Key([x + "|" + y, z] + rest) == Key([x, y + "|" + z] + rest)
  {
    var a := [x + "|" + y, z] + rest;
    var b := [x, y + "|" + z] + rest;
    assert a[0] != b[0] by { assert |a[0]| > |b[0]|; }
    assert FirstSix(a) == a && FirstSix(b) == b;
    assert a == [x + "|" + y] + ([z] + rest);
    Text.JoinCons('|', x + "|" + y, [z] + rest);
    Text.JoinCons('|', z, rest);
    assert b == [x] + ([y + "|" + z] + rest);
    Text.JoinCons('|', x, [y + "|" + z] + rest);
    Text.JoinCons('|', y + "|" + z, rest);
  }

  // ---- main: recency filter ----

  /** The filing date as `datetime.strptime(t["filed"], "%m/%d/%Y")` reads it. */
  function FiledDate(t: Trade): Option<Dates.Date>
  {
    Dates.ParseUsDate(t.filed)
  }

  function Id(t: Trade): string
  {
    t.id
  }

  // ---- send_email ----

  const SUBJECT_PREFIX: string := "Insider Purchases Filed in Last 7 Days ("

  /** The block of one trade: four lines and a blank line. */
  function Block(t: Trade): string
  {
    t.ticker + " | " + t.company + "\n"
    + "Insider: " + t.insider + "\n"
    + "Value: " + t.value + "\n"
    + "Filed: " + t.filed + "\n\n"
  }

  function BlockLines(t: Trade): seq<string>
  {
    [t.ticker + " | " + t.company, "Insider: " + t.insider, "Value: " + t.value,
     "Filed: " + t.filed, "", ""]
  }

  predicate SingleLineFields(t: Trade)
  {
    '\n' !in t.ticker && '\n' !in t.company && '\n' !in t.insider && '\n' !in t.value && '\n' !in t.filed
  }

  function Compose(trades: seq<Trade>): Pipeline.Email
  {
    Pipeline.Compose(SUBJECT_PREFIX, Block, trades)
  }

  lemma BlockIsJoin(t: Trade)
    ensures Block(t) == Text.Join('\n', BlockLines(t))
  {
    Text.JoinFourLinesAndBlank(t.ticker + " | " + t.company, "Insider: " + t.insider, "Value: " + t.value,
                               "Filed: " + t.filed);
  }

  /** A block is its four lines and a blank line, each ended by a line break; with
      single-line fields, splitting it at line breaks gives those lines back. */
  lemma BlockLayout(t: Trade)
    requires SingleLineFields(t)
    ensures Text.Split(Block(t), '\n') == BlockLines(t)
    ensures Text.Count('\n', Block(t)) == 5
  {
    var ls := BlockLines(t);
    BlockIsJoin(t);
    assert forall k :: 0 <= k < |ls| ==> '\n' !in ls[k];
    Text.SplitJoin('\n', ls);
    Text.JoinSeparatorCount('\n', ls);
  }

  /** With single-line fields, the body has five line breaks per trade. */
  lemma BodyLineBreaks(trades: seq<Trade>)
    requires forall i :: 0 <= i < |trades| ==> SingleLineFields(trades[i])
    ensures Text.Count('\n', Compose(trades).body) == 5 * |trades|
  {
    forall i | 0 <= i < |trades| ensures Text.Count('\n', Block(trades[i])) == 5 {
      BlockLayout(trades[i]);
    }
    Pipeline.BodyLineBreaks(Block, trades, 5);
  }

  // ---- main ----

  /** One run of `main`, given the seen set loaded, the scraped table, the cutoff
      `datetime.now() - timedelta(days=7)` and whether `send_email` returns. */
  function RunSpec(seen: set<string>, table: seq<RawRow>, cutoff: Dates.DateTime, delivered: bool): Pipeline.Run
  {
    match Fetch(table)
    case Err(e) => Pipeline.Run([], Pipeline.FetchFailed(e))
    case Ok(trades) =>
      var recent := Pipeline.Recent(trades, FiledDate, cutoff);
      Pipeline.Decide(recent, Id, seen, Compose(recent), delivered)
  }

  method Run(seen: set<string>, table: seq<RawRow>, cutoff: Dates.DateTime, delivered: bool)
    returns (run: Pipeline.Run)
    ensures run == RunSpec(seen, table, cutoff, delivered)
  {
    var fetched := FetchTrades(table);
    if fetched.Err? {
      return Pipeline.Run([], Pipeline.FetchFailed(fetched.error));
    }
    var lastWeek := Pipeline.FilterRecent(fetched.value, FiledDate, cutoff);
    var unseen := Pipeline.Unseen(lastWeek, Id, seen);
    if unseen == [] {
      return Pipeline.Run([], Pipeline.NoNewTrades);
    }
    var email := Pipeline.ComposeEmail(SUBJECT_PREFIX, Block, lastWeek);
    if !delivered {
      return Pipeline.Run([Pipeline.SendEmail(email)], Pipeline.SendFailed);
    }
    var updated := Pipeline.MarkSeen(seen, unseen, Id);
    run := Pipeline.Run([Pipeline.SendEmail(email), Pipeline.SaveSeen(updated)],
                        Pipeline.Notified(|lastWeek|, |unseen|));
  }

  /** When any trade of the last week is unseen, the one email carries every trade of the
      last week, and the saved set is the loaded one plus exactly the unseen keys, saved
      after the email; when none is unseen, nothing is sent or saved. */
  lemma RunEmailsAllRecent(seen: set<string>, table: seq<RawRow>, cutoff: Dates.DateTime, trades: seq<Trade>)
    requires Fetch(table) == Ok(trades)
    ensures var lastWeek := Pipeline.Recent(trades, FiledDate, cutoff);
      var unseen := Pipeline.Unseen(lastWeek, Id, seen);
      unseen != [] ==>
        RunSpec(seen, table, cutoff, true)
        == Pipeline.Run([Pipeline.SendEmail(Compose(lastWeek)), Pipeline.SaveSeen(seen + Pipeline.Keys(unseen, Id))],
                        Pipeline.Notified(|lastWeek|, |unseen|))
    ensures var lastWeek := Pipeline.Recent(trades, FiledDate, cutoff);
      Pipeline.Unseen(lastWeek, Id, seen) == [] <==> RunSpec(seen, table, cutoff, true).effects == []
  {
    var lastWeek := Pipeline.Recent(trades, FiledDate, cutoff);
    Pipeline.QuietExactlyWhenAllSeen(lastWeek, Id, seen, Compose(lastWeek), true);
    Seqs.FilterEmpty(t => Id(t) !in seen, lastWeek);
  }

  /** A second run on the same table and cutoff, with the seen set the first run stored,
      sends nothing and saves nothing, unless the first run failed to send. */
  lemma RunIdempotent(seen: set<string>, table: seq<RawRow>, cutoff: Dates.DateTime, delivered: bool, delivered2: bool)
    requires RunSpec(seen, table, cutoff, delivered).status != Pipeline.SendFailed
    ensures var seen2 := Pipeline.SeenAfter(seen, RunSpec(seen, table, cutoff, delivered));
      RunSpec(seen2, table, cutoff, delivered2).effects == []
  {
    if Fetch(table).Ok? {
      var lastWeek := Pipeline.Recent(Fetch(table).value, FiledDate, cutoff);
      Pipeline.Idempotent(lastWeek, Id, seen, Compose(lastWeek), delivered, Compose(lastWeek), delivered2);
    }
  }
}
