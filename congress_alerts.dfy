/** The congressional-trade alert script: from the trade records embedded in the page to
    the email and the seen set it stores. */
module CongressAlerts {
  import opened Wrappers
  import Seqs
  import Text
  import Dates
  import Pipeline

  /** Smallest lower bound of the amount range that is reported. */
  const MIN_VALUE: int := 50000

  /** One trade as the page's embedded data gives it: field name to value. */
  type RawTrade = map<string, string>

  /** A trade as `fetch_trades` returns it; `id` is its identity key. */
  datatype Trade = Trade(id: string, name: string, party: string, state: string, ticker: string,
                         transaction: string, amount: string, filed: string)

  /** `t.get(field, "")`. */
  function Get(t: RawTrade, field: string): string
  {
    if field in t then t[field] else ""
  }

  // ---- fetch_trades ----

  /** The low end of an amount range such as `$50,001 - $100,000`: `$` and `,` removed,
      the text before the first `-`, stripped, read by `int()`; `None` where that raises. */
  function LowerBound(amount: string): Option<int>
  {
    Text.ParseInt(Text.Strip(Text.Split(Text.Remove(Text.Remove(amount, '$'), ','), '-')[0]))
  }

  /** The identity key `name|ticker|filed|transaction`. */
  function Key(name: string, ticker: string, filed: string, transaction: string): string
  {
    name + "|" + ticker + "|" + filed + "|" + transaction
  }

  /** The first identity field the record lacks, in the order the key reads them. */
  function MissingKeyField(t: RawTrade): Option<string>
  {
    if "name" !in t then Some("name")
    else if "ticker" !in t then Some("ticker")
    else if "filed" !in t then Some("filed")
    else if "transaction" !in t then Some("transaction")
    else None
  }

  /** The amount test a record must pass to be kept: an amount is present and non-empty,
      its lower bound reads as an integer, and that integer is at least `MIN_VALUE`. */
  predicate MeetsThreshold(t: RawTrade)
  {
    var amount := Get(t, "amount");
    amount != "" && LowerBound(amount).Some? && LowerBound(amount).value >= MIN_VALUE
  }

  /** The trade built from a record; missing fields other than the key's read as `""`. */
  function ToTrade(t: RawTrade): Trade
  {
    Trade(Key(Get(t, "name"), Get(t, "ticker"), Get(t, "filed"), Get(t, "transaction")),
          Get(t, "name"), Get(t, "party"), Get(t, "state"), Get(t, "ticker"),
          Get(t, "transaction"), Get(t, "amount"), Get(t, "filed"))
  }

  /** One pass of the record loop: skip (`continue`), raise, or append a trade. */
  function ExtractTrade(t: RawTrade): Result<Option<Trade>, Pipeline.FetchError>
  {
    var amount := Get(t, "amount");
    if amount == "" then Ok(None)
    else match LowerBound(amount)
      case None => Ok(None)
      case Some(low) =>
        if low < MIN_VALUE then Ok(None)
        else match MissingKeyField(t)
          case Some(field) => Err(Pipeline.MissingField(field))
          case None => Ok(Some(ToTrade(t)))
  }

  function Fetch(raws: seq<RawTrade>): Result<seq<Trade>, Pipeline.FetchError>
  {
    Pipeline.Collect(ExtractTrade, raws)
  }

  /** The record loop of `fetch_trades`. */
  method FetchTrades(raws: seq<RawTrade>) returns (r: Result<seq<Trade>, Pipeline.FetchError>)
    ensures r == Fetch(raws)
  {
    var trades := [];
    for i := 0 to |raws|
      invariant Pipeline.Collect(ExtractTrade, raws[..i]) == Ok(trades)
    {
      assert raws[..i + 1][..i] == raws[..i];
      var t := raws[i];
      var amount := Get(t, "amount");
      if amount == "" {
        continue;
      }
      var low := LowerBound(amount);
      if low.None? {
        continue;
      }
      if low.value < MIN_VALUE {
        continue;
      }
      var missing := MissingKeyField(t);
      if missing.Some? {
        Pipeline.CollectError(ExtractTrade, raws, i + 1);
        return Err(Pipeline.MissingField(missing.value));
      }
      trades := trades + [ToTrade(t)];
    }
    assert raws[..|raws|] == raws;
    return Ok(trades);
  }

  /** A record is skipped when it fails the amount test; one that passes raises when it
      lacks a key field and otherwise yields its trade. */
  lemma ExtractCases(t: RawTrade)
    ensures !MeetsThreshold(t) ==> ExtractTrade(t) == Ok(None)
    ensures MeetsThreshold(t) && MissingKeyField(t).Some? ==>
      ExtractTrade(t) == Err(Pipeline.MissingField(MissingKeyField(t).value))
    ensures MeetsThreshold(t) && MissingKeyField(t).None? ==> ExtractTrade(t) == Ok(Some(ToTrade(t)))
  {
  }

  /** The error a record that meets the threshold raises, if any. */
  function MissingError(t: RawTrade): Option<Pipeline.FetchError>
  {
    match MissingKeyField(t)
    case None => None
    case Some(field) => Some(Pipeline.MissingField(field))
  }

  lemma ExtractTradeExtracts()
    ensures Pipeline.Extracts(ExtractTrade, MeetsThreshold, MissingError, ToTrade)
  {
    forall t: RawTrade
      ensures ExtractTrade(t) == if !MeetsThreshold(t) then Ok(None)
                                 else if MissingError(t).Some? then Err(MissingError(t).value)
                                 else Ok(Some(ToTrade(t)))
    {
      ExtractCases(t);
    }
  }

  /** What `fetch_trades` returns: it raises exactly when a record that meets the threshold
      lacks a key field, naming that field; otherwise it returns, in order, the trade built
      from every record that meets the threshold. */
  lemma FetchContents(raws: seq<RawTrade>)
    ensures Fetch(raws).Ok?
        <==> forall t :: t in Seqs.Filter(MeetsThreshold, raws) ==> MissingKeyField(t).None?
    ensures Fetch(raws).Ok? ==> Fetch(raws).value == Seqs.Map(ToTrade, Seqs.Filter(MeetsThreshold, raws))
    ensures Fetch(raws).Err? ==>
      exists t :: t in Seqs.Filter(MeetsThreshold, raws) && MissingKeyField(t).Some?
                  && Fetch(raws).error == Pipeline.MissingField(MissingKeyField(t).value)
  {
    ExtractTradeExtracts();
    Pipeline.CollectContents(ExtractTrade, MeetsThreshold, MissingError, ToTrade, raws);
    if Fetch(raws).Ok? {
      assert forall t :: t in Seqs.Filter(MeetsThreshold, raws) ==> MissingError(t).None?;
    } else {
      var t :| t in Seqs.Filter(MeetsThreshold, raws) && MissingError(t) == Some(Fetch(raws).error);
      assert MissingKeyField(t).Some?;
    }
  }

  /** Every fetched trade's amount has a lower bound of at least `MIN_VALUE`, and its key
      is built from its own name, ticker, filing date and transaction. */
  lemma FetchedTradesQualify(raws: seq<RawTrade>, trades: seq<Trade>)
    requires Fetch(raws) == Ok(trades)
    ensures forall tr :: tr in trades ==>
      && LowerBound(tr.amount).Some? && LowerBound(tr.amount).value >= MIN_VALUE
      && tr.id == Key(tr.name, tr.ticker, tr.filed, tr.transaction)
  {
    FetchContents(raws);
    var kept := Seqs.Filter(MeetsThreshold, raws);
    Seqs.FilterMembers(MeetsThreshold, raws);
    forall tr | tr in trades
      ensures LowerBound(tr.amount).Some? && LowerBound(tr.amount).value >= MIN_VALUE
      ensures tr.id == Key(tr.name, tr.ticker, tr.filed, tr.transaction)
    {
      var i :| 0 <= i < |trades| && trades[i] == tr;
      assert kept[i] in kept;
    }
  }

  predicate AllDigits(s: string)
  {
    forall i :: 0 <= i < |s| ==> Text.IsDigit(s[i])
  }

  lemma RemoveDollars(a: string, b: string, rest: string)
    requires AllDigits(a) && AllDigits(b)
    ensures Text.Remove("$" + a + "," + b + " - " + rest, '$') == a + "," + b + " - " + Text.Remove(rest, '$')
  {
    var mid := a + "," + b + " - ";
    assert '$' !in mid by {
      assert forall i :: 0 <= i < |mid| ==> mid[i] != '$';
    }
    assert "$" + a + "," + b + " - " + rest == ['$'] + (mid + rest);
    Text.RemoveDrops(mid + rest, '$');
    Text.RemoveSkips(mid, rest, '$');
  }

  lemma RemoveCommas(a: string, b: string, rest: string)
    requires AllDigits(a) && AllDigits(b)
    ensures Text.Remove(a + "," + b + " - " + rest, ',') == a + b + " - " + Text.Remove(rest, ',')
  {
    var tail := b + " - ";
    assert ',' !in a by {
      assert forall i :: 0 <= i < |a| ==> a[i] != ',';
    }
    assert ',' !in tail by {
      assert forall i :: 0 <= i < |tail| ==> tail[i] != ',';
    }
    assert a + "," + b + " - " + rest == a + ([','] + (tail + rest));
    Text.RemoveSkips(a, [','] + (tail + rest), ',');
    Text.RemoveDrops(tail + rest, ',');
    Text.RemoveSkips(tail, rest, ',');
    assert a + (tail + Text.Remove(rest, ',')) == a + b + " - " + Text.Remove(rest, ',');
  }

  /** Removing `$` and `,` from `$<a>,<b> - <rest>` leaves the digits, a space, the dash
      and what follows. */
  lemma PlainAmount(a: string, b: string, rest: string)
    requires AllDigits(a) && AllDigits(b)
    ensures Text.Remove(Text.Remove("$" + a + "," + b + " - " + rest, '$'), ',')
         == (a + b + " ") + ['-'] + (" " + Text.Remove(Text.Remove(rest, '$'), ','))
  {
    RemoveDollars(a, b, rest);
    RemoveCommas(a, b, Text.Remove(rest, '$'));
  }

  lemma DigitRunOf(a: string, b: string)
    requires AllDigits(a) && AllDigits(b) && |a + b| > 0
    ensures Text.IsDigitRun(a + b) && '-' !in a + b + " "
  {
    var d := a + b;
    assert forall i :: 0 <= i < |d| ==> Text.IsDigit(d[i]);
    assert forall i :: 0 <= i < |d + " "| ==> (d + " ")[i] != '-';
  }

  /** For an amount `$<a>,<b> - <anything>` whose `a` and `b` are digits, not both
      empty, the lower bound is the integer the digits of `a` and `b` spell. */
  lemma LowerBoundOfRange(a: string, b: string, rest: string)
    requires AllDigits(a) && AllDigits(b) && |a + b| > 0
    ensures LowerBound("$" + a + "," + b + " - " + rest) == Some(Text.DigitsValue(a + b))
  {
    PlainAmount(a, b, rest);
    DigitRunOf(a, b);
    Text.SplitHead(a + b + " ", '-', " " + Text.Remove(Text.Remove(rest, '$'), ','));
    Text.StripDigitsSpace(a + b);
    Text.ParseDigitRun(a + b);
  }

  lemma ExampleDigits()
    ensures AllDigits("50") && AllDigits("001") && |"50" + "001"| > 0
    ensures Text.DigitsValue("50" + "001") == 50001
  {
    assert "50" + "001" == "50001";
    assert "50001"[..4] == "5000";
    assert "5000"[..3] == "500";
    assert "500"[..2] == "50";
    assert "50"[..1] == "5";
  }

  /** The amount `$50,001 - $100,000` has lower bound 50001. */
  lemma LowerBoundExample(amount: string)
    requires amount == "$" + "50" + "," + "001" + " - " + "$100,000"
    ensures LowerBound(amount) == Some(50001)
  {
    ExampleDigits();
    LowerBoundOfRange("50", "001", "$100,000");
  }

  /** Keys of records whose four key fields hold no `|` are equal only when the four
      fields are. */
  lemma KeyInjective(a1: string, a2: string, a3: string, a4: string, b1: string, b2: string, b3: string, b4: string)
    requires '|' !in a1 && '|' !in a2 && '|' !in a3 && '|' !in a4
    requires '|' !in b1 && '|' !in b2 && '|' !in b3 && '|' !in b4
    requires Key(a1, a2, a3, a4) == Key(b1, b2, b3, b4)
    ensures a1 == b1 && a2 == b2 && a3 == b3 && a4 == b4
  {
    Text.JoinFour('|', a1, a2, a3, a4);
    Text.JoinFour('|', b1, b2, b3, b4);
    Text.JoinInjective('|', [a1, a2, a3, a4], [b1, b2, b3, b4]);
  }

  /** The key is not escaped: a `|` inside a field lets two different trades share a key. */
  lemma KeyCollision(x: string, y: string, z: string, filed: string, transaction: string)
    ensures x + "|" + y != x
    ensures Key(x + "|" + y, z, filed, transaction) == Key(x, y + "|" + z, filed, transaction)
  {
    assert |x + "|" + y| > |x|;
  }

  // ---- main: recency filter ----

  /** The filing date as `datetime.strptime(t["filed"], "%Y-%m-%d")` reads it. */
  function FiledDate(t: Trade): Option<Dates.Date>
  {
    Dates.ParseIsoDate(t.filed)
  }

  function Id(t: Trade): string
  {
    t.id
  }

  // ---- send_email ----

  const SUBJECT_PREFIX: string := "New Congressional Trades \U{2265} $50,000 ("

  /** The block of one trade: five lines and a blank line. */
  function Block(t: Trade): string
  {
    t.name + " (" + t.party + " - " + t.state + ")\n"
    + "Ticker: " + t.ticker + "\n"
    + "Transaction: " + t.transaction + "\n"
    + "Amount: " + t.amount + "\n"
    + "Filed: " + t.filed + "\n\n"
  }

  function BlockLines(t: Trade): seq<string>
  {
    [t.name + " (" + t.party + " - " + t.state + ")", "Ticker: " + t.ticker,
     "Transaction: " + t.transaction, "Amount: " + t.amount, "Filed: " + t.filed, "", ""]
  }

  predicate SingleLineFields(t: Trade)
  {
    && '\n' !in t.name && '\n' !in t.party && '\n' !in t.state && '\n' !in t.ticker
    && '\n' !in t.transaction && '\n' !in t.amount && '\n' !in t.filed
  }

  function Compose(trades: seq<Trade>): Pipeline.Email
  {
    Pipeline.Compose(SUBJECT_PREFIX, Block, trades)
  }

  lemma BlockIsJoin(t: Trade)
    ensures Block(t) == Text.Join('\n', BlockLines(t))
  {
    Text.JoinFiveLinesAndBlank(t.name + " (" + t.party + " - " + t.state + ")", "Ticker: " + t.ticker,
                               "Transaction: " + t.transaction, "Amount: " + t.amount, "Filed: " + t.filed);
  }

  /** A block is its five lines and a blank line, each ended by a line break; with
      single-line fields, splitting it at line breaks gives those lines back. */
  lemma BlockLayout(t: Trade)
    requires SingleLineFields(t)
    ensures Text.Split(Block(t), '\n') == BlockLines(t)
    ensures Text.Count('\n', Block(t)) == 6
  {
    var ls := BlockLines(t);
    BlockIsJoin(t);
    assert forall k :: 0 <= k < |ls| ==> '\n' !in ls[k];
    Text.SplitJoin('\n', ls);
    Text.JoinSeparatorCount('\n', ls);
  }

  /** With single-line fields, the body has six line breaks per trade. */
  lemma BodyLineBreaks(trades: seq<Trade>)
    requires forall i :: 0 <= i < |trades| ==> SingleLineFields(trades[i])
    ensures Text.Count('\n', Compose(trades).body) == 6 * |trades|
  {
    forall i | 0 <= i < |trades| ensures Text.Count('\n', Block(trades[i])) == 6 {
      BlockLayout(trades[i]);
    }
    Pipeline.BodyLineBreaks(Block, trades, 6);
  }

  // ---- main ----

  /** One run of `main`, given the seen set loaded, the scraped records, the cutoff
      `datetime.now() - timedelta(days=7)` and whether `send_email` returns. */
  function RunSpec(seen: set<string>, raws: seq<RawTrade>, cutoff: Dates.DateTime, delivered: bool): Pipeline.Run
  {
    match Fetch(raws)
    case Err(e) => Pipeline.Run([], Pipeline.FetchFailed(e))
    case Ok(trades) =>
      var recent := Pipeline.Recent(trades, FiledDate, cutoff);
      Pipeline.Decide(recent, Id, seen, Compose(recent), delivered)
  }

  method Run(seen: set<string>, raws: seq<RawTrade>, cutoff: Dates.DateTime, delivered: bool)
    returns (run: Pipeline.Run)
    ensures run == RunSpec(seen, raws, cutoff, delivered)
  {
    var fetched := FetchTrades(raws);
    if fetched.Err? {
      return Pipeline.Run([], Pipeline.FetchFailed(fetched.error));
    }
    var recent := Pipeline.FilterRecent(fetched.value, FiledDate, cutoff);
    var unseen := Pipeline.Unseen(recent, Id, seen);
    if unseen == [] {
      return Pipeline.Run([], Pipeline.NoNewTrades);
    }
    var email := Pipeline.ComposeEmail(SUBJECT_PREFIX, Block, recent);
    if !delivered {
      return Pipeline.Run([Pipeline.SendEmail(email)], Pipeline.SendFailed);
    }
    var updated := Pipeline.MarkSeen(seen, unseen, Id);
    run := Pipeline.Run([Pipeline.SendEmail(email), Pipeline.SaveSeen(updated)],
                        Pipeline.Notified(|recent|, |unseen|));
  }

  /** When anything recent is unseen, the one email carries every recent trade, and the
      saved set is the loaded one plus exactly the unseen keys, saved after the email. */
  lemma RunEmailsAllRecent(seen: set<string>, raws: seq<RawTrade>, cutoff: Dates.DateTime, trades: seq<Trade>)
    requires Fetch(raws) == Ok(trades)
    ensures var recent := Pipeline.Recent(trades, FiledDate, cutoff);
      var unseen := Pipeline.Unseen(recent, Id, seen);
      unseen != [] ==>
        RunSpec(seen, raws, cutoff, true)
        == Pipeline.Run([Pipeline.SendEmail(Compose(recent)), Pipeline.SaveSeen(seen + Pipeline.Keys(unseen, Id))],
                        Pipeline.Notified(|recent|, |unseen|))
    ensures var recent := Pipeline.Recent(trades, FiledDate, cutoff);
      Pipeline.Unseen(recent, Id, seen) == [] <==> RunSpec(seen, raws, cutoff, true).effects == []
  {
    var recent := Pipeline.Recent(trades, FiledDate, cutoff);
    Pipeline.QuietExactlyWhenAllSeen(recent, Id, seen, Compose(recent), true);
    Seqs.FilterEmpty(t => Id(t) !in seen, recent);
  }

  /** A second run on the same records and cutoff, with the seen set the first run
      stored, sends nothing and saves nothing, unless the first run failed to send. */
  lemma RunIdempotent(seen: set<string>, raws: seq<RawTrade>, cutoff: Dates.DateTime, delivered: bool, delivered2: bool)
    requires RunSpec(seen, raws, cutoff, delivered).status != Pipeline.SendFailed
    ensures var seen2 := Pipeline.SeenAfter(seen, RunSpec(seen, raws, cutoff, delivered));
      RunSpec(seen2, raws, cutoff, delivered2).effects == []
  {
    if Fetch(raws).Ok? {
      var recent := Pipeline.Recent(Fetch(raws).value, FiledDate, cutoff);
      Pipeline.Idempotent(recent, Id, seen, Compose(recent), delivered, Compose(recent), delivered2);
    }
  }
}
