/** The change-detection step both alert scripts share: collect the scraped records, keep
    those filed since the cutoff, split them into seen and unseen by identity key, and, when
    anything is unseen, email all recent records and then save the grown seen set. */
module Pipeline {
  import opened Wrappers
  import Seqs
  import Dates
  import Text

  /** What makes `fetch_trades` raise on a scraped record: a `KeyError` for a missing
      field, an `IndexError` for a missing table cell. */
  datatype FetchError = MissingField(field: string) | CellOutOfRange(index: nat)

  datatype Email = Email(subject: string, body: string)

  /** The outward effects of a run, in the order they happen. `SendEmail` is the call of
      `send_email`, an attempt: when that call raises, no message may have left at all. */
  datatype Effect = SendEmail(email: Email) | SaveSeen(keys: set<string>)

  /** How a run ends: the two printed outcomes, or the exception that ends it. */
  datatype Status =
    | NoNewTrades
    | Notified(emailed: nat, unseen: nat)
    | FetchFailed(error: FetchError)
    | SendFailed

  datatype Run = Run(effects: seq<Effect>, status: Status)

  // ---- fetch_trades: one extraction step per scraped record ----

  /** The records `fetch_trades` returns when every record is extracted in order: a
      record yields a trade, is skipped (`continue`), or raises, which ends the fetch. */
  function Collect<R, T>(extract: R -> Result<Option<T>, FetchError>, raws: seq<R>): Result<seq<T>, FetchError>
    decreases |raws|
  {
    if raws == [] then Ok([])
    else match Collect(extract, raws[..|raws| - 1])
      case Err(e) => Err(e)
      case Ok(trades) =>
        match extract(raws[|raws| - 1])
        case Err(e) => Err(e)
        case Ok(None) => Ok(trades)
        case Ok(Some(t)) => Ok(trades + [t])
  }

  /** One more step of the fold after a prefix that succeeded. */
  lemma CollectStep<R, T>(extract: R -> Result<Option<T>, FetchError>, raws: seq<R>, i: nat, acc: seq<T>)
    requires i < |raws| && Collect(extract, raws[..i]) == Ok(acc)
    ensures extract(raws[i]).Err? ==> Collect(extract, raws[..i + 1]) == Err(extract(raws[i]).error)
    ensures extract(raws[i]) == Ok(None) ==> Collect(extract, raws[..i + 1]) == Ok(acc)
    ensures forall t :: extract(raws[i]) == Ok(Some(t)) ==> Collect(extract, raws[..i + 1]) == Ok(acc + [t])
  {
    assert raws[..i + 1][..i] == raws[..i];
  }

  /** The first record that raises decides the outcome: later records do not matter. */
  lemma {:induction false} CollectError<R, T>(extract: R -> Result<Option<T>, FetchError>, raws: seq<R>, i: nat)
    requires i <= |raws|
    requires Collect(extract, raws[..i]).Err?
    ensures Collect(extract, raws) == Collect(extract, raws[..i])
    decreases |raws| - i
  {
    if i < |raws| {
      assert raws[..i + 1][..i] == raws[..i];
      CollectError(extract, raws, i + 1);
    } else {
      assert raws[..i] == raws;
    }
  }

  /** `extract` skips the records `keep` rejects; of the others it raises `fail(r)` where
      that is given and otherwise yields `build(r)`. */
  ghost predicate Extracts<R(!new), T>(extract: R -> Result<Option<T>, FetchError>, keep: R -> bool,
                                 fail: R -> Option<FetchError>, build: R -> T)
  {
    forall r :: extract(r) == if !keep(r) then Ok(None)
                              else if fail(r).Some? then Err(fail(r).value)
                              else Ok(Some(build(r)))
  }

  /** When no kept record fails, the fold returns the kept records built, in order. */
  lemma {:induction false} CollectKept<R(!new), T>(extract: R -> Result<Option<T>, FetchError>, keep: R -> bool,
                                                  fail: R -> Option<FetchError>, build: R -> T, raws: seq<R>)
    requires Extracts(extract, keep, fail, build)
    requires forall r :: r in Seqs.Filter(keep, raws) ==> fail(r).None?
    ensures Collect(extract, raws) == Ok(Seqs.Map(build, Seqs.Filter(keep, raws)))
    decreases |raws|
  {
    if raws != [] {
      var init, last := raws[..|raws| - 1], raws[|raws| - 1];
      var kept := Seqs.Filter(keep, init);
      assert Seqs.Filter(keep, raws) == kept + (if keep(last) then [last] else []);
      CollectKept(extract, keep, fail, build, init);
      if keep(last) {
        assert last in Seqs.Filter(keep, raws);
        assert extract(last) == Ok(Some(build(last)));
        Seqs.MapSnoc(build, kept, last);
      } else {
        assert extract(last) == Ok(None);
        assert Seqs.Filter(keep, raws) == kept + [] == kept;
      }
    }
  }

  /** A fold that succeeds met no kept record that fails. */
  lemma {:induction false} CollectOkPasses<R(!new), T>(extract: R -> Result<Option<T>, FetchError>, keep: R -> bool,
                                                      fail: R -> Option<FetchError>, build: R -> T, raws: seq<R>)
    requires Extracts(extract, keep, fail, build)
    requires Collect(extract, raws).Ok?
    ensures forall r :: r in Seqs.Filter(keep, raws) ==> fail(r).None?
    decreases |raws|
  {
    if raws != [] {
      var init, last := raws[..|raws| - 1], raws[|raws| - 1];
      var kept := Seqs.Filter(keep, init);
      assert Seqs.Filter(keep, raws) == kept + (if keep(last) then [last] else []);
      CollectOkPasses(extract, keep, fail, build, init);
    }
  }

  /** A fold that raises raises the error of a kept record that fails. */
  lemma {:induction false} CollectRaises<R(!new), T>(extract: R -> Result<Option<T>, FetchError>, keep: R -> bool,
                                                    fail: R -> Option<FetchError>, build: R -> T, raws: seq<R>)
    requires Extracts(extract, keep, fail, build)
    requires Collect(extract, raws).Err?
    ensures exists r :: r in Seqs.Filter(keep, raws) && fail(r) == Some(Collect(extract, raws).error)
    decreases |raws|
  {
    var init, last := raws[..|raws| - 1], raws[|raws| - 1];
    var kept := Seqs.Filter(keep, init);
    assert Seqs.Filter(keep, raws) == kept + (if keep(last) then [last] else []);
    if Collect(extract, init).Err? {
      CollectRaises(extract, keep, fail, build, init);
      var r :| r in kept && fail(r) == Some(Collect(extract, init).error);
      assert r in Seqs.Filter(keep, raws);
    } else {
      assert last in Seqs.Filter(keep, raws);
    }
  }

  /** The outcome of the fold: it raises exactly when a kept record fails, with the error of
      such a record; otherwise it returns the kept records built, in order. */
  lemma CollectContents<R(!new), T>(extract: R -> Result<Option<T>, FetchError>, keep: R -> bool,
                                   fail: R -> Option<FetchError>, build: R -> T, raws: seq<R>)
    requires Extracts(extract, keep, fail, build)
    ensures Collect(extract, raws).Ok? <==> forall r :: r in Seqs.Filter(keep, raws) ==> fail(r).None?
    ensures Collect(extract, raws).Ok? ==> Collect(extract, raws).value == Seqs.Map(build, Seqs.Filter(keep, raws))
    ensures Collect(extract, raws).Err? ==>
      exists r :: r in Seqs.Filter(keep, raws) && fail(r) == Some(Collect(extract, raws).error)
  {
    if Collect(extract, raws).Ok? {
      CollectOkPasses(extract, keep, fail, build, raws);
      CollectKept(extract, keep, fail, build, raws);
    } else {
      CollectRaises(extract, keep, fail, build, raws);
    }
  }

  // ---- main: recency filter and new/seen partition ----

  predicate IsRecent(filed: Option<Dates.Date>, cutoff: Dates.DateTime)
  {
    filed.Some? && Dates.FiledOnOrAfter(filed.value, cutoff)
  }

  /** The trades whose filing date parses and is not before the cutoff, in order. */
  function Recent<T(==,!new)>(trades: seq<T>, filed: T -> Option<Dates.Date>, cutoff: Dates.DateTime): (r: seq<T>)
    ensures forall t :: t in r <==> t in trades && IsRecent(filed(t), cutoff)
  {
    Seqs.FilterMembers(t => IsRecent(filed(t), cutoff), trades);
    Seqs.Filter(t => IsRecent(filed(t), cutoff), trades)
  }

  /** The recent trades whose key is not yet in the seen set, in order. */
  function Unseen<T(==,!new)>(recent: seq<T>, key: T -> string, seen: set<string>): (r: seq<T>)
    ensures forall t :: t in r <==> t in recent && key(t) !in seen
    ensures |r| <= |recent|
  {
    Seqs.FilterMembers(t => key(t) !in seen, recent);
    Seqs.Filter(t => key(t) !in seen, recent)
  }

  function Keys<T(==,!new)>(trades: seq<T>, key: T -> string): set<string>
  {
    set t | t in trades :: key(t)
  }

  /** Both partitions keep the order of their input. */
  lemma PartitionKeepsOrder<T(!new)>(trades: seq<T>, filed: T -> Option<Dates.Date>, cutoff: Dates.DateTime,
                                        key: T -> string, seen: set<string>)
    ensures Seqs.IsSubsequence(Recent(trades, filed, cutoff), trades)
    ensures Seqs.IsSubsequence(Unseen(Recent(trades, filed, cutoff), key, seen), Recent(trades, filed, cutoff))
  {
    Seqs.FilterIsSubsequence(t => IsRecent(filed(t), cutoff), trades);
    Seqs.FilterIsSubsequence(t => key(t) !in seen, Recent(trades, filed, cutoff));
  }

  /** A trade whose date does not parse is dropped and changes nothing for the others. */
  lemma UndatedIsDropped<T(!new)>(a: seq<T>, undated: T, b: seq<T>, filed: T -> Option<Dates.Date>, cutoff: Dates.DateTime)
    requires filed(undated).None?
    ensures Recent(a + [undated] + b, filed, cutoff) == Recent(a + b, filed, cutoff)
  {
    Seqs.FilterSkip(t => IsRecent(filed(t), cutoff), a, undated, b);
  }

  // ---- main: the decision ----

  /** One run after the records are fetched: nothing when nothing is unseen; otherwise send
      the whole recent list and, only once sending returned, save the seen set grown by
      the unseen keys. `delivered` is whether `send_email` returns or raises. */
  function Decide<T(==,!new)>(recent: seq<T>, key: T -> string, seen: set<string>, email: Email, delivered: bool): Run
  {
    var unseen := Unseen(recent, key, seen);
    if unseen == [] then Run([], NoNewTrades)
    else if !delivered then Run([SendEmail(email)], SendFailed)
    else Run([SendEmail(email), SaveSeen(seen + Keys(unseen, key))], Notified(|recent|, |unseen|))
  }

  /** The seen set stored after a run: the one it saved, else the one it loaded. */
  function SeenAfter(seen: set<string>, run: Run): set<string>
  {
    if |run.effects| == 2 && run.effects[1].SaveSeen? then run.effects[1].keys else seen
  }

  /** No unseen trade: no email and no save; and conversely. */
  lemma QuietExactlyWhenAllSeen<T(!new)>(recent: seq<T>, key: T -> string, seen: set<string>, email: Email, delivered: bool)
    ensures Decide(recent, key, seen, email, delivered).effects == []
        <==> forall t :: t in recent ==> key(t) in seen
    ensures Decide(recent, key, seen, email, delivered).effects == [] ==>
              Decide(recent, key, seen, email, delivered).status == NoNewTrades
  {
    Seqs.FilterEmpty(t => key(t) !in seen, recent);
  }

  /** The email goes first and carries the whole recent list; the save, if any, comes
      after it, only when sending returned, and adds exactly the unseen keys. */
  lemma SaveOnlyAfterSend<T(!new)>(recent: seq<T>, key: T -> string, seen: set<string>, email: Email, delivered: bool)
    ensures var r := Decide(recent, key, seen, email, delivered);
      || r.effects == []
      || (r.effects == [SendEmail(email)] && !delivered && r.status == SendFailed)
      || (r.effects == [SendEmail(email), SaveSeen(seen + Keys(Unseen(recent, key, seen), key))] && delivered)
    ensures var r := Decide(recent, key, seen, email, delivered);
      r.status.Notified? ==> r.status.emailed == |recent| && 0 < r.status.unseen <= r.status.emailed
  {
  }

  /** The stored seen set only grows, and after a run that did not fail to send it
      holds the key of every recent trade. */
  lemma SeenGrowsToCoverRecent<T(!new)>(recent: seq<T>, key: T -> string, seen: set<string>, email: Email, delivered: bool)
    ensures var r := Decide(recent, key, seen, email, delivered);
      seen <= SeenAfter(seen, r)
    ensures var r := Decide(recent, key, seen, email, delivered);
      r.status != SendFailed ==> forall t :: t in recent ==> key(t) in SeenAfter(seen, r)
    ensures var r := Decide(recent, key, seen, email, delivered);
      r.status == SendFailed ==> SeenAfter(seen, r) == seen
  {
    var unseen := Unseen(recent, key, seen);
    forall t | t in recent && key(t) !in seen
      ensures key(t) in Keys(unseen, key)
    {
      assert t in unseen;
    }
  }

  /** Running again on the same recent trades, with the seen set the first run stored,
      sends nothing and saves nothing, unless the first run failed to send. */
  lemma Idempotent<T(!new)>(recent: seq<T>, key: T -> string, seen: set<string>, email: Email, delivered: bool,
                               email2: Email, delivered2: bool)
    requires Decide(recent, key, seen, email, delivered).status != SendFailed
    ensures var seen2 := SeenAfter(seen, Decide(recent, key, seen, email, delivered));
      Decide(recent, key, seen2, email2, delivered2) == Run([], NoNewTrades)
  {
    var seen2 := SeenAfter(seen, Decide(recent, key, seen, email, delivered));
    SeenGrowsToCoverRecent(recent, key, seen, email, delivered);
    QuietExactlyWhenAllSeen(recent, key, seen2, email2, delivered2);
  }

  // ---- send_email: the body ----

  /** The email body: the block of every trade, in order. */
  function Body<T>(block: T -> string, trades: seq<T>): string
    decreases |trades|
  {
    if trades == [] then "" else Body(block, trades[..|trades| - 1]) + block(trades[|trades| - 1])
  }

  lemma {:induction false} BodyAppend<T>(block: T -> string, a: seq<T>, b: seq<T>)
    ensures Body(block, a + b) == Body(block, a) + Body(block, b)
    decreases |b|
  {
    if b == [] {
      assert a + b == a;
    } else {
      assert (a + b)[..|a + b| - 1] == a + b[..|b| - 1];
      BodyAppend(block, a, b[..|b| - 1]);
    }
  }

  /** When every block has `n` line breaks, the body has `n` per trade. */
  lemma {:induction false} BodyLineBreaks<T>(block: T -> string, trades: seq<T>, n: nat)
    requires forall i :: 0 <= i < |trades| ==> Text.Count('\n', block(trades[i])) == n
    ensures Text.Count('\n', Body(block, trades)) == n * |trades|
    decreases |trades|
  {
    if trades != [] {
      var init, last := trades[..|trades| - 1], trades[|trades| - 1];
      assert forall i :: 0 <= i < |init| ==> init[i] == trades[i];
      BodyLineBreaks(block, init, n);
      assert Body(block, trades) == Body(block, init) + block(last);
      Text.CountAppend('\n', Body(block, init), block(last));
      assert Text.Count('\n', block(last)) == n;
      MulSucc(n, |init|);
    }
  }

  lemma MulSucc(n: nat, k: nat)
    ensures n * (k + 1) == n * k + n
  {
  }

  // ---- the loops of main and send_email ----

  /** The loop that appends every recent trade to `recent`. */
  method FilterRecent<T(==,!new)>(trades: seq<T>, filed: T -> Option<Dates.Date>, cutoff: Dates.DateTime)
    returns (recent: seq<T>)
    ensures recent == Recent(trades, filed, cutoff)
  {
    recent := [];
    for i := 0 to |trades|
      invariant recent == Recent(trades[..i], filed, cutoff)
    {
      assert trades[..i + 1][..i] == trades[..i];
      var d := filed(trades[i]);
      if d.Some? && Dates.FiledOnOrAfter(d.value, cutoff) {
        recent := recent + [trades[i]];
      }
    }
    assert trades[..|trades|] == trades;
  }

  /** The loop `for t in new_trades: seen.add(t["id"])`. */
  method MarkSeen<T(==,!new)>(seen: set<string>, unseen: seq<T>, key: T -> string) returns (updated: set<string>)
    ensures updated == seen + Keys(unseen, key)
  {
    updated := seen;
    for i := 0 to |unseen|
      invariant updated == seen + Keys(unseen[..i], key)
    {
      assert Keys(unseen[..i + 1], key) == Keys(unseen[..i], key) + {key(unseen[i])} by {
        assert unseen[..i + 1] == unseen[..i] + [unseen[i]];
      }
      updated := updated + {key(unseen[i])};
    }
    assert unseen[..|unseen|] == unseen;
  }

  /** The loop `body += ...` over the trades passed to `send_email`. */
  method ComposeBody<T>(block: T -> string, trades: seq<T>) returns (body: string)
    ensures body == Body(block, trades)
  {
    body := "";
    for i := 0 to |trades|
      invariant body == Body(block, trades[..i])
    {
      assert trades[..i + 1][..i] == trades[..i];
      body := body + block(trades[i]);
    }
    assert trades[..|trades|] == trades;
  }

  /** The subject both scripts write: a fixed text ending in `(`, the number of trades
      emailed, and `)`. */
  function Subject(prefix: string, count: nat): string
  {
    prefix + Text.DecimalString(count) + ")"
  }

  /** The message `send_email` builds from the trades it is given. */
  function Compose<T>(prefix: string, block: T -> string, trades: seq<T>): Email
  {
    Email(Subject(prefix, |trades|), Body(block, trades))
  }

  /** The subject and the `body +=` loop of `send_email`. */
  method ComposeEmail<T>(prefix: string, block: T -> string, trades: seq<T>) returns (email: Email)
    ensures email == Compose(prefix, block, trades)
  {
    var body := ComposeBody(block, trades);
    email := Email(Subject(prefix, |trades|), body);
  }

  /** The subject starts with its fixed text, and the count read back from between the
      parentheses is the number of trades in the email. */
  lemma SubjectCount<T>(prefix: string, block: T -> string, trades: seq<T>)
    ensures var s := Compose(prefix, block, trades).subject;
      && |prefix| < |s| && s[..|prefix|] == prefix && s[|s| - 1] == ')'
      && Text.ParseInt(s[|prefix|..|s| - 1]) == Some(|trades|)
  {
    var s := Compose(prefix, block, trades).subject;
    assert s[|prefix|..|s| - 1] == Text.DecimalString(|trades|);
    Text.DecimalRoundTrip(|trades|);
  }
}
