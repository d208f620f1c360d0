/** The Python string operations the two alert scripts rely on, on `string` = `seq<char>`. */
module Text {
  import opened Wrappers
  import Seqs

  predicate IsDigit(c: char) { '0' <= c <= '9' }

  /** Python's `str.isspace`, which both `str.strip()` and `int()` use to trim. */
  predicate IsSpace(c: char)
  {
    || ('\t' <= c <= '\r')
    || ('\U{1c}' <= c <= '\U{1f}')
    || c == ' ' || c == '\U{85}' || c == '\U{a0}' || c == '\U{1680}'
    || ('\U{2000}' <= c <= '\U{200a}')
    || c == '\U{2028}' || c == '\U{2029}' || c == '\U{202f}' || c == '\U{205f}' || c == '\U{3000}'
  }

  /** `s.lstrip()`: the longest suffix of `s` that does not start with whitespace. */
  function TrimStart(s: string): (r: string)
    ensures |r| <= |s| && r == s[|s| - |r|..]
    ensures forall i :: 0 <= i < |s| - |r| ==> IsSpace(s[i])
    ensures r == [] || !IsSpace(r[0])
    decreases |s|
  {
    if |s| > 0 && IsSpace(s[0]) then TrimStart(s[1..]) else s
  }

  /** `s.rstrip()`: the longest prefix of `s` that does not end with whitespace. */
  function TrimEnd(s: string): (r: string)
    ensures |r| <= |s| && r == s[..|r|]
    ensures forall i :: |r| <= i < |s| ==> IsSpace(s[i])
    ensures r == [] || !IsSpace(r[|r| - 1])
    decreases |s|
  {
    if |s| > 0 && IsSpace(s[|s| - 1]) then TrimEnd(s[..|s| - 1]) else s
  }

  /** `r` is the slice of `s` starting at `i`, and everything of `s` before and after that
      slice is whitespace. */
  predicate StrippedAt(s: string, r: string, i: int)
  {
    && 0 <= i && i + |r| <= |s| && r == s[i..i + |r|]
    && (forall k :: 0 <= k < i ==> IsSpace(s[k]))
    && (forall k :: i + |r| <= k < |s| ==> IsSpace(s[k]))
  }

  /** `s.strip()`: neither end of the result is whitespace, and only whitespace was removed,
      from the two ends. */
  function Strip(s: string): (r: string)
    ensures r == [] || (!IsSpace(r[0]) && !IsSpace(r[|r| - 1]))
    ensures exists i :: StrippedAt(s, r, i)
    ensures |r| <= |s|
  {
    TrimBothAt(s);
    TrimEnd(TrimStart(s))
  }

  /** Trimming the start and then the end removes a leading and a trailing run of whitespace. */
  lemma TrimBothAt(s: string)
    ensures StrippedAt(s, TrimEnd(TrimStart(s)), |s| - |TrimStart(s)|)
  {
    SliceOfSuffix(s, TrimStart(s), TrimEnd(TrimStart(s)));
  }

  /** A prefix `r` of a suffix `t` of `s`, with whitespace around it, is `s` stripped at the
      start of `t`. */
  lemma SliceOfSuffix(s: string, t: string, r: string)
    requires |t| <= |s| && t == s[|s| - |t|..]
    requires forall k :: 0 <= k < |s| - |t| ==> IsSpace(s[k])
    requires |r| <= |t| && r == t[..|r|]
    requires forall k :: |r| <= k < |t| ==> IsSpace(t[k])
    ensures StrippedAt(s, r, |s| - |t|)
  {
    var i := |s| - |t|;
    assert r == s[i..i + |r|];
    forall k | i + |r| <= k < |s|
      ensures IsSpace(s[k])
    {
      assert s[k] == t[k - i];
    }
  }

  /** A string whose two ends are not whitespace is its own strip. */
  lemma StripUnchanged(s: string)
    requires s == [] || (!IsSpace(s[0]) && !IsSpace(s[|s| - 1]))
    ensures Strip(s) == s
  {
  }

  /** `s.replace(c, "")` for a one-character `c`: every `c` removed, the rest kept in order. */
  function Remove(s: string, c: char): (r: string)
    ensures c !in r
    ensures forall x :: x != c ==> (x in r <==> x in s)
  {
    Seqs.FilterMembers(x => x != c, s);
    Seqs.Filter(x => x != c, s)
  }

  lemma RemoveAbsent(s: string, c: char)
    requires c !in s
    ensures Remove(s, c) == s
  {
    Seqs.FilterAll(x => x != c, s);
  }

  lemma RemoveAppend(a: string, b: string, c: char)
    ensures Remove(a + b, c) == Remove(a, c) + Remove(b, c)
  {
    Seqs.FilterAppend(x => x != c, a, b);
  }

  /** Removing `c` passes over a prefix that holds none. */
  lemma RemoveSkips(a: string, rest: string, c: char)
    requires c !in a
    ensures Remove(a + rest, c) == a + Remove(rest, c)
  {
    RemoveAppend(a, rest, c);
    RemoveAbsent(a, c);
  }

  /** Removing `c` drops a leading `c`. */
  lemma RemoveDrops(rest: string, c: char)
    ensures Remove([c] + rest, c) == Remove(rest, c)
  {
    RemoveAppend([c], rest, c);
    assert Remove([c], c) == [];
    assert [] + Remove(rest, c) == Remove(rest, c);
  }

  /** The index of the first `c` in `s`, or `|s|` when there is none. */
  function FirstIndex(s: string, c: char): (i: nat)
    ensures i <= |s|
    ensures i < |s| ==> s[i] == c
    ensures forall j :: 0 <= j < i ==> s[j] != c
    decreases |s|
  {
    if s == [] then 0
    else if s[0] == c then 0
    else 1 + FirstIndex(s[1..], c)
  }

  /** Python's `s.split(sep)` for a one-character separator: the pieces between
      separators, at least one, none of them holding the separator. */
  function Split(s: string, sep: char): (parts: seq<string>)
    ensures |parts| >= 1
    ensures forall k :: 0 <= k < |parts| ==> sep !in parts[k]
    decreases |s|
  {
    var i := FirstIndex(s, sep);
    if i == |s| then [s] else [s[..i]] + Split(s[i + 1..], sep)
  }

  /** The first piece of a split is the text before the first separator. */
  lemma SplitHead(a: string, sep: char, b: string)
    requires sep !in a
    ensures Split(a + [sep] + b, sep)[0] == a
  {
    var s := a + [sep] + b;
    assert s[|a|] == sep;
    assert forall j :: 0 <= j < |a| ==> s[j] == a[j];
    assert FirstIndex(s, sep) == |a|;
    assert s[..|a|] == a;
  }

  /** Python's `sep.join(xs)` for a one-character separator. */
  function Join(sep: char, xs: seq<string>): string
    decreases |xs|
  {
    if |xs| == 0 then ""
    else if |xs| == 1 then xs[0]
    else xs[0] + [sep] + Join(sep, xs[1..])
  }

  /** Splitting a join gives the pieces back, provided no piece holds the separator. */
  lemma {:induction false} SplitJoin(sep: char, xs: seq<string>)
    requires |xs| >= 1
    requires forall k :: 0 <= k < |xs| ==> sep !in xs[k]
    ensures Split(Join(sep, xs), sep) == xs
    decreases |xs|
  {
    var s := Join(sep, xs);
    var i := FirstIndex(s, sep);
    if |xs| > 1 {
      var rest := Join(sep, xs[1..]);
      assert s == xs[0] + [sep] + rest;
      assert s[|xs[0]|] == sep;
      assert forall j :: 0 <= j < |xs[0]| ==> s[j] == xs[0][j];
      assert i == |xs[0]|;
      assert s[..i] == xs[0];
      assert s[i + 1..] == rest;
      SplitJoin(sep, xs[1..]);
    }
  }

  /** Joining the pieces of a split gives the string back. */
  lemma {:induction false} JoinSplit(s: string, sep: char)
    ensures Join(sep, Split(s, sep)) == s
    decreases |s|
  {
    var i := FirstIndex(s, sep);
    if i < |s| {
      var rest := Split(s[i + 1..], sep);
      assert Split(s, sep) == [s[..i]] + rest;
      JoinSplit(s[i + 1..], sep);
      JoinCons(sep, s[..i], rest);
      assert s[..i] + [sep] + s[i + 1..] == s;
    }
  }

  /** Joins of separator-free pieces collide only when the pieces are equal. */
  lemma JoinInjective(sep: char, xs: seq<string>, ys: seq<string>)
    requires |xs| >= 1 && |ys| >= 1
    requires forall k :: 0 <= k < |xs| ==> sep !in xs[k]
    requires forall k :: 0 <= k < |ys| ==> sep !in ys[k]
    requires Join(sep, xs) == Join(sep, ys)
    ensures xs == ys
  {
    SplitJoin(sep, xs);
    SplitJoin(sep, ys);
  }

  lemma JoinCons(sep: char, x: string, xs: seq<string>)
    requires |xs| >= 1
    ensures Join(sep, [x] + xs) == x + [sep] + Join(sep, xs)
  {
    assert ([x] + xs)[1..] == xs;
  }

  /** A join of separator-free pieces holds one separator fewer than it has pieces. */
  lemma {:induction false} JoinSeparatorCount(sep: char, xs: seq<string>)
    requires |xs| >= 1
    requires forall k :: 0 <= k < |xs| ==> sep !in xs[k]
    ensures Count(sep, Join(sep, xs)) == |xs| - 1
    decreases |xs|
  {
    CountAbsent(sep, xs[0]);
    if |xs| > 1 {
      JoinSeparatorCount(sep, xs[1..]);
      CountAppend(sep, xs[0] + [sep], Join(sep, xs[1..]));
      CountAppend(sep, xs[0], [sep]);
      assert Count(sep, [sep]) == 1 by {
        assert [sep][..0] == [];
      }
    }
  }

  /** `Join` of four pieces is the pieces with one separator between neighbours. */
  lemma JoinFour(sep: char, a: string, b: string, c: string, d: string)
    ensures Join(sep, [a, b, c, d]) == a + [sep] + b + [sep] + c + [sep] + d
  {
    assert [a, b, c, d][1..] == [b, c, d];
    assert [b, c, d][1..] == [c, d];
    assert [c, d][1..] == [d];
    assert Join(sep, [c, d]) == c + [sep] + d;
    assert Join(sep, [b, c, d]) == b + [sep] + (c + [sep] + d);
  }

  /** `Join` of three pieces, as in a date written `a-b-c`. */
  lemma JoinThree(sep: char, a: string, b: string, c: string)
    ensures Join(sep, [a, b, c]) == a + [sep] + b + [sep] + c
  {
    assert [a, b, c][1..] == [b, c];
    assert [b, c][1..] == [c];
    assert Join(sep, [b, c]) == b + [sep] + c;
  }

  /** Two lines and an empty line, each ended by a line break, as a join: the tail of an
      email block. */
  lemma JoinTwoLinesAndBlank(d: string, e: string)
    ensures Join('\n', [d, e, "", ""]) == d + "\n" + e + "\n\n"
  {
    JoinCons('\n', "", [""]);
    assert [""] + [""] == ["", ""];
    JoinCons('\n', e, ["", ""]);
    assert [e] + ["", ""] == [e, "", ""];
    JoinCons('\n', d, [e, "", ""]);
    assert [d] + [e, "", ""] == [d, e, "", ""];
  }

  /** Four lines and an empty line, each ended by a line break, as a join. */
  lemma JoinFourLinesAndBlank(a: string, b: string, c: string, d: string)
    ensures Join('\n', [a, b, c, d, "", ""]) == a + "\n" + b + "\n" + c + "\n" + d + "\n\n"
  {
    JoinTwoLinesAndBlank(c, d);
    JoinCons('\n', b, [c, d, "", ""]);
    assert [b] + [c, d, "", ""] == [b, c, d, "", ""];
    JoinCons('\n', a, [b, c, d, "", ""]);
    assert [a] + [b, c, d, "", ""] == [a, b, c, d, "", ""];
  }

  /** Five lines and an empty line, each ended by a line break, as a join. */
  lemma JoinFiveLinesAndBlank(a: string, b: string, c: string, d: string, e: string)
    ensures Join('\n', [a, b, c, d, e, "", ""]) == a + "\n" + b + "\n" + c + "\n" + d + "\n" + e + "\n\n"
  {
    JoinFourLinesAndBlank(b, c, d, e);
    JoinCons('\n', a, [b, c, d, e, "", ""]);
    assert [a] + [b, c, d, e, "", ""] == [a, b, c, d, e, "", ""];
  }

  /** `s.lower()` on ASCII letters. */
  function LowerChar(c: char): char
  {
    if 'A' <= c <= 'Z' then (c as int - 'A' as int + 'a' as int) as char else c
  }

  function Lower(s: string): (r: string)
    ensures |r| == |s|
    ensures forall i :: 0 <= i < |s| ==> r[i] == LowerChar(s[i])
  {
    Seqs.Map(LowerChar, s)
  }

  /** The number of occurrences of `c` in `s`. */
  function Count(c: char, s: string): nat
    decreases |s|
  {
    if s == [] then 0
    else Count(c, s[..|s| - 1]) + (if s[|s| - 1] == c then 1 else 0)
  }

  lemma {:induction false} CountAppend(c: char, a: string, b: string)
    ensures Count(c, a + b) == Count(c, a) + Count(c, b)
    decreases |b|
  {
    if b == [] {
      assert a + b == a;
    } else {
      assert (a + b)[..|a + b| - 1] == a + b[..|b| - 1];
      CountAppend(c, a, b[..|b| - 1]);
    }
  }

  lemma {:induction false} CountAbsent(c: char, s: string)
    requires c !in s
    ensures Count(c, s) == 0
    decreases |s|
  {
    if s != [] {
      assert s[|s| - 1] in s;
      assert forall x :: x in s[..|s| - 1] ==> x in s;
      CountAbsent(c, s[..|s| - 1]);
    }
  }

  // ---- Integers: Python's int(str) on ASCII digits ----

  /** The digit strings Python's `int()` accepts after its optional sign: ASCII digits,
      with single underscores allowed between two digits. */
  predicate IsDigitRun(s: string)
  {
    && |s| > 0
    && IsDigit(s[0]) && IsDigit(s[|s| - 1])
    && (forall i :: 0 <= i < |s| ==> IsDigit(s[i]) || s[i] == '_')
    && (forall i :: 0 <= i < |s| - 1 ==> IsDigit(s[i]) || IsDigit(s[i + 1]))
  }

  /** The decimal value of the digits of `s`, underscores skipped. */
  function DigitsValue(s: string): nat
    decreases |s|
  {
    if s == [] then 0
    else if s[|s| - 1] == '_' then DigitsValue(s[..|s| - 1])
    else 10 * DigitsValue(s[..|s| - 1]) + DigitValue(s[|s| - 1])
  }

  function DigitValue(c: char): nat
  {
    if IsDigit(c) then c as int - '0' as int else 0
  }

  /** Python's `int(s)`: `None` where it raises `ValueError`. */
  function ParseInt(s: string): Option<int>
  {
    var t := Strip(s);
    if |t| > 0 && (t[0] == '+' || t[0] == '-') then
      if IsDigitRun(t[1..]) then
        Some(if t[0] == '-' then -(DigitsValue(t[1..]) as int) else DigitsValue(t[1..]))
      else None
    else if IsDigitRun(t) then Some(DigitsValue(t))
    else None
  }

  lemma DigitNotSpace(c: char)
    requires IsDigit(c)
    ensures !IsSpace(c)
  {
  }

  lemma TrimStartKeeps(s: string)
    requires s != [] && !IsSpace(s[0])
    ensures TrimStart(s) == s
  {
  }

  lemma TrimEndKeeps(s: string)
    requires s != [] && !IsSpace(s[|s| - 1])
    ensures TrimEnd(s) == s
  {
  }

  lemma TrimEndDrops(s: string, c: char)
    requires IsSpace(c)
    ensures TrimEnd(s + [c]) == TrimEnd(s)
  {
    assert (s + [c])[..|s|] == s;
  }

  /** A digit run followed by a space strips to the digit run. */
  lemma StripDigitsSpace(d: string)
    requires IsDigitRun(d)
    ensures Strip(d + " ") == d
  {
    DigitNotSpace(d[0]);
    DigitNotSpace(d[|d| - 1]);
    assert (d + " ")[0] == d[0];
    TrimStartKeeps(d + " ");
    TrimEndDrops(d, ' ');
    TrimEndKeeps(d);
  }

  /** `int()` of a digit run is the value of its digits. */
  lemma ParseDigitRun(d: string)
    requires IsDigitRun(d)
    ensures ParseInt(d) == Some(DigitsValue(d))
  {
    DigitNotSpace(d[0]);
    DigitNotSpace(d[|d| - 1]);
    TrimStartKeeps(d);
    TrimEndKeeps(d);
  }

  function DigitChar(d: nat): (c: char)
    requires d < 10
    ensures IsDigit(c) && DigitValue(c) == d
  {
    ('0' as int + d) as char
  }

  /** `str(n)` for a natural number. */
  function DecimalString(n: nat): (s: string)
    ensures |s| >= 1
    ensures forall i :: 0 <= i < |s| ==> IsDigit(s[i])
    decreases n
  {
    if n < 10 then [DigitChar(n)] else DecimalString(n / 10) + [DigitChar(n % 10)]
  }

  lemma {:induction false} DecimalValue(n: nat)
    ensures DigitsValue(DecimalString(n)) == n
    decreases n
  {
    if n >= 10 {
      var s := DecimalString(n);
      assert s[..|s| - 1] == DecimalString(n / 10);
      DecimalValue(n / 10);
    }
  }

  /** `int(str(n)) == n`. */
  lemma DecimalRoundTrip(n: nat)
    ensures ParseInt(DecimalString(n)) == Some(n)
  {
    var s := DecimalString(n);
    DecimalValue(n);
    assert IsDigitRun(s);
    ParseDigitRun(s);
  }
}
