/** Order-preserving filters, maps and the subsequence relation on sequences. */
module Seqs {

  /** The elements of `s` that satisfy `p`, in their original order
      (a Python list comprehension with an `if`, or a loop that appends). */
  function Filter<T(==,!new)>(p: T -> bool, s: seq<T>): (r: seq<T>)
    ensures |r| <= |s|
    decreases |s|
  {
    if s == [] then []
    else Filter(p, s[..|s| - 1]) + (if p(s[|s| - 1]) then [s[|s| - 1]] else [])
  }

  /** The filter keeps exactly the elements that satisfy `p`. */
  lemma {:induction false} FilterMembers<T(!new)>(p: T -> bool, s: seq<T>)
    ensures forall x :: x in Filter(p, s) <==> x in s && p(x)
    decreases |s|
  {
    if s != [] {
      var init, last := s[..|s| - 1], s[|s| - 1];
      FilterMembers(p, init);
      assert s == init + [last];
    }
  }

  /** `f` applied to every element of `s`, in order. */
  function Map<T, U>(f: T -> U, s: seq<T>): (r: seq<U>)
    ensures |r| == |s|
    ensures forall i :: 0 <= i < |s| ==> r[i] == f(s[i])
  {
    seq(|s|, i requires 0 <= i < |s| => f(s[i]))
  }

  /** Mapping distributes over appending one element. */
  lemma MapSnoc<T, U>(f: T -> U, a: seq<T>, x: T)
    ensures Map(f, a + [x]) == Map(f, a) + [f(x)]
  {
    assert forall i :: 0 <= i < |a| ==> (a + [x])[i] == a[i];
  }

  /** `a` can be obtained from `b` by deleting elements, keeping the order of the rest. */
  predicate IsSubsequence<T(==)>(a: seq<T>, b: seq<T>)
    decreases |b|
  {
    if a == [] then true
    else if b == [] then false
    else if a[|a| - 1] == b[|b| - 1] then IsSubsequence(a[..|a| - 1], b[..|b| - 1])
    else IsSubsequence(a, b[..|b| - 1])
  }

  lemma {:induction false} FilterIsSubsequence<T(!new)>(p: T -> bool, s: seq<T>)
    ensures IsSubsequence(Filter(p, s), s)
    decreases |s|
  {
    if s != [] {
      var init, last := s[..|s| - 1], s[|s| - 1];
      FilterIsSubsequence(p, init);
      var r := Filter(p, s);
      if p(last) {
        assert r[..|r| - 1] == Filter(p, init);
      } else if r != [] {
        assert r == Filter(p, init);
        FilterMembers(p, init);
        assert r[|r| - 1] in r;
      }
    }
  }

  lemma {:induction false} FilterAppend<T(!new)>(p: T -> bool, a: seq<T>, b: seq<T>)
    ensures Filter(p, a + b) == Filter(p, a) + Filter(p, b)
    decreases |b|
  {
    if b == [] {
      assert a + b == a;
    } else {
      var init := b[..|b| - 1];
      var last := b[|b| - 1];
      assert (a + b)[..|a + b| - 1] == a + init;
      assert (a + b)[|a + b| - 1] == last;
      FilterAppend(p, a, init);
      calc {
        Filter(p, a + b);
        Filter(p, a + init) + (if p(last) then [last] else []);
        Filter(p, a) + Filter(p, init) + (if p(last) then [last] else []);
        Filter(p, a) + Filter(p, b);
      }
    }
  }

  /** Dropping an element the filter rejects does not change the filter. */
  lemma FilterSkip<T(!new)>(p: T -> bool, a: seq<T>, x: T, b: seq<T>)
    requires !p(x)
    ensures Filter(p, a + [x] + b) == Filter(p, a + b)
  {
    FilterAppend(p, a + [x], b);
    FilterAppend(p, a, [x]);
    FilterAppend(p, a, b);
    assert Filter(p, [x]) == [];
    assert Filter(p, a) + [] == Filter(p, a);
  }

  /** The filter keeps everything when every element satisfies `p`. */
  lemma {:induction false} FilterAll<T(!new)>(p: T -> bool, s: seq<T>)
    requires forall i :: 0 <= i < |s| ==> p(s[i])
    ensures Filter(p, s) == s
    decreases |s|
  {
    if s != [] {
      var init, last := s[..|s| - 1], s[|s| - 1];
      assert forall i :: 0 <= i < |init| ==> init[i] == s[i];
      FilterAll(p, init);
      assert s == init + [last];
    }
  }

  /** Filters by predicates that agree on every element give the same result. */
  lemma {:induction false} FilterSame<T(!new)>(p: T -> bool, q: T -> bool, s: seq<T>)
    requires forall x :: x in s ==> p(x) == q(x)
    ensures Filter(p, s) == Filter(q, s)
    decreases |s|
  {
    if s != [] {
      var init, last := s[..|s| - 1], s[|s| - 1];
      assert last in s;
      assert forall x :: x in init ==> x in s;
      FilterSame(p, q, init);
    }
  }

  /** The filter keeps nothing exactly when no element satisfies `p`. */
  lemma FilterEmpty<T(!new)>(p: T -> bool, s: seq<T>)
    ensures Filter(p, s) == [] <==> forall x :: x in s ==> !p(x)
  {
    var r := Filter(p, s);
    if r != [] {
      assert r[0] in r;
    }
  }
}
