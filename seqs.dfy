/** Order-preserving selection from a sequence, as `Array.prototype.filter`
    computes it, with an independent characterisation: the result is a
    subsequence of the input holding every kept element as often as the
    input does and no other element. */
module Seqs {

  /** A non-empty sequence is its head followed by its tail. */
  lemma HeadTail<T>(s: seq<T>)
    requires |s| > 0
    ensures [s[0]] + s[1..] == s
  {
  }

  /** `r` can be obtained from `s` by deleting elements (order is kept). */
  predicate IsSubsequence<T(==,!new)>(r: seq<T>, s: seq<T>)
    decreases |s|
  {
    if r == [] then true
    else if s == [] then false
    else if r[0] == s[0] then IsSubsequence(r[1..], s[1..])
    else IsSubsequence(r, s[1..])
  }

  function Filter<T(==,!new)>(s: seq<T>, keep: T -> bool): (r: seq<T>)
    ensures IsSubsequence(r, s)
    ensures forall i :: 0 <= i < |r| ==> keep(r[i])
    ensures forall x :: multiset(r)[x] == if keep(x) then multiset(s)[x] else 0
    ensures |r| <= |s|
    decreases |s|
  {
    if s == [] then []
    else
      var rest := Filter(s[1..], keep);
      FilterStep(s, keep, rest);
      if keep(s[0]) then [s[0]] + rest else rest
  }

  /** One step of Filter: what holds of the filtered tail carries over to
      the whole, with the head kept or dropped. */
  lemma FilterStep<T(!new)>(s: seq<T>, keep: T -> bool, rest: seq<T>)
    requires |s| > 0 && IsSubsequence(rest, s[1..]) && |rest| <= |s| - 1
    requires forall i :: 0 <= i < |rest| ==> keep(rest[i])
    requires forall x :: multiset(rest)[x] == if keep(x) then multiset(s[1..])[x] else 0
    ensures var r := if keep(s[0]) then [s[0]] + rest else rest;
      && IsSubsequence(r, s)
      && (forall i :: 0 <= i < |r| ==> keep(r[i]))
      && (forall x :: multiset(r)[x] == if keep(x) then multiset(s)[x] else 0)
      && |r| <= |s|
  {
    HeadTail(s);
    assert multiset(s) == multiset([s[0]]) + multiset(s[1..]);
    if keep(s[0]) {
      assert ([s[0]] + rest)[1..] == rest;
      assert multiset([s[0]] + rest) == multiset([s[0]]) + multiset(rest);
    }
  }

  /** Keeping everything yields the input itself; keeping an element is
      decided by `keep` alone. */
  lemma {:induction false} FilterAll<T(!new)>(s: seq<T>, keep: T -> bool)
    requires forall i :: 0 <= i < |s| ==> keep(s[i])
    ensures Filter(s, keep) == s
    decreases |s|
  {
    if s != [] {
      FilterAll(s[1..], keep);
    }
  }

  lemma {:induction false} FilterAppend<T(!new)>(a: seq<T>, b: seq<T>, keep: T -> bool)
    ensures Filter(a + b, keep) == Filter(a, keep) + Filter(b, keep)
    decreases |a|
  {
    if a == [] {
      assert a + b == b;
    } else {
      assert (a + b)[0] == a[0] && (a + b)[1..] == a[1..] + b;
      FilterAppend(a[1..], b, keep);
    }
  }

  /** A kept element of the input survives the filter. */
  lemma FilterKeeps<T(!new)>(s: seq<T>, keep: T -> bool, x: T)
    requires x in s && keep(x)
    ensures x in Filter(s, keep)
  {
    assert multiset(s)[x] > 0;
    assert multiset(Filter(s, keep))[x] > 0;
  }
}
