/** Order-preserving selection over sequences: JavaScript `Array.prototype.filter`. */
module Sequences {

  /** `xs` is obtained from `ys` by deleting elements, keeping the order of the rest. */
  predicate IsSubsequence<T(==)>(xs: seq<T>, ys: seq<T>)
    decreases |ys|
  {
    || xs == []
    || (ys != [] && ((xs[0] == ys[0] && IsSubsequence(xs[1..], ys[1..])) || IsSubsequence(xs, ys[1..])))
  }

  /** The elements of `s` that satisfy `p`, in their original order. */
  function Keep<T(==, !new)>(s: seq<T>, p: T -> bool): (r: seq<T>)
    ensures |r| <= |s|
    ensures IsSubsequence(r, s)
    ensures forall i :: 0 <= i < |r| ==> p(r[i])
    ensures forall i :: 0 <= i < |s| && p(s[i]) ==> s[i] in r
    ensures (forall i :: 0 <= i < |s| ==> p(s[i])) ==> r == s
    ensures forall x :: multiset(r)[x] == if p(x) then multiset(s)[x] else 0
  {
    if s == [] then []
    else
      var rest := Keep(s[1..], p);
      var r := if p(s[0]) then [s[0]] + rest else rest;
      KeepStepOrder(s, p, rest, r);
      KeepStepAll(s, p, rest, r);
      KeepStepCounts(s, p, rest, r);
      KeepCountsCover(s, p, r);
      r
  }

  /** The step of `Keep` keeps order and only satisfying elements. */
  lemma KeepStepOrder<T>(s: seq<T>, p: T -> bool, rest: seq<T>, r: seq<T>)
    requires s != []
    requires |rest| <= |s[1..]| && IsSubsequence(rest, s[1..])
    requires forall i :: 0 <= i < |rest| ==> p(rest[i])
    requires r == if p(s[0]) then [s[0]] + rest else rest
    ensures |r| <= |s| && IsSubsequence(r, s)
    ensures forall i :: 0 <= i < |r| ==> p(r[i])
  {
    if p(s[0]) {
      assert r[1..] == rest;
      assert forall i :: 1 <= i < |r| ==> r[i] == rest[i - 1];
    }
  }

  /** The step of `Keep` returns its input when every element satisfies `p`. */
  lemma KeepStepAll<T>(s: seq<T>, p: T -> bool, rest: seq<T>, r: seq<T>)
    requires s != []
    requires (forall i :: 0 <= i < |s[1..]| ==> p(s[1..][i])) ==> rest == s[1..]
    requires r == if p(s[0]) then [s[0]] + rest else rest
    ensures (forall i :: 0 <= i < |s| ==> p(s[i])) ==> r == s
  {
    if forall i :: 0 <= i < |s| ==> p(s[i]) {
      assert forall i :: 0 <= i < |s[1..]| ==> s[1..][i] == s[i + 1];
      assert p(s[0]);
      assert s == [s[0]] + s[1..];
    }
  }

  /** The step of `Keep` keeps each satisfying element's count and drops the rest. */
  lemma KeepStepCounts<T(!new)>(s: seq<T>, p: T -> bool, rest: seq<T>, r: seq<T>)
    requires s != []
    requires forall x :: multiset(rest)[x] == if p(x) then multiset(s[1..])[x] else 0
    requires r == if p(s[0]) then [s[0]] + rest else rest
    ensures forall x :: multiset(r)[x] == if p(x) then multiset(s)[x] else 0
  {
    assert s == [s[0]] + s[1..];
    assert multiset(s) == multiset{s[0]} + multiset(s[1..]);
    if p(s[0]) {
      assert multiset(r) == multiset{s[0]} + multiset(rest);
    }
  }

  /** Keeping every satisfying element's count keeps every satisfying element. */
  lemma KeepCountsCover<T(!new)>(s: seq<T>, p: T -> bool, r: seq<T>)
    requires forall x :: multiset(r)[x] == if p(x) then multiset(s)[x] else 0
    ensures forall i :: 0 <= i < |s| && p(s[i]) ==> s[i] in r
  {
    forall i | 0 <= i < |s| && p(s[i]) ensures s[i] in r {
      assert s[i] in multiset(s);
      assert multiset(r)[s[i]] == multiset(s)[s[i]];
    }
  }
}
