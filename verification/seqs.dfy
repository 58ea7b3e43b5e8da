/** Small facts about sequences shared by the flow and analysis modules. */
module Seqs {

  /** No element occurs twice. */
  ghost predicate NoDuplicates<T>(s: seq<T>)
  {
    forall i, j :: 0 <= i < j < |s| ==> s[i] != s[j]
  }

  /** Number of occurrences of `x` in `s`. */
  function Count<T(==)>(s: seq<T>, x: T): nat
  {
    if s == [] then 0
    else Count(s[..|s| - 1], x) + (if s[|s| - 1] == x then 1 else 0)
  }

  /**
   * The distinct elements of `s` in first-seen order: what a Python dict
   * keyed by the elements (or `Counter`) lists as its keys.
   */
  function Dedup<T(==,!new)>(s: seq<T>): (r: seq<T>)
    ensures NoDuplicates(r)
    ensures forall x :: x in r <==> x in s
    ensures |r| <= |s|
  {
    if s == [] then []
    else
      var d := Dedup(s[..|s| - 1]);
      assert forall x :: x in s <==> x in s[..|s| - 1] || x == s[|s| - 1];
      if s[|s| - 1] in d then d else d + [s[|s| - 1]]
  }

  /** Index of the first occurrence of `x` in `s`. */
  function IndexOf<T(==)>(s: seq<T>, x: T): (k: nat)
    requires x in s
    ensures k < |s| && s[k] == x
    ensures forall j :: 0 <= j < k ==> s[j] != x
  {
    if s[0] == x then 0 else 1 + IndexOf(s[1..], x)
  }

  /** `x in s` is the same as a positive count. */
  lemma {:induction false} CountPositive<T(!new)>(s: seq<T>, x: T)
    ensures Count(s, x) > 0 <==> x in s
  {
    if s != [] {
      CountPositive(s[..|s| - 1], x);
      assert forall y :: y in s <==> y in s[..|s| - 1] || y == s[|s| - 1];
    }
  }

  /** Counting over a concatenation. */
  lemma {:induction false} CountAppend<T>(a: seq<T>, b: seq<T>, x: T)
    ensures Count(a + b, x) == Count(a, x) + Count(b, x)
    decreases |b|
  {
    if b != [] {
      assert (a + b)[..|a + b| - 1] == a + b[..|b| - 1];
      CountAppend(a, b[..|b| - 1], x);
    } else {
      assert a + b == a;
    }
  }

  /**
   * The positions of `marks` that are set, in increasing order: every set
   * position occurs, and no other.
   */
  function Positions(marks: seq<bool>): (idx: seq<nat>)
    ensures forall i :: 0 <= i < |idx| ==> idx[i] < |marks| && marks[idx[i]]
    ensures forall i, j :: 0 <= i < j < |idx| ==> idx[i] < idx[j]
    ensures forall j :: 0 <= j < |marks| && marks[j] ==> j in idx
  {
    if marks == [] then []
    else
      var init := marks[..|marks| - 1];
      var p := Positions(init);
      assert forall j :: 0 <= j < |init| ==> init[j] == marks[j];
      if marks[|marks| - 1] then p + [|marks| - 1] else p
  }

  /** The elements of `s` at the positions `idx`, in that order. */
  function Select<T>(s: seq<T>, idx: seq<nat>): (r: seq<T>)
    requires forall i :: 0 <= i < |idx| ==> idx[i] < |s|
    ensures |r| == |idx| && forall i :: 0 <= i < |idx| ==> r[i] == s[idx[i]]
  {
    if idx == [] then [] else Select(s, idx[..|idx| - 1]) + [s[idx[|idx| - 1]]]
  }

  /** One more mark adds its own position, and its count, when it is set. */
  lemma PositionsSnoc(marks: seq<bool>)
    requires marks != []
    ensures var n := |marks| - 1;
      && Positions(marks) == Positions(marks[..n]) + (if marks[n] then [n] else [])
      && Count(marks, true) == Count(marks[..n], true) + (if marks[n] then 1 else 0)
  {
  }

  /** Selecting positions below `n` reads only the first `n` elements. */
  lemma SelectPrefix<T>(s: seq<T>, idx: seq<nat>, n: nat)
    requires n <= |s| && forall i :: 0 <= i < |idx| ==> idx[i] < n
    ensures Select(s, idx) == Select(s[..n], idx)
  {
    var a, b := Select(s, idx), Select(s[..n], idx);
    forall i | 0 <= i < |idx|
      ensures a[i] == b[i]
    {
      assert b[i] == s[..n][idx[i]];
    }
  }

  /**
   * Selecting the set positions of `s` is selecting those of all but its
   * last element, followed by the last element when its mark is set.
   */
  lemma SelectStep<T>(s: seq<T>, marks: seq<bool>)
    requires |marks| == |s| && s != []
    ensures var n := |s| - 1;
      Select(s, Positions(marks)) == Select(s[..n], Positions(marks[..n])) + (if marks[n] then [s[n]] else [])
  {
    var n := |s| - 1;
    var p := Positions(marks[..n]);
    PositionsSnoc(marks);
    SelectPrefix(s, p, n);
    if marks[n] {
      assert (p + [n])[..|p|] == p;
    }
  }

  /** The first selected position is the first set one. */
  lemma FirstPosition(marks: seq<bool>, j: nat)
    requires j < |marks| && marks[j] && forall k :: 0 <= k < j ==> !marks[k]
    ensures Positions(marks) != [] && Positions(marks)[0] == j
  {
    var idx := Positions(marks);
    assert j in idx;
    var m :| 0 <= m < |idx| && idx[m] == j;
    assert idx[0] <= j;
  }
}
