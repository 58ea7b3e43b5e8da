/**
 * `sorted(list(set(run_lines)))`: the distinct lines a call executed, in
 * increasing order.  Calls are grouped into flows by this value.
 */
module Lines {

  predicate StrictlyIncreasing(s: seq<int>)
  {
    forall i, j :: 0 <= i < j < |s| ==> s[i] < s[j]
  }

  /** Puts `x` into a strictly increasing sequence, unless it is already there. */
  function Insert(x: int, s: seq<int>): (r: seq<int>)
    requires StrictlyIncreasing(s)
    ensures StrictlyIncreasing(r)
    ensures forall y :: y in r <==> y == x || y in s
  {
    if s == [] then [x]
    else if x < s[0] then [x] + s
    else if x == s[0] then s
    else
      var t := Insert(x, s[1..]);
      assert forall y :: y in s <==> y == s[0] || y in s[1..];
      assert forall i :: 0 <= i < |t| ==> t[i] in t && s[0] < t[i];
      [s[0]] + t
  }

  function SortedDistinct(lines: seq<int>): (r: seq<int>)
    ensures StrictlyIncreasing(r)
    ensures forall y :: y in r <==> y in lines
  {
    if lines == [] then []
    else
      var init := lines[..|lines| - 1];
      assert forall y :: y in lines <==> y in init || y == lines[|lines| - 1];
      Insert(lines[|lines| - 1], SortedDistinct(init))
  }

  /** A strictly increasing sequence is determined by its elements. */
  lemma {:induction false} IncreasingUnique(a: seq<int>, b: seq<int>)
    requires StrictlyIncreasing(a) && StrictlyIncreasing(b)
    requires forall y :: y in a <==> y in b
    ensures a == b
  {
    if a != [] {
      assert a[0] in a;
    }
    if b != [] {
      assert b[0] in b;
    }
    if a != [] {
      assert a[0] in b && b[0] in a;
      assert a[0] == b[0];
      forall y
        ensures y in a[1..] <==> y in b[1..]
      {
        if y in a[1..] {
          assert y in a && y != a[0];
        }
        if y in b[1..] {
          assert y in b && y != b[0];
        }
      }
      IncreasingUnique(a[1..], b[1..]);
      assert a == [a[0]] + a[1..];
      assert b == [b[0]] + b[1..];
    }
  }

  /**
   * Two calls that executed the same set of lines have the same distinct
   * lines, whatever the order and the repetitions in their raw sequences.
   */
  lemma SameLineSetSameDistinctLines(l1: seq<int>, l2: seq<int>)
    requires forall y :: y in l1 <==> y in l2
    ensures SortedDistinct(l1) == SortedDistinct(l2)
  {
    IncreasingUnique(SortedDistinct(l1), SortedDistinct(l2));
  }

  /** Re-grouping: the distinct lines of a distinct-line sequence are itself. */
  lemma SortedDistinctIdempotent(lines: seq<int>)
    ensures SortedDistinct(SortedDistinct(lines)) == SortedDistinct(lines)
  {
    IncreasingUnique(SortedDistinct(SortedDistinct(lines)), SortedDistinct(lines));
  }
}
