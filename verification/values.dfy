/**
 * Captured runtime values.  The tracer stores arbitrary objects; the core only
 * prints them and compares them, and both operations can misbehave: some
 * objects cannot be hashed (counting them raises `TypeError`) and some cannot
 * be compared (`a != b` raises).  A `Value` records which of those it is.
 */
module Values {
  import opened Wrappers
  import opened Seqs

  datatype Value =
    | NoneValue                      // Python's None
    | Plain(text: string)            // hashable and comparable
    | Unhashable(text: string)       // comparable, but not a dict key (a list, a dict)
    | Uncomparable(text: string)     // comparing it raises, and it is not hashable either

  /** `str(v)`. */
  function Str(v: Value): string
  {
    match v
    case NoneValue => "None"
    case Plain(t) => t
    case Unhashable(t) => t
    case Uncomparable(t) => t
  }

  predicate Hashable(v: Value)
  {
    v.NoneValue? || v.Plain?
  }

  /** Outcome of evaluating `a != b` in Python: a truth value, or an exception. */
  datatype Comparison = Equal | NotEqual | Failed

  function Compare(a: Value, b: Value): Comparison
  {
    if a.Uncomparable? || b.Uncomparable? then Failed
    else if a == b then Equal
    else NotEqual
  }

  // ---------------------------------------------------------------------
  // The three `distinct_*` helpers of both VarStateHistory classes.
  // ---------------------------------------------------------------------

  /** `Some(acc + r)` when `o` is `Some(r)`; a raised exception stays raised. */
  function Prefixed(acc: seq<Value>, o: Option<seq<Value>>): Option<seq<Value>>
  {
    match o
    case None => None
    case Some(r) => Some(acc + r)
  }

  /**
   * `distinct_sequential_values` from a given previous value `prev`: a value is
   * kept when `value != prev`; `None` means a comparison raised.
   */
  function SequentialFrom(prev: Value, vs: seq<Value>): Option<seq<Value>>
    decreases |vs|
  {
    if vs == [] then Some([])
    else
      match Compare(vs[0], prev)
      case Failed => None
      case Equal => SequentialFrom(vs[0], vs[1..])
      case NotEqual => Prefixed([vs[0]], SequentialFrom(vs[0], vs[1..]))
  }

  /** The loop starts with `b = None`. */
  function DistinctSequential(vs: seq<Value>): Option<seq<Value>>
  {
    SequentialFrom(NoneValue, vs)
  }

  method DistinctSequentialValues(vs: seq<Value>) returns (r: Option<seq<Value>>)
    ensures r == DistinctSequential(vs)
  {
    var distinct: seq<Value> := [];
    var b := NoneValue;
    var i := 0;
    assert vs[0..] == vs;
    match SequentialFrom(b, vs) {
      case None =>
      case Some(t) => assert [] + t == t;
    }
    while i < |vs|
      invariant 0 <= i <= |vs|
      invariant b == if i == 0 then NoneValue else vs[i - 1]
      invariant DistinctSequential(vs) == Prefixed(distinct, SequentialFrom(b, vs[i..]))
    {
      assert vs[i..][1..] == vs[i + 1..];
      var c := Compare(vs[i], b);
      if c == Failed {
        return None;
      }
      if c == NotEqual {
        match SequentialFrom(vs[i], vs[i + 1..]) {
          case None =>
          case Some(t) => assert distinct + ([vs[i]] + t) == (distinct + [vs[i]]) + t;
        }
        distinct := distinct + [vs[i]];
      }
      b := vs[i];
      i := i + 1;
    }
    assert vs[i..] == [];
    assert distinct + [] == distinct;
    return Some(distinct);
  }

  /** Sequential de-duplication raises exactly when some value cannot be compared. */
  lemma {:induction false} SequentialFailsIffUncomparable(prev: Value, vs: seq<Value>)
    requires !prev.Uncomparable?
    ensures SequentialFrom(prev, vs).None? <==> exists i :: 0 <= i < |vs| && vs[i].Uncomparable?
    decreases |vs|
  {
    if vs != [] {
      if !vs[0].Uncomparable? {
        SequentialFailsIffUncomparable(vs[0], vs[1..]);
        assert forall i :: 1 <= i < |vs| ==> vs[i] == vs[1..][i - 1];
      }
    }
  }

  /**
   * What survives: no two neighbours are equal, every kept value comes from the
   * input, and only values equal to their predecessor (for the first one, to
   * `prev`) are dropped.
   */
  lemma {:induction false} SequentialShape(prev: Value, vs: seq<Value>)
    requires SequentialFrom(prev, vs).Some?
    ensures var r := SequentialFrom(prev, vs).value;
      && |r| <= |vs|
      && (forall k :: 0 <= k < |r| ==> r[k] in vs)
      && (r != [] ==> r[0] != prev)
      && (forall k :: 0 <= k < |r| - 1 ==> r[k] != r[k + 1])
      && (forall k :: 0 <= k < |vs| && vs[k] != prev ==> vs[k] in r)
    decreases |vs|
  {
    if vs != [] {
      SequentialShape(vs[0], vs[1..]);
      var r := SequentialFrom(prev, vs).value;
      var t := SequentialFrom(vs[0], vs[1..]).value;
      forall k | 0 <= k < |vs| && vs[k] != prev
        ensures vs[k] in r
      {
        if k > 0 {
          assert vs[1..][k - 1] == vs[k];
          if vs[k] != vs[0] {
            assert vs[k] in t;
          }
        }
      }
    }
  }

  /** Only leading `None`s are dropped by `distinct_sequential_values`. */
  lemma DistinctSequentialDropsLeadingNone(vs: seq<Value>)
    requires DistinctSequential(vs).Some?
    ensures var r := DistinctSequential(vs).value;
      && (r != [] ==> r[0] != NoneValue)
      && (forall k :: 0 <= k < |r| - 1 ==> r[k] != r[k + 1])
      && (forall x :: x in vs && x != NoneValue ==> x in r)
      && (forall x :: x in r ==> x in vs)
  {
    SequentialShape(NoneValue, vs);
  }

  /** `distinct_values_str`: the distinct printed forms, in first-seen order. */
  method DistinctValuesStr(vs: seq<Value>) returns (r: seq<string>)
    ensures r == Dedup(StrAll(vs))
  {
    r := [];
    var i := 0;
    while i < |vs|
      invariant 0 <= i <= |vs|
      invariant r == Dedup(StrAll(vs[..i]))
    {
      assert vs[..i + 1][..i] == vs[..i];
      if Str(vs[i]) !in r {
        r := r + [Str(vs[i])];
      }
      i := i + 1;
    }
    assert vs[..i] == vs;
  }

  /** `[str(v) for v in vs]`. */
  function StrAll(vs: seq<Value>): (r: seq<string>)
    ensures |r| == |vs| && forall k :: 0 <= k < |vs| ==> r[k] == Str(vs[k])
  {
    if vs == [] then [] else StrAll(vs[..|vs| - 1]) + [Str(vs[|vs| - 1])]
  }

  /**
   * `distinct_values`: the distinct values in first-seen order, or `None` when
   * one of them cannot be a dict key (the `TypeError` the dict raises).
   */
  function DistinctHashable(vs: seq<Value>): (r: Option<seq<Value>>)
  {
    if forall k :: 0 <= k < |vs| ==> Hashable(vs[k]) then Some(Dedup(vs)) else None
  }

  method DistinctValues(vs: seq<Value>) returns (r: Option<seq<Value>>)
    ensures r == DistinctHashable(vs)
  {
    var seen: seq<Value> := [];
    var i := 0;
    while i < |vs|
      invariant 0 <= i <= |vs|
      invariant forall k :: 0 <= k < i ==> Hashable(vs[k])
      invariant seen == Dedup(vs[..i])
    {
      if !Hashable(vs[i]) {
        return None;
      }
      assert vs[..i + 1][..i] == vs[..i];
      if vs[i] !in seen {
        seen := seen + [vs[i]];
      }
      i := i + 1;
    }
    assert vs[..i] == vs;
    return Some(seen);
  }
}
