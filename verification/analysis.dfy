/**
 * Frequency analysis of the values seen across the calls of a flow group and
 * its textual rendering (the `Analysis` class of happyflow/info.py).
 */
module Analysis {
  import opened Wrappers
  import opened Seqs
  import opened Dicts
  import opened Text
  import opened Values

  /** How many pairs `_most_common` keeps. */
  const TopN: nat := 10

  /** How many characters of a rendering are shown before it is cut. */
  const MaxLen: nat := 150

  /** A `(value, count)` pair of `Counter.most_common`. */
  type Tally = (Value, nat)

  // ---------------------------------------------------------------------
  // Counter(elements).most_common(n)
  // ---------------------------------------------------------------------

  /**
   * The order `most_common` lists values in: higher counts first, equal
   * counts in the order the values were first seen.
   */
  predicate Before(p: Tally, q: Tally, elements: seq<Value>)
    requires p.0 in elements && q.0 in elements
  {
    p.1 > q.1 || (p.1 == q.1 && IndexOf(elements, p.0) < IndexOf(elements, q.0))
  }

  /** The pair holds a value of `elements` and its true number of occurrences. */
  predicate IsTally(p: Tally, elements: seq<Value>)
  {
    p.0 in elements && p.1 == Count(elements, p.0)
  }

  predicate Tallies(s: seq<Tally>, elements: seq<Value>)
  {
    forall i :: 0 <= i < |s| ==> IsTally(s[i], elements)
  }

  /** Strictly ranked by `Before` (which also makes the values distinct). */
  predicate Ranked(s: seq<Tally>, elements: seq<Value>)
    requires Tallies(s, elements)
  {
    forall i, j :: 0 <= i < j < |s| ==> Before(s[i], s[j], elements)
  }

  /** Places `p` among the ranked pairs `s`. */
  function Insert(p: Tally, s: seq<Tally>, elements: seq<Value>): (r: seq<Tally>)
    requires IsTally(p, elements) && Tallies(s, elements)
    ensures |r| == |s| + 1
    ensures forall q :: q in r <==> q == p || q in s
  {
    if s == [] then [p]
    else if Before(p, s[0], elements) then [p] + s
    else
      assert Tallies(s[1..], elements);
      [s[0]] + Insert(p, s[1..], elements)
  }

  /** The pairs of the `keys`, ranked. */
  function Rank(keys: seq<Value>, elements: seq<Value>): (r: seq<Tally>)
    requires forall i :: 0 <= i < |keys| ==> keys[i] in elements
    ensures |r| == |keys|
    ensures Tallies(r, elements)
    ensures forall q :: q in r <==> q.0 in keys && q.1 == Count(elements, q.0)
  {
    if keys == [] then []
    else
      var k := keys[|keys| - 1];
      var init := Rank(keys[..|keys| - 1], elements);
      assert forall x :: x in keys <==> x in keys[..|keys| - 1] || x == k;
      Insert((k, Count(elements, k)), init, elements)
  }

  /** Distinct values of `elements` in Python's `==` are ordered one way or the other. */
  lemma BeforeTotal(p: Tally, q: Tally, elements: seq<Value>)
    requires IsTally(p, elements) && IsTally(q, elements) && p.0 != q.0
    ensures Before(p, q, elements) || Before(q, p, elements)
  {
    var i, j := IndexOf(elements, p.0), IndexOf(elements, q.0);
    assert elements[i] == p.0 && elements[j] == q.0;
  }

  lemma {:induction false} InsertRanked(p: Tally, s: seq<Tally>, elements: seq<Value>)
    requires IsTally(p, elements) && Tallies(s, elements) && Ranked(s, elements)
    requires forall i :: 0 <= i < |s| ==> s[i].0 != p.0
    ensures Tallies(Insert(p, s, elements), elements)
    ensures Ranked(Insert(p, s, elements), elements)
  {
    if s != [] && !Before(p, s[0], elements) {
      var t := s[1..];
      assert Tallies(t, elements);
      InsertRanked(p, t, elements);
      BeforeTotal(p, s[0], elements);
      var r := Insert(p, s, elements);
      var rt := Insert(p, t, elements);
      assert r == [s[0]] + rt;
      forall j | 0 < j < |r|
        ensures Before(s[0], r[j], elements)
      {
        assert r[j] in rt;
        if r[j] != p {
          assert r[j] in t;
          var k :| 0 <= k < |t| && t[k] == r[j];
          assert s[k + 1] == r[j];
        }
      }
    }
  }

  lemma {:induction false} RankRanked(keys: seq<Value>, elements: seq<Value>)
    requires forall i :: 0 <= i < |keys| ==> keys[i] in elements
    requires NoDuplicates(keys)
    ensures Ranked(Rank(keys, elements), elements)
  {
    if keys != [] {
      var init := keys[..|keys| - 1];
      var k := keys[|keys| - 1];
      RankRanked(init, elements);
      var s := Rank(init, elements);
      forall i | 0 <= i < |s|
        ensures s[i].0 != k
      {
        assert s[i] in s;
        assert s[i].0 in init;
      }
      InsertRanked((k, Count(elements, k)), s, elements);
    }
  }

  /**
   * `Counter(elements).most_common(n)`, or `[]` where building the counter
   * raises `TypeError` because some element cannot be hashed.
   */
  function MostCommonN(elements: seq<Value>, n: nat): seq<Tally>
  {
    if forall i :: 0 <= i < |elements| ==> Hashable(elements[i]) then
      var ranked := Rank(Dedup(elements), elements);
      if |ranked| <= n then ranked else ranked[..n]
    else []
  }

  /** `_most_common(elements)` with its default of ten pairs. */
  function MostCommon(elements: seq<Value>): seq<Tally>
  {
    MostCommonN(elements, TopN)
  }

  /** A ranked list lists distinct values with non-increasing counts. */
  lemma RankedShape(s: seq<Tally>, elements: seq<Value>)
    requires Tallies(s, elements) && Ranked(s, elements)
    ensures forall i, j :: 0 <= i < j < |s| ==> s[i].1 >= s[j].1 && s[i].0 != s[j].0
  {
    forall i, j | 0 <= i < j < |s|
      ensures s[i].1 >= s[j].1 && s[i].0 != s[j].0
    {
      assert Before(s[i], s[j], elements);
    }
  }

  /**
   * `most_common(n)` keeps at most `n` pairs, one per distinct value, each
   * with its true count, ranked by count with ties in first-seen order, and
   * nothing is counted when an element is unhashable.
   */
  lemma MostCommonSpec(elements: seq<Value>, n: nat)
    ensures var r := MostCommonN(elements, n);
      && |r| <= n
      && Tallies(r, elements)
      && Ranked(r, elements)
      && (forall i, j :: 0 <= i < j < |r| ==> r[i].1 >= r[j].1 && r[i].0 != r[j].0)
      && ((exists i :: 0 <= i < |elements| && !Hashable(elements[i])) ==> r == [])
  {
    if forall i :: 0 <= i < |elements| ==> Hashable(elements[i]) {
      var ranked := Rank(Dedup(elements), elements);
      RankRanked(Dedup(elements), elements);
      var r := MostCommonN(elements, n);
      assert r == ranked[..|r|];
      assert Tallies(r, elements) by {
        forall i | 0 <= i < |r| ensures IsTally(r[i], elements) {
          assert r[i] == ranked[i];
        }
      }
      forall i, j | 0 <= i < j < |r|
        ensures Before(r[i], r[j], elements)
      {
        assert r[i] == ranked[i] && r[j] == ranked[j];
      }
      RankedShape(r, elements);
    }
  }

  /**
   * When every element is hashable, `most_common(n)` keeps `n` pairs or all
   * distinct values if there are fewer, and every value it leaves out ranks
   * after every value it keeps.
   */
  lemma MostCommonTop(elements: seq<Value>, n: nat)
    requires forall i :: 0 <= i < |elements| ==> Hashable(elements[i])
    ensures var r := MostCommonN(elements, n);
      && |r| == (if |Dedup(elements)| <= n then |Dedup(elements)| else n)
      && (forall v, i :: v in elements && (forall j :: 0 <= j < |r| ==> r[j].0 != v) && 0 <= i < |r| ==>
            IsTally(r[i], elements) && Before(r[i], (v, Count(elements, v)), elements))
  {
    var keys := Dedup(elements);
    var ranked := Rank(keys, elements);
    RankRanked(keys, elements);
    var r := MostCommonN(elements, n);
    assert r == ranked[..|r|];
    forall v | v in elements && (forall j :: 0 <= j < |r| ==> r[j].0 != v)
      ensures forall i :: 0 <= i < |r| ==> IsTally(r[i], elements) && Before(r[i], (v, Count(elements, v)), elements)
    {
      assert (v, Count(elements, v)) in ranked;
      OmittedAfter(ranked, r, v, elements);
    }
  }

  lemma OmittedAfter(ranked: seq<Tally>, r: seq<Tally>, v: Value, elements: seq<Value>)
    requires Tallies(ranked, elements) && Ranked(ranked, elements)
    requires |r| <= |ranked| && r == ranked[..|r|]
    requires (v, Count(elements, v)) in ranked
    requires forall j :: 0 <= j < |r| ==> r[j].0 != v
    ensures forall i :: 0 <= i < |r| ==> IsTally(r[i], elements) && Before(r[i], (v, Count(elements, v)), elements)
  {
    var p :| 0 <= p < |ranked| && ranked[p] == (v, Count(elements, v));
    assert forall j :: 0 <= j < |r| ==> r[j] == ranked[j];
    assert p >= |r|;
  }

  /** The distinct values of `a, b, b` and how often each occurs. */
  lemma ExampleTallies()
    ensures Dedup([Plain("a"), Plain("b"), Plain("b")]) == [Plain("a"), Plain("b")]
    ensures Count([Plain("a"), Plain("b"), Plain("b")], Plain("a")) == 1
    ensures Count([Plain("a"), Plain("b"), Plain("b")], Plain("b")) == 2
  {
    var a, b := Plain("a"), Plain("b");
    var e := [a, b, b];
    assert e[..2] == [a, b] && [a, b][..1] == [a] && [a][..0] == [];
    assert Dedup([a]) == [a];
    assert Dedup([a, b]) == [a, b];
    assert Count([a], a) == 1 && Count([a], b) == 0;
    assert Count([a, b], a) == 1 && Count([a, b], b) == 1;
  }

  /** Ranking `a, b, b`: the twice-seen `b` goes ahead of `a`. */
  lemma ExampleRank()
    ensures Rank([Plain("a"), Plain("b")], [Plain("a"), Plain("b"), Plain("b")]) == [(Plain("b"), 2), (Plain("a"), 1)]
  {
    var a, b := Plain("a"), Plain("b");
    var e := [a, b, b];
    ExampleTallies();
    assert [a, b][..1] == [a] && [a][..0] == [];
    assert Rank([a], e) == [(a, 1)];
    assert Before((b, 2), (a, 1), e);
  }

  lemma MostCommonExample()
    ensures MostCommonN([Plain("a"), Plain("b"), Plain("b")], 10) == [(Plain("b"), 2), (Plain("a"), 1)]
  {
    var e := [Plain("a"), Plain("b"), Plain("b")];
    ExampleTallies();
    ExampleRank();
    assert forall i :: 0 <= i < |e| ==> Hashable(e[i]);
  }

  /** `most_common_args`: every argument's values counted, argument order kept. */
  method MostCommonArgs(args: Dict<string, seq<Value>>) returns (argsCount: Dict<string, seq<Tally>>)
    requires args.Valid()
    ensures argsCount.Valid() && argsCount.keys == args.keys
    ensures forall k :: k in argsCount.items ==> argsCount.items[k] == MostCommon(args.items[k])
  {
    argsCount := Empty();
    var i := 0;
    while i < |args.keys|
      invariant 0 <= i <= |args.keys|
      invariant argsCount.Valid() && argsCount.keys == args.keys[..i]
      invariant forall k :: k in argsCount.items ==> k in args.items && argsCount.items[k] == MostCommon(args.items[k])
    {
      var arg := args.keys[i];
      assert arg !in args.keys[..i];
      argsCount := argsCount.Put(arg, MostCommon(args.items[arg]));
      i := i + 1;
    }
    assert args.keys[..i] == args.keys;
  }

  /** `most_common_return_values`. */
  function MostCommonReturnValues(values: seq<Value>): seq<Tally>
  {
    MostCommon(values)
  }

  // ---------------------------------------------------------------------
  // Rendering
  // ---------------------------------------------------------------------

  /** `f'{value} ({count}) '` for one pair. */
  function RenderTally(t: Tally): (r: string)
    ensures |r| >= 4 && r[|r| - 1] == ' ' && r[|r| - 2] == ')'
  {
    Str(t.0) + " (" + NatToString(t.1) + ") "
  }

  /** The pairs rendered one after another. */
  function Render(tallies: seq<Tally>): (r: string)
    ensures r == "" <==> tallies == []
  {
    if tallies == [] then ""
    else Render(tallies[..|tallies| - 1]) + RenderTally(tallies[|tallies| - 1])
  }

  /** The string-building loop of `pretty_args` and `pretty_return_values`. */
  method RenderLoop(tallies: seq<Tally>) returns (values: string)
    ensures values == Render(tallies)
  {
    values := "";
    var i := 0;
    while i < |tallies|
      invariant 0 <= i <= |tallies|
      invariant values == Render(tallies[..i])
    {
      assert tallies[..i + 1][..i] == tallies[..i];
      values := values + RenderTally(tallies[i]);
      i := i + 1;
    }
    assert tallies[..i] == tallies;
  }

  /**
   * `clear_values(s, m)`: a string shorter than `m` is kept; otherwise its
   * first `m` characters followed by `...` (also when it is exactly `m` long).
   */
  function ClearValues(values: string, maxLen: nat): (r: string)
    ensures |r| <= maxLen + 3
    ensures |values| < maxLen ==> r == values
    ensures |values| >= maxLen ==> |r| == maxLen + 3 && IsPrefix(r[..maxLen], values) && r[maxLen..] == "..."
  {
    if |values| >= maxLen then values[..maxLen] + "..." else values
  }

  /** One entry of `pretty_args`: the argument name and its rendered tallies. */
  datatype ArgSummary = ArgSummary(name: string, value: string)

  /** `pretty_args`: one summary per argument, in argument order. */
  method PrettyArgs(args: Dict<string, seq<Tally>>, maxLen: nat) returns (result: seq<ArgSummary>)
    requires args.Valid()
    ensures |result| == |args.keys|
    ensures forall i :: 0 <= i < |result| ==>
      result[i] == ArgSummary(args.keys[i], ClearValues(Render(args.items[args.keys[i]]), maxLen))
  {
    result := [];
    var i := 0;
    while i < |args.keys|
      invariant 0 <= i <= |args.keys|
      invariant |result| == i
      invariant forall j :: 0 <= j < i ==>
        result[j] == ArgSummary(args.keys[j], ClearValues(Render(args.items[args.keys[j]]), maxLen))
    {
      var argName := args.keys[i];
      var values := RenderLoop(args.items[argName]);
      result := result + [ArgSummary(argName, ClearValues(values, maxLen))];
      i := i + 1;
    }
  }

  /**
   * `pretty_return_values`: nothing for no pairs, otherwise the rendering
   * cut to `maxLen` characters plus `...`.
   */
  method PrettyReturnValues(returnValues: seq<Tally>, maxLen: nat) returns (r: Option<string>)
    ensures returnValues == [] <==> r.None?
    ensures r.Some? ==> r.value == ClearValues(Render(returnValues), maxLen) && |r.value| <= maxLen + 3
  {
    var values := RenderLoop(returnValues);
    if values != "" {
      return Some(ClearValues(values, maxLen));
    }
    return None;
  }

  /** `most_common_args_pretty`. */
  method MostCommonArgsPretty(args: Dict<string, seq<Value>>) returns (result: seq<ArgSummary>)
    requires args.Valid()
    ensures |result| == |args.keys|
    ensures forall i :: 0 <= i < |result| ==>
      result[i] == ArgSummary(args.keys[i], ClearValues(Render(MostCommon(args.items[args.keys[i]])), MaxLen))
    ensures forall i :: 0 <= i < |result| ==> |result[i].value| <= 153
  {
    var counts := MostCommonArgs(args);
    result := PrettyArgs(counts, MaxLen);
  }

  /** `most_common_return_values_pretty`. */
  method MostCommonReturnValuesPretty(values: seq<Value>) returns (r: Option<string>)
    ensures r.None? <==> MostCommon(values) == []
    ensures r.Some? ==> r.value == ClearValues(Render(MostCommon(values)), MaxLen) && |r.value| <= 153
  {
    r := PrettyReturnValues(MostCommonReturnValues(values), MaxLen);
  }
}
