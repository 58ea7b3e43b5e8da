/**
 * The older per-test recording model (happyflow/flow_state.py): one
 * `FlowResult` per unit under test, one `Flow` per test that ran it, and a
 * `StateResult` holding per-variable histories keyed by name.  Unlike the
 * newer model, a comparison that raises while detecting a change propagates
 * out of `add`.
 */
module FlowStates {
  import opened Wrappers
  import opened Seqs
  import opened Dicts
  import opened Text
  import opened Values
  import Lines
  import opened Info

  /** One observation of a variable at a line. */
  datatype VarState = VarState(name: string, value: Value, line: int, valueHasChanged: bool)
  {
    function ToString(): string
    {
      name + "=" + Str(value)
    }
  }

  /**
   * The history after `VarStateHistory.add`: the first observation is a
   * change, a later one is a change when it compares unequal to the last;
   * none when that comparison raises, in which case nothing is appended.
   */
  function Added(states: seq<VarState>, name: string, value: Value, line: int): Option<seq<VarState>>
  {
    if states == [] then Some([VarState(name, value, line, true)])
    else
      match Compare(states[|states| - 1].value, value)
      case Failed => None
      case Equal => Some(states + [VarState(name, value, line, false)])
      case NotEqual => Some(states + [VarState(name, value, line, true)])
  }

  /** The `k`-th state is the first one or compares unequal to the one before it. */
  predicate DiffersFromPrevious(states: seq<VarState>, k: int)
    requires 0 <= k < |states|
  {
    k == 0 || Compare(states[k - 1].value, states[k].value) == NotEqual
  }

  ghost predicate FlagsConsistent(states: seq<VarState>)
  {
    forall k :: 0 <= k < |states| ==> states[k].valueHasChanged == DiffersFromPrevious(states, k)
  }

  /**
   * `add` raises exactly when the last value cannot be compared with the new
   * one; otherwise it appends one state, keeps the older ones, and the flag
   * of the new state says whether it differs from the previous one.
   */
  lemma AddedSpec(states: seq<VarState>, name: string, value: Value, line: int)
    ensures Added(states, name, value, line).None? <==>
      states != [] && (states[|states| - 1].value.Uncomparable? || value.Uncomparable?)
    ensures Added(states, name, value, line).Some? ==>
      var r := Added(states, name, value, line).value;
      && |r| == |states| + 1 && r[..|states|] == states
      && r[|states|] == VarState(name, value, line, DiffersFromPrevious(r, |states|))
      && (FlagsConsistent(states) ==> FlagsConsistent(r))
  {
    var o := Added(states, name, value, line);
    if o.Some? {
      var r := o.value;
      assert r[..|states|] == states;
      if FlagsConsistent(states) {
        forall k | 0 <= k < |r|
          ensures r[k].valueHasChanged == DiffersFromPrevious(r, k)
        {
          if k < |states| {
            assert r[k] == states[k];
            assert states[k].valueHasChanged == DiffersFromPrevious(states, k);
            if k > 0 {
              assert r[k - 1] == states[k - 1];
            }
          } else if k > 0 {
            assert r[k - 1] == states[|states| - 1];
          }
        }
      }
    }
  }

  /** The history of one variable within one test. */
  class VarStateHistory {
    var name: string
    var states: seq<VarState>

    ghost predicate Valid()
      reads this
    {
      FlagsConsistent(states)
    }

    constructor (name: string, states: seq<VarState>)
      ensures this.name == name && this.states == states
    {
      this.name := name;
      this.states := states;
    }

    /** `add`; `raised` models the exception of a failed comparison, which leaves the history alone. */
    method Add(name: string, value: Value, line: int) returns (raised: bool)
      modifies this
      ensures raised <==> Added(old(states), name, value, line).None?
      ensures states == if raised then old(states) else Added(old(states), name, value, line).value
      ensures this.name == old(this.name)
    {
      var valueHasChanged := false;
      if |states| == 0 {
        valueHasChanged := true;
      } else {
        var lastState := GetLast();
        match Compare(lastState.value, value)
        case Failed =>
          return true;
        case NotEqual =>
          valueHasChanged := true;
        case Equal =>
      }
      states := states + [VarState(name, value, line, valueHasChanged)];
      raised := false;
    }

    function GetLast(): (s: VarState)
      reads this
      requires states != []
      ensures s == states[|states| - 1]
    {
      states[|states| - 1]
    }

    /**
     * `first_last`: the first and the last state, the same one twice when there
     * is one; none on an empty history, where `states[0]` raises `IndexError`.
     */
    function FirstLast(): (r: Option<(VarState, VarState)>)
      reads this
      ensures r.None? <==> states == []
      ensures r.Some? ==> r.value.0 == states[0] && r.value.1 == states[|states| - 1]
      ensures |states| == 1 ==> r.Some? && r.value.0 == r.value.1
    {
      if |states| == 1 then Some((states[0], states[0]))
      else if states == [] then None
      else Some((states[0], states[|states| - 1]))
    }

    method DistinctValuesStr() returns (r: seq<string>)
      ensures r == Dedup(StrAll(ValuesOf(states)))
    {
      r := Values.DistinctValuesStr(ValuesOf(states));
    }

    method DistinctSequentialValues() returns (r: Option<seq<Value>>)
      ensures r == DistinctSequential(ValuesOf(states))
    {
      r := Values.DistinctSequentialValues(ValuesOf(states));
    }

    method DistinctValues() returns (r: Option<seq<Value>>)
      ensures r == DistinctHashable(ValuesOf(states))
    {
      r := Values.DistinctValues(ValuesOf(states));
    }

    function ToString(): string
      reads this
    {
      "name: " + name + ", values: " + NatToString(|states|)
    }
  }

  function ValuesOf(states: seq<VarState>): (r: seq<Value>)
    ensures |r| == |states| && forall k :: 0 <= k < |states| ==> r[k] == states[k].value
  {
    if states == [] then [] else ValuesOf(states[..|states| - 1]) + [states[|states| - 1].value]
  }

  // ---------------------------------------------------------------------
  // StateResult
  // ---------------------------------------------------------------------

  /** The texts of the states at `line` whose value changed, in recording order. */
  function ChangedTextsAt(states: seq<VarState>, line: int): seq<string>
  {
    if states == [] then []
    else
      var st := states[|states| - 1];
      var init := ChangedTextsAt(states[..|states| - 1], line);
      if st.line == line && st.valueHasChanged then init + [st.ToString()] else init
  }

  lemma {:induction false} ChangedTextsNonEmpty(states: seq<VarState>, line: int)
    ensures forall i :: 0 <= i < |ChangedTextsAt(states, line)| ==> ChangedTextsAt(states, line)[i] != []
  {
    if states != [] {
      ChangedTextsNonEmpty(states[..|states| - 1], line);
      var st := states[|states| - 1];
      assert st.ToString()[|st.name|] == '=';
    }
  }

  /** `states_for_line` of this model: the accumulated texts, trailing space kept. */
  function RawLineEntries(keys: seq<string>, vars: map<string, seq<VarState>>, line: int): seq<string>
  {
    if keys == [] then []
    else
      var init := RawLineEntries(keys[..|keys| - 1], vars, line);
      var k := keys[|keys| - 1];
      var text := if k != "self" && k in vars then JoinUnseen(ChangedTextsAt(vars[k], line)) else "";
      if text != "" then init + [text] else init
  }

  /**
   * The variables this `states_for_line` reports, in key order: not `self`,
   * and with a changed state at the line.
   */
  function RawReportedVars(keys: seq<string>, vars: map<string, seq<VarState>>, line: int): (r: seq<string>)
    ensures forall j :: 0 <= j < |r| ==> r[j] in keys && r[j] in vars
  {
    if keys == [] then []
    else
      var init := RawReportedVars(keys[..|keys| - 1], vars, line);
      var k := keys[|keys| - 1];
      if k != "self" && k in vars && ChangedTextsAt(vars[k], line) != [] then init + [k] else init
  }

  /** Which keys `states_for_line` reports at `line`, position by position. */
  function ReportedMarks(keys: seq<string>, vars: map<string, seq<VarState>>, line: int): (m: seq<bool>)
    ensures |m| == |keys|
    ensures forall i :: 0 <= i < |keys| ==> m[i] == (keys[i] != "self" && keys[i] in vars && ChangedTextsAt(vars[keys[i]], line) != [])
  {
    if keys == [] then []
    else
      var k := keys[|keys| - 1];
      ReportedMarks(keys[..|keys| - 1], vars, line) + [k != "self" && k in vars && ChangedTextsAt(vars[k], line) != []]
  }

  /** The reported variables are the keys at the reported positions, in key order. */
  lemma {:induction false} RawReportedVarsOrder(keys: seq<string>, vars: map<string, seq<VarState>>, line: int)
    ensures RawReportedVars(keys, vars, line) == Select(keys, Positions(ReportedMarks(keys, vars, line)))
  {
    if keys != [] {
      var n := |keys| - 1;
      RawReportedVarsOrder(keys[..n], vars, line);
      assert ReportedMarks(keys, vars, line)[..n] == ReportedMarks(keys[..n], vars, line);
      SelectStep(keys, ReportedMarks(keys, vars, line));
    }
  }

  /** The last key adds an entry exactly when it adds itself to the reported variables. */
  lemma RawLineEntriesAdded(keys: seq<string>, vars: map<string, seq<VarState>>, line: int)
    requires keys != []
    ensures var k := keys[|keys| - 1];
      var ri, vi := RawLineEntries(keys[..|keys| - 1], vars, line), RawReportedVars(keys[..|keys| - 1], vars, line);
      if k != "self" && k in vars && ChangedTextsAt(vars[k], line) != [] then
        && RawLineEntries(keys, vars, line) == ri + [JoinUnseen(ChangedTextsAt(vars[k], line))]
        && RawReportedVars(keys, vars, line) == vi + [k]
      else
        RawLineEntries(keys, vars, line) == ri && RawReportedVars(keys, vars, line) == vi
  {
    var k := keys[|keys| - 1];
    if k in vars {
      ChangedTextsNonEmpty(vars[k], line);
      JoinUnseenEmpty(ChangedTextsAt(vars[k], line));
    }
  }

  /**
   * `states_for_line` yields exactly one entry per reported variable, in key
   * order: the accumulated `name=value` texts of that variable at the line,
   * trailing space kept.
   */
  lemma {:induction false} RawLineEntriesExact(keys: seq<string>, vars: map<string, seq<VarState>>, line: int)
    ensures var r, vs := RawLineEntries(keys, vars, line), RawReportedVars(keys, vars, line);
      && |r| == |vs|
      && forall j :: 0 <= j < |vs| ==> r[j] == JoinUnseen(ChangedTextsAt(vars[vs[j]], line))
  {
    if keys != [] {
      RawLineEntriesExact(keys[..|keys| - 1], vars, line);
      RawLineEntriesAdded(keys, vars, line);
    }
  }

  /**
   * A variable is reported exactly when it is one of the keys, is not `self`
   * and has a changed state at the line; with distinct keys, no variable is
   * reported twice.
   */
  lemma {:induction false} RawReportedVarsSpec(keys: seq<string>, vars: map<string, seq<VarState>>, line: int)
    ensures forall k :: k in RawReportedVars(keys, vars, line) <==>
      k in keys && k != "self" && k in vars && ChangedTextsAt(vars[k], line) != []
    ensures NoDuplicates(keys) ==> NoDuplicates(RawReportedVars(keys, vars, line))
  {
    if keys != [] {
      var init := keys[..|keys| - 1];
      RawReportedVarsSpec(init, vars, line);
      assert forall x :: x in keys <==> x in init || x == keys[|keys| - 1];
      if NoDuplicates(keys) {
        assert NoDuplicates(init);
        assert keys[|keys| - 1] !in init;
      }
    }
  }

  /** One more key: its accumulation, if not empty, goes last. */
  lemma RawLineEntriesStep(keys: seq<string>, vars: map<string, seq<VarState>>, line: int, i: nat)
    requires i < |keys| && keys[i] in vars
    ensures var text := if keys[i] != "self" then JoinUnseen(ChangedTextsAt(vars[keys[i]], line)) else "";
      RawLineEntries(keys[..i + 1], vars, line)
        == if text != "" then RawLineEntries(keys[..i], vars, line) + [text] else RawLineEntries(keys[..i], vars, line)
  {
    assert keys[..i + 1][..i] == keys[..i];
  }

  /**
   * An entry of `states_for_line`: a non-empty accumulation, ending in a
   * space, of the changed states at the line of one non-`self` variable
   * among `keys`.
   */
  predicate RawEntry(e: string, keys: seq<string>, vars: map<string, seq<VarState>>, line: int)
  {
    && e != "" && e[|e| - 1] == ' '
    && exists k :: k in keys && k in vars && k != "self" && e == JoinUnseen(ChangedTextsAt(vars[k], line))
  }

  /** There is at most one entry per variable, and every entry is a `RawEntry`. */
  lemma {:induction false} RawLineEntriesSpec(keys: seq<string>, vars: map<string, seq<VarState>>, line: int)
    ensures |RawLineEntries(keys, vars, line)| <= |keys|
    ensures forall j :: 0 <= j < |RawLineEntries(keys, vars, line)| ==> RawEntry(RawLineEntries(keys, vars, line)[j], keys, vars, line)
  {
    if keys != [] {
      var init := keys[..|keys| - 1];
      RawLineEntriesSpec(init, vars, line);
      var ri := RawLineEntries(init, vars, line);
      forall j | 0 <= j < |ri|
        ensures RawEntry(ri[j], keys, vars, line)
      {
        RawEntryWiden(ri[j], keys, vars, line);
      }
      RawLineEntriesLast(keys, vars, line);
    }
  }

  /** An entry for the variables but the last is an entry for all of them. */
  lemma RawEntryWiden(e: string, keys: seq<string>, vars: map<string, seq<VarState>>, line: int)
    requires keys != [] && RawEntry(e, keys[..|keys| - 1], vars, line)
    ensures RawEntry(e, keys, vars, line)
  {
    var k :| k in keys[..|keys| - 1] && k in vars && k != "self" && e == JoinUnseen(ChangedTextsAt(vars[k], line));
    assert k in keys;
  }

  /** The last variable adds at most one entry, and that entry is a `RawEntry`. */
  lemma RawLineEntriesLast(keys: seq<string>, vars: map<string, seq<VarState>>, line: int)
    requires keys != []
    ensures var r := RawLineEntries(keys, vars, line);
      var ri := RawLineEntries(keys[..|keys| - 1], vars, line);
      r == ri || (|r| == |ri| + 1 && r[..|ri|] == ri && RawEntry(r[|ri|], keys, vars, line))
  {
    var k := keys[|keys| - 1];
    var r := RawLineEntries(keys, vars, line);
    var ri := RawLineEntries(keys[..|keys| - 1], vars, line);
    if k != "self" && k in vars && JoinUnseen(ChangedTextsAt(vars[k], line)) != "" {
      var text := JoinUnseen(ChangedTextsAt(vars[k], line));
      JoinUnseenEndsWithSpace(ChangedTextsAt(vars[k], line));
      assert r == ri + [text];
      assert k in keys;
      assert RawEntry(text, keys, vars, line);
    } else {
      assert r == ri;
    }
  }

  /** `diff`: the items of the first list that do not occur in the second, order and repeats kept. */
  function Diff(list1: seq<string>, list2: seq<string>): seq<string>
  {
    if list1 == [] then []
    else
      var item := list1[|list1| - 1];
      Diff(list1[..|list1| - 1], list2) + (if item !in list2 then [item] else [])
  }

  /**
   * Every item survives as often as it occurs in the first list when it is
   * absent from the second, and not at all otherwise.
   */
  lemma {:induction false} DiffSpec(list1: seq<string>, list2: seq<string>)
    ensures forall x :: Count(Diff(list1, list2), x) == if x in list2 then 0 else Count(list1, x)
    ensures forall x :: x in Diff(list1, list2) <==> x in list1 && x !in list2
    ensures |Diff(list1, list2)| <= |list1|
  {
    if list1 != [] {
      var init := list1[..|list1| - 1];
      var item := list1[|list1| - 1];
      DiffSpec(init, list2);
      forall x
        ensures Count(Diff(list1, list2), x) == if x in list2 then 0 else Count(list1, x)
      {
        CountAppend(Diff(init, list2), if item !in list2 then [item] else [], x);
      }
      forall x
        ensures x in Diff(list1, list2) <==> x in list1 && x !in list2
      {
        CountPositive(Diff(list1, list2), x);
        CountPositive(list1, x);
      }
    }
  }

  /** A line's states differ from themselves in nothing; against no states, all are kept. */
  lemma {:induction false} DiffSelfAndEmpty(list: seq<string>)
    ensures Diff(list, list) == []
    ensures Diff(list, []) == list
  {
    DiffCovered(list, list);
    if list != [] {
      DiffSelfAndEmpty(list[..|list| - 1]);
    }
  }

  /** Which items of `list1` are absent from `list2`, position by position. */
  function AbsentMarks(list1: seq<string>, list2: seq<string>): (m: seq<bool>)
    ensures |m| == |list1| && forall i :: 0 <= i < |list1| ==> m[i] == (list1[i] !in list2)
  {
    if list1 == [] then [] else AbsentMarks(list1[..|list1| - 1], list2) + [list1[|list1| - 1] !in list2]
  }

  /**
   * The difference is the items of the first list at the positions whose
   * item is absent from the second, in the first list's order.
   */
  lemma {:induction false} DiffOrder(list1: seq<string>, list2: seq<string>)
    ensures Diff(list1, list2) == Select(list1, Positions(AbsentMarks(list1, list2)))
  {
    if list1 != [] {
      var n := |list1| - 1;
      DiffOrder(list1[..n], list2);
      assert AbsentMarks(list1, list2)[..n] == AbsentMarks(list1[..n], list2);
      SelectStep(list1, AbsentMarks(list1, list2));
    }
  }

  lemma {:induction false} DiffCovered(list1: seq<string>, list2: seq<string>)
    requires forall i :: 0 <= i < |list1| ==> list1[i] in list2
    ensures Diff(list1, list2) == []
  {
    if list1 != [] {
      DiffCovered(list1[..|list1| - 1], list2);
    }
  }

  /** The recorded states of one unit within one test. */
  class StateResult {
    const sutName: string
    var vars: Dict<string, seq<VarState>>

    ghost predicate Valid()
      reads this
    {
      vars.Valid()
    }

    constructor (name: string)
      ensures Valid() && sutName == name && vars == Empty()
    {
      sutName := name;
      vars := Empty();
    }

    /**
     * `add`: the variable's history is created (empty) before the state is
     * added, so the name is present even when the comparison raises.
     */
    method Add(name: string, value: Value, line: int) returns (raised: bool)
      requires Valid()
      modifies this
      ensures Valid() && name in vars.items
      ensures raised <==> Added(old(vars).GetOr(name, []), name, value, line).None?
      ensures vars == old(vars).Put(name,
        if raised then old(vars).GetOr(name, []) else Added(old(vars).GetOr(name, []), name, value, line).value)
    {
      var h := vars.GetOr(name, []);
      vars := vars.Put(name, h);
      var o := Added(h, name, value, line);
      if o.None? {
        return true;
      }
      vars := vars.Put(name, o.value);
      raised := false;
    }

    /** `states_for_line`. */
    method StatesForLine(lineNumber: int) returns (states: seq<string>)
      requires Valid()
      ensures states == RawLineEntries(vars.keys, vars.items, lineNumber)
    {
      var keys := vars.keys;
      var items := vars.items;
      assert forall j :: 0 <= j < |keys| ==> keys[j] in items;
      states := [];
      var i := 0;
      while i < |keys|
        invariant 0 <= i <= |keys|
        invariant states == RawLineEntries(keys[..i], items, lineNumber)
      {
        var v := keys[i];
        var text := "";
        if v != "self" {
          text := ChangedText(items[v], lineNumber);
        }
        RawLineEntriesStep(keys, items, lineNumber, i);
        if text != "" {
          states := states + [text];
        }
        i := i + 1;
      }
      assert keys[..i] == keys;
    }

    /** `state_diff_between_two_lines`: what is shown at the first line and not at the second. */
    method StateDiffBetweenTwoLines(lineNumber1: int, lineNumber2: int) returns (r: seq<string>)
      requires Valid()
      ensures r == Diff(RawLineEntries(vars.keys, vars.items, lineNumber1), RawLineEntries(vars.keys, vars.items, lineNumber2))
    {
      var list1 := StatesForLine(lineNumber1);
      var list2 := StatesForLine(lineNumber2);
      r := Diff(list1, list2);
    }
  }

  /** The inner loop of `states_for_line`. */
  method ChangedText(history: seq<VarState>, lineNumber: int) returns (text: string)
    ensures text == JoinUnseen(ChangedTextsAt(history, lineNumber))
  {
    text := "";
    var j := 0;
    while j < |history|
      invariant 0 <= j <= |history|
      invariant text == JoinUnseen(ChangedTextsAt(history[..j], lineNumber))
    {
      var state := history[j];
      assert history[..j + 1][..j] == history[..j];
      ghost var texts := ChangedTextsAt(history[..j], lineNumber);
      if state.line == lineNumber {
        if !Contains(text, state.ToString()) && state.valueHasChanged {
          text := text + state.ToString() + " ";
        }
        if state.valueHasChanged {
          assert (texts + [state.ToString()])[..|texts|] == texts;
        }
      }
      j := j + 1;
    }
    assert history[..j] == history;
  }

  // ---------------------------------------------------------------------
  // FlowResult and Flow
  // ---------------------------------------------------------------------

  /** One test's run of the unit: its name, the lines it ran and its recorded states. */
  datatype Flow = Flow(testName: string, runLines: seq<int>, stateResult: Option<StateResult>)
  {
    /** `sorted(list(set(run_lines)))`. */
    function DistinctLines(): (r: seq<int>)
      ensures Lines.StrictlyIncreasing(r)
      ensures forall l :: l in r <==> l in runLines
    {
      Lines.SortedDistinct(runLines)
    }
  }

  class FlowResult {
    const sut: MethodInfo
    const sutName: string
    var testNames: seq<string>
    var flows: seq<Flow>

    /** One flow per test name, in the same order. */
    ghost predicate Valid()
      reads this
    {
      |testNames| == |flows| && forall i :: 0 <= i < |flows| ==> flows[i].testName == testNames[i]
    }

    constructor (sut: MethodInfo)
      ensures Valid() && this.sut == sut && sutName == sut.name
      ensures testNames == [] && flows == []
    {
      this.sut := sut;
      sutName := sut.name;
      testNames := [];
      flows := [];
    }

    method Add(testName: string, runLines: seq<int>, stateResult: Option<StateResult>)
      requires Valid()
      modifies this
      ensures Valid()
      ensures testNames == old(testNames) + [testName]
      ensures flows == old(flows) + [Flow(testName, runLines, stateResult)]
    {
      testNames := testNames + [testName];
      flows := flows + [Flow(testName, runLines, stateResult)];
    }

    /** `number_of_tests`: one per recorded flow. */
    function NumberOfTests(): (n: nat)
      reads this
      ensures Valid() ==> n == |flows|
    {
      |testNames|
    }
  }
}
