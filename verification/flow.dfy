/**
 * Per-call records and their state histories (happyflow/flow.py): a `Flow` is
 * one traced call, a `StateHistory` what was observed during it, a
 * `FlowContainer` all calls of one monitored unit and a `FlowResult` the
 * containers of every unit, keyed by unit name.
 */
module Flows {
  import opened Wrappers
  import opened Seqs
  import opened Dicts
  import opened Text
  import opened Values
  import Lines
  import opened Info

  // ---------------------------------------------------------------------
  // Snapshots
  // ---------------------------------------------------------------------

  /** One observation of a local variable: `lineno` is the frame's line, `inline` the line it is shown at. */
  datatype VarState = VarState(name: string, value: Value, lineno: int, inline: int, valueHasChanged: bool)
  {
    /** `str(state)`: `name=value`. */
    function ToString(): string
    {
      name + "=" + Str(value)
    }
  }

  datatype ArgState = ArgState(name: string, value: Value, lineno: int)
  {
    function ToString(): string
    {
      name + "=" + Str(value)
    }
  }

  datatype ReturnState = ReturnState(value: Value, lineno: int)

  datatype YieldState = YieldState(value: Value, lineno: int)

  datatype ExceptionState = ExceptionState(value: Value, line: int)

  /**
   * What `inspect.getargvalues` gives for a frame: the formal parameter names,
   * the names of the `*args` and `**kwargs` collections (absent or empty when
   * there are none) and the frame's locals, in their dict order.
   */
  datatype ArgValues = ArgValues(
    args: seq<string>,
    varargs: Option<string>,
    keywords: Option<string>,
    locals: Dict<string, Value>)

  // ---------------------------------------------------------------------
  // Change detection
  // ---------------------------------------------------------------------

  /**
   * `detect_value_has_changed`: the first observation is a change; a later one
   * is a change when `last.value != new_value` evaluates to true.  When that
   * comparison raises, the exception is swallowed and the answer is "no change".
   */
  function ValueHasChanged(states: seq<VarState>, newValue: Value): bool
  {
    states == [] || Compare(states[|states| - 1].value, newValue) == NotEqual
  }

  /** The history after `VarStateHistory.add`. */
  function Observed(states: seq<VarState>, name: string, value: Value, lineno: int, inline: int): seq<VarState>
  {
    states + [VarState(name, value, lineno, inline, ValueHasChanged(states, value))]
  }

  /**
   * Every flag of a history says whether that state differs from the one
   * before it (the first state always counts as changed).
   */
  ghost predicate FlagsConsistent(states: seq<VarState>)
  {
    forall k :: 0 <= k < |states| ==> states[k].valueHasChanged == DiffersFromPrevious(states, k)
  }

  /** The `k`-th state is the first one or compares unequal to the one before it. */
  predicate DiffersFromPrevious(states: seq<VarState>, k: int)
    requires 0 <= k < |states|
  {
    k == 0 || Compare(states[k - 1].value, states[k].value) == NotEqual
  }

  /**
   * Appending an observation keeps every older state and flag and adds one
   * state whose flag is true for the first state, true when the value differs
   * from the previous one, and false when they are equal or the comparison raised.
   */
  lemma ObservedSpec(states: seq<VarState>, name: string, value: Value, lineno: int, inline: int)
    ensures var r := Observed(states, name, value, lineno, inline);
      && |r| == |states| + 1 && r[..|states|] == states
      && r[|states|].name == name && r[|states|].value == value
      && r[|states|].lineno == lineno && r[|states|].inline == inline
      && (r[|states|].valueHasChanged <==>
            states == [] || (Compare(states[|states| - 1].value, value) == NotEqual))
      && (states != [] && Compare(states[|states| - 1].value, value) == Failed ==> !r[|states|].valueHasChanged)
      && (FlagsConsistent(states) ==> FlagsConsistent(r))
  {
    var r := Observed(states, name, value, lineno, inline);
    assert r[..|states|] == states;
    if FlagsConsistent(states) {
      ObservedFlags(states, name, value, lineno, inline);
    }
  }

  lemma ObservedFlags(states: seq<VarState>, name: string, value: Value, lineno: int, inline: int)
    requires FlagsConsistent(states)
    ensures FlagsConsistent(Observed(states, name, value, lineno, inline))
  {
    var r := Observed(states, name, value, lineno, inline);
    forall k | 0 <= k < |r|
      ensures r[k].valueHasChanged == DiffersFromPrevious(r, k)
    {
      if k < |states| {
        assert r[k] == states[k];
        assert states[k].valueHasChanged == DiffersFromPrevious(states, k);
        if k > 0 {
          assert r[k - 1] == states[k - 1];
        }
      } else {
        assert r[k].valueHasChanged == ValueHasChanged(states, value);
        assert r[k].value == value;
        if k > 0 {
          assert r[k - 1] == states[|states| - 1];
        }
      }
    }
  }

  function ValuesOf(states: seq<VarState>): (r: seq<Value>)
    ensures |r| == |states| && forall k :: 0 <= k < |states| ==> r[k] == states[k].value
  {
    if states == [] then [] else ValuesOf(states[..|states| - 1]) + [states[|states| - 1].value]
  }

  /** The history of one variable during one call. */
  class VarStateHistory {
    var name: string
    var states: seq<VarState>

    ghost predicate Valid()
      reads this
    {
      FlagsConsistent(states)
    }

    constructor (name: string, states: seq<VarState>)
      ensures this.name == name && this.states == states
    {
      this.name := name;
      this.states := states;
    }

    /** `add`: appends exactly one state, flagged by `ValueHasChanged`. */
    method Add(name: string, value: Value, lineno: int, inline: int)
      modifies this
      ensures states == Observed(old(states), name, value, lineno, inline)
      ensures old(Valid()) ==> Valid()
      ensures this.name == old(this.name)
    {
      var changed := DetectValueHasChanged(value);
      states := states + [VarState(name, value, lineno, inline, changed)];
      ObservedSpec(old(states), name, value, lineno, inline);
    }

    method DetectValueHasChanged(newValue: Value) returns (changed: bool)
      ensures changed == ValueHasChanged(states, newValue)
    {
      if states == [] {
        return true;
      }
      var last := GetLastState();
      match Compare(last.value, newValue)
      case NotEqual => return true;
      case Equal => return false;
      case Failed => return false;   // the exception is printed and swallowed
    }

    function GetLastState(): (s: VarState)
      reads this
      requires states != []
      ensures s == states[|states| - 1]
    {
      states[|states| - 1]
    }

    /**
     * `first_last`: the first and the last state, the same one twice when there
     * is one; none on an empty history, where `states[0]` raises `IndexError`.
     */
    function FirstLast(): (r: Option<(VarState, VarState)>)
      reads this
      ensures r.None? <==> states == []
      ensures r.Some? ==> r.value.0 == states[0] && r.value.1 == states[|states| - 1]
      ensures |states| == 1 ==> r.Some? && r.value.0 == r.value.1
    {
      if |states| == 1 then Some((states[0], states[0]))
      else if states == [] then None
      else Some((states[0], states[|states| - 1]))
    }

    method DistinctValuesStr() returns (r: seq<string>)
      ensures r == Dedup(StrAll(ValuesOf(states)))
    {
      r := Values.DistinctValuesStr(ValuesOf(states));
    }

    method DistinctSequentialValues() returns (r: Option<seq<Value>>)
      ensures r == DistinctSequential(ValuesOf(states))
    {
      r := Values.DistinctSequentialValues(ValuesOf(states));
    }

    method DistinctValues() returns (r: Option<seq<Value>>)
      ensures r == DistinctHashable(ValuesOf(states))
    {
      r := Values.DistinctValues(ValuesOf(states));
    }

    function ToString(): string
      reads this
    {
      "name: " + name + ", values: " + NatToString(|states|)
    }
  }

  // ---------------------------------------------------------------------
  // states_for_line
  // ---------------------------------------------------------------------

  /** The texts of the states recorded at `line` whose value changed, in recording order. */
  function ChangedTextsAt(states: seq<VarState>, line: int): seq<string>
  {
    if states == [] then []
    else
      var st := states[|states| - 1];
      var init := ChangedTextsAt(states[..|states| - 1], line);
      if st.inline == line && st.valueHasChanged then init + [st.ToString()] else init
  }

  /** Some state is recorded at `line` and marked changed exactly when there is a text to show. */
  lemma {:induction false} ChangedTextsAtSpec(states: seq<VarState>, line: int)
    ensures (ChangedTextsAt(states, line) != []) <==>
            exists k :: 0 <= k < |states| && states[k].inline == line && states[k].valueHasChanged
    ensures forall i :: 0 <= i < |ChangedTextsAt(states, line)| ==> ChangedTextsAt(states, line)[i] != []
  {
    if states != [] {
      var init := states[..|states| - 1];
      ChangedTextsAtSpec(init, line);
      if exists k :: 0 <= k < |init| && init[k].inline == line && init[k].valueHasChanged {
        var k :| 0 <= k < |init| && init[k].inline == line && init[k].valueHasChanged;
        assert states[k] == init[k];
      }
      if exists k :: 0 <= k < |states| && states[k].inline == line && states[k].valueHasChanged {
        var k :| 0 <= k < |states| && states[k].inline == line && states[k].valueHasChanged;
        if k < |init| {
          assert init[k] == states[k];
        }
      }
      var st := states[|states| - 1];
      assert st.ToString() == st.name + "=" + Str(st.value);
      assert st.ToString()[|st.name|] == '=';
    }
  }

  /** What `states_for_line` builds for one variable before stripping. */
  function VarLineText(name: string, states: seq<VarState>, line: int): string
  {
    if name != "self" then JoinUnseen(ChangedTextsAt(states, line)) else ""
  }

  /** `states_for_line(line)` over the variables `keys`, in that order. */
  function LineEntries(keys: seq<string>, vars: map<string, seq<VarState>>, line: int): seq<string>
  {
    if keys == [] then []
    else
      var init := LineEntries(keys[..|keys| - 1], vars, line);
      var k := keys[|keys| - 1];
      var text := if k in vars then VarLineText(k, vars[k], line) else "";
      if text != "" then init + [Strip(text)] else init
  }
  /** One more key: its entry, if it has one, goes last. */
  lemma LineEntriesStep(keys: seq<string>, vars: map<string, seq<VarState>>, line: int, i: nat)
    requires i < |keys| && keys[i] in vars
    ensures var text := VarLineText(keys[i], vars[keys[i]], line);
      LineEntries(keys[..i + 1], vars, line)
        == if text != "" then LineEntries(keys[..i], vars, line) + [Strip(text)] else LineEntries(keys[..i], vars, line)
  {
    assert keys[..i + 1][..i] == keys[..i];
  }


  /** The variables `states_for_line` reports: not `self`, and with a changed state at the line. */
  function ReportedVars(keys: seq<string>, vars: map<string, seq<VarState>>, line: int): (r: seq<string>)
    ensures forall j :: 0 <= j < |r| ==> r[j] in keys && r[j] in vars
  {
    if keys == [] then []
    else
      var init := ReportedVars(keys[..|keys| - 1], vars, line);
      var k := keys[|keys| - 1];
      if k != "self" && k in vars && ChangedTextsAt(vars[k], line) != [] then init + [k] else init
  }


  /**
   * `states_for_line` yields exactly one stripped entry per reported
   * variable, in dict order: the entry for a variable is its accumulated
   * `name=value` texts without the trailing space.
   */
  lemma LineEntriesSpec(keys: seq<string>, vars: map<string, seq<VarState>>, line: int)
    ensures var r := LineEntries(keys, vars, line);
      var vs := ReportedVars(keys, vars, line);
      && |r| == |vs|
      && (forall j :: 0 <= j < |vs| ==> r[j] == Strip(JoinUnseen(ChangedTextsAt(vars[vs[j]], line))))
  {
    LineEntriesLength(keys, vars, line);
    forall j | 0 <= j < |ReportedVars(keys, vars, line)|
      ensures LineEntries(keys, vars, line)[j] == Strip(JoinUnseen(ChangedTextsAt(vars[ReportedVars(keys, vars, line)[j]], line)))
    {
      LineEntryAt(keys, vars, line, j);
    }
  }

  lemma {:induction false} LineEntriesLength(keys: seq<string>, vars: map<string, seq<VarState>>, line: int)
    ensures |LineEntries(keys, vars, line)| == |ReportedVars(keys, vars, line)|
  {
    if keys != [] {
      LineEntriesLength(keys[..|keys| - 1], vars, line);
      LineEntriesLast(keys, vars, line);
    }
  }

  lemma {:induction false} LineEntryAt(keys: seq<string>, vars: map<string, seq<VarState>>, line: int, j: nat)
    requires j < |ReportedVars(keys, vars, line)|
    ensures j < |LineEntries(keys, vars, line)|
    ensures LineEntries(keys, vars, line)[j] == Strip(JoinUnseen(ChangedTextsAt(vars[ReportedVars(keys, vars, line)[j]], line)))
  {
    var init := keys[..|keys| - 1];
    var k := keys[|keys| - 1];
    var r, vs := LineEntries(keys, vars, line), ReportedVars(keys, vars, line);
    var ri, vi := LineEntries(init, vars, line), ReportedVars(init, vars, line);
    LineEntriesLength(init, vars, line);
    LineEntriesLast(keys, vars, line);
    var added := k != "self" && k in vars && ChangedTextsAt(vars[k], line) != [];
    if j < |vi| {
      LineEntryAt(init, vars, line, j);
      assert r[j] == ri[j] && vs[j] == vi[j] by {
        if added {
          assert r == ri + [Strip(JoinUnseen(ChangedTextsAt(vars[k], line)))] && vs == vi + [k];
        } else {
          assert r == ri && vs == vi;
        }
      }
    } else {
      assert added;
      assert r == ri + [Strip(JoinUnseen(ChangedTextsAt(vars[k], line)))] && vs == vi + [k];
      assert vs[j] == k;
    }
  }

  /** The last variable adds an entry exactly when it adds itself to the reported variables. */
  lemma LineEntriesLast(keys: seq<string>, vars: map<string, seq<VarState>>, line: int)
    requires keys != []
    ensures var k := keys[|keys| - 1];
      var ri, vi := LineEntries(keys[..|keys| - 1], vars, line), ReportedVars(keys[..|keys| - 1], vars, line);
      if k != "self" && k in vars && ChangedTextsAt(vars[k], line) != [] then
        && LineEntries(keys, vars, line) == ri + [Strip(JoinUnseen(ChangedTextsAt(vars[k], line)))]
        && ReportedVars(keys, vars, line) == vi + [k]
      else
        LineEntries(keys, vars, line) == ri && ReportedVars(keys, vars, line) == vi
  {
    var k := keys[|keys| - 1];
    if k in vars {
      var texts := ChangedTextsAt(vars[k], line);
      ChangedTextsAtSpec(vars[k], line);
      JoinUnseenEmpty(texts);
    }
  }

  /**
   * A variable is reported exactly when it is one of the keys, is not `self`
   * and has a state recorded at the line that is marked changed.
   */
  lemma {:induction false} ReportedVarsSpec(keys: seq<string>, vars: map<string, seq<VarState>>, line: int)
    requires forall i :: 0 <= i < |keys| ==> keys[i] in vars
    ensures forall k :: k in ReportedVars(keys, vars, line) <==>
      k in keys && k != "self" && ChangedTextsAt(vars[k], line) != []
  {
    if keys != [] {
      var init := keys[..|keys| - 1];
      ReportedVarsSpec(init, vars, line);
      assert forall x :: x in keys <==> x in init || x == keys[|keys| - 1];
    }
  }

  /** What gets reported for one variable, stated over its raw history. */
  lemma ReportedVarSpec(keys: seq<string>, vars: map<string, seq<VarState>>, line: int, k: string)
    requires forall i :: 0 <= i < |keys| ==> keys[i] in vars
    requires k in keys
    ensures k in ReportedVars(keys, vars, line) <==>
      (k != "self" && exists s :: 0 <= s < |vars[k]| && vars[k][s].inline == line && vars[k][s].valueHasChanged)
    ensures k in ReportedVars(keys, vars, line) ==>
      forall t :: t in ChangedTextsAt(vars[k], line) ==> Contains(JoinUnseen(ChangedTextsAt(vars[k], line)), t)
  {
    ReportedVarsSpec(keys, vars, line);
    ChangedTextsAtSpec(vars[k], line);
    JoinUnseenContainsAll(ChangedTextsAt(vars[k], line));
  }

  // ---------------------------------------------------------------------
  // StateHistory
  // ---------------------------------------------------------------------

  /** The arguments `save_arg_states` reads are all bound in the frame's locals. */
  predicate ArgsBound(av: ArgValues)
  {
    && (forall i :: 0 <= i < |av.args| ==> av.args[i] in av.locals.items)
    && (Named(av.varargs) ==> av.varargs.value in av.locals.items)
    && (Named(av.keywords) ==> av.keywords.value in av.locals.items)
  }

  /** Python truthiness of an optional name. */
  predicate Named(n: Option<string>)
  {
    n.Some? && n.value != ""
  }

  function NamedArgStates(names: seq<string>, locals: map<string, Value>, lineno: int): (r: seq<ArgState>)
    requires forall i :: 0 <= i < |names| ==> names[i] in locals
    ensures |r| == |names|
    ensures forall i :: 0 <= i < |names| ==> r[i] == ArgState(names[i], locals[names[i]], lineno)
  {
    if names == [] then []
    else NamedArgStates(names[..|names| - 1], locals, lineno)
         + [ArgState(names[|names| - 1], locals[names[|names| - 1]], lineno)]
  }

  /** The states `save_arg_states` appends: formals, then `*args`, then `**kwargs`. */
  function ArgStatesOf(av: ArgValues, lineno: int): seq<ArgState>
    requires ArgsBound(av)
  {
    NamedArgStates(av.args, av.locals.items, lineno)
    + (if Named(av.varargs) then [ArgState(av.varargs.value, av.locals.items[av.varargs.value], lineno)] else [])
    + (if Named(av.keywords) then [ArgState(av.keywords.value, av.locals.items[av.keywords.value], lineno)] else [])
  }

  /**
   * One state per formal parameter, in order and including the receiver
   * `self`, followed by one for each collection parameter that exists.
   */
  lemma ArgStatesOfSpec(av: ArgValues, lineno: int)
    requires ArgsBound(av)
    ensures var r := ArgStatesOf(av, lineno);
      && |r| == |av.args| + (if Named(av.varargs) then 1 else 0) + (if Named(av.keywords) then 1 else 0)
      && (forall i :: 0 <= i < |av.args| ==> r[i].name == av.args[i] && r[i].value == av.locals.items[av.args[i]])
      && (forall i :: 0 <= i < |r| ==> r[i].lineno == lineno && r[i].name in av.locals.items)
  {
  }

  /** One observation recorded into the per-variable histories. */
  function ObserveVar(vars: Dict<string, seq<VarState>>, name: string, value: Value, lineno: int, inline: int)
    : Dict<string, seq<VarState>>
    requires vars.Valid()
  {
    vars.Put(name, Observed(vars.GetOr(name, []), name, value, lineno, inline))
  }

  /** `save_var_states`: every local, in dict order, observed at the same lines. */
  function ObserveVars(vars: Dict<string, seq<VarState>>, names: seq<string>, locals: map<string, Value>, lineno: int, inline: int)
    : (r: Dict<string, seq<VarState>>)
    requires vars.Valid()
    requires forall i :: 0 <= i < |names| ==> names[i] in locals
    ensures r.Valid()
  {
    if names == [] then vars
    else
      var n := names[|names| - 1];
      ObserveVar(ObserveVars(vars, names[..|names| - 1], locals, lineno, inline), n, locals[n], lineno, inline)
  }

  /** The histories are well formed: each key's states carry that name and consistent flags. */
  ghost predicate HistoriesValid(vars: Dict<string, seq<VarState>>)
  {
    && vars.Valid()
    && (forall k :: k in vars.items ==> FlagsConsistent(vars.items[k]))
    && (forall k, j :: k in vars.items && 0 <= j < |vars.items[k]| ==> vars.items[k][j].name == k)
  }

  /**
   * Recording one observation touches one variable's history only: that
   * history gets exactly one state appended, a new name is created with one
   * state, and every other variable keeps its history.
   */
  lemma ObserveVarSpec(vars: Dict<string, seq<VarState>>, name: string, value: Value, lineno: int, inline: int)
    requires HistoriesValid(vars)
    ensures var r := ObserveVar(vars, name, value, lineno, inline);
      && HistoriesValid(r)
      && name in r.items
      && |r.items[name]| == |vars.GetOr(name, [])| + 1
      && r.items[name][..|vars.GetOr(name, [])|] == vars.GetOr(name, [])
      && r.items[name][|vars.GetOr(name, [])|].value == value
      && (forall k :: k != name ==> (k in r.items <==> k in vars.items))
      && (forall k :: k in vars.items && k != name ==> r.items[k] == vars.items[k])
      && (name in vars.items ==> r.keys == vars.keys)
      && (name !in vars.items ==> r.keys == vars.keys + [name])
  {
    var h := vars.GetOr(name, []);
    assert FlagsConsistent(h);
    ObservedSpec(h, name, value, lineno, inline);
    var r := ObserveVar(vars, name, value, lineno, inline);
    forall k, j | k in r.items && 0 <= j < |r.items[k]|
      ensures r.items[k][j].name == k
    {
      if k == name && j < |h| {
        assert r.items[k][j] == h[j];
      }
    }
  }

  lemma {:induction false} ObserveVarsValid(vars: Dict<string, seq<VarState>>, names: seq<string>, locals: map<string, Value>, lineno: int, inline: int)
    requires HistoriesValid(vars)
    requires forall i :: 0 <= i < |names| ==> names[i] in locals
    ensures HistoriesValid(ObserveVars(vars, names, locals, lineno, inline))
  {
    if names != [] {
      var n := names[|names| - 1];
      ObserveVarsValid(vars, names[..|names| - 1], locals, lineno, inline);
      ObserveVarSpec(ObserveVars(vars, names[..|names| - 1], locals, lineno, inline), n, locals[n], lineno, inline);
    }
  }

  /** Everything observed during one call. */
  class StateHistory {
    var varStates: Dict<string, seq<VarState>>
    var argStates: seq<ArgState>
    var yieldStates: seq<YieldState>
    var returnState: Option<ReturnState>
    var exceptionState: Option<ExceptionState>

    ghost predicate Valid()
      reads this
      ensures Valid() ==> KeysListed()
    {
      HistoriesValid(varStates)
    }

    /** Every variable listed in the dict has a history; all `states_for_line` needs. */
    predicate KeysListed()
      reads this
    {
      forall i :: 0 <= i < |varStates.keys| ==> varStates.keys[i] in varStates.items
    }

    constructor ()
      ensures Valid()
      ensures varStates == Empty() && argStates == [] && yieldStates == []
      ensures returnState == None && exceptionState == None
      ensures !HasReturn() && forall l :: !IsReturnValue(l)
    {
      varStates := Empty();
      argStates := [];
      yieldStates := [];
      returnState := None;
      exceptionState := None;
    }

    /** `save_arg_states`: appends the entry snapshot of the arguments. */
    method SaveArgStates(av: ArgValues, lineno: int)
      requires ArgsBound(av)
      modifies this
      ensures argStates == old(argStates) + ArgStatesOf(av, lineno)
      ensures varStates == old(varStates) && yieldStates == old(yieldStates)
      ensures returnState == old(returnState) && exceptionState == old(exceptionState)
    {
      var added := [];
      var i := 0;
      while i < |av.args|
        invariant 0 <= i <= |av.args|
        invariant added == NamedArgStates(av.args[..i], av.locals.items, lineno)
      {
        var arg := av.args[i];
        assert av.args[..i + 1][..i] == av.args[..i];
        added := added + [ArgState(arg, av.locals.items[arg], lineno)];
        i := i + 1;
      }
      assert av.args[..i] == av.args;
      if Named(av.varargs) {
        added := added + [ArgState(av.varargs.value, av.locals.items[av.varargs.value], lineno)];
      }
      if Named(av.keywords) {
        added := added + [ArgState(av.keywords.value, av.locals.items[av.keywords.value], lineno)];
      }
      argStates := argStates + added;
    }

    /** `save_var_states`: observes every local of the frame. */
    method SaveVarStates(locals: Dict<string, Value>, lineno: int, inline: int)
      requires Valid() && locals.Valid()
      modifies this
      ensures Valid()
      ensures varStates == ObserveVars(old(varStates), locals.keys, locals.items, lineno, inline)
      ensures argStates == old(argStates) && yieldStates == old(yieldStates)
      ensures returnState == old(returnState) && exceptionState == old(exceptionState)
    {
      var i := 0;
      while i < |locals.keys|
        invariant 0 <= i <= |locals.keys|
        invariant Valid()
        invariant varStates == ObserveVars(old(varStates), locals.keys[..i], locals.items, lineno, inline)
        invariant argStates == old(argStates) && yieldStates == old(yieldStates)
        invariant returnState == old(returnState) && exceptionState == old(exceptionState)
      {
        var arg := locals.keys[i];
        assert locals.keys[..i + 1][..i] == locals.keys[..i];
        SaveVarState(arg, locals.items[arg], lineno, inline);
        i := i + 1;
      }
      assert locals.keys[..i] == locals.keys;
    }

    /** `_save_var_state`: creates the variable's history on first sight, then adds to it. */
    method SaveVarState(name: string, value: Value, lineno: int, inline: int)
      requires Valid()
      modifies this
      ensures Valid()
      ensures varStates == ObserveVar(old(varStates), name, value, lineno, inline)
      ensures argStates == old(argStates) && yieldStates == old(yieldStates)
      ensures returnState == old(returnState) && exceptionState == old(exceptionState)
    {
      ObserveVarSpec(varStates, name, value, lineno, inline);
      var h := varStates.GetOr(name, []);
      varStates := varStates.Put(name, Observed(h, name, value, lineno, inline));
    }

    method SaveYieldState(value: Value, lineno: int)
      modifies this
      ensures yieldStates == old(yieldStates) + [YieldState(value, lineno)]
      ensures varStates == old(varStates) && argStates == old(argStates)
      ensures returnState == old(returnState) && exceptionState == old(exceptionState)
    {
      yieldStates := yieldStates + [YieldState(value, lineno)];
    }

    method SaveReturnState(value: Value, lineno: int)
      modifies this
      ensures returnState == Some(ReturnState(value, lineno))
      ensures HasReturn() && forall l :: IsReturnValue(l) <==> l == lineno
      ensures varStates == old(varStates) && argStates == old(argStates)
      ensures yieldStates == old(yieldStates) && exceptionState == old(exceptionState)
    {
      returnState := Some(ReturnState(value, lineno));
    }

    method SaveExceptionState(value: Value, lineno: int)
      modifies this
      ensures exceptionState == Some(ExceptionState(value, lineno))
      ensures varStates == old(varStates) && argStates == old(argStates)
      ensures yieldStates == old(yieldStates) && returnState == old(returnState)
    {
      exceptionState := Some(ExceptionState(value, lineno));
    }

    predicate HasReturn()
      reads this
    {
      returnState.Some?
    }

    /** `is_return_value`: the line is the one the return was recorded at. */
    predicate IsReturnValue(lineno: int)
      reads this
    {
      HasReturn() && lineno == returnState.value.lineno
    }

    /** A history has a return exactly when some line is its return line, and that line is unique. */
    lemma ReturnLine()
      ensures HasReturn() <==> exists l :: IsReturnValue(l)
      ensures forall l1, l2 :: IsReturnValue(l1) && IsReturnValue(l2) ==> l1 == l2
    {
      if HasReturn() {
        assert IsReturnValue(returnState.value.lineno);
      }
    }

    /**
     * `get_yield_states`: with two or more yields the last one (generator
     * exhaustion, recorded as an implicit return) is dropped; order is kept.
     */
    function GetYieldStates(): (r: seq<YieldState>)
      reads this
      ensures |r| == if |yieldStates| <= 1 then |yieldStates| else |yieldStates| - 1
      ensures r == yieldStates[..|r|]
    {
      if |yieldStates| <= 1 then yieldStates else yieldStates[..|yieldStates| - 1]
    }

    /** `states_for_line`. */
    method StatesForLine(lineNumber: int) returns (states: seq<string>)
      requires KeysListed()
      ensures states == LineEntries(varStates.keys, varStates.items, lineNumber)
    {
      var keys := varStates.keys;
      var vars := varStates.items;
      assert forall j :: 0 <= j < |keys| ==> keys[j] in vars;
      states := [];
      var i := 0;
      while i < |keys|
        invariant 0 <= i <= |keys|
        invariant states == LineEntries(keys[..i], vars, lineNumber)
      {
        var v := keys[i];
        var text := "";
        if v != "self" {
          text := ChangedText(vars[v], lineNumber);
        }
        LineEntriesStep(keys, vars, lineNumber, i);
        if text != "" {
          states := states + [Strip(text)];
        }
        i := i + 1;
      }
      assert keys[..i] == keys;
    }
  }

  /** The inner loop of `states_for_line`: the changed texts of one history at a line. */
  method ChangedText(history: seq<VarState>, lineNumber: int) returns (text: string)
    ensures text == JoinUnseen(ChangedTextsAt(history, lineNumber))
  {
    text := "";
    var j := 0;
    while j < |history|
      invariant 0 <= j <= |history|
      invariant text == JoinUnseen(ChangedTextsAt(history[..j], lineNumber))
    {
      var state := history[j];
      assert history[..j + 1][..j] == history[..j];
      ghost var texts := ChangedTextsAt(history[..j], lineNumber);
      if state.inline == lineNumber {
        if !Contains(text, state.ToString()) && state.valueHasChanged {
          text := text + state.ToString() + " ";
        }
        if state.valueHasChanged {
          assert (texts + [state.ToString()])[..|texts|] == texts;
        }
      }
      j := j + 1;
    }
    assert history[..j] == history;
  }

  /** A history of `a` recorded as 1 at line 5, 1 again at line 6 and 2 at line 7. */
  function ExampleHistory(): seq<VarState>
  {
    [VarState("a", Plain("1"), 5, 5, true), VarState("a", Plain("1"), 6, 6, false), VarState("a", Plain("2"), 7, 7, true)]
  }

  /** Recording 1, 1, 2 flags the first and the third observation as changes, not the repeated 1. */
  lemma ChangeDetectionExample()
    ensures Observed(Observed(Observed([], "a", Plain("1"), 5, 5), "a", Plain("1"), 6, 6), "a", Plain("2"), 7, 7)
      == ExampleHistory()
  {
  }

  lemma ExampleChangedTexts()
    ensures ChangedTextsAt(ExampleHistory(), 6) == []
    ensures ChangedTextsAt(ExampleHistory(), 7) == ["a=2"]
  {
    var s0 := VarState("a", Plain("1"), 5, 5, true);
    var s1 := VarState("a", Plain("1"), 6, 6, false);
    var s2 := VarState("a", Plain("2"), 7, 7, true);
    assert ExampleHistory()[..2] == [s0, s1];
    assert [s0, s1][..1] == [s0];
    assert [s0][..0] == [];
    assert ChangedTextsAt([s0], 6) == [] && ChangedTextsAt([s0], 7) == [];
    assert ChangedTextsAt([s0, s1], 6) == [] && ChangedTextsAt([s0, s1], 7) == [];
    assert s2.ToString() == "a=2";
  }

  lemma ExampleEntryText()
    ensures Strip(JoinUnseen(["a=2"])) == "a=2"
  {
    assert JoinUnseen(["a=2"]) == "a=2 " by {
      assert ["a=2"][..0] == [];
      NothingInEmpty("a=2");
    }
    assert LStrip("a=2 ") == "a=2 ";
    assert "a=2 "[..3] == "a=2";
    assert RStrip("a=2 ") == "a=2";
  }

  /** Line 6 re-observed an unchanged value and reports nothing; line 7 reports the new value. */
  lemma ChangeDetectionLineExample()
    ensures LineEntries(["a"], map["a" := ExampleHistory()], 6) == []
    ensures LineEntries(["a"], map["a" := ExampleHistory()], 7) == ["a=2"]
  {
    ExampleChangedTexts();
    ExampleEntryText();
    assert ["a"][..0] == [];
    assert VarLineText("a", ExampleHistory(), 6) == "";
    assert VarLineText("a", ExampleHistory(), 7) == JoinUnseen(["a=2"]);
  }

  /** The generator of the tests with two yields, 100 then 200: only the first is reported. */
  lemma YieldTrimmingExample(h: StateHistory)
    requires h.yieldStates == [YieldState(Plain("100"), 1), YieldState(Plain("200"), 2)]
    ensures h.GetYieldStates() == [YieldState(Plain("100"), 1)]
  {
  }

  // ---------------------------------------------------------------------
  // Flow and FlowContainer
  // ---------------------------------------------------------------------

  /** One traced call: the lines it ran, what it observed (if recorded) and its callers. */
  datatype Flow = Flow(runLines: seq<int>, stateHistory: Option<StateHistory>, callers: seq<string>)
  {
    /** `sorted(list(set(run_lines)))`. */
    function DistinctLines(): (r: seq<int>)
      ensures Lines.StrictlyIncreasing(r)
      ensures forall l :: l in r <==> l in runLines
    {
      Lines.SortedDistinct(runLines)
    }
  }

  /** Two calls with the same set of executed lines fall in the same group. */
  lemma SameLinesSameGroup(f: Flow, g: Flow)
    requires forall l :: l in f.runLines <==> l in g.runLines
    ensures f.DistinctLines() == g.DistinctLines()
  {
    Lines.SameLineSetSameDistinctLines(f.runLines, g.runLines);
  }

  /** The flows whose distinct lines equal `lines`, in their original order. */
  function FlowsWithLines(flows: seq<Flow>, lines: seq<int>): (r: seq<Flow>)
    ensures HistoriesOf(r) <= HistoriesOf(flows)
  {
    if flows == [] then []
    else
      var init := FlowsWithLines(flows[..|flows| - 1], lines);
      var f := flows[|flows| - 1];
      HistoriesSnoc(init, f);
      if f.DistinctLines() == lines then init + [f] else init
  }

  /** Which flows have the distinct lines `lines`, position by position. */
  function LineMarks(flows: seq<Flow>, lines: seq<int>): (m: seq<bool>)
    ensures |m| == |flows| && forall i :: 0 <= i < |flows| ==> m[i] == (flows[i].DistinctLines() == lines)
  {
    if flows == [] then [] else LineMarks(flows[..|flows| - 1], lines) + [flows[|flows| - 1].DistinctLines() == lines]
  }

  /**
   * The selected flows are the flows at the positions whose distinct lines
   * are `lines`, in increasing order of position: the selection keeps the
   * original order of the calls.
   */
  lemma {:induction false} FlowsWithLinesOrder(flows: seq<Flow>, lines: seq<int>)
    ensures FlowsWithLines(flows, lines) == Select(flows, Positions(LineMarks(flows, lines)))
  {
    if flows != [] {
      var n := |flows| - 1;
      FlowsWithLinesOrder(flows[..n], lines);
      assert LineMarks(flows, lines)[..n] == LineMarks(flows[..n], lines);
      SelectStep(flows, LineMarks(flows, lines));
    }
  }

  /** The first selected flow is the first call that ran exactly those lines. */
  lemma FlowsWithLinesFirst(flows: seq<Flow>, lines: seq<int>, j: nat)
    requires j < |flows| && flows[j].DistinctLines() == lines
    requires forall k :: 0 <= k < j ==> flows[k].DistinctLines() != lines
    ensures FlowsWithLines(flows, lines) != [] && FlowsWithLines(flows, lines)[0] == flows[j]
  {
    FlowsWithLinesOrder(flows, lines);
    FirstPosition(LineMarks(flows, lines), j);
  }

  /**
   * Selecting by lines keeps every flow with those distinct lines as often as
   * it occurs and drops every other one; selecting again changes nothing.
   */
  lemma {:induction false} FlowsWithLinesSpec(flows: seq<Flow>, lines: seq<int>)
    ensures var r := FlowsWithLines(flows, lines);
      && |r| <= |flows|
      && (forall i :: 0 <= i < |r| ==> r[i].DistinctLines() == lines)
      && (forall f :: Count(r, f) == if f.DistinctLines() == lines then Count(flows, f) else 0)
      && FlowsWithLines(r, lines) == r
  {
    if flows != [] {
      var init := flows[..|flows| - 1];
      var f := flows[|flows| - 1];
      FlowsWithLinesSpec(init, lines);
      var ri := FlowsWithLines(init, lines);
      var r := FlowsWithLines(flows, lines);
      if f.DistinctLines() == lines {
        assert r[..|r| - 1] == ri;
      }
    }
  }

  /** A flow is selected exactly when it is one of the flows and has those distinct lines. */
  lemma {:induction false} FlowsWithLinesMembers(flows: seq<Flow>, lines: seq<int>)
    ensures forall i :: 0 <= i < |FlowsWithLines(flows, lines)| ==>
      FlowsWithLines(flows, lines)[i] in flows && FlowsWithLines(flows, lines)[i].DistinctLines() == lines
    ensures forall j :: 0 <= j < |flows| && flows[j].DistinctLines() == lines ==> flows[j] in FlowsWithLines(flows, lines)
  {
    if flows != [] {
      var init := flows[..|flows| - 1];
      FlowsWithLinesMembers(init, lines);
      assert forall j :: 0 <= j < |init| ==> flows[j] == init[j];
      var r := FlowsWithLines(flows, lines);
      var ri := FlowsWithLines(init, lines);
      forall i | 0 <= i < |r|
        ensures r[i] in flows && r[i].DistinctLines() == lines
      {
        if i < |ri| {
          assert r[i] == ri[i];
          assert ri[i] in init;
        }
      }
    }
  }

  /** The histories of the flows that have one. */
  function HistoriesOf(flows: seq<Flow>): (hs: set<StateHistory>)
    ensures forall i :: 0 <= i < |flows| && flows[i].stateHistory.Some? ==> flows[i].stateHistory.value in hs
  {
    if flows == [] then {}
    else
      var f := flows[|flows| - 1];
      HistoriesOf(flows[..|flows| - 1]) + (if f.stateHistory.Some? then {f.stateHistory.value} else {})
  }

  /** Every history collected belongs to one of the flows. */
  lemma {:induction false} HistoriesOfMembers(flows: seq<Flow>)
    ensures forall h :: h in HistoriesOf(flows) ==> exists i :: 0 <= i < |flows| && flows[i].stateHistory == Some(h)
  {
    if flows != [] {
      var init := flows[..|flows| - 1];
      HistoriesOfMembers(init);
      forall h | h in HistoriesOf(flows)
        ensures exists i :: 0 <= i < |flows| && flows[i].stateHistory == Some(h)
      {
        if h in HistoriesOf(init) {
          var i :| 0 <= i < |init| && init[i].stateHistory == Some(h);
          assert flows[i] == init[i];
        } else {
          assert flows[|flows| - 1].stateHistory == Some(h);
        }
      }
    }
  }

  /** One more flow adds its own history, if any. */
  lemma HistoriesSnoc(flows: seq<Flow>, f: Flow)
    ensures HistoriesOf(flows + [f]) == HistoriesOf(flows) + (if f.stateHistory.Some? then {f.stateHistory.value} else {})
  {
    assert (flows + [f])[..|flows|] == flows;
  }

  /** The argument snapshot of a flow; none when the flow has no history. */
  function ArgsOf(f: Flow): seq<ArgState>
    reads if f.stateHistory.Some? then {f.stateHistory.value} else {}
  {
    if f.stateHistory.Some? then f.stateHistory.value.argStates else []
  }

  /** Adds the values of the non-`self` arguments to the per-name lists. */
  function AddArgs(t: Dict<string, seq<Value>>, args: seq<ArgState>): (r: Dict<string, seq<Value>>)
    requires t.Valid()
    ensures r.Valid()
  {
    if args == [] then t
    else
      var r := AddArgs(t, args[..|args| - 1]);
      var a := args[|args| - 1];
      if a.name != "self" then r.Put(a.name, r.GetOr(a.name, []) + [a.value]) else r
  }

  /** `FlowContainer.arg_states`: argument name to its values across the flows, in flow order. */
  function ArgTable(flows: seq<Flow>): (t: Dict<string, seq<Value>>)
    reads HistoriesOf(flows)
    ensures t.Valid()
  {
    if flows == [] then Empty()
    else AddArgs(ArgTable(flows[..|flows| - 1]), ArgsOf(flows[|flows| - 1]))
  }

  /** The values of the arguments called `name` in `args`, in order. */
  function ArgValuesNamed(args: seq<ArgState>, name: string): seq<Value>
  {
    if args == [] then []
    else
      var a := args[|args| - 1];
      ArgValuesNamed(args[..|args| - 1], name) + (if a.name == name then [a.value] else [])
  }

  /** The values of the arguments called `name` over all flows, in flow order. */
  function ValuesNamed(flows: seq<Flow>, name: string): seq<Value>
    reads HistoriesOf(flows)
  {
    if flows == [] then []
    else ValuesNamed(flows[..|flows| - 1], name) + ArgValuesNamed(ArgsOf(flows[|flows| - 1]), name)
  }

  /**
   * Adding a flow's arguments to the table appends, under every name other
   * than `self`, the values of the arguments of that name, and leaves `self`
   * alone.
   */
  lemma {:induction false} AddArgsSpec(t: Dict<string, seq<Value>>, args: seq<ArgState>)
    requires t.Valid()
    ensures var r := AddArgs(t, args);
      && ("self" in r.items <==> "self" in t.items)
      && (forall k :: k != "self" ==> (k in r.items <==> k in t.items || ArgValuesNamed(args, k) != []))
      && (forall k :: k != "self" ==> r.GetOr(k, []) == t.GetOr(k, []) + ArgValuesNamed(args, k))
  {
    if args != [] {
      var init := args[..|args| - 1];
      var a := args[|args| - 1];
      AddArgsSpec(t, init);
      var ri := AddArgs(t, init);
      var r := AddArgs(t, args);
      if a.name == "self" {
        forall k | k != "self"
          ensures ArgValuesNamed(args, k) == ArgValuesNamed(init, k)
        {
        }
      } else {
        AddArgStep(ri, a);
        forall k | k != "self"
          ensures (k in r.items <==> k in t.items || ArgValuesNamed(args, k) != [])
          ensures r.GetOr(k, []) == t.GetOr(k, []) + ArgValuesNamed(args, k)
        {
          assert ArgValuesNamed(args, k) == ArgValuesNamed(init, k) + (if a.name == k then [a.value] else []);
        }
      }
    }
  }

  /** Adding one non-`self` argument appends its value under its name and nowhere else. */
  lemma AddArgStep(t: Dict<string, seq<Value>>, a: ArgState)
    requires t.Valid() && a.name != "self"
    ensures var r := t.Put(a.name, t.GetOr(a.name, []) + [a.value]);
      && (forall k :: k in r.items <==> k in t.items || k == a.name)
      && (forall k :: r.GetOr(k, []) == t.GetOr(k, []) + (if k == a.name then [a.value] else []))
  {
  }

  /**
   * `arg_states` maps exactly the non-`self` argument names that occur to all
   * of their values, in flow order; flows without a history add nothing.
   */
  lemma {:induction false} ArgTableSpec(flows: seq<Flow>)
    ensures var t := ArgTable(flows);
      && "self" !in t.items
      && (forall k :: k in t.items <==> k != "self" && ValuesNamed(flows, k) != [])
      && (forall k :: k in t.items ==> t.items[k] == ValuesNamed(flows, k))
  {
    if flows != [] {
      var init := flows[..|flows| - 1];
      ArgTableSpec(init);
      AddArgsSpec(ArgTable(init), ArgsOf(flows[|flows| - 1]));
      var t := ArgTable(flows);
      forall k | k in t.items
        ensures t.items[k] == ValuesNamed(flows, k)
      {
        assert t.GetOr(k, []) == t.items[k];
      }
    }
  }

  /** `return_states`: the return value of every flow that has one, in flow order. */
  function ReturnValues(flows: seq<Flow>): seq<Value>
    reads HistoriesOf(flows)
  {
    if flows == [] then []
    else
      var f := flows[|flows| - 1];
      ReturnValues(flows[..|flows| - 1])
      + (if f.stateHistory.Some? && f.stateHistory.value.returnState.Some?
         then [f.stateHistory.value.returnState.value.value] else [])
  }

  /** The argument and return tables depend on the histories alone. */
  twostate lemma TablesUnchanged(flows: seq<Flow>)
    requires forall h :: h in HistoriesOf(flows) ==> old(allocated(h))
    requires unchanged(HistoriesOf(flows))
    ensures old(ArgTable(flows)) == ArgTable(flows) && old(ReturnValues(flows)) == ReturnValues(flows)
  { }

  /** A flow has a recorded return state. */
  predicate Returned(f: Flow)
    reads if f.stateHistory.Some? then {f.stateHistory.value} else {}
  {
    f.stateHistory.Some? && f.stateHistory.value.returnState.Some?
  }

  /** Which flows returned, position by position. */
  function ReturnMarks(flows: seq<Flow>): (m: seq<bool>)
    reads HistoriesOf(flows)
    ensures |m| == |flows| && forall i :: 0 <= i < |flows| ==> m[i] == Returned(flows[i])
  {
    if flows == [] then []
    else
      HistoriesSnoc(flows[..|flows| - 1], flows[|flows| - 1]);
      assert flows[..|flows| - 1] + [flows[|flows| - 1]] == flows;
      ReturnMarks(flows[..|flows| - 1]) + [Returned(flows[|flows| - 1])]
  }

  /** The return value of a flow that returned. */
  function ReturnOf(f: Flow): Value
    reads if f.stateHistory.Some? then {f.stateHistory.value} else {}
    requires Returned(f)
  {
    f.stateHistory.value.returnState.value.value
  }

  /**
   * One value per returning flow, in flow order: the `i`-th value is the
   * return value of the `i`-th flow that returned, so there are exactly as
   * many values as returning flows.
   */
  lemma {:induction false} ReturnValuesOrder(flows: seq<Flow>)
    ensures var idx := Positions(ReturnMarks(flows));
      && |ReturnValues(flows)| == |idx| == Count(ReturnMarks(flows), true)
      && forall i :: 0 <= i < |idx| ==> Returned(flows[idx[i]]) && ReturnValues(flows)[i] == ReturnOf(flows[idx[i]])
  {
    if flows != [] {
      var n := |flows| - 1;
      ReturnValuesOrder(flows[..n]);
      var m := ReturnMarks(flows);
      assert m[..n] == ReturnMarks(flows[..n]);
      PositionsSnoc(m);
      ReturnValuesOrderStep(flows, Positions(m[..n]));
    }
  }

  /** The inductive step of `ReturnValuesOrder`: the last flow adds its value at its own position. */
  lemma ReturnValuesOrderStep(flows: seq<Flow>, p: seq<nat>)
    requires flows != []
    requires var init := flows[..|flows| - 1];
      && |ReturnValues(init)| == |p|
      && forall i :: 0 <= i < |p| ==> p[i] < |init| && Returned(init[p[i]]) && ReturnValues(init)[i] == ReturnOf(init[p[i]])
    ensures var n := |flows| - 1; var idx := p + (if Returned(flows[n]) then [n] else []);
      && |ReturnValues(flows)| == |idx|
      && forall i :: 0 <= i < |idx| ==> idx[i] < |flows| && Returned(flows[idx[i]]) && ReturnValues(flows)[i] == ReturnOf(flows[idx[i]])
  {
    var n := |flows| - 1;
    var init := flows[..n];
    var extra := if Returned(flows[n]) then [n] else [];
    assert ReturnValues(flows) == ReturnValues(init) + (if Returned(flows[n]) then [ReturnOf(flows[n])] else []);
    forall i | 0 <= i < |p + extra|
      ensures (p + extra)[i] < |flows| && Returned(flows[(p + extra)[i]]) && ReturnValues(flows)[i] == ReturnOf(flows[(p + extra)[i]])
    {
      if i < |p| {
        assert flows[p[i]] == init[p[i]];
      }
    }
  }



  /** As many values as flows exactly when every flow returned, and none when no flow did. */
  lemma {:induction false} ReturnValuesSpec(flows: seq<Flow>)
    ensures |ReturnValues(flows)| <= |flows|
    ensures |ReturnValues(flows)| == |flows| <==> forall i :: 0 <= i < |flows| ==> Returned(flows[i])
    ensures (forall i :: 0 <= i < |flows| ==> !Returned(flows[i])) ==> ReturnValues(flows) == []
  {
    if flows != [] {
      var init := flows[..|flows| - 1];
      ReturnValuesSpec(init);
      assert forall i :: 0 <= i < |init| ==> init[i] == flows[i];
    }
  }

  /** All calls of one monitored unit. */
  class FlowContainer {
    const targetEntity: MethodInfo
    const targetEntityName: string
    var flowsById: map<int, Flow>
    var flows: seq<Flow>

    /** Every registered id names one of the container's flows. */
    ghost predicate IdsKnown()
      reads this
    {
      forall id :: id in flowsById ==> flowsById[id] in flows
    }

    constructor (targetEntity: MethodInfo)
      ensures this.targetEntity == targetEntity && targetEntityName == targetEntity.name
      ensures flowsById == map[] && flows == []
      ensures IdsKnown() && forall id :: GetFlowFromId(id) == None
    {
      this.targetEntity := targetEntity;
      targetEntityName := targetEntity.name;
      flowsById := map[];
      flows := [];
    }

    /** `add_flow`: appends one flow and registers it under `flowId`. */
    method AddFlow(runLines: seq<int>, stateHistory: Option<StateHistory>, callers: seq<string>, flowId: int)
      modifies this
      ensures flows == old(flows) + [Flow(runLines, stateHistory, callers)]
      ensures GetFlowFromId(flowId) == Some(Flow(runLines, stateHistory, callers))
      ensures forall id :: id != flowId ==> GetFlowFromId(id) == old(GetFlowFromId(id))
      ensures old(IdsKnown()) ==> IdsKnown()
    {
      var flow := Flow(runLines, stateHistory, callers);
      flows := flows + [flow];
      flowsById := flowsById[flowId := flow];
    }

    /** `get_flow_from_id`: the flow registered under `flowId`, or none. */
    function GetFlowFromId(flowId: int): (r: Option<Flow>)
      reads this
      ensures IdsKnown() && r.Some? ==> r.value in flows
    {
      if flowId in flowsById then Some(flowsById[flowId]) else None
    }

    /**
     * `flow_by_lines`: a new container for the same unit holding the flows with
     * these distinct lines; its id index starts empty, and this one is unchanged.
     */
    method FlowByLines(distinctLines: seq<int>) returns (c: FlowContainer)
      ensures fresh(c)
      ensures c.targetEntity == targetEntity && c.targetEntityName == targetEntity.name
      ensures c.flows == FlowsWithLines(flows, distinctLines) && c.flowsById == map[] && c.IdsKnown()
    {
      var targetFlows: seq<Flow> := [];
      var i := 0;
      while i < |flows|
        invariant 0 <= i <= |flows|
        invariant targetFlows == FlowsWithLines(flows[..i], distinctLines)
      {
        assert flows[..i + 1][..i] == flows[..i];
        if flows[i].DistinctLines() == distinctLines {
          targetFlows := targetFlows + [flows[i]];
        }
        i := i + 1;
      }
      assert flows[..i] == flows;
      c := new FlowContainer(targetEntity);
      c.flows := targetFlows;
    }

    /** `distinct_lines`: the distinct lines of every flow, in flow order. */
    method DistinctLines() returns (lines: seq<seq<int>>)
      ensures |lines| == |flows|
      ensures forall i :: 0 <= i < |flows| ==> lines[i] == flows[i].DistinctLines()
    {
      lines := [];
      var i := 0;
      while i < |flows|
        invariant 0 <= i <= |flows|
        invariant |lines| == i
        invariant forall k :: 0 <= k < i ==> lines[k] == flows[k].DistinctLines()
      {
        lines := lines + [flows[i].DistinctLines()];
        i := i + 1;
      }
    }

    /** `arg_states`. */
    method ArgStates() returns (argsAndValues: Dict<string, seq<Value>>)
      ensures argsAndValues == ArgTable(flows)
    {
      argsAndValues := Empty();
      var i := 0;
      while i < |flows|
        invariant 0 <= i <= |flows|
        invariant argsAndValues == ArgTable(flows[..i])
      {
        var flow := flows[i];
        assert flows[..i + 1][..i] == flows[..i];
        if flow.stateHistory.Some? && flow.stateHistory.value.argStates != [] {
          var args := flow.stateHistory.value.argStates;
          var j := 0;
          ghost var base := argsAndValues;
          while j < |args|
            invariant 0 <= j <= |args|
            invariant argsAndValues == AddArgs(base, args[..j])
          {
            var arg := args[j];
            assert args[..j + 1][..j] == args[..j];
            if arg.name != "self" {
              var value := arg.value;
              argsAndValues := argsAndValues.Put(arg.name, argsAndValues.GetOr(arg.name, []) + [value]);
            }
            j := j + 1;
          }
          assert args[..j] == args;
        }
        i := i + 1;
      }
      assert flows[..i] == flows;
    }

    /** `return_states`. */
    method ReturnStates() returns (values: seq<Value>)
      ensures values == ReturnValues(flows)
    {
      values := [];
      var i := 0;
      while i < |flows|
        invariant 0 <= i <= |flows|
        invariant values == ReturnValues(flows[..i])
      {
        var flow := flows[i];
        assert flows[..i + 1][..i] == flows[..i];
        if flow.stateHistory.Some? && flow.stateHistory.value.HasReturn() {
          values := values + [flow.stateHistory.value.returnState.value.value];
        }
        i := i + 1;
      }
      assert flows[..i] == flows;
    }

    /** `callers`: the caller list of every flow, in flow order. */
    method Callers() returns (cs: seq<seq<string>>)
      ensures |cs| == |flows|
      ensures forall i :: 0 <= i < |flows| ==> cs[i] == flows[i].callers
    {
      cs := [];
      var i := 0;
      while i < |flows|
        invariant 0 <= i <= |flows|
        invariant |cs| == i
        invariant forall k :: 0 <= k < i ==> cs[k] == flows[k].callers
      {
        cs := cs + [flows[i].callers];
        i := i + 1;
      }
    }

    /**
     * `callers_tests`: the set of first callers (the originating tests); none
     * where a flow has no caller and indexing it raises `IndexError`.
     */
    method CallersTests() returns (tests: Option<set<string>>)
      ensures tests.None? <==> exists i :: 0 <= i < |flows| && flows[i].callers == []
      ensures tests.Some? ==>
        forall t :: t in tests.value <==> exists i :: 0 <= i < |flows| && flows[i].callers[0] == t
    {
      var cs := Callers();
      var found: set<string> := {};
      var i := 0;
      while i < |cs|
        invariant 0 <= i <= |cs|
        invariant forall k :: 0 <= k < i ==> flows[k].callers != []
        invariant forall t :: t in found <==> exists k :: 0 <= k < i && flows[k].callers[0] == t
      {
        if cs[i] == [] {
          return None;
        }
        found := found + {cs[i][0]};
        i := i + 1;
      }
      return Some(found);
    }
  }

  /** All containers, keyed by unit name. */
  class FlowResult {
    var flowContainers: Dict<string, FlowContainer>

    ghost predicate Valid()
      reads this
    {
      flowContainers.Valid()
    }

    constructor ()
      ensures Valid() && flowContainers == Empty()
    {
      flowContainers := Empty();
    }

    /** `result[key]`: the container, or none where Python raises `KeyError`. */
    function Get(key: string): (r: Option<FlowContainer>)
      reads this
      ensures r.Some? <==> Contains(key)
    {
      if key in flowContainers.items then Some(flowContainers.items[key]) else None
    }

    method Set(key: string, value: FlowContainer)
      requires Valid()
      modifies this
      ensures Valid() && flowContainers == old(flowContainers).Put(key, value)
      ensures Get(key) == Some(value) && forall k :: k != key ==> Get(k) == old(Get(k))
      ensures Length() == old(Length()) + (if old(Contains(key)) then 0 else 1)
    {
      flowContainers := flowContainers.Put(key, value);
    }

    /** `key in result`: the key is among the dict's keys, in the order they were added. */
    predicate Contains(key: string)
      reads this
      ensures Valid() ==> (Contains(key) <==> key in flowContainers.keys)
    {
      key in flowContainers.items
    }

    /** `len(result)`: the number of containers. */
    function Length(): (n: nat)
      reads this
      ensures Valid() ==> n == |flowContainers.items|
    {
      KeysCount(flowContainers);
      |flowContainers.keys|
    }

    /**
     * `filter`: keeps exactly the entries the predicate accepts, in their order,
     * and returns the same object.
     */
    method Filter(keep: (string, FlowContainer) -> bool) returns (self: FlowResult)
      requires Valid()
      modifies this
      ensures self == this && Valid()
      ensures flowContainers == old(flowContainers).Filter(keep)
      ensures forall k :: Contains(k) <==> old(Contains(k)) && keep(k, old(flowContainers).items[k])
    {
      flowContainers := flowContainers.Filter(keep);
      return this;
    }

    /** `has_flows`: the container holds at least one flow. */
    predicate HasFlows(entityName: string, c: FlowContainer)
      reads c
    {
      c.flows != []
    }

    /**
     * `filter(has_flows)`: keeps exactly the containers that hold a flow, in
     * their order, and returns the same object.  `has_flows` reads the
     * containers, so which keys stay is decided first, then the dict is filtered.
     */
    method FilterHasFlows() returns (self: FlowResult)
      requires Valid()
      modifies this
      ensures self == this && Valid()
      ensures flowContainers.keys == old(WithFlows(flowContainers.keys, flowContainers.items))
      ensures forall k :: Contains(k) <==> old(Contains(k) && HasFlows(k, flowContainers.items[k]))
      ensures forall k :: Contains(k) ==> old(Contains(k)) && flowContainers.items[k] == old(flowContainers.items[k])
    {
      var keys, items := flowContainers.keys, flowContainers.items;
      var kept: set<string> := {};
      var i := 0;
      while i < |keys|
        invariant 0 <= i <= |keys|
        invariant forall k :: k in kept <==> k in keys[..i] && HasFlows(k, items[k])
      {
        assert keys[..i + 1] == keys[..i] + [keys[i]];
        if HasFlows(keys[i], items[keys[i]]) {
          kept := kept + {keys[i]};
        }
        i := i + 1;
      }
      assert keys[..i] == keys;
      var keep := (k: string, c: FlowContainer) => k in kept;
      KeptWithFlows(keys, items, keep);
      flowContainers := flowContainers.Filter(keep);
      return this;
    }
  }

  /** The keys whose container holds at least one flow, in order. */
  ghost function WithFlows(ks: seq<string>, m: map<string, FlowContainer>): seq<string>
    requires forall i :: 0 <= i < |ks| ==> ks[i] in m
    reads m.Values
  {
    if ks == [] then []
    else
      var n := |ks| - 1;
      WithFlows(ks[..n], m) + (if m[ks[n]].flows != [] then [ks[n]] else [])
  }

  /** A heap-free predicate that agrees with `has_flows` on every key filters the same keys. */
  lemma {:induction false} KeptWithFlows(ks: seq<string>, m: map<string, FlowContainer>, keep: (string, FlowContainer) -> bool)
    requires forall i :: 0 <= i < |ks| ==> ks[i] in m
    requires forall i :: 0 <= i < |ks| ==> (keep(ks[i], m[ks[i]]) <==> m[ks[i]].flows != [])
    ensures FilterKeys(ks, m, keep) == WithFlows(ks, m)
  {
    if ks != [] {
      var n := |ks| - 1;
      var last := if m[ks[n]].flows != [] then [ks[n]] else [];
      calc {
        FilterKeys(ks, m, keep);
        { FilterKeysSnoc(ks, m, keep); }
        FilterKeys(ks[..n], m, keep) + last;
        { KeptWithFlows(ks[..n], m, keep); }
        WithFlows(ks[..n], m) + last;
      }
    }
  }
}
