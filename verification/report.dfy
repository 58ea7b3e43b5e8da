/**
 * Building what the report shows for one monitored unit (happyflow/report.py):
 * for each ranked flow, one line record per line of the unit's code with its
 * run status and display state, plus counters, positions and a summary.
 */
module Reports {
  import opened Wrappers
  import opened Text
  import opened Values
  import Info
  import Flows
  import Analysis
  import Dicts

  // ---------------------------------------------------------------------
  // Line classification
  // ---------------------------------------------------------------------

  /**
   * `line_run_status`: a line the flow ran is RUN; any other line is NOT_EXEC
   * when it is not an executable line of the unit, and NOT_RUN when it is.
   */
  function LineRunStatus(m: Info.MethodInfo, fileExecutable: set<int>, flowLines: seq<int>, currentLine: int): Info.RunStatus
  {
    if currentLine in flowLines then Info.Run
    else if !m.LineIsExecutable(fileExecutable, currentLine) then Info.NotExec
    else Info.NotRun
  }

  /**
   * Each of the three statuses is characterised by the flow's lines and the
   * executable lines alone: the result depends on no earlier line (there is
   * no state "before the first run line"), and a NOT_EXEC line is outside the
   * unit or not executable in its file.
   */
  lemma LineRunStatusSpec(m: Info.MethodInfo, fileExecutable: set<int>, flowLines: seq<int>, l: int)
    ensures LineRunStatus(m, fileExecutable, flowLines, l) == Info.Run <==> l in flowLines
    ensures LineRunStatus(m, fileExecutable, flowLines, l) == Info.NotExec <==>
      l !in flowLines && (l !in fileExecutable || !m.HasLineno(l))
    ensures LineRunStatus(m, fileExecutable, flowLines, l) == Info.NotRun <==>
      l !in flowLines && l in fileExecutable && m.startLine <= l <= m.endLine
  {
  }

  /**
   * A unit on lines 10 to 14, all executable, whose flow ran lines 11 and 13:
   * the definition line 10 is NOT_RUN, not NOT_EXEC.
   */
  lemma LineRunStatusExample(m: Info.MethodInfo)
    requires m.startLine == 10 && m.endLine == 14
    ensures var st := (l: int) => LineRunStatus(m, {10, 11, 12, 13, 14}, [11, 13], l);
      [st(10), st(11), st(12), st(13), st(14)] == [Info.NotRun, Info.Run, Info.NotRun, Info.Run, Info.NotRun]
  {
  }

  // ---------------------------------------------------------------------
  // Display state
  // ---------------------------------------------------------------------

  /** `arg_state`'s text: `name=value` of every argument but `self`, with no separator. */
  function ArgText(args: seq<Flows.ArgState>): string
  {
    if args == [] then ""
    else
      var a := args[|args| - 1];
      ArgText(args[..|args| - 1]) + (if a.name != "self" then a.ToString() else "")
  }

  /** The text is empty exactly when every argument is `self`. */
  lemma {:induction false} ArgTextEmpty(args: seq<Flows.ArgState>)
    ensures ArgText(args) == "" <==> forall i :: 0 <= i < |args| ==> args[i].name == "self"
  {
    if args != [] {
      var init := args[..|args| - 1];
      var a := args[|args| - 1];
      ArgTextEmpty(init);
      assert a.ToString()[|a.name|] == '=';
      assert forall i :: 0 <= i < |init| ==> args[i] == init[i];
    }
  }

  /** The `name=value` text of every argument but `self` occurs in the text. */
  lemma ArgTextContainsAll(args: seq<Flows.ArgState>)
    ensures forall i :: 0 <= i < |args| && args[i].name != "self" ==> Contains(ArgText(args), args[i].ToString())
  {
    forall i | 0 <= i < |args| && args[i].name != "self"
      ensures Contains(ArgText(args), args[i].ToString())
    {
      ArgTextContains(args, i);
    }
  }

  lemma {:induction false} ArgTextContains(args: seq<Flows.ArgState>, i: nat)
    requires i < |args| && args[i].name != "self"
    ensures Contains(ArgText(args), args[i].ToString())
  {
    var init := args[..|args| - 1];
    if i < |init| {
      var a := args[|args| - 1];
      assert init[i] == args[i];
      ArgTextContains(init, i);
      ContainsExtend(ArgText(init), if a.name != "self" then a.ToString() else "", args[i].ToString());
    } else {
      ArgTextLast(args);
    }
  }

  /** The last argument's text ends the text, unless it is `self`. */
  lemma ArgTextLast(args: seq<Flows.ArgState>)
    requires args != [] && args[|args| - 1].name != "self"
    ensures Contains(ArgText(args), args[|args| - 1].ToString())
  {
    ContainsSuffix(ArgText(args[..|args| - 1]), args[|args| - 1].ToString());
  }

  /** `arg_state`. */
  method ArgState(args: seq<Flows.ArgState>) returns (argStr: string)
    ensures argStr == ArgText(args)
  {
    argStr := "";
    var i := 0;
    while i < |args|
      invariant 0 <= i <= |args|
      invariant argStr == ArgText(args[..i])
    {
      assert args[..i + 1][..i] == args[..i];
      if args[i].name != "self" {
        argStr := argStr + args[i].ToString();
      }
      i := i + 1;
    }
    assert args[..i] == args;
  }

  /** What `get_state` reads of a call's history: the variable dict, the argument snapshot and the return. */
  datatype Recorded = Recorded(vars: Dicts.Dict<string, seq<Flows.VarState>>, args: seq<Flows.ArgState>, ret: Option<Flows.ReturnState>)
  {
    predicate KeysListed()
    {
      forall i :: 0 <= i < |vars.keys| ==> vars.keys[i] in vars.items
    }

    predicate IsReturnValue(l: int)
    {
      ret.Some? && l == ret.value.lineno
    }
  }

  /** The history's current contents. */
  function RecordedOf(h: Flows.StateHistory): (r: Recorded)
    reads h
    ensures h.KeysListed() ==> r.KeysListed()
  {
    Recorded(h.varStates, h.argStates, h.returnState)
  }

  /**
   * `get_state`: the definition line shows the arguments, the recorded return
   * line the return value, any other line its variable states, if any.
   */
  function StateAt(m: Info.MethodInfo, r: Recorded, l: int): Info.DisplayState
  {
    if m.LineIsEntityDefinition(l) then Info.ArgDisplay(ArgText(r.args))
    else if r.IsReturnValue(l) then Info.ReturnDisplay(Str(r.ret.value.value))
    else
      var states := Flows.LineEntries(r.vars.keys, r.vars.items, l);
      if states != [] then Info.VarDisplay(states) else Info.Blank
  }

  /**
   * The priority of `get_state`: the definition line shows the arguments even
   * when it is also the return line; otherwise the return line shows the
   * return value; otherwise a line shows variables exactly when some variable
   * other than `self` has a changed state recorded there, each entry stripped;
   * otherwise nothing.
   */
  lemma StateAtSpec(m: Info.MethodInfo, r: Recorded, l: int)
    requires r.KeysListed()
    ensures var s := StateAt(m, r, l);
      && (s.ArgDisplay? <==> l == m.startLine)
      && (s.ReturnDisplay? <==> l != m.startLine && r.IsReturnValue(l))
      && (s.VarDisplay? <==>
            (l != m.startLine && !r.IsReturnValue(l) && Flows.ReportedVars(r.vars.keys, r.vars.items, l) != []))
      && (s.VarDisplay? ==> forall j :: 0 <= j < |s.states| ==> Stripped(s.states[j]))
      && (s.ArgDisplay? ==> s.text == ArgText(r.args))
  {
    Flows.LineEntriesSpec(r.vars.keys, r.vars.items, l);
  }

  /** `get_state`. */
  method GetState(m: Info.MethodInfo, h: Flows.StateHistory, lineNumber: int) returns (state: Info.DisplayState)
    requires h.KeysListed()
    ensures state == StateAt(m, RecordedOf(h), lineNumber)
  {
    var states := h.StatesForLine(lineNumber);
    if m.LineIsEntityDefinition(lineNumber) {
      var text := ArgState(h.argStates);
      return Info.ArgDisplay(text);
    } else if h.IsReturnValue(lineNumber) {
      return Info.ReturnDisplay(Str(h.returnState.value.value));
    } else if states != [] {
      return Info.VarDisplay(states);
    }
    return Info.Blank;
  }

  // ---------------------------------------------------------------------
  // Line records, flows and the unit
  // ---------------------------------------------------------------------

  /** One displayed line: its position in the unit, its file line, status, code and state. */
  datatype LineInfo = LineInfo(
    lineno: int,
    linenoEntity: int,
    runStatus: Info.RunStatus,
    code: string,
    state: Info.DisplayState)
  {
    predicate IsRun() { runStatus == Info.Run }
    predicate IsNotRun() { runStatus == Info.NotRun }
    predicate IsNotExec() { runStatus == Info.NotExec }
  }

  /** How many of the lines have the status. */
  function StatusCount(lines: seq<LineInfo>, s: Info.RunStatus): nat
  {
    if lines == [] then 0
    else StatusCount(lines[..|lines| - 1], s) + (if lines[|lines| - 1].runStatus == s then 1 else 0)
  }

  /** Every line is counted under exactly one status. */
  lemma {:induction false} StatusCountsSum(lines: seq<LineInfo>)
    ensures StatusCount(lines, Info.Run) + StatusCount(lines, Info.NotRun) + StatusCount(lines, Info.NotExec) == |lines|
  {
    if lines != [] {
      StatusCountsSum(lines[..|lines| - 1]);
    }
  }

  /** A rendered flow of the report. */
  class FlowInfo {
    var pos: nat
    var linesData: seq<LineInfo>
    var runCount: nat
    var notRunCount: nat
    var notExecCount: nat
    var callCount: nat
    var argValues: seq<Analysis.ArgSummary>
    var returnValues: Option<string>

    /** The counters agree with the lines. */
    ghost predicate Valid()
      reads this
    {
      && runCount == StatusCount(linesData, Info.Run)
      && notRunCount == StatusCount(linesData, Info.NotRun)
      && notExecCount == StatusCount(linesData, Info.NotExec)
    }

    constructor ()
      ensures Valid() && pos == 0 && linesData == [] && callCount == 0
      ensures argValues == [] && returnValues == None
    {
      pos := 0;
      linesData := [];
      runCount, notRunCount, notExecCount := 0, 0, 0;
      callCount := 0;
      argValues := [];
      returnValues := None;
    }

    function Length(): nat
      reads this
    {
      |linesData|
    }

    method Append(other: LineInfo)
      modifies this
      ensures linesData == old(linesData) + [other]
      ensures runCount == old(runCount) && notRunCount == old(notRunCount) && notExecCount == old(notExecCount)
      ensures pos == old(pos) && callCount == old(callCount)
      ensures argValues == old(argValues) && returnValues == old(returnValues)
    {
      linesData := linesData + [other];
    }

    /** Counts one line under its status, and only there. */
    method UpdateRunStatus(lineData: LineInfo)
      modifies this
      ensures runCount == old(runCount) + (if lineData.IsRun() then 1 else 0)
      ensures notRunCount == old(notRunCount) + (if lineData.IsNotRun() then 1 else 0)
      ensures notExecCount == old(notExecCount) + (if lineData.IsNotExec() then 1 else 0)
      ensures linesData == old(linesData) && pos == old(pos) && callCount == old(callCount)
      ensures argValues == old(argValues) && returnValues == old(returnValues)
    {
      if lineData.IsRun() {
        runCount := runCount + 1;
      }
      if lineData.IsNotRun() {
        notRunCount := notRunCount + 1;
      }
      if lineData.IsNotExec() {
        notExecCount := notExecCount + 1;
      }
    }
  }

  /** Appending a line and counting it keeps the counters in agreement with the lines. */
  lemma AppendCounted(lines: seq<LineInfo>, li: LineInfo, s: Info.RunStatus)
    ensures StatusCount(lines + [li], s) == StatusCount(lines, s) + (if li.runStatus == s then 1 else 0)
  {
    assert (lines + [li])[..|lines|] == lines;
  }

  /** `append` followed by `update_run_status`, as the line walk does for each line. */
  method AddLine(flowInfo: FlowInfo, lineInfo: LineInfo)
    requires flowInfo.Valid()
    modifies flowInfo
    ensures flowInfo.Valid() && flowInfo.linesData == old(flowInfo.linesData) + [lineInfo]
    ensures flowInfo.pos == old(flowInfo.pos) && flowInfo.callCount == old(flowInfo.callCount)
    ensures flowInfo.argValues == old(flowInfo.argValues) && flowInfo.returnValues == old(flowInfo.returnValues)
  {
    ghost var before := flowInfo.linesData;
    flowInfo.Append(lineInfo);
    flowInfo.UpdateRunStatus(lineInfo);
    AppendCounted(before, lineInfo, Info.Run);
    AppendCounted(before, lineInfo, Info.NotRun);
    AppendCounted(before, lineInfo, Info.NotExec);
  }

  /** The report of one unit: its rendered flows in rank order. */
  class EntityInfo {
    const targetEntity: Info.MethodInfo
    var flowsData: seq<FlowInfo>
    var totalFlows: nat
    const totalCalls: nat

    constructor (targetEntity: Info.MethodInfo, totalCalls: nat)
      ensures this.targetEntity == targetEntity && this.totalCalls == totalCalls
      ensures flowsData == [] && totalFlows == 0
    {
      this.targetEntity := targetEntity;
      this.totalCalls := totalCalls;
      flowsData := [];
      totalFlows := 0;
    }

    function Length(): nat
      reads this
    {
      |flowsData|
    }

    method Append(other: FlowInfo)
      modifies this
      ensures flowsData == old(flowsData) + [other] && totalFlows == old(totalFlows)
    {
      flowsData := flowsData + [other];
    }
  }

  /** The record `get_flow_info` emits for the `k`-th code line (0-based) of the unit. */
  function ExpectedLine(m: Info.MethodInfo, fileExecutable: set<int>, flow: Flows.Flow, r: Recorded, k: nat): LineInfo
    requires k < |m.codeLines|
  {
    LineInfo(k + 1, m.startLine + k, LineRunStatus(m, fileExecutable, flow.runLines, m.startLine + k),
             RStrip(m.codeLines[k]), StateAt(m, r, m.startLine + k))
  }

  /** The records of the first `n` code lines. */
  ghost function ExpectedLines(m: Info.MethodInfo, fileExecutable: set<int>, flow: Flows.Flow, r: Recorded, n: nat): (lines: seq<LineInfo>)
    requires n <= |m.codeLines|
    ensures |lines| == n && forall k :: 0 <= k < n ==> lines[k] == ExpectedLine(m, fileExecutable, flow, r, k)
  {
    if n == 0 then [] else ExpectedLines(m, fileExecutable, flow, r, n - 1) + [ExpectedLine(m, fileExecutable, flow, r, n - 1)]
  }

  /** Only the group's first call decides the states shown. */
  predicate Representative(group: Flows.FlowContainer)
    reads group
  {
    group.flows != [] && group.flows[0].stateHistory.Some?
  }

  /**
   * `get_flow_info`: one record per code line of the unit, the `i`-th (from 1)
   * with `lineno == i` and `lineno_entity == start_line + i - 1`, its status
   * taken from the first call's lines and its state from the first call's
   * history; the counters add up to the number of lines.
   */
  method GetFlowInfo(entityInfo: EntityInfo, group: Flows.FlowContainer, fileExecutable: set<int>) returns (flowInfo: FlowInfo)
    requires Representative(group) && group.flows[0].stateHistory.value.KeysListed()
    ensures fresh(flowInfo) && flowInfo.pos == 0
    ensures RendersGroup(flowInfo, entityInfo.targetEntity, fileExecutable, group.flows)
    ensures flowInfo.runCount + flowInfo.notRunCount + flowInfo.notExecCount == |flowInfo.linesData|
  {
    assert forall h :: h in Flows.HistoriesOf(group.flows) ==> allocated(h) by {
      Flows.HistoriesOfMembers(group.flows);
    }
    var args := group.ArgStates();
    var values := group.ReturnStates();
    flowInfo := NewFlowInfo(|group.flows|, args, values);
    var flow := group.flows[0];
    RenderLines(flowInfo, entityInfo.targetEntity, fileExecutable, flow, flow.stateHistory.value);
    Flows.TablesUnchanged(group.flows);
    StatusCountsSum(flowInfo.linesData);
  }

  /**
   * The summaries of a rendered flow: one per argument, in argument order,
   * its most common values rendered and cut at 150 characters; and the
   * return values rendered and cut the same way, kept exactly when there is
   * something to count.
   */
  ghost predicate Summarises(argValues: seq<Analysis.ArgSummary>, returnValues: Option<string>,
                             args: Dicts.Dict<string, seq<Value>>, values: seq<Value>)
    requires args.Valid()
  {
    && |argValues| == |args.keys|
    && (forall i :: 0 <= i < |args.keys| ==>
          argValues[i] == Analysis.ArgSummary(args.keys[i],
            Analysis.ClearValues(Analysis.Render(Analysis.MostCommon(args.items[args.keys[i]])), Analysis.MaxLen)))
    && (returnValues.Some? <==> Analysis.MostCommon(values) != [])
    && (returnValues.Some? ==>
          returnValues.value == Analysis.ClearValues(Analysis.Render(Analysis.MostCommon(values)), Analysis.MaxLen))
  }

  /**
   * `flowInfo` renders the group of calls `group`: its call count is the
   * group's size, it has the record `ExpectedLine` of every code line of the
   * unit for the group's first call, and it summarises the group's argument
   * table and return values.
   */
  ghost predicate RendersGroup(flowInfo: FlowInfo, m: Info.MethodInfo, fileExecutable: set<int>, group: seq<Flows.Flow>)
    reads flowInfo, Flows.HistoriesOf(group)
  {
    && flowInfo.Valid()
    && GroupLines(flowInfo.linesData, flowInfo.callCount, flowInfo.argValues, flowInfo.returnValues, m, fileExecutable, group)
  }

  /** What a rendered group holds, field by field. */
  ghost predicate GroupLines(linesData: seq<LineInfo>, callCount: nat, argValues: seq<Analysis.ArgSummary>, returnValues: Option<string>,
                             m: Info.MethodInfo, fileExecutable: set<int>, group: seq<Flows.Flow>)
    reads Flows.HistoriesOf(group)
  {
    && group != [] && group[0].stateHistory.Some?
    && callCount == |group|
    && |linesData| == |m.codeLines|
    && (forall k :: 0 <= k < |m.codeLines| ==>
          linesData[k] == ExpectedLine(m, fileExecutable, group[0], RecordedOf(group[0].stateHistory.value), k))
    && Summarises(argValues, returnValues, Flows.ArgTable(group), Flows.ReturnValues(group))
  }


  /**
   * The opening of `get_flow_info`: the call count and the analysis of the
   * group's argument table and return values; the return summary is kept only
   * when there is one.
   */
  method NewFlowInfo(callCount: nat, args: Dicts.Dict<string, seq<Value>>, values: seq<Value>) returns (flowInfo: FlowInfo)
    requires args.Valid()
    ensures fresh(flowInfo) && flowInfo.Valid() && flowInfo.pos == 0 && flowInfo.linesData == []
    ensures flowInfo.callCount == callCount
    ensures Summarises(flowInfo.argValues, flowInfo.returnValues, args, values)
  {
    var argValues := Analysis.MostCommonArgsPretty(args);
    var returnValues := Analysis.MostCommonReturnValuesPretty(values);
    flowInfo := new FlowInfo();
    flowInfo.callCount := callCount;
    flowInfo.argValues := argValues;
    if returnValues.Some? && returnValues.value != "" {
      flowInfo.returnValues := returnValues;
    }
  }

  /** The record of one code line, built as the line walk of `get_flow_info` builds it. */
  method LineAt(m: Info.MethodInfo, fileExecutable: set<int>, flow: Flows.Flow, h: Flows.StateHistory, i: nat, lineno: int, linenoEntity: int)
    returns (lineInfo: LineInfo)
    requires h.KeysListed() && i < |m.codeLines|
    requires lineno == i + 1 && linenoEntity == m.startLine + i
    ensures lineInfo == ExpectedLine(m, fileExecutable, flow, RecordedOf(h), i)
  {
    var code := m.codeLines[i];
    var runStatus := LineRunStatus(m, fileExecutable, flow.runLines, linenoEntity);
    var state := GetState(m, h, linenoEntity);
    lineInfo := LineInfo(lineno, linenoEntity, runStatus, RStrip(code), state);
    assert runStatus == LineRunStatus(m, fileExecutable, flow.runLines, m.startLine + i);
    assert state == StateAt(m, RecordedOf(h), m.startLine + i);
  }

  /** The line walk of `get_flow_info`: appends the record of every code line, in order. */
  method RenderLines(flowInfo: FlowInfo, m: Info.MethodInfo, fileExecutable: set<int>, flow: Flows.Flow, h: Flows.StateHistory)
    requires h.KeysListed() && flowInfo.Valid() && flowInfo.linesData == []
    modifies flowInfo
    ensures flowInfo.Valid() && |flowInfo.linesData| == |m.codeLines|
    ensures forall k :: 0 <= k < |m.codeLines| ==> flowInfo.linesData[k] == ExpectedLine(m, fileExecutable, flow, RecordedOf(h), k)
    ensures flowInfo.pos == old(flowInfo.pos) && flowInfo.callCount == old(flowInfo.callCount)
    ensures flowInfo.argValues == old(flowInfo.argValues) && flowInfo.returnValues == old(flowInfo.returnValues)
  {
    ghost var rec := RecordedOf(h);
    var lineno := 0;
    var linenoEntity := m.startLine - 1;
    var i := 0;
    while i < |m.codeLines|
      invariant 0 <= i <= |m.codeLines|
      invariant lineno == i && linenoEntity == m.startLine - 1 + i
      invariant flowInfo.Valid() && flowInfo.linesData == ExpectedLines(m, fileExecutable, flow, rec, i)
      invariant flowInfo.pos == old(flowInfo.pos) && flowInfo.callCount == old(flowInfo.callCount)
      invariant flowInfo.argValues == old(flowInfo.argValues) && flowInfo.returnValues == old(flowInfo.returnValues)
    {
      lineno := lineno + 1;
      linenoEntity := linenoEntity + 1;
      var lineInfo := LineAt(m, fileExecutable, flow, h, i, lineno, linenoEntity);
      AddLine(flowInfo, lineInfo);
      i := i + 1;
    }
  }

  /** Every ranked line set is the distinct lines of some call of the unit. */
  predicate RankedFromContainer(container: Flows.FlowContainer, ranked: seq<seq<int>>)
    reads container
  {
    forall i :: 0 <= i < |ranked| ==>
      exists j :: 0 <= j < |container.flows| && container.flows[j].DistinctLines() == ranked[i]
  }

  /** Every call of the unit has a well-formed history. */
  predicate AllRecorded(container: Flows.FlowContainer)
    reads container
  {
    forall j :: 0 <= j < |container.flows| ==> container.flows[j].stateHistory.Some?
  }

  /** A group selected by a ranked line set is non-empty and made of calls of the unit. */
  lemma GroupOfRanked(flows: seq<Flows.Flow>, lines: seq<int>, j: nat)
    requires j < |flows| && flows[j].DistinctLines() == lines
    ensures Flows.FlowsWithLines(flows, lines) != []
    ensures Flows.FlowsWithLines(flows, lines)[0] in flows
  {
    Flows.FlowsWithLinesMembers(flows, lines);
  }

  /**
   * The first `|fs|` rendered flows of a unit: the `k`-th is numbered `k + 1`
   * and renders the calls that took the `k`-th ranked line set.
   */
  ghost predicate Rendered(fs: seq<FlowInfo>, m: Info.MethodInfo, fileExecutable: set<int>, flows: seq<Flows.Flow>, ranked: seq<seq<int>>)
    reads fs, Flows.HistoriesOf(flows)
  {
    && |fs| <= |ranked|
    && forall k :: 0 <= k < |fs| ==>
         fs[k].pos == k + 1 && RendersGroup(fs[k], m, fileExecutable, Flows.FlowsWithLines(flows, ranked[k]))
  }

  /** A further rendered flow, numbered next, extends the rendered prefix. */
  lemma RenderedExtend(fs: seq<FlowInfo>, fi: FlowInfo, m: Info.MethodInfo, fileExecutable: set<int>, flows: seq<Flows.Flow>, ranked: seq<seq<int>>)
    requires Rendered(fs, m, fileExecutable, flows, ranked) && |fs| < |ranked|
    requires fi.pos == |fs| + 1 && RendersGroup(fi, m, fileExecutable, Flows.FlowsWithLines(flows, ranked[|fs|]))
    ensures Rendered(fs + [fi], m, fileExecutable, flows, ranked)
  {
    forall k | 0 <= k < |fs| + 1
      ensures (fs + [fi])[k].pos == k + 1
    {
    }
  }

  /** One step of `get_entity_info`: the calls that took the line set, rendered and numbered. */
  method RenderGroup(entityInfo: EntityInfo, entityResult: Flows.FlowContainer, targetFlowLines: seq<int>,
                     fileExecutable: set<int>, flowPos: nat)
    returns (flowInfo: FlowInfo)
    requires entityInfo.targetEntity == entityResult.targetEntity && AllRecorded(entityResult)
    requires exists j :: 0 <= j < |entityResult.flows| && entityResult.flows[j].DistinctLines() == targetFlowLines
    requires forall j :: 0 <= j < |entityResult.flows| ==> entityResult.flows[j].stateHistory.value.KeysListed()
    ensures fresh(flowInfo) && flowInfo.pos == flowPos
    ensures RendersGroup(flowInfo, entityResult.targetEntity, fileExecutable, Flows.FlowsWithLines(entityResult.flows, targetFlowLines))
  {
    assert forall h :: h in Flows.HistoriesOf(entityResult.flows) ==> allocated(h) by {
      Flows.HistoriesOfMembers(entityResult.flows);
    }
    var j :| 0 <= j < |entityResult.flows| && entityResult.flows[j].DistinctLines() == targetFlowLines;
    GroupOfRanked(entityResult.flows, targetFlowLines, j);
    var flowResult := entityResult.FlowByLines(targetFlowLines);
    assert flowResult.flows[0] in entityResult.flows;
    ghost var group := flowResult.flows;
    flowInfo := GetFlowInfo(entityInfo, flowResult, fileExecutable);
    NumberFlow(flowInfo, flowPos, entityResult.targetEntity, fileExecutable, group);
  }

  /** `flow_info.pos = flow_pos`: numbering a rendered flow keeps what it renders. */
  method NumberFlow(flowInfo: FlowInfo, flowPos: nat, ghost m: Info.MethodInfo, ghost fileExecutable: set<int>,
                    ghost group: seq<Flows.Flow>)
    requires RendersGroup(flowInfo, m, fileExecutable, group)
    modifies flowInfo
    ensures flowInfo.pos == flowPos
    ensures RendersGroup(flowInfo, m, fileExecutable, group)
  {
    assert forall h :: h in Flows.HistoriesOf(group) ==> allocated(h) by {
      Flows.HistoriesOfMembers(group);
    }
    ghost var linesData, callCount := flowInfo.linesData, flowInfo.callCount;
    ghost var argValues, returnValues := flowInfo.argValues, flowInfo.returnValues;
    assert GroupLines(linesData, callCount, argValues, returnValues, m, fileExecutable, group);
    flowInfo.pos := flowPos;
    assert GroupLines(linesData, callCount, argValues, returnValues, m, fileExecutable, group);
  }

  /** One pass of the loop in `get_entity_info`: the next ranked line set, rendered, numbered and appended. */
  method RenderNext(entityInfo: EntityInfo, entityResult: Flows.FlowContainer, ranked: seq<seq<int>>,
                    fileExecutable: set<int>, flowPos: nat)
    requires entityInfo.targetEntity == entityResult.targetEntity && AllRecorded(entityResult)
    requires RankedFromContainer(entityResult, ranked)
    requires forall j :: 0 <= j < |entityResult.flows| ==> entityResult.flows[j].stateHistory.value.KeysListed()
    requires |entityInfo.flowsData| < |ranked| && flowPos == |entityInfo.flowsData| + 1
    requires Rendered(entityInfo.flowsData, entityInfo.targetEntity, fileExecutable, entityResult.flows, ranked)
    modifies entityInfo
    ensures |entityInfo.flowsData| == |old(entityInfo.flowsData)| + 1 && entityInfo.totalFlows == old(entityInfo.totalFlows)
    ensures Rendered(entityInfo.flowsData, entityInfo.targetEntity, fileExecutable, entityResult.flows, ranked)
  {
    assert forall h :: h in Flows.HistoriesOf(entityResult.flows) ==> allocated(h) by {
      Flows.HistoriesOfMembers(entityResult.flows);
    }
    ghost var before := entityInfo.flowsData;
    assert forall k :: 0 <= k < |before| ==> allocated(before[k]);
    var flowInfo := RenderGroup(entityInfo, entityResult, ranked[flowPos - 1], fileExecutable, flowPos);
    assert Rendered(before, entityInfo.targetEntity, fileExecutable, entityResult.flows, ranked);
    AppendRendered(entityInfo, flowInfo, fileExecutable, entityResult.flows, ranked);
  }

  /** `entity_info.append` on a rendered flow: what was rendered stays rendered. */
  method AppendRendered(entityInfo: EntityInfo, flowInfo: FlowInfo, ghost fileExecutable: set<int>,
                        ghost flows: seq<Flows.Flow>, ghost ranked: seq<seq<int>>)
    requires Rendered(entityInfo.flowsData, entityInfo.targetEntity, fileExecutable, flows, ranked)
    requires |entityInfo.flowsData| < |ranked| && flowInfo.pos == |entityInfo.flowsData| + 1
    requires RendersGroup(flowInfo, entityInfo.targetEntity, fileExecutable, Flows.FlowsWithLines(flows, ranked[|entityInfo.flowsData|]))
    modifies entityInfo
    ensures entityInfo.flowsData == old(entityInfo.flowsData) + [flowInfo] && entityInfo.totalFlows == old(entityInfo.totalFlows)
    ensures Rendered(entityInfo.flowsData, entityInfo.targetEntity, fileExecutable, flows, ranked)
  {
    assert forall h :: h in Flows.HistoriesOf(flows) ==> allocated(h) by {
      Flows.HistoriesOfMembers(flows);
    }
    ghost var before := entityInfo.flowsData;
    entityInfo.Append(flowInfo);
    assert Rendered(before, entityInfo.targetEntity, fileExecutable, flows, ranked);
    RenderedExtend(before, flowInfo, entityInfo.targetEntity, fileExecutable, flows, ranked);
  }

  /**
   * `get_entity_info`: one rendered flow per ranked line set, in rank order,
   * numbered 1, 2, 3, ...; `total_flows` is the number of ranked flows and
   * `total_calls` the number of calls of the unit.
   */
  method GetEntityInfo(entityResult: Flows.FlowContainer, mostCommonFlows: seq<seq<int>>, fileExecutable: set<int>)
    returns (entityInfo: EntityInfo)
    requires RankedFromContainer(entityResult, mostCommonFlows) && AllRecorded(entityResult)
    requires forall j :: 0 <= j < |entityResult.flows| ==> entityResult.flows[j].stateHistory.value.KeysListed()
    ensures fresh(entityInfo)
    ensures entityInfo.targetEntity == entityResult.targetEntity
    ensures entityInfo.totalCalls == |entityResult.flows| && entityInfo.totalFlows == |mostCommonFlows|
    ensures |entityInfo.flowsData| == |mostCommonFlows|
    ensures Rendered(entityInfo.flowsData, entityResult.targetEntity, fileExecutable, entityResult.flows, mostCommonFlows)
  {
    assert forall h :: h in Flows.HistoriesOf(entityResult.flows) ==> allocated(h) by {
      Flows.HistoriesOfMembers(entityResult.flows);
    }
    entityInfo := new EntityInfo(entityResult.targetEntity, |entityResult.flows|);
    entityInfo.totalFlows := |mostCommonFlows|;

    var flowPos := 0;
    var i := 0;
    while i < |mostCommonFlows|
      invariant 0 <= i <= |mostCommonFlows| && flowPos == i
      invariant fresh(entityInfo)
      invariant entityInfo.targetEntity == entityResult.targetEntity
      invariant entityInfo.totalCalls == |entityResult.flows| && entityInfo.totalFlows == |mostCommonFlows|
      invariant |entityInfo.flowsData| == i
      invariant Rendered(entityInfo.flowsData, entityResult.targetEntity, fileExecutable, entityResult.flows, mostCommonFlows)
    {
      flowPos := flowPos + 1;
      RenderNext(entityInfo, entityResult, mostCommonFlows, fileExecutable, flowPos);
      i := i + 1;
    }
  }

  /** The index page's line for one unit; its top flow is the first ranked one. */
  class EntitySummary {
    const fullName: string
    const totalFlows: nat
    const totalCalls: nat
    const topFlowCalls: nat
    const statementsCount: nat

    constructor (entityInfo: EntityInfo, fileExecutable: set<int>)
      requires entityInfo.flowsData != []
      ensures fullName == entityInfo.targetEntity.fullName
      ensures totalFlows == entityInfo.totalFlows && totalCalls == entityInfo.totalCalls
      ensures topFlowCalls == entityInfo.flowsData[0].callCount
      ensures statementsCount == entityInfo.targetEntity.ExecutableLinesCount(fileExecutable)
    {
      fullName := entityInfo.targetEntity.fullName;
      totalFlows := entityInfo.totalFlows;
      totalCalls := entityInfo.totalCalls;
      topFlowCalls := entityInfo.flowsData[0].callCount;
      statementsCount := entityInfo.targetEntity.ExecutableLinesCount(fileExecutable);
    }
  }
}
