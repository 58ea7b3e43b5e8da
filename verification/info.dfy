/**
 * The monitored unit's descriptor and the per-line records of a rendered flow
 * (happyflow/info.py).  The executable lines of the unit's file come from a
 * static analysis outside the core; they are passed in as a set.
 */
module Info {
  import opened Wrappers

  /** Identity and location of a traced function or method. */
  datatype MethodInfo = MethodInfo(
    moduleName: string,
    className: Option<string>,
    name: string,
    fullName: string,
    filename: string,
    codeLines: seq<string>,
    startLine: int,
    endLine: int)
  {
    /** `range(start_line, end_line + 1)` as a set. */
    function EntityLines(): (r: set<int>)
      ensures forall l :: l in r <==> startLine <= l <= endLine
    {
      Range(startLine, endLine)
    }

    /** The executable lines of the file that fall inside the unit. */
    function ExecutableLines(fileExecutable: set<int>): (r: set<int>)
      ensures r <= EntityLines() && r <= fileExecutable
      ensures forall l :: l in fileExecutable && startLine <= l <= endLine ==> l in r
    {
      fileExecutable * EntityLines()
    }

    function ExecutableLinesCount(fileExecutable: set<int>): (n: nat)
      ensures n == |ExecutableLines(fileExecutable)|
      ensures n <= if startLine <= endLine then endLine - startLine + 1 else 0
    {
      SubsetCardinality(ExecutableLines(fileExecutable), EntityLines());
      |ExecutableLines(fileExecutable)|
    }

    predicate LineIsExecutable(fileExecutable: set<int>, lineno: int)
    {
      lineno in ExecutableLines(fileExecutable)
    }

    predicate LineIsEntityDefinition(lineno: int)
    {
      lineno == startLine
    }

    predicate HasLineno(lineno: int)
    {
      lineno in EntityLines()
    }

    predicate IsMethod()
    {
      className.Some?
    }

    predicate IsFunc()
    {
      !IsMethod()
    }

    /** Lines of code, counted as `end_line - start_line`. */
    function Loc(): int
    {
      endLine - startLine
    }
  }

  /** The integers `a..b`, both ends included. */
  function Range(a: int, b: int): (r: set<int>)
    ensures forall l :: l in r <==> a <= l <= b
    ensures |r| == if a <= b then b - a + 1 else 0
    decreases b - a
  {
    if a > b then {} else {a} + Range(a + 1, b)
  }

  lemma SubsetCardinality(s: set<int>, t: set<int>)
    requires s <= t
    ensures |s| <= |t|
  {
    assert t == s + (t - s);
  }

  /**
   * How a descriptor's line arithmetic fits together: the unit spans `loc + 1`
   * lines, its definition line is one of them, an executable line of the unit
   * lies in that span, and a unit is a function exactly when it is not a method.
   */
  lemma {:induction false} LineArithmetic(m: MethodInfo, fileExecutable: set<int>, l: int)
    requires m.startLine <= m.endLine
    ensures |m.EntityLines()| == m.Loc() + 1
    ensures m.HasLineno(m.startLine) && m.LineIsEntityDefinition(m.startLine)
    ensures m.LineIsExecutable(fileExecutable, l) ==> m.HasLineno(l)
    ensures m.ExecutableLinesCount(fileExecutable) <= m.Loc() + 1
    ensures m.IsFunc() != m.IsMethod()
  {
  }

  /** The descriptor of happyflow/tests/test_sut.py's `test_loc`: lines 10 to 20 give `loc() == 10`. */
  lemma LocExample(m: MethodInfo)
    requires m.startLine == 10 && m.endLine == 20
    ensures m.Loc() == 10 && |m.EntityLines()| == 11
  {
  }

  /** `RunStatus`: NOT_RUN = 0, RUN = 1, NOT_EXEC = 2. */
  datatype RunStatus = NotRun | Run | NotExec
  {
    function Code(): (c: nat)
      ensures c < 3
    {
      match this
      case NotRun => 0
      case Run => 1
      case NotExec => 2
    }
  }

  /** The three codes are distinct, so a line matches exactly one status. */
  lemma RunStatusCodesDistinct(a: RunStatus, b: RunStatus)
    ensures a.Code() == b.Code() <==> a == b
  {
  }

  /** `StateStatus`: the tag of what a line displays. */
  datatype StateStatus = Arg | Return | Var

  /**
   * What a rendered line shows: nothing (`''`), the argument snapshot, the
   * return value, or the variable states recorded at that line.
   */
  datatype DisplayState =
    | Blank
    | ArgDisplay(text: string)
    | ReturnDisplay(text: string)
    | VarDisplay(states: seq<string>)
  {
    function Status(): Option<StateStatus>
    {
      match this
      case Blank => None
      case ArgDisplay(_) => Some(Arg)
      case ReturnDisplay(_) => Some(Return)
      case VarDisplay(_) => Some(Var)
    }
  }

  /** One line of a rendered flow. */
  datatype LineInfo = LineInfo(
    lineno: int,
    linenoEntity: int,
    runStatus: RunStatus,
    state: DisplayState,
    methodInfo: MethodInfo)
  {
    predicate IsRun() { runStatus == Run }
    predicate IsNotRun() { runStatus == NotRun }
    predicate IsNotExec() { runStatus == NotExec }
  }

  /** Exactly one of the three predicates holds of any line. */
  lemma LineStatusExclusive(li: LineInfo)
    ensures (if li.IsRun() then 1 else 0) + (if li.IsNotRun() then 1 else 0)
          + (if li.IsNotExec() then 1 else 0) == 1
  {
  }

  /** A rendered flow: its lines and how many of them have each status. */
  class FlowInfo {
    var lines: seq<LineInfo>
    var runCount: nat
    var notRunCount: nat
    var notExecCount: nat
    var callCount: nat

    constructor (callCount: nat)
      ensures this.callCount == callCount && lines == []
      ensures runCount == 0 && notRunCount == 0 && notExecCount == 0
    {
      this.callCount := callCount;
      lines := [];
      runCount, notRunCount, notExecCount := 0, 0, 0;
    }

    method Append(li: LineInfo)
      modifies this
      ensures lines == old(lines) + [li]
      ensures runCount == old(runCount) && notRunCount == old(notRunCount)
      ensures notExecCount == old(notExecCount) && callCount == old(callCount)
    {
      lines := lines + [li];
    }

    /** Adds one to the counter of the line's status and to no other. */
    method UpdateRunStatus(li: LineInfo)
      modifies this
      ensures runCount == old(runCount) + (if li.IsRun() then 1 else 0)
      ensures notRunCount == old(notRunCount) + (if li.IsNotRun() then 1 else 0)
      ensures notExecCount == old(notExecCount) + (if li.IsNotExec() then 1 else 0)
      ensures runCount + notRunCount + notExecCount
           == old(runCount) + old(notRunCount) + old(notExecCount) + 1
      ensures lines == old(lines) && callCount == old(callCount)
    {
      if li.IsRun() {
        runCount := runCount + 1;
      }
      if li.IsNotRun() {
        notRunCount := notRunCount + 1;
      }
      if li.IsNotExec() {
        notExecCount := notExecCount + 1;
      }
    }

    function Length(): nat
      reads this
    {
      |lines|
    }
  }
}
