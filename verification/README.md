# happyflow (spotflow) core, modelled in Dafny

happyflow traces the calls of a Python function or method ("the unit") while
a test suite runs. For every call (a *flow*) it records:

- the lines that ran;
- the values of the arguments on entry;
- each local variable after each line;
- yields, the return value and exceptions.

It then groups calls that ran the same set of lines and renders a report.

This project models the parts of that pipeline that decide what is recorded,
grouped, counted and shown, and proves what those parts promise:

- **Histories** (`flow.dfy`, module `Flows`, for `happyflow/flow.py`;
  `flow_state.dfy`, module `FlowStates`, for `happyflow/flow_state.py`).
  - A per-variable history flags each new value as changed or unchanged. A
    comparison that raises is swallowed in `flow.py` and propagates in
    `flow_state.py`.
  - A call's history keeps the argument snapshot, yields, return and
    exception.
  - A container holds all calls of a unit. Its queries are `flow_by_lines`,
    `arg_states`, `return_states`, `callers_tests` and `distinct_lines`.
  - `states_for_line` gives the per-line variable text.
  - `state_diff_between_two_lines` is the `flow_state.py` diff.
- **Descriptors and rendered flows** (`info.dfy`, module `Info`, for
  `happyflow/info.py`).
  - `MethodInfo` covers line spans, executable lines and `loc`.
  - `RunStatus`, `LineInfo` and `FlowInfo` cover the status counters.
- **Value statistics** (`analysis.dfy`, module `Analysis`, for the
  `Analysis` class of `happyflow/info.py`).
  - `Counter.most_common` is modelled with ties in first-seen order. An
    unhashable value gives `[]`.
  - The `pretty_*` renderings and the 150-character cut of `clear_values`.
- **The report** (`report.dfy`, module `Reports`, for `happyflow/report.py`).
  - The status and the displayed state of each line of a flow.
  - `get_flow_info`, `get_entity_info` and `EntitySummary`.
- **The change repository** (`bptesting.dfy`, module `ChangeRepo`, for
  `lab/bptesting/bptesting_run.py`).
  - Recorded calls of two versions are grouped by argument tuple. New-version
    calls open groups; old-version calls only join existing ones.
  - `find_changes` reports the groups with two or more calls.
- **`parseparam`** (`parseparam.dfy`, module `ParamParse`, for
  `examples/examples_html.py`).
  - The MIME-style parameter splitter of section 5.1 of RFC 2045: a `;` inside
    unescaped double quotes does not end a field.

Shared building blocks:

- `values.dfy`: captured values, Python's `!=` that may raise, hashability,
  and the three de-duplications of a history.
- `text.dfy`: `strip`, `lower`, `find`, `count`, substring tests, and the
  no-repeat join of `states_for_line`.
- `dicts.dfy`: insertion-ordered dictionaries.
- `seqs.dfy`: counts and first-seen de-duplication.
- `lines.dfy`: `sorted(set(lines))`.
- `wrappers.dfy`: `Option`.

Points where the code behaves in a way a reader might not expect, and which
the model follows:

- In `flow.py` a comparison that raises counts as "no change"
  (happyflow/flow.py:200-206): the exception is swallowed and the value is
  not reported as changed.
- `line_run_status` has no "pending" status for lines before the first run
  line. A line is RUN, NOT_EXEC or NOT_RUN, decided by that line alone.
- `flow_state.py`'s `states_for_line` keeps the trailing space of each entry.
  `flow.py`'s strips it.

## Model

| member | source | states |
|---|---|---|
| Flows.ObservedSpec | happyflow/flow.py:190-206 | `add` keeps every older state and appends one with the given name, value and lines. Its flag is true exactly for the first state or a value that compares unequal to the last one. A comparison that raises gives false. Flag consistency of the history is preserved. |
| Flows.ObservedFlags | happyflow/flow.py:190-206 | Every flag of a history built by `add` says whether that state differs from its predecessor. |
| Flows.VarStateHistory.constructor | happyflow/flow.py:186-188 | Stores the name and the given states. |
| Flows.VarStateHistory.Add | happyflow/flow.py:190-194 | The history becomes `Observed(old states, …)` and stays consistent. The name is unchanged. |
| Flows.VarStateHistory.DetectValueHasChanged | happyflow/flow.py:196-206 | The answer is the change flag `ValueHasChanged`: true on an empty history, true when `!=` is true, false when it is false or raises. |
| Flows.VarStateHistory.GetLastState | happyflow/flow.py:208-209 | Returns the last state of the history, `states[-1]`. |
| Flows.VarStateHistory.FirstLast | happyflow/flow.py:211-214 | Returns the first and the last state, and the same state twice when there is exactly one. Gives none on an empty history, where `states[0]` raises `IndexError`. |
| Flows.VarStateHistory.DistinctValuesStr | happyflow/flow.py:216-221 | Returns the distinct `str` forms of the values in first-seen order. |
| Flows.VarStateHistory.DistinctSequentialValues | happyflow/flow.py:223-230 | Returns the values with runs of equal neighbours collapsed, or the exception of a comparison. |
| Flows.VarStateHistory.DistinctValues | happyflow/flow.py:232-237 | Returns the distinct values in first-seen order, or the `TypeError` of an unhashable one. |
| Flows.ChangedTextsAtSpec | happyflow/flow.py:175-178 | A variable has text at a line exactly when one of its states at that line is flagged changed. Every text is non-empty. |
| Flows.ChangedText | happyflow/flow.py:172-178 | The inner loop of `states_for_line` joins, with a space after each, the changed states' `name=value` texts at the line, skipping any already in the text. |
| Flows.LineEntriesSpec | happyflow/flow.py:169-181 | `states_for_line` gives exactly one stripped entry per reported variable, in dict order. |
| Flows.ReportedVars | happyflow/flow.py:171-179 | Every reported variable is a key of the dict and has a history. |
| Flows.ReportedVarsSpec | happyflow/flow.py:171-179 | A variable is reported exactly when it is a key, is not `self`, and has changed text at the line. |
| Flows.ReportedVarSpec | happyflow/flow.py:171-179 | A key is reported exactly when it is not `self` and some state at the line is flagged changed. Every text of a reported variable occurs in its entry. |
| Flows.StateHistory.StatesForLine | happyflow/flow.py:169-181 | The loop over the variable dict returns `LineEntries` of the dict's keys. |
| Flows.ArgStatesOfSpec | happyflow/flow.py:121-135 | The snapshot has one state per formal parameter, in order, with its local value. Then come one state for `*args` and one for `**kwargs` when they exist. Every state carries the entry line. |
| Flows.NamedArgStates | happyflow/flow.py:125-129 | Gives one state per formal parameter, in order, holding its local value at the entry line. |
| Flows.StateHistory.SaveArgStates | happyflow/flow.py:121-135 | Appends exactly `ArgStatesOf(argvalues, lineno)` and changes nothing else. |
| Flows.ObserveVarSpec | happyflow/flow.py:142-144 | Recording one value creates the variable's history if missing and appends exactly one state to it. Every other variable and the key order are untouched, and the histories stay valid. |
| Flows.ObserveVarsValid | happyflow/flow.py:137-140 | Observing all locals keeps every history valid. |
| Flows.ObserveVars | happyflow/flow.py:137-140 | Observing every local in order keeps the variable dict valid. |
| Flows.StateHistory.SaveVarStates | happyflow/flow.py:137-140 | Observes every local in dict order and keeps the history valid. Nothing else changes. |
| Flows.StateHistory.SaveVarState | happyflow/flow.py:142-144 | The dict becomes `ObserveVar(old, …)`. Nothing else changes. |
| Flows.StateHistory.constructor | happyflow/flow.py:114-119 | Starts with empty histories, no arguments, no yields, no return and no exception. No line is a return line yet. |
| Flows.StateHistory.SaveYieldState | happyflow/flow.py:146-147 | Appends one yield; nothing else changes. |
| Flows.StateHistory.SaveReturnState | happyflow/flow.py:149-150 | Sets the return state; nothing else changes. Afterwards `has_return` holds and `is_return_value` holds for exactly the saved line. |
| Flows.StateHistory.ReturnLine | happyflow/flow.py:155-161 | `has_return` holds exactly when some line is the return line (`is_return_value`), and at most one line is. |
| Flows.StateHistory.SaveExceptionState | happyflow/flow.py:152-153 | Sets the exception state; nothing else changes. |
| Flows.StateHistory.GetYieldStates | happyflow/flow.py:163-167 | With two or more yields the last one is dropped; otherwise all are kept. The result is a prefix of the yields. |
| Flows.YieldTrimmingExample | happyflow/flow.py:163-167 | Yields 100 then 200: only 100 is reported. |
| Flows.ChangeDetectionExample | happyflow/flow.py:190-206 | Recording 1, 1, 2 flags the first and third states as changed and the second as unchanged. |
| Flows.ExampleChangedTexts | happyflow/flow.py:175-178 | For that history, line 6 has no changed text and line 7 has `a=2`. |
| Flows.ChangeDetectionLineExample | happyflow/flow.py:169-181 | For that history, `states_for_line(6)` is empty and `states_for_line(7)` is `["a=2"]`. |
| Flows.Flow.DistinctLines | happyflow/flow.py:108-109 | The distinct lines are strictly increasing and hold exactly the lines that ran. |
| Flows.SameLinesSameGroup | happyflow/flow.py:108-109 | Two flows that ran the same set of lines have equal distinct lines. |
| Flows.FlowsWithLinesSpec | happyflow/flow.py:51-58 | The selection keeps each flow with those distinct lines as often as it occurs and drops all others. Selecting again changes nothing. |
| Flows.FlowsWithLinesOrder | happyflow/flow.py:51-58 | The selection is the flows at the matching positions, in increasing position order: the flows keep their original order. |
| Flows.FlowsWithLinesFirst | happyflow/report.py:71 | The first flow of the selection (`flow_result.flows[0]`) is the first flow with those distinct lines. |
| Flows.FlowsWithLinesMembers | happyflow/flow.py:51-58 | A flow is selected exactly when it is one of the flows and has those distinct lines. |
| Flows.FlowContainer.FlowByLines | happyflow/flow.py:51-58 | Returns a fresh container for the same unit holding the selected flows. Its id index is empty. |
| Flows.FlowContainer.GetFlowFromId | happyflow/flow.py:60-61 | `None` for an id never added (constructor). Otherwise the flow last added under it (`AddFlow`), which is one of the container's flows. |
| Flows.FlowContainer.constructor | happyflow/flow.py:40-44 | Stores the unit and its name, with no flows and an empty id index, so every id lookup gives `None`. |
| Flows.FlowContainer.AddFlow | happyflow/flow.py:46-49 | Appends the flow and registers it under its id. Other ids are unchanged, and every registered id still names one of the flows. |
| Flows.FlowContainer.DistinctLines | happyflow/flow.py:63-67 | Returns one distinct-line list per flow, in flow order. |
| Flows.AddArgs | happyflow/flow.py:74-77 | Adding arguments keeps the argument table a valid ordered dict. |
| Flows.ArgTable | happyflow/flow.py:69-78 | The table built over the flows is a valid ordered dict. |
| Flows.AddArgsSpec | happyflow/flow.py:72-77 | Adding a flow's arguments appends, under every name other than `self`, the values of that name. `self` is never added. |
| Flows.AddArgStep | happyflow/flow.py:76-77 | One argument appends its value under its own name only. |
| Flows.ArgTableSpec | happyflow/flow.py:69-78 | `arg_states` maps exactly the non-`self` names that occur to all their values, in flow order. Flows without a history add nothing. |
| Flows.FlowContainer.ArgStates | happyflow/flow.py:69-78 | The nested loop computes `ArgTable(flows)`. |
| Flows.ReturnValuesSpec | happyflow/flow.py:80-86 | There is at most one value per flow, and one for every flow exactly when every flow returned. With no returns the list is empty. |
| Flows.ReturnValuesOrder | happyflow/flow.py:80-86 | There is exactly one value per flow that has a return state. The `i`-th value is the return value of the `i`-th such flow, in flow order. |
| Flows.FlowContainer.ReturnStates | happyflow/flow.py:80-86 | The loop computes `ReturnValues(flows)`. |
| Flows.FlowContainer.Callers | happyflow/flow.py:88-92 | Returns one caller list per flow, in order. |
| Flows.FlowContainer.CallersTests | happyflow/flow.py:94-95 | Returns the set of first callers. The result is "raises" exactly when some flow has no caller. |
| Flows.FlowResult.constructor | happyflow/flow.py:6-7 | Starts with no containers. |
| Flows.FlowResult.Set | happyflow/flow.py:12-13 | Stores the container under the key; other keys look up as before. The length grows by one exactly when the key is new. |
| Flows.FlowResult.Get | happyflow/flow.py:9-10 | Gives a container exactly for a contained key, and none where Python raises `KeyError`. |
| Flows.FlowResult.Contains | happyflow/flow.py:15-16 | A key is contained exactly when it is among the dict's keys. |
| Flows.FlowResult.Length | happyflow/flow.py:18-19 | The length is the number of entries of the dict. |
| Dicts.KeysCount | happyflow/flow.py:18-19 | A dict lists each key once, so it has as many keys as entries. |
| Dicts.Dict.Filter | happyflow/flow.py:30-32 | The dict comprehension keeps exactly the entries the predicate accepts, with their values. Its keys are the old keys filtered in order. |
| Dicts.FilterKeysOrder | happyflow/flow.py:30-32 | The kept keys are the old keys at the accepted positions, in increasing position order. |
| Dicts.Dict.Put | lab/bptesting/bptesting_run.py:83 | `d[k] = v` stores `v` under `k`. An existing key keeps its place, and a new key goes last. |
| Flows.FlowResult.Filter | happyflow/flow.py:30-32 | Keeps exactly the entries the predicate accepts, in order, and returns the same object. |
| Flows.FlowResult.FilterHasFlows | happyflow/flow.py:30-35 | `filter(has_flows)` keeps exactly the containers that hold a flow, with their keys in the old order, and returns the same object. |
| Flows.KeptWithFlows | happyflow/flow.py:30-35 | Filtering with a key predicate that agrees with `has_flows` keeps exactly the keys whose container holds a flow, in order. |
| FlowStates.AddedSpec | happyflow/flow_state.py:75-85 | `add` raises exactly when the last or the new value cannot be compared. Otherwise it appends one state whose flag says whether it differs from the previous one, and keeps flag consistency. |
| FlowStates.VarStateHistory.constructor | happyflow/flow_state.py:70-72 | Stores the name and the given states. |
| FlowStates.VarStateHistory.Add | happyflow/flow_state.py:75-85 | The history becomes `Added(…)`, or is unchanged when the comparison raises. |
| FlowStates.VarStateHistory.GetLast | happyflow/flow_state.py:87-88 | Returns the last state of the history, `states[-1]`. |
| FlowStates.VarStateHistory.FirstLast | happyflow/flow_state.py:90-93 | Returns the first and the last state, and the same state twice when there is one. Gives none on an empty history, where `states[0]` raises `IndexError`. |
| FlowStates.VarStateHistory.DistinctValuesStr | happyflow/flow_state.py:95-100 | Returns the distinct `str` forms in first-seen order. |
| FlowStates.VarStateHistory.DistinctSequentialValues | happyflow/flow_state.py:102-109 | Collapses runs of equal neighbours, or gives the comparison's exception. |
| FlowStates.VarStateHistory.DistinctValues | happyflow/flow_state.py:111-116 | Returns the distinct values in first-seen order, or the `TypeError` of an unhashable one. |
| FlowStates.ChangedTextsNonEmpty | happyflow/flow_state.py:51-54 | Every changed text at a line is non-empty. |
| FlowStates.RawLineEntriesSpec | happyflow/flow_state.py:45-57 | There are no more entries than variables. Each entry is non-empty and is the space-terminated accumulation of the changed texts of some non-`self` variable at the line. |
| FlowStates.RawReportedVars | happyflow/flow_state.py:47-55 | Every reported variable is a key of the dict. |
| FlowStates.RawReportedVarsSpec | happyflow/flow_state.py:47-55 | A variable is reported iff it is a key, is not `self` and has changed text at the line. Distinct keys give distinct reported variables. |
| FlowStates.RawReportedVarsOrder | happyflow/flow_state.py:47-55 | The reported variables are the keys at the reported positions, in key order. |
| FlowStates.RawLineEntriesExact | happyflow/flow_state.py:45-57 | There is exactly one entry per reported variable, in key order. Each entry is that variable's accumulated texts. |
| FlowStates.StateResult.StatesForLine | happyflow/flow_state.py:45-57 | The loop computes `RawLineEntries` over the dict's keys, trailing spaces kept. |
| FlowStates.ChangedText | happyflow/flow_state.py:51-54 | The inner loop joins the unseen changed texts at the line. |
| FlowStates.DiffSpec | happyflow/flow_state.py:64-66 | An item survives as often as it occurs in the first list if it is absent from the second, and not at all otherwise. |
| FlowStates.DiffOrder | happyflow/flow_state.py:64-66 | The result is the first list's items that are absent from the second, in the first list's order. |
| FlowStates.DiffSelfAndEmpty | happyflow/flow_state.py:64-66 | A list minus itself is empty; a list minus nothing is itself. |
| FlowStates.DiffCovered | happyflow/flow_state.py:64-66 | A list whose items all occur in the second list leaves nothing. |
| FlowStates.StateResult.StateDiffBetweenTwoLines | happyflow/flow_state.py:59-62 | Returns the entries of the first line that are not entries of the second. |
| FlowStates.StateResult.constructor | happyflow/flow_state.py:34-39 | Starts with no variables. |
| FlowStates.StateResult.Add | happyflow/flow_state.py:41-43 | The variable's history is created before the state is added, so its name is present even when the comparison raises. Otherwise the history becomes `Added(…)`. |
| FlowStates.Flow.DistinctLines | happyflow/flow_state.py:28-29 | The distinct lines are strictly increasing and hold exactly the lines that ran. |
| FlowStates.FlowResult.constructor | happyflow/flow_state.py:3-7 | Stores the unit, with no test names and no flows. |
| FlowStates.FlowResult.Add | happyflow/flow_state.py:9-12 | Appends the test name and one flow for it, keeping one flow per test. |
| FlowStates.FlowResult.NumberOfTests | happyflow/flow_state.py:14-15 | Equals the number of recorded flows. |
| Info.MethodInfo.EntityLines | happyflow/info.py:32 | Holds exactly the lines from `start_line` to `end_line`. |
| Info.MethodInfo.ExecutableLines | happyflow/info.py:30-33 | Holds exactly the executable lines of the file that lie in the unit's span. |
| Info.MethodInfo.ExecutableLinesCount | happyflow/info.py:41-42 | Counts the executable lines, which never exceed the span's length. |
| Info.Range | happyflow/info.py:51 | Holds exactly the integers from `a` to `b`, with `b - a + 1` of them. |
| Info.LineArithmetic | happyflow/info.py:44-60 | The span has `loc() + 1` lines, and the definition line lies in it. An executable line lies in the span. At most `loc() + 1` lines are executable. `is_func` is the negation of `is_method`. |
| Info.LocExample | happyflow/info.py:59-60 | A unit on lines 10 to 20 has `loc() == 10` and 11 lines. |
| Info.RunStatus.Code | happyflow/info.py:177-180 | The enum value of a status is one of 0, 1 and 2 (NOT_RUN, RUN, NOT_EXEC). |
| Info.RunStatusCodesDistinct | happyflow/info.py:177-180 | Two statuses have the same code only when they are the same. |
| Info.LineStatusExclusive | happyflow/info.py:161-168 | Exactly one of `is_run`, `is_not_run` and `is_not_exec` holds for a line. |
| Info.FlowInfo.constructor | happyflow/info.py:115-122 | Starts with no lines, all three counters at 0, and the call count. |
| Info.FlowInfo.Append | happyflow/info.py:128-129 | Appends the line; the counters are unchanged. |
| Info.FlowInfo.UpdateRunStatus | happyflow/info.py:131-137 | Adds one to the counter of the line's status and to no other, so the three counters grow by exactly one in total. |
| Analysis.Insert | happyflow/info.py:217-219 | Inserting a pair adds exactly that pair. |
| Analysis.Rank | happyflow/info.py:217-219 | Ranking the distinct values pairs each with its true count. |
| Analysis.BeforeTotal | happyflow/info.py:217-219 | The ranking order relates any two distinct values one way or the other. |
| Analysis.InsertRanked | happyflow/info.py:217-219 | Inserting into a ranked list keeps it ranked. |
| Analysis.RankRanked | happyflow/info.py:217-219 | The ranking is strictly ordered by count, with ties in first-seen order. |
| Analysis.RankedShape | happyflow/info.py:217-219 | A ranked list holds distinct values with non-increasing counts. |
| Analysis.MostCommonSpec | happyflow/info.py:217-221 | `_most_common(elements, n)` keeps at most `n` pairs, each a distinct value with its true count. They are ranked by count with ties in first-seen order. The result is `[]` when some element is unhashable (the `TypeError` branch). |
| Analysis.MostCommonTop | happyflow/info.py:217-219 | With all elements hashable, it keeps `min(n, distinct values)` pairs, and every value left out ranks after every value kept. |
| Analysis.OmittedAfter | happyflow/info.py:217-219 | Every value cut from a ranked list ranks after every value kept. |
| Analysis.ExampleTallies | happyflow/info.py:217-219 | `a, b, b` has distinct values `a, b`, seen once and twice. |
| Analysis.ExampleRank | happyflow/info.py:217-219 | Ranking `a, b, b` puts `b` (2) before `a` (1). |
| Analysis.MostCommonExample | happyflow/info.py:217-219 | `Counter([a, b, b]).most_common(10)` is `[(b, 2), (a, 1)]`. |
| Analysis.MostCommonArgs | happyflow/info.py:198-205 | Every argument's value list is counted, and the argument order is kept. |
| Analysis.RenderTally | happyflow/info.py:232 | `f'{value} ({count}) '` ends in `) `. |
| Text.NatToString | happyflow/info.py:232 | `str(count)` is a non-empty run of decimal digits without a leading zero. |
| Analysis.Render | happyflow/info.py:229-232 | The rendering is empty exactly when there are no pairs. |
| Analysis.RenderLoop | happyflow/info.py:229-232 | The string-building loop computes `Render`. |
| Analysis.ClearValues | happyflow/info.py:245-249 | A string shorter than `max_len` is kept. Otherwise the result is its first `max_len` characters plus `...`, also at exactly `max_len`. |
| Analysis.PrettyArgs | happyflow/info.py:223-235 | Gives one `{name, value}` entry per argument, in order, with the value rendered and cut. |
| Analysis.PrettyReturnValues | happyflow/info.py:237-243 | Gives `None` exactly for no pairs; otherwise the rendering, cut, of at most `max_len + 3` characters. |
| Analysis.MostCommonArgsPretty | happyflow/info.py:207-208 | Each argument's counted values, rendered and cut at 150 characters. No summary is longer than 153 characters. |
| Analysis.MostCommonReturnValuesPretty | happyflow/info.py:214-215 | `None` exactly when there is nothing to count; otherwise the rendering, cut at 150 characters and at most 153 long. |
| Values.DistinctSequentialValues | happyflow/flow.py:223-230 | The loop with `b = None` computes `DistinctSequential`. |
| Values.SequentialFailsIffUncomparable | happyflow/flow.py:223-230 | The sequential de-duplication raises exactly when some value cannot be compared. |
| Values.SequentialShape | happyflow/flow.py:223-230 | No two kept neighbours are equal. Every kept value is an input value. Every value that differs from the previous one is kept. |
| Values.DistinctSequentialDropsLeadingNone | happyflow/flow.py:223-230 | Starting from `None`, only leading `None`s and repeats are dropped. |
| Values.DistinctValuesStr | happyflow/flow.py:216-221 | The dict-key loop computes the first-seen de-duplication of the `str` forms. |
| Seqs.Dedup | happyflow/flow.py:216-221 | The dict-key de-duplication has no repeats, holds exactly the input's elements, and is no longer than the input. |
| Values.StrAll | happyflow/flow.py:219 | Gives `str` of each value, index by index. |
| Values.DistinctValues | happyflow/flow.py:232-237 | The dict-key loop computes `DistinctHashable`. |
| Lines.Insert | happyflow/flow.py:109 | Inserting into a strictly increasing list keeps it strictly increasing and adds exactly that element. |
| Lines.SortedDistinct | happyflow/flow.py:109 | `sorted(list(set(lines)))` is strictly increasing and holds exactly the input's lines. |
| Lines.IncreasingUnique | happyflow/flow.py:109 | Two strictly increasing lists with the same elements are equal. |
| Lines.SameLineSetSameDistinctLines | happyflow/flow.py:108-109 | The same set of run lines gives the same distinct lines, whatever the order and repeats. |
| Lines.SortedDistinctIdempotent | happyflow/flow.py:108-109 | Taking distinct lines twice changes nothing. |
| Text.LStrip | happyflow/flow.py:180 | The result does not start with whitespace and is no longer than the input. |
| Text.LStripSuffix | happyflow/flow.py:180 | The left-stripped text is a suffix of the input. |
| Text.RStrip | happyflow/flow.py:180 | The result does not end with whitespace and is no longer than the input. |
| Text.RStripPrefix | happyflow/flow.py:180 | The right-stripped text is a prefix of the input. |
| Text.Strip | happyflow/flow.py:180 | `strip()` leaves neither end whitespace and never lengthens. |
| Text.StripSlice | examples/examples_html.py:19-20 | The stripped text is a contiguous slice of the input. |
| Text.StripStripped | examples/examples_html.py:20 | Stripping a text whose ends are not whitespace changes nothing. |
| Text.StripIdempotent | examples/examples_html.py:19-20 | Stripping twice is stripping once. |
| Text.Lower | examples/examples_html.py:19 | `lower()` keeps the length and lowercases each character in place. |
| Text.LowerKeepsStripped | examples/examples_html.py:19 | Lowercasing keeps a stripped text stripped. |
| Text.ContainsSlice | happyflow/flow.py:177 | A slice of a text occurs in it. |
| Text.ContainsExtend | happyflow/flow.py:177-178 | A substring stays one after more text is appended. |
| Text.CountChar | examples/examples_html.py:12 | `s.count(c)` never exceeds the length of `s`. |
| Text.CountCharAppend | examples/examples_html.py:12 | Counts add up over concatenation. |
| Text.FindFrom | examples/examples_html.py:11-13 | `s.find(c, start)` gives the first position of `c` from `start`, or -1 exactly when there is none. |
| Text.JoinUnseenContainsAll | happyflow/flow.py:177-178 | Every text fed to the no-repeat join occurs in the joined text. |
| Text.JoinUnseenEndsWithSpace | happyflow/flow.py:178 | A non-empty joined text ends with a space. |
| Text.JoinUnseenEmpty | happyflow/flow.py:179 | The joined text is empty exactly when there is nothing to join. |
| Reports.LineRunStatusSpec | happyflow/report.py:99-107 | A line is RUN exactly when the flow ran it. It is NOT_EXEC exactly when it did not run and is not an executable line of the unit. It is NOT_RUN exactly when it did not run and is executable. |
| Reports.LineRunStatusExample | happyflow/report.py:99-107 | For a unit on lines 10 to 14 whose flow ran 11 and 13, the statuses are NOT_RUN, RUN, NOT_RUN, RUN, NOT_RUN. The definition line is not treated specially. |
| Reports.ArgTextEmpty | happyflow/report.py:109-115 | The argument text is empty exactly when every argument is `self`. |
| Reports.ArgTextContainsAll | happyflow/report.py:109-115 | Every non-`self` argument's `name=value` occurs in the text. |
| Reports.ArgTextContains | happyflow/report.py:112-114 | Any one non-`self` argument's `name=value` occurs in the text. |
| Reports.ArgTextLast | happyflow/report.py:112-114 | The last argument's text is in the text unless it is `self`. |
| Reports.ArgState | happyflow/report.py:109-115 | The loop computes `ArgText`. |
| Reports.StateAtSpec | happyflow/report.py:87-97 | The definition line shows the arguments, also when it is the return line. Otherwise the return line shows the return value. Otherwise a line shows variables exactly when a non-`self` variable changed there, each entry stripped. Otherwise it shows nothing. |
| Reports.GetState | happyflow/report.py:87-97 | Computes `StateAt` of the history's contents. |
| Reports.StatusCountsSum | happyflow/report.py:154-161 | Every line is counted under exactly one status. |
| Reports.FlowInfo.constructor | happyflow/report.py:166-178 | Starts at position 0, with no lines, zero counters and no summaries. |
| Reports.FlowInfo.Append | happyflow/report.py:186-187 | Appends the line; the counters are unchanged. |
| Reports.FlowInfo.UpdateRunStatus | happyflow/report.py:189-196 | Adds one to the counter of the line's status only. |
| Reports.AppendCounted | happyflow/report.py:82-83 | Appending a line adds one to its own status count only. |
| Reports.AddLine | happyflow/report.py:82-83 | `append` then `update_run_status` keeps the counters equal to the lines' status counts. |
| Reports.EntityInfo.constructor | happyflow/report.py:201-205 | Stores the unit and the call count, with no flows yet. |
| Reports.EntityInfo.Append | happyflow/report.py:213-214 | Appends a rendered flow. |
| Reports.NewFlowInfo | happyflow/report.py:60-67 | The call count, then the pretty argument summaries in argument order. A return summary is kept exactly when there is something to count. |
| Reports.LineAt | happyflow/report.py:75-81 | The `i`-th record has `lineno == i + 1`, the file line `start_line + i`, its status and its state. |
| Reports.RenderLines | happyflow/report.py:73-83 | Gives one record per code line, in order, each as `ExpectedLine` gives it, and keeps the counters consistent. |
| Reports.GetFlowInfo | happyflow/report.py:55-85 | One record per code line comes from the group's first call. The call count is the group's size. The argument and return summaries are those of the group's argument table and return values. The three counters add up to the number of lines. |
| Reports.GroupOfRanked | happyflow/report.py:45-47 | A group selected by a ranked line set is non-empty and made of calls of the unit. |
| Reports.RenderedExtend | happyflow/report.py:43-51 | A further rendered flow, numbered next, extends the rendered prefix. |
| Reports.RenderGroup | happyflow/report.py:43-51 | Renders the calls that took the line set, numbered `flow_pos`. The lines come from the group's first call, and the call count and the summaries from the group. |
| Reports.NumberFlow | happyflow/report.py:49 | Setting `pos` sets the number and leaves the rendered lines, call count and summaries as they were. |
| Reports.RenderNext | happyflow/report.py:43-51 | One pass of the loop renders the next ranked line set, numbered next, and appends it. Every earlier flow stays rendered. |
| Reports.AppendRendered | happyflow/report.py:51 | Appending a rendered flow, numbered next, keeps every earlier flow rendered. |
| Reports.GetEntityInfo | happyflow/report.py:34-53 | Gives one rendered flow per ranked line set, in rank order, numbered 1, 2, 3 and so on. The `k`-th has the lines of the first call with the `k`-th line set, and the call count and summaries of all calls with that set. `total_flows` is the number of ranked sets and `total_calls` the number of calls. |
| Reports.EntitySummary.constructor | happyflow/report.py:217-225 | The index line takes the top flow's call count from the first rendered flow, and the statement count from the unit's executable lines. |
| ChangeRepo.GetKey | lab/bptesting/bptesting_run.py:10-11 | Gives every line but the last, in order. |
| ChangeRepo.GetValue | lab/bptesting/bptesting_run.py:14-15 | Gives the last line, or `IndexError` exactly on an empty file. |
| ChangeRepo.KeyValueRoundTrip | lab/bptesting/bptesting_run.py:10-15 | The key followed by the value gives back the lines. |
| ChangeRepo.ArgReturnValue.IsOld | lab/bptesting/bptesting_run.py:28-29 | `is_old` is the negation of `is_new`. |
| ChangeRepo.ArgReturnValue.Repr | lab/bptesting/bptesting_run.py:31-34 | Gives `New return: …` for a new call and `Old return: …` for an old one. |
| ChangeRepo.WithNew | lab/bptesting/bptesting_run.py:80-84 | The call is appended to its group, which is created if missing. Other groups are untouched. |
| ChangeRepo.WithOld | lab/bptesting/bptesting_run.py:86-88 | The call joins an existing group and never opens one. Otherwise nothing changes. |
| ChangeRepo.WithNewWellFormed | lab/bptesting/bptesting_run.py:80-84 | Adding a new call keeps every call in its own group and every group opened by a new call. |
| ChangeRepo.WithOldWellFormed | lab/bptesting/bptesting_run.py:86-88 | Adding an old call keeps the grouping well formed. |
| ChangeRepo.AddedNew | lab/bptesting/bptesting_run.py:56-61 | Folds `add_new` over the calls in order and keeps the grouping a valid ordered dict. Well-formedness is `ChangeRepo.AddedNewWellFormed`. |
| ChangeRepo.AddedOld | lab/bptesting/bptesting_run.py:63-68 | Folds `add_old` over the calls in order and keeps the grouping a valid ordered dict. Well-formedness is `ChangeRepo.AddedOldWellFormed`. |
| ChangeRepo.OnlyIn | lab/bptesting/bptesting_run.py:51-52 | The two differences are disjoint, each lies in its own version only, and together with the common files they make up all files. |
| ChangeRepo.Entries | lab/bptesting/bptesting_run.py:56-67 | Gives one call per file, in iteration order: the key of its lines, its last line, and the version flag. |
| ChangeRepo.AddedNewKeys | lab/bptesting/bptesting_run.py:56-61 | After the new-version loop, a group exists exactly when it existed before or a new call has those arguments. |
| ChangeRepo.AddedOldKeys | lab/bptesting/bptesting_run.py:63-68 | The old-version loop never changes which groups exist. |
| ChangeRepo.AddedNewWellFormed | lab/bptesting/bptesting_run.py:56-61 | The new-version loop keeps the grouping well formed. |
| ChangeRepo.AddedOldWellFormed | lab/bptesting/bptesting_run.py:63-68 | The old-version loop keeps the grouping well formed. |
| ChangeRepo.EntriesKey | lab/bptesting/bptesting_run.py:56-59 | A call read from the files has arguments `k` exactly when one of the files records `k`. |
| ChangeRepo.CreatedSpec | lab/bptesting/bptesting_run.py:46-68 | After `create`, the groups are exactly the argument tuples of the files only in the new version. Each group is opened by a new call and holds only calls with its own arguments. |
| ChangeRepo.Changes | lab/bptesting/bptesting_run.py:70-78 | Only groups with two or more calls are reported, each one a key of the grouping with all its calls. |
| ChangeRepo.ChangesComplete | lab/bptesting/bptesting_run.py:70-73 | Every group with two or more calls is reported. |
| ChangeRepo.ChangeRepository.constructor | lab/bptesting/bptesting_run.py:39-43 | Stores the project and both versions, with no groups. |
| ChangeRepo.ChangeRepository.AddNew | lab/bptesting/bptesting_run.py:80-84 | The grouping becomes `WithNew(old, v)`. |
| ChangeRepo.ChangeRepository.AddOld | lab/bptesting/bptesting_run.py:86-88 | The grouping becomes `WithOld(old, v)`. |
| ChangeRepo.ChangeRepository.AddAllNew | lab/bptesting/bptesting_run.py:56-61 | Adds each file's call in order. It fails exactly when a file is empty. |
| ChangeRepo.ChangeRepository.AddAllOld | lab/bptesting/bptesting_run.py:63-68 | Adds each file's call in order. It fails exactly when a file is empty. |
| ChangeRepo.ChangeRepository.Create | lab/bptesting/bptesting_run.py:46-68 | Runs the new-only files through `add_new`, then the old-only files through `add_old`. It fails exactly when one of those files is empty. |
| ChangeRepo.ChangeRepository.FindChanges | lab/bptesting/bptesting_run.py:70-78 | The loop computes `Changes` over the grouping. |
| ChangeRepo.NewRepository | lab/bptesting/bptesting_run.py:39-44 | Construction succeeds exactly when every file to read has a line, and then holds `Created(…)`. |
| ParamParse.EscapedQuotes | examples/examples_html.py:12 | There are never more backslash-quote pairs than quotes. |
| ParamParse.SkipQuoted | examples/examples_html.py:12-13 | The inner loop ends on a `;` at or after its start, or at -1. |
| ParamParse.SkipQuotedSpec | examples/examples_html.py:12-13 | The inner loop stops at the first `;` at position 0 or outside quotes. Every `;` it passes is quoted. |
| ParamParse.FieldEndReached | examples/examples_html.py:12-15 | Where the inner loop stops is where the field ends. |
| ParamParse.FieldEnd | examples/examples_html.py:11-15 | The field end lies within the text and is a `;` unless it is the end. |
| ParamParse.FieldEndSpec | examples/examples_html.py:11-15 | A field ends at a leading `;`, at an unquoted `;`, or at the end. Every `;` inside it is quoted. |
| ParamParse.NormaliseCases | examples/examples_html.py:17-19 | Whether `=` is in the field decides the branch. Then the first `=` lies in the field. |
| ParamParse.RawFrom | examples/examples_html.py:9-21 | The outer loop cuts a field exactly when the text starts with `;`. |
| ParamParse.RawFromStep | examples/examples_html.py:9-21 | One outer iteration cuts the field up to its end. |
| ParamParse.Fields | examples/examples_html.py:16-20 | Gives one entry per cut field. |
| ParamParse.FieldAt | examples/examples_html.py:16-20 | The `i`-th entry is the `i`-th field rewritten and stripped. |
| ParamParse.FieldsSpec | examples/examples_html.py:16-20 | Every entry is its field rewritten and stripped. |
| ParamParse.ParamList | examples/examples_html.py:6-22 | Gives at least one entry, each stripped. |
| ParamParse.ParseParam | examples/examples_html.py:6-22 | The nested loops compute `ParamList(input)`. |
| ParamParse.RawFromBound | examples/examples_html.py:9-21 | The outer loop runs no more times than there are `;`. |
| ParamParse.ParamListBound | examples/examples_html.py:6-22 | There are at most one more entries than `;` in the input. |
| ParamParse.NoSemicolon | examples/examples_html.py:6-22 | Input without `;` gives exactly one entry: itself, rewritten and stripped. |
| ParamParse.KeyValueStripped | examples/examples_html.py:19-20 | The rewritten pair is already stripped, and its first `=` follows the key. |
| ParamParse.KeyValueField | examples/examples_html.py:17-20 | A field holding `=` becomes its key stripped and lowercased, `=`, then its value stripped. Splitting the entry at its first `=` gives back exactly that key. |
| ParamParse.PairStripped | examples/examples_html.py:19 | A stripped key and value joined by `=` are stripped. |
| ParamParse.Split | examples/examples_html.py:9-21 | The reference `split(';')` gives at least one piece, none holding `;`. |
| ParamParse.QuoteFreeFieldEnd | examples/examples_html.py:11-15 | Without quotes a field ends at the first `;`, or at the end. |
| ParamParse.QuoteFreeFrom | examples/examples_html.py:9-21 | Without quotes the cut fields are exactly the `split(';')` pieces. |
| ParamParse.QuoteFree | examples/examples_html.py:6-22 | For quote-free input, `parseparam` is `split(';')` with each piece rewritten and stripped. |
| ParamParse.PairKept | examples/examples_html.py:17-20 | A stripped, lowercase `key=value` field is kept as it is. |
| ParamParse.TwoPairs | examples/examples_html.py:27 | Two such pairs joined by `;` come back as exactly those two entries, as `parseparam('a=1;b=2') == ['a=1', 'b=2']`. |
| ParamParse.TwoFields | examples/examples_html.py:6-22 | Two quote-free pieces that the rewriting keeps come back unchanged. |

## Left out

- The tracer (`sys.settrace`, frames, `inspect.getargvalues`), `api.py`, the collectors and the test runner are not part of this model. A frame's argument values and locals are given as parameters: an `ArgValues` record and an ordered dictionary.
- `obj_value` copies a value when it is captured. Values are modelled as immutable data (`Values.Value`), so the aliasing of mutable captured objects is not captured.
- `Flows.Flow`: `__eq__` compares with `run_lines` (a quirk that makes `flow == flow` false) and is not modelled. Python `repr`/`__str__` texts other than `name=value` and the history summary are not modelled.
- `Values.Str`: `str(v)` of an arbitrary object is abstracted to the text stored with the value.
- `Values.Compare`: Python's `==`/`!=` (an object's `__eq__`) is modelled as "same kind and same stored text". Numbers equal across types (`1 == 1.0 == True`) are not modelled: the model compares `Plain("1")` and `Plain("1.0")` as unequal, and `Counter` tallies them apart. Values of different types with the same text (the int `1` and the str `'1'`) compare equal in the model. Equality by identity is not modelled either. The same equality is used by `Seqs.Dedup` and `Seqs.Count` over values.
- `Flows.FlowResult.Filter`: the predicate is a function of the key and the container reference that does not read the heap. So it cannot look at a container's flows. The one predicate the source defines, `has_flows` (happyflow/flow.py:34-35), is modelled by `Flows.FlowResult.FilterHasFlows`.
- Exceptions other than a failing `!=` (as `Failed`/`Uncomparable`), an unhashable dict key or `Counter` entry (`TypeError`, as `None`/`[]`), and `IndexError` (as `None`) are not modelled. The `print` of the swallowed exception is left out.
- `Text.Strip`, `Text.LStrip`, `Text.RStrip`: whitespace is the Latin-1 whitespace of Python's `str.strip()`. Other Unicode spaces are not stripped.
- `Text.Lower`: only ASCII `A`–`Z` are lowercased; Python lowercases all of Unicode.
- `MethodInfo.get_code_lines`, `get_html_lines`, `get_code_line_at_lineno`, `get_html_line_at_lineno`, `summary`, `full_name_escaped`, `build` and `RunInfo`: text and HTML rendering and source introspection. The code lines are a field given as input, and the HTML lines are not modelled.
- `MethodInfo._ensure_executable_lines_for_file` and `find_executable_linenos`: reading and parsing the source file. A file's executable lines are a parameter (`fileExecutable`), and the module-level cache is not modelled.
- `ratio` (`call_ratio`, `top_flow_ratio`): floating point, not modelled.
- `Info.FlowInfo.constructor`: it stores only the call count. The argument and return summaries it computes are the `Analysis` methods modelled separately.
- `Analysis.number_of_distinct_flows`, `number_of_calls` and `most_common_run_lines` of `happyflow/info.py` call container methods (`distinct_run_lines`, `calls`) that are not part of this model.
- `happyflow/analysis.py`, which `report.py` imports `Analysis` from (happyflow/report.py:2), is not part of this model. Its `Analysis(target_entity, flow_result)` (happyflow/report.py:38, 60) is stood in for by the `Analysis(call_container)` of `happyflow/info.py`: `Reports.NewFlowInfo` uses that class's `most_common_args_pretty` and `most_common_return_values_pretty` on the group. `Report.get_entity_info` takes the ranked line sets of `most_common_flow` as a parameter. `get_flow_info` takes `number_of_calls` as the size of the group. `flow_result_by_lines` is modelled by `FlowContainer.flow_by_lines`.
- `flow.state_result`, read by `get_state`, `arg_state` and `return_state` (happyflow/report.py:89-118), is taken to be the `StateHistory` of `happyflow/flow.py` (its `states_for_line`, `is_return_value`, `arg_states` and `return_state`).
- `Report.export_html`, `html_code_report`, `html_index_report`, `txt_report` and `export_txt`: HTML and text output, not modelled. A report line's `code` is the right-stripped code line. Its `html` field is not modelled. Neither is the `zip` with the HTML lines (happyflow/report.py:73), which would stop at the shorter list; the model emits one record per code line.
- `Reports.EntitySummary.constructor`: requires at least one rendered flow. With none, `flows_data[0]` raises `IndexError`, which is not modelled.
- `Reports.GetFlowInfo` and `Reports.GetEntityInfo`: they require every call to have a history, as the report does when it reads `flow.state_result` without a check.
- `list_files` and `read_file_lines2`: directory listing and file reading. Each version's directory is a map from file name to lines.
- Python set iteration order: the order in which `create` visits the two difference sets is a parameter (`newOrder`, `oldOrder`) that lists each file once.
- `ChangeRepo.ChangeRepository.Create`: after an empty file raises, the partial grouping is left unspecified.
- `find_changes` and `create` print. The model returns the reported groups instead.
- The module-level script code of `bptesting_run.py` and of `examples_html.py` (tracing `parseparam`, the HTML report) is not modelled.
- `ParamParse.ParseParam`: the input is a string. Python's `str(s)` of a non-string argument is not modelled.
- `FlowContainer.__init__` keeps the unit object. `callers` holds only the caller names, with the first caller being the test.
