# Pattern-drafting core in Dafny

This project models the computational core of a browser-based 2D sewing-pattern
drafting tool. It covers four parts:

- **Undo/redo history** (`commands.dfy`, module `Commands`). This is the bounded
  linear history of reversible commands, the `CommandStack`. It keeps at most 100
  commands and a cursor `currentIndex`. Executing a command drops the redo tail,
  appends, advances, and evicts the oldest command on overflow. `undo` and
  `redo` move the cursor and do nothing when there is nothing to move.
  Commands that create a point, a line or an arc are data: the created item and
  the snapshot of the collection taken when the command was built. They compute
  the new collection (snapshot plus item, or snapshot minus the item's id) for
  a document passed in explicitly. The class `CommandStack` holds the commands
  as a `seq` and the cursor as an `int`. Its methods are proved against the
  value-level `History` functions, and the history properties are lemmas about
  those functions.
- **Snap resolution** (`snap.dfy`, module `Snap`). `findSnapPoints` maps the
  pointer and every candidate to screen space (`v * zoom + pan`). It gathers
  candidates closer than 15 px in a fixed order: points, line midpoints, the
  nearest 20-unit grid intersection, then the horizontal and vertical axes
  through each point. It then keeps the first element of a stable sort by
  distance. Distances are compared squared, and `Math.round(v)` is
  `Floor(v + 1/2)`. The candidate lists and the stable sort are functions. The
  `forEach` loops are methods proved equal to them.
- **Formula engine** (`formula.dfy` and `measurements.dfy`, modules `Formula`
  and `Measurements`). The engine keeps a variable map that remembers insertion
  order. It lower-cases a formula and replaces each variable name that occurs
  as a whole word by its value. The text must then pass the character whitelist
  `[0-9+\-*/().\s]+`. Evaluation uses an explicit tokenizer and a
  recursive-descent parser over `real`, with `+ - * /`, parentheses, decimal
  literals and unary signs. Division by zero is an error. `updateMeasurement`
  falls back to 0 on failure. `getDependentMeasurements` is a plain substring
  filter.
- **Measurement list store** (`store.dfy`, module `Store`). This is the list
  logic of the measurements context: add, update by id, delete by id, and
  case-insensitive lookup. It also covers the effect that registers every
  numeric measurement as a variable, and the deferred pass that re-evaluates
  dependents after a numeric update. The class holds a `seq<Measurement>` and
  the engine. Each framework step the source leaves to its component library
  is an explicit method here. `SyncVariables` is the effect that follows each
  change of the list. `UpdateMeasurement` returns the dependents of each
  numeric update. `RefreshDependents` is the pass a timer runs later.

The shared value types are in `geometry.dfy` (`Point`, `Line`, `Arc`,
`SnapPoint`). `wrappers.dfy` holds `Option`/`Result`, `text.dfy` ASCII
lower-casing and the regular-expression character classes, and `lists.dfy`
removal by id.

In these respects the model follows the code:

- Variable keys are case-sensitive in the engine's map. Only the name used for
  matching is lower-cased.
- `getDependentMeasurements` is a plain substring test, not a word-bounded one.
- A unary minus is accepted, because the JavaScript evaluator accepts it.
- Recomputing dependents is not wrapped in a command.
- The snap tolerance is the constant 15, not a parameter.

## Model

| member | source | states |
|---|---|---|
| `Lists.RemoveId` | src/utils/commands.ts:34-37 | the result holds exactly the elements without the id; it is the input when no element has the id |
| `Lists.RemoveIdAppend` | src/utils/commands.ts:35 | filtering by id distributes over concatenation, so the survivors keep their order |
| `Commands.Command.Execute` | src/utils/commands.ts:29-32 | the command's collection becomes its snapshot plus the item (same for lines at 60-63 and arcs at 91-94); the other collections are untouched |
| `Commands.Command.Undo` | src/utils/commands.ts:34-37 | the collection becomes the snapshot minus every element with the item's id, the others untouched; with a fresh id it is exactly the snapshot |
| `Commands.Command.Redo` | src/utils/commands.ts:39-41 | redo is execute |
| `Commands.UndoInvertsExecute` | src/utils/commands.ts:29-37 | undo after execute restores a document holding the snapshot, when the item's id is new to it |
| `Commands.History.AfterExecute` | src/utils/commands.ts:111-127 | the cursor ends on the new command, which is last, so nothing is left to redo; the applied commands gain it, losing the oldest when 100 were applied |
| `Commands.History.AfterUndo` | src/utils/commands.ts:137-143 | with nothing applied it changes nothing; otherwise the last applied command moves to the front of the redo buffer and the commands are unchanged |
| `Commands.History.AfterRedo` | src/utils/commands.ts:145-151 | at the head it changes nothing (idempotent); otherwise the first pending command becomes the last applied one |
| `Commands.History.UndoEffect` | src/utils/commands.ts:137-143 | undo applies the undo of the last applied command, or leaves the document alone |
| `Commands.History.RedoEffect` | src/utils/commands.ts:145-151 | redo applies the redo of the next pending command, or leaves the document alone |
| `Commands.UndoThenRedo` | src/utils/commands.ts:137-151 | undo then redo restores the history |
| `Commands.RedoThenUndo` | src/utils/commands.ts:137-151 | redo then undo restores the history |
| `Commands.ExecuteAfterUndoDropsRedo` | src/utils/commands.ts:113-117 | execute A, execute B, undo, execute C gives history `[A, C]` with cursor 1 |
| `Commands.ScenarioRestoresDocument` | src/utils/commands.ts:111-143 | in that scenario nothing is left to redo, and two more undos return the document to its state before A |
| `Commands.ExecuteAll` | src/utils/commands.ts:107-127 | any run of executions keeps the cursor within the commands and at most 100 commands |
| `Commands.ExecuteAllFromEmpty` | src/utils/commands.ts:123-126 | executing any sequence on an empty stack keeps exactly its newest 100 commands, all applied |
| `Commands.OverflowEvictsOldest` | src/utils/commands.ts:123-126 | pushing 101 commands keeps 100 and drops the first |
| `Commands.CommandStack.constructor` | src/utils/commands.ts:107-108 | a new stack is empty with cursor -1 |
| `Commands.CommandStack.ExecuteCommand` | src/utils/commands.ts:111-127 | the stack becomes `AfterExecute` of its history and the document the command's execute |
| `Commands.CommandStack.CanUndo` | src/utils/commands.ts:129-131 | true exactly when some command is applied |
| `Commands.CommandStack.CanRedo` | src/utils/commands.ts:133-135 | true exactly when some command is pending |
| `Commands.CommandStack.Undo` | src/utils/commands.ts:137-143 | the stack becomes `AfterUndo` of its history and the document its `UndoEffect` |
| `Commands.CommandStack.Redo` | src/utils/commands.ts:145-151 | the stack becomes `AfterRedo` of its history and the document its `RedoEffect` |
| `Commands.CommandStack.GetUndoDescription` | src/utils/commands.ts:153-158 | the description of the last applied command, or none when nothing is applied; reads only |
| `Commands.CommandStack.GetRedoDescription` | src/utils/commands.ts:160-165 | the description of the next pending command, or none at the head; reads only |
| `Commands.CommandStack.Clear` | src/utils/commands.ts:167-170 | the stack becomes empty with cursor -1 |
| `Commands.CommandStack.GetCommands` | src/utils/commands.ts:172-174 | the retained commands, applied then pending, in order |
| `Commands.CommandStack.GetCurrentIndex` | src/utils/commands.ts:176-178 | the number of applied commands minus one |
| `Snap.ScreenDist2` | src/utils/snap.ts:16-25 | the squared screen distance between two document positions is never negative |
| `Snap.ScreenInjective` | src/utils/snap.ts:16-17 | with positive zoom, the screen transform maps distinct coordinates to distinct coordinates |
| `Snap.Round` | src/utils/snap.ts:59-60 | `Math.round` gives the integer within one half of its argument, halves rounding up |
| `Snap.GridSnapOf` | src/utils/snap.ts:57-60 | the grid candidate is within half a grid step of the pointer on each axis, of kind grid, with no source |
| `Snap.AbsNearIffSquareNear` | src/utils/snap.ts:78-79 | an absolute offset is below 15 exactly when its square is below 225 |
| `Snap.PointCandidatesExact` | src/utils/snap.ts:20-35 | the point candidates are exactly the snaps of the points within tolerance, each of kind point; none when no point is near |
| `Snap.MidpointCandidatesExact` | src/utils/snap.ts:38-55 | the midpoint candidates are exactly the line midpoints within tolerance; none when no midpoint is near |
| `Snap.GridCandidates` | src/utils/snap.ts:57-73 | at most one grid candidate, present exactly when the nearest grid intersection is within tolerance |
| `Snap.AxisDistances` | src/utils/snap.ts:76-98 | an axis candidate's screen distance is the pointer's offset from that axis |
| `Snap.AxisCandidatesExact` | src/utils/snap.ts:76-98 | every axis candidate is the horizontal or vertical snap of one of the points, and every such snap within tolerance is a candidate; none when no axis is near |
| `Snap.CandidatesNear` | src/utils/snap.ts:20-98 | every candidate is strictly within tolerance and none is of kind intersection |
| `Snap.Insert` | src/utils/snap.ts:102-106 | stable insertion: the element goes first exactly when its key is at most the current head's |
| `Snap.SortByKey` | src/utils/snap.ts:102-106 | sorting keeps the number of elements |
| `Snap.SortHeadIsFirstNearest` | src/utils/snap.ts:102-106 | the head of the stable sort is the first element with the least key |
| `Snap.SnapResult` | src/utils/snap.ts:100-109 | the result has at most one element |
| `Snap.SnapResultIsFirstNearest` | src/utils/snap.ts:100-109 | there is a result exactly when there is a candidate; it is the first nearest candidate, within tolerance, and never an intersection |
| `Snap.WinnerNoFartherThanCandidates` | src/utils/snap.ts:102-106 | the winner is no farther from the pointer than any candidate |
| `Snap.GridWinsOnlyStrictly` | src/utils/snap.ts:57-106 | ties go to generation order: a grid winner is strictly nearer than every point and midpoint candidate |
| `Snap.FarFromEverythingNoSnap` | src/utils/snap.ts:20-109 | with every point, midpoint, grid intersection and axis at least 15 px away, the result is empty |
| `Snap.AxisSnapsNoFarther` | src/utils/snap.ts:76-98 | each axis snap of a point is no farther from the pointer than the point |
| `Snap.AxisNoFartherThanPoint` | src/utils/snap.ts:20-98 | for a point within tolerance both its axis snaps are candidates and no farther than the point snap |
| `Snap.WinningPointSnapIsOfAPoint` | src/utils/snap.ts:20-35 | a winning point snap is the snap of one of the points |
| `Snap.NoNearerAxisMeansOnPoint` | src/utils/snap.ts:76-98 | with positive zoom, a point no farther than both of its axis snaps lies under the pointer |
| `Snap.PointSnapWinsOnlyOnThePoint` | src/utils/snap.ts:20-106 | a point snap wins only when the pointer is exactly on the point, where it wins by tie order |
| `Snap.PushPointSnaps` | src/utils/snap.ts:20-35 | the first loop appends exactly the point candidates |
| `Snap.PushMidpointSnaps` | src/utils/snap.ts:38-55 | the second loop appends exactly the midpoint candidates |
| `Snap.PushAxisSnaps` | src/utils/snap.ts:76-98 | the last loop appends exactly the axis candidates, horizontal before vertical for each point |
| `Snap.FindSnapPoints` | src/utils/snap.ts:6-110 | the result is `SnapResult`, which does not depend on the arcs |
| `Snap.GetSnapPosition` | src/utils/snap.ts:112-134 | snapping off or no candidate gives the raw pointer with no snap point; otherwise the winner's position and the winner, within tolerance |
| `Formula.Message` | src/types/measurements.ts:52-54 | every failure message starts with `Formula evaluation error: ` and carries the inner error's message |
| `Formula.ReplaceFromNoMatch` | src/types/measurements.ts:35-36 | a scan that finds no whole-word match copies the rest of the text |
| `Formula.ReplaceWordNoMatch` | src/types/measurements.ts:35-36 | a name that occurs nowhere as a whole word (only inside longer words, say) leaves the text unchanged |
| `Formula.ReplaceFromFirstMatch` | src/types/measurements.ts:35-36 | the first whole-word match is replaced by the value, the text before it copied, and the scan resumes behind it |
| `Formula.SubstituteAllNoMatch` | src/types/measurements.ts:34-37 | when no variable occurs as a whole word, substitution leaves the formula as it is |
| `Formula.NotContainedNoMatch` | src/types/measurements.ts:35 | a name that is not a substring has no whole-word occurrence |
| `Formula.LiteralValue` | src/types/measurements.ts:45 | a decimal literal's value is non-negative, and a run of digits has its decimal value |
| `Formula.Divide` | src/types/measurements.ts:45-49 | the quotient times the divisor is the dividend |
| `Formula.DivisionByZero` | src/types/measurements.ts:47-49 | dividing by an expression worth zero yields no number |
| `Formula.QuotientByZero` | src/types/measurements.ts:47-49 | `x/0` fails as not a valid number, for a value of either sign |
| `Formula.QuotientByDigit` | src/types/measurements.ts:45-51 | `x/d` with a non-zero digit d evaluates to x / d, for a value of either sign |
| `Formula.ParseAllPrinted` | src/types/measurements.ts:45 | parsing the printed tokens of any expression gives that expression back |
| `Formula.TokenizeRender` | src/types/measurements.ts:45 | lexing spelled-out tokens gives the tokens back |
| `Formula.RenderAllowed` | src/types/measurements.ts:40 | spelled-out tokens pass the whitelist |
| `Formula.EvaluatePrinted` | src/types/measurements.ts:40-51 | the spelled-out text of an expression evaluates to the expression's value, or fails as not a number when it divides by zero |
| `Formula.ForeignPieceRejected` | src/types/measurements.ts:40-42 | any character outside the whitelist makes evaluation fail as an invalid formula |
| `Formula.EmptyFormulaRejected` | src/types/measurements.ts:40-42 | the empty formula fails as invalid, whatever the variables |
| `Formula.UnknownNameRejected` | src/types/measurements.ts:31-42 | a formula containing no variable name and a character outside the whitelist fails as invalid |
| `Formula.AlertRejected` | src/types/measurements.ts:40-42 | `alert(1)` fails whatever the values of `waist` and `hip` |
| `Formula.AlertBoundRejected` | src/types/measurements.ts:34-49 | with a variable named `alert`, `alert(1)` becomes a call of a number and still fails |
| `Formula.LineBreakAfterReturn` | src/types/measurements.ts:45-49 | a text starting with a line break returns nothing and fails as not a number; a leading space does not |
| `Formula.ValueExpr` | src/types/measurements.ts:36 | a substituted value reads back as a literal, negated when the value is negative, and that expression has the value |
| `Formula.ParseValue` | src/types/measurements.ts:36-45 | the tokens of a substituted value, wherever they sit, parse as that expression |
| `Formula.HipsterRejected` | src/types/measurements.ts:31-42 | `hipster` is not substituted by `hip` and fails the whitelist |
| `Formula.WaistOverFour` | src/types/measurements.ts:28-51 | `waist/4` evaluates to a quarter of the waist, whatever its sign (80 gives 20, -80 gives -20) |
| `Formula.HipPlusTen` | src/types/measurements.ts:28-51 | `hip + 10` evaluates to the hip plus ten, whatever its sign (90 gives 100) |
| `Measurements.Put` | src/types/measurements.ts:20-22 | the key gets the value and every other key keeps its own; a new key goes last in iteration order, an existing one keeps its place |
| `Measurements.Updated` | src/types/measurements.ts:57-68 | only the value changes; text value and non-empty formula give the formula's value, or 0 on failure; anything else is returned unchanged |
| `Measurements.NumberNotReevaluated` | src/types/measurements.ts:58 | a measurement holding a number is never re-evaluated, whatever its formula |
| `Measurements.UpdatedIdempotent` | src/types/measurements.ts:57-68 | a second update changes nothing |
| `Measurements.Dependents` | src/types/measurements.ts:70-74 | exactly the measurements with a non-empty formula whose lower-cased text contains the lower-cased name, at most as many as the input |
| `Measurements.DependentsAppend` | src/types/measurements.ts:70-74 | the filter distributes over concatenation, so dependents keep list order |
| `Measurements.HipFoundInHipster` | src/types/measurements.ts:72 | the test is not word-bounded: `hip` is found in `hipster*2` |
| `Measurements.FormulaEngine.constructor` | src/types/measurements.ts:18 | a new engine has no variables |
| `Measurements.FormulaEngine.SetVariable` | src/types/measurements.ts:20-22 | the variables become `Put` of the old ones |
| `Measurements.FormulaEngine.GetVariable` | src/types/measurements.ts:24-26 | the value stored under exactly this key, or none |
| `Measurements.FormulaEngine.EvaluateFormula` | src/types/measurements.ts:28-55 | the substitution loop over the map yields the evaluation of the formula under the current variables |
| `Measurements.FormulaEngine.UpdateMeasurement` | src/types/measurements.ts:57-68 | the result is `Updated` under the current variables |
| `Measurements.FormulaEngine.GetDependentMeasurements` | src/types/measurements.ts:70-74 | exactly the measurements of the list that depend on the name |
| `Store.UpdatedEvaluated` | src/types/measurements.ts:57-68 | the engine's update returns an evaluated measurement (one whose formula, when set, holds a number) exactly when it is given a text value or an already evaluated one |
| `Store.Synced` | src/contexts/MeasurementsContext.tsx:41-47 | the sync keeps the variable map well formed and leaves every name that no numeric measurement carries alone |
| `Store.SyncedRegisters` | src/contexts/MeasurementsContext.tsx:41-46 | after the sync a numeric measurement's name holds its value, unless a later one of the same name overwrote it |
| `Store.SyncedDefines` | src/contexts/MeasurementsContext.tsx:41-46 | after the sync every numeric measurement's name is a variable |
| `Store.Find` | src/contexts/MeasurementsContext.tsx:91-93 | the first measurement whose name equals the given one ignoring case, or none exactly when no name matches |
| `Store.Merge` | src/contexts/MeasurementsContext.tsx:57 | an update that carries no field leaves the measurement unchanged |
| `Store.UpdateOne` | src/contexts/MeasurementsContext.tsx:55-83 | an element with another id is returned unchanged, with the variables untouched and nothing scheduled |
| `Store.UpdateAll` | src/contexts/MeasurementsContext.tsx:54-85 | the update keeps the list's length and every element with another id |
| `Store.UpdateAllMissing` | src/contexts/MeasurementsContext.tsx:55-83 | an id no element has changes neither the list nor the variables, and schedules nothing |
| `Store.UpdateAllUnique` | src/contexts/MeasurementsContext.tsx:54-85 | with unique ids exactly the element with the id is replaced, and the variables and scheduled pass are that element's |
| `Store.NumericUpdate` | src/contexts/MeasurementsContext.tsx:66-81 | a numeric update stores the merged element with the new value, sets that name's variable and no other, and schedules the name's dependents in the list before the update |
| `Store.FormulaUpdate` | src/contexts/MeasurementsContext.tsx:59-63 | a formula update sets `formula` to the new formula and leaves the variables alone; a text value is evaluated (0 on failure); a numeric value is kept, so a formula-only update on a numeric measurement keeps its value |
| `Store.UpdateAllEvaluated` | src/contexts/MeasurementsContext.tsx:54-85 | the update leaves every element evaluated |
| `Store.Refreshed` | src/contexts/MeasurementsContext.tsx:71-78 | the pass keeps the length and every element whose id is not a dependent's |
| `Store.RefreshedChangesNothing` | src/contexts/MeasurementsContext.tsx:70-78 | on an evaluated list (which every reachable store holds) the pass as written is the identity, whatever it is asked to refresh |
| `Store.QuarterStaysStale` | src/contexts/MeasurementsContext.tsx:70-78 | `quarter = waist/4` holding 20 stays 20 after `waist` becomes 100, though its formula is then worth 25 |
| `Store.Recalculated` | src/contexts/MeasurementsContext.tsx:74 | the corrected re-evaluation leaves the measurement holding its formula's current value and changes nothing else |
| `Store.Recomputed` | src/contexts/MeasurementsContext.tsx:71-78 | the corrected pass keeps the length and every element whose id is not a dependent's |
| `Store.RecomputedIsCurrent` | src/contexts/MeasurementsContext.tsx:70-78 | after the corrected pass every dependent holds its formula's current value, and the list stays evaluated |
| `Store.StoreKeepsEvaluated` | src/contexts/MeasurementsContext.tsx:49-89 | the seed list is evaluated, and add, update, the pass and delete keep a list evaluated |
| `Store.MeasurementStore.constructor` | src/contexts/MeasurementsContext.tsx:19-38 | the list starts with `waist` = 80 and `hip` = 90, the engine with no variables |
| `Store.MeasurementStore.SyncVariables` | src/contexts/MeasurementsContext.tsx:41-47 | the variables become `Synced` of the old ones over the list |
| `Store.MeasurementStore.AddMeasurement` | src/contexts/MeasurementsContext.tsx:49-52 | the list gains exactly one element at the end, the engine-processed measurement; earlier elements unchanged |
| `Store.MeasurementStore.UpdateElement` | src/contexts/MeasurementsContext.tsx:56-82 | the callback's result, variables and scheduled dependents are `UpdateOne`'s |
| `Store.MeasurementStore.UpdateMeasurement` | src/contexts/MeasurementsContext.tsx:54-85 | list, variables and scheduled passes are `UpdateAll` of the old list, dependents taken from the list before the update |
| `Store.MeasurementStore.RefreshDependents` | src/contexts/MeasurementsContext.tsx:71-78 | the list becomes `Refreshed` under the current variables |
| `Store.MeasurementStore.RecomputeDependents` | src/contexts/MeasurementsContext.tsx:71-78 | the list becomes `Recomputed` under the current variables (the corrected pass) |
| `Store.MeasurementStore.DeleteMeasurement` | src/contexts/MeasurementsContext.tsx:87-89 | every element with the id is removed, the rest kept in order |
| `Store.MeasurementStore.GetMeasurement` | src/contexts/MeasurementsContext.tsx:91-93 | the first element whose name matches ignoring case, or none |

## Findings

| source | as written | input that shows it | evidently intended | confidence | as-written member | corrected member |
|---|---|---|---|---|---|---|
| src/contexts/MeasurementsContext.tsx:71-78 | the deferred pass re-evaluates dependents through `updateMeasurement`, which only evaluates a measurement whose value is a string; every stored measurement with a formula already holds a number, so the pass never changes anything | list with `quarter` (formula `waist/4`, value 20), then a numeric update of `waist` to 100 | the dependents take their formulas' new values (`quarter` becomes 25) | not executed; high (the evaluated-list invariant is proved for every store operation) | `Store.QuarterStaysStale` | `Store.RecomputedIsCurrent` |

## Left out

- The JavaScript evaluator (`new Function('return ' + text)`) is replaced by an explicit
  arithmetic grammar. Its quirks beyond plain arithmetic are outside the model:
  - `**` exponentiation, which passes the whitelist, is a syntax error here;
  - `//` and `/* */` comments are syntax errors here;
  - `/…/` regular-expression literals are syntax errors here;
  - legacy octal literals such as `012` are read here as decimal;
  - a line break directly behind `return` ends the statement (automatic semicolon
    insertion). The model returns "not a number" for it, as JavaScript does, but only when
    the text after the break is one expression. Text such as `\n5\n6` is several statements,
    so JavaScript returns `undefined`; the model reports a syntax error;
  - a line break inside the text is ordinary white space here. JavaScript reads a
    parenthesis at the start of a new line as a call of what precedes it;
  - the model tells failures apart only as an invalid formula, not a number, or a syntax
    error. A call of a number (`80(1)`) is a type error in JavaScript and a syntax error
    here. Every message carries the same prefix.
- Formula numbers are `real`, not IEEE-754 doubles. There is no rounding, overflow or
  NaN. Division by zero is an error anywhere in the expression, while JavaScript would
  carry `Infinity` on (`1/(1/0)` is 0 there) and only reject a non-finite result.
- Substitution puts a value into the text as one atomic number, and two consequences are
  not modelled:
  - its `Number.prototype.toString` spelling, such as `1e+21`, which would then fail the
    whitelist;
  - the spelled value merging with the characters next to it. With `waist` = 80, JavaScript
    reads `waist.5` as the text `80.5` and gets 80.5. The model gets the value 80 followed
    by `.5`, which is a syntax error.
- Regular-expression metacharacters in variable names, which the source does not escape,
  are not modelled. A name is matched literally as a whole word.
- `toLowerCase` is modelled on ASCII letters only, with no other Unicode case mappings.
- Command ids and timestamps come from `Date.now()` and `Math.random()`. Here they are
  given inputs.
- Commands receive the document explicitly instead of calling a captured setter.
- `CommandContext.tsx` is not part of this model. It only mirrors `canUndo`/`canRedo`
  into UI state.
- The component framework is not modelled: state hooks, effects, `useCallback` and the
  `setTimeout` scheduling. `SyncVariables` stands for the effect the caller runs after
  every change of the list. The dependents passes that `UpdateMeasurement` returns stand
  for the timers, and `RefreshDependents` runs one of them. The context's own
  `evaluateFormula` passes straight through to the engine's `EvaluateFormula`.
- An update (`Partial<Measurement>`) is modelled by which fields it carries. A field
  present with the value `undefined` is not modelled.
- Snap distances use squares instead of `Math.sqrt`, which orders them the same way.
  The zoom clamp to [0.1, 5] in `Canvas.tsx` is not part of this model. Only
  `Snap.PointSnapWinsOnlyOnThePoint`, `Snap.NoNearerAxisMeansOnPoint` and
  `Snap.ScreenInjective` need zoom > 0.
- Rendering, panels, page routing, and the measurements page's JSON export and import
  (`Blob`, `FileReader`, `alert`) are not part of this model. Import deletes every
  measurement and adds each imported one, so it is a sequence of the store's own
  operations.
- `Snap.SortByKey`: its own contract states only that the length is kept. What the
  snap engine relies on, that the head is the first least element, is proved in
  `Snap.SortHeadIsFirstNearest`. The full permutation and ordering of the sorted list
  are not stated.
- `Formula.AlertRejected`: proved for the bindings `waist` and `hip`. `Formula.AlertBoundRejected`
  proves it for a variable named `alert`. It is not proved for every possible set of
  variables: substitution can replace any whole-word part of `alert(1)` (such as `alert(`
  or `1`), and each outcome would need its own argument.
