# Gwead: model and proofs

Gwead is a plugin microkernel. Plugins are described by manifests: their actions are sequences of steps that refer to
each other through a small expression language, and the kernel plans, dispatches, bounds and streams their execution.
This project models the parts of the kernel whose correctness is not visible from one function, and proves them.

| part | modules | main results |
|---|---|---|
| expression language | `Ast`, `Grammar`, `ParserSpec`, `GrammarTheorem`, `Parser`, `LexerSpec`, `Layouts`, `Lexer`, `Characters`, `Numerals`, `Dsl`, `Printer` | the parser accepts exactly the stratified grammar within its two limits, the grammar is unambiguous, the lexer accepts exactly the layouts of a token list, printing with least parentheses and parsing back is the identity, and the printable trees are exactly the ones the parser can return |
| evaluation | `Json`, `Eval`, `EvalLaws`, `Chains`, `EvalBound` | a reference collects exactly what its path leads to, in document order, the operators obey their laws on all values, the early-exit selection loop is a composition of flat maps, bracketing of `&&`, `\|\|`, `??` is irrelevant, and 385 frames are enough for every parsed expression and needed by one |
| planning | `Scanner`, `ScannerAgrees`, `Waves`, `Plan`, `InnerSteps` | what the textual dependency scan finds in any text, exactly when that is what the parser finds, and that plans exist exactly for well-referenced steps and are the tight layering |
| invoke graph | `InvokeGraph` | the iterative depth-first search accepts exactly the acyclic edge lists and otherwise names a simple cycle |
| registry and lifecycle | `Indices`, `Registry`, `Admission`, `Lifecycle`, `StaticCalls`, `AdmissionLaws`, `LifecycleLaws`, `Contracts`, `Rollback`, `LifecycleRuns`, `Kernel` | a plugin is accepted exactly when twelve requirements on its manifest and the registry hold, the recorded edges are exactly its static calls, loading and unloading are inverse, every reachable state is sound, and a refused reload restores the old plugin exactly when what it needs of others is still there and its edges close no cycle |
| identities and dispatch | `Identity`, `Dispatch` | containment is a preorder that is prefix containment, references denote the nearest plugin, chains of dispatches only climb and have at most 16 hops |
| streaming callees | `Errors`, `Streaming` | in every interleaving bytes are conserved in order, some are lost exactly when the reader gives them up, and the end of file comes before the callee's end only to a reader that dropped a waiting read |
| wallclock caps | `Wallclock`, `Deadlines` | who is reported to have stopped an action, in every interleaving, and how deadlines nest in invocation trees |
| result budget | `Budget`, `Machine` | the running total and what it accounts for |

Code that updates its state in place is written as classes and methods with loops (`Parser`, `Lexer`, `Registry`,
`Kernel`, `Budget`, the graph and planning methods); each method is proved equal to a function of the old state, and
the laws are proved about those functions. The two concurrent protocols are state machines over their atomic steps.

## Where the code does less than its documentation says

Each of these is proved with the exact condition under which the promise holds, next to a concrete run in which it does not
(only the exhausted handle counter has no short one).

- A reload whose replacement is refused is documented to leave the handle on the old manifest, on the assumption that
  what registered once will register again (`src/kernel/mod.rs:1950-1957`). Registration also asks things of the other
  plugins, and asks them again. `LifecycleRuns.ReloadCanDestroy` loses a healthy plugin to an alias loaded since then, which
  turns one of its own steps into a cycle; `LifecycleRuns.ContractCanDestroy` loses one to a contract.
  `Rollback.RefusedReload` says exactly when the old plugin survives: its roles' contracts, script runtimes, step type
  definitions and declared references are still met and its edges close no cycle. What survives is all there, last in
  its ordered buckets.
- A refused reload of a contract puts back what its handle was loaded with, which need not be what was in force
  (`LifecycleRuns.ReloadCanRevert`); `Rollback.RefusedContractReload` says exactly when nothing changes.
- Unloading undoes loading only for a new handle, which fails once the handle counter is exhausted
  (`LifecycleLaws.UnloadUndoesLoad`). For a contract it further takes a key that was neither defined nor claimed
  (`LifecycleLaws.UnloadUndoesSpiLoad`): two handles may share one identical contract, which the first unload removes
  (`LifecycleRuns.SharedContractIsTaken`), and a plugin may claim a role before its contract is loaded, which then cannot
  be unloaded (`LifecycleRuns.ClaimedBeforeLoaded`).
- A loaded contract missing from the registry is documented as something that should never happen
  (`src/kernel/mod.rs:1914-1923`). One of two handles of a shared contract gets there when the other is unloaded:
  `LifecycleRuns.SharedContractDrifts`; `Contracts.DriftsExactlyWhen` has every way to it.
- The running total of step results is documented as the total the host holds (`src/kernel/host_api.rs:1729-1731`).
  Loop iterations drop results without giving their charge back (`src/kernel/runtime.rs:1965-1974`):
  `Budget.ClearedResultsStayCharged`, `Budget.LoopsExhaustTheBudget`. `Budget.Balanced` accounts for the difference, and the
  total is right exactly while no clear has removed anything (`Budget.ExactUntilSomethingIsCleared`).
- End of file on a streaming callee's readable is documented to mean that the callee has ended
  (`src/kernel/mod.rs:3562-3564`). A read dropped while it waits takes the receiver with it, and the next read of the
  same handle answers the end: `Streaming.AbandonedReadEndsEarly`. While the callee runs that is the only way a read can
  answer it (`Streaming.EndWhileRunning`).
- The same readable is documented to end once the bytes the producer did write are drained
  (`src/kernel/mod.rs:3564-3570`). What came while the dropped read waited goes with the receiver instead:
  `Streaming.AbandonedReadLosesBytes`. `Streaming.LostExactlyWhen` has the three steps in which a reader loses bytes,
  dropping a waiting read being the only one it does not ask for.
- A stop at the deadline is documented to be reported as the timeout unless someone else cancelled
  (`src/kernel/mod.rs:5036-5047`). The wrapper reads the flag and the token in two steps, and a watchdog between them
  hides the deadline: `Wallclock.WatchdogBetweenTheReads`; `Wallclock.HiddenExactlyBetweenTheReads` has the exact
  condition on the order of events.
- The dependency scan reads characters, the parser reads tokens: `ScannerAgrees.SpacedReferenceIsMissed`,
  `ScannerAgrees.QuotedReferenceIsReported`. `ScannerAgrees.ScanFindsExactlyWhen` counts both errors and gives the exact
  condition for each in the absence of the other; `ScannerAgrees.ErrorsCanCancel` has both at once, unnoticed.

## Model

| member | source | states |
|---|---|---|
| `GrammarTheorem.AcceptsExactlyTheGrammar` | src/dsl/parser.rs:329-457 | A token list is accepted with a tree exactly when the stratified, left-associative grammar derives that tree from it with at most 256 binary operators and a nesting of `(` and `!` of at most 128 |
| `GrammarTheorem.GrammarUnambiguous` | src/dsl/parser.rs:318-457 | No token list derives two trees, whatever its size |
| `GrammarTheorem.DerivationParses` | src/dsl/parser.rs:94-126 | A derivation within the limits parses to its own tree and operator count; one beyond them ends in a limit error |
| `GrammarTheorem.SyntaxErrorMeansUnderivable` | src/dsl/parser.rs:400-457 | A syntax error is never reported for a token list the grammar derives |
| `GrammarTheorem.AcceptedDerivation` | src/dsl/parser.rs:66-80 | Whatever is accepted has a derivation within both limits with the reported operator count |
| `GrammarTheorem.TighterBindsFirst` | src/dsl/parser.rs:318-398 | Between operands that bind tighter than any binary operator, of two operators the one in the lower row of the written-out table binds first on whichever side it stands, and of two in one row the left one |
| `GrammarTheorem.IndexSaturates` | src/dsl/parser.rs:269-316 | An index parses to the number written, one beyond 2^64 - 1 to that word |
| `Parser.Parser.Descend` | src/dsl/parser.rs:94-105 | The depth is raised even when the limit refuses |
| `Parser.Parser.CountOp` | src/dsl/parser.rs:115-126 | The 257th operator is refused and counted |
| `Parser.Parser.Bump` | src/dsl/parser.rs:132-138 | One token is consumed, and the end marker never |
| `Parser.Parser.ParseReference` | src/dsl/parser.rs:169-241 | The field-updating parser reads exactly the reference the specification reads and stops where it stops |
| `Parser.Parser.ParsePathSegments` | src/dsl/parser.rs:243-267 | The loop that pushes segments yields the whole path |
| `Parser.Parser.ParseBracketSegment` | src/dsl/parser.rs:269-316 | Index, wildcard or filter, with the same errors at the same tokens |
| `Parser.Parser.ParseBinary` | src/dsl/parser.rs:333-398 | Each precedence loop returns the specified tree, position and operator count; depth is restored on success and only raised on failure |
| `Parser.Parser.ParseUnary` | src/dsl/parser.rs:400-409 | Chains of `!` within the depth limit, depth restored |
| `Parser.Parser.ParsePrimary` | src/dsl/parser.rs:411-457 | Literals, references and parenthesised expressions as specified |
| `Parser.ParseExpressionTokens` | src/dsl/parser.rs:66-80 | The whole token list or nothing: the result is the specification's, an error points at the token it names |
| `Layouts.LexesExactlyTheLayouts` | src/dsl/lexer.rs:105-356 | A text lexes to a token list exactly when it is a layout of it: spellings, white space between, and no lexeme running into the next |
| `Layouts.LayoutLexes` | src/dsl/lexer.rs:135-268 | Every valid layout lexes to its tokens |
| `Layouts.LexedLayout` | src/dsl/lexer.rs:105-115 | Every text that lexes is a valid layout of what it lexes to |
| `Lexer.Lexer.SkipWhile` | src/dsl/lexer.rs:125-133 | The scan stops after the longest run of the class |
| `Lexer.Lexer.LexString` | src/dsl/lexer.rs:270-298 | A string literal up to its closing quote, or an error at its start |
| `Lexer.Lexer.LexNumber` | src/dsl/lexer.rs:300-334 | The longest numeral and its value |
| `Numerals.NumeralParsesToItsValue` | src/dsl/lexer.rs:300-334 | A numeral parses to a number literal whose value, times ten to the number of fraction digits, is with its sign the natural number whose decimal digits are the whole part followed by the fraction |
| `Numerals.MinusNegates` | src/dsl/lexer.rs:300-334 | A text that starts with a digit and parses to a number parses, with a minus before it, to the opposite number |
| `Characters.BlankExactlyWhen` | src/dsl/lexer.rs:125-133 | A text has no token exactly when it is made of spaces, tabs, line feeds and carriage returns |
| `Characters.DigitExactlyWhen` | src/dsl/lexer.rs:251-254 | A single character is a number exactly when it is a decimal digit by code point, and then that digit's |
| `Characters.NameExactlyWhen` | src/dsl/lexer.rs:256-262 | A text is one name exactly when it begins with a letter or underscore, goes on with those, digits and hyphens, and is no reserved word |
| `Characters.StringExactlyWhen` | src/dsl/lexer.rs:270-298 | A quoted text is that string exactly when it holds no quote |
| `Lexer.Lexer.LexIdent` | src/dsl/lexer.rs:336-356 | The longest word; three words are keywords |
| `Lexer.Lexer.NextToken` | src/dsl/lexer.rs:135-268 | White space, then the token the text starts with, at its position |
| `Lexer.Lexer.Tokenize` | src/dsl/lexer.rs:105-115 | All tokens with the end marker last and only there, in increasing places from each of which the text lexes to that token and all after it; an error carries the position of the first text that is no token |
| `Dsl.ParseExpression` | src/dsl/parser.rs:66-80 | Lexer and parser together return what the specifications do; a lexer error points at the first text that is no token, a parse error has the specified kind and points at the start of the token at fault |
| `Printer.RoundTrip` | src/dsl/parser.rs:318-457 | Printing with least parentheses and no space inside a reference, then parsing, returns the same tree |
| `Printer.PrintedNestingIsLeast` | src/dsl/parser.rs:329-457 | No derivation of the same tree nests less deeply or has fewer operators than the printed one |
| `Printer.PrintedParensAreFewest` | src/dsl/parser.rs:329-457 | No derivation of the same tree has fewer parentheses than the printed one |
| `Printer.ParserRange` | src/dsl/parser.rs:42-80 | The trees the parser can return at all are exactly the printable ones whose printed form is within the limits |
| `Printer.TextsOfExpression` | src/dsl/parser.rs:66-80 | A text parses to a tree exactly when it lays out a derivation of it within the limits |
| `Eval.ApplySegment` | src/dsl/eval.rs:100-136 | The loop over the selection is the flat map of the segment |
| `Eval.EvalReference` | src/dsl/eval.rs:65-83 | The loop with its early exit has the value of the whole composition |
| `Eval.SelectComposes` | src/dsl/eval.rs:70-76 | Selecting along a concatenated path is selecting along its parts in turn |
| `Eval.SelectDistributes` | src/dsl/eval.rs:100-136 | Each selected value is followed on its own, in order |
| `Eval.PlainPathSelectsAtMostOne` | src/dsl/eval.rs:100-136 | Without wildcard or filter at most one value is selected |
| `Eval.CombineAssociative` | src/dsl/eval.rs:185-205 | `&&`, `\|\|` and `??` are associative on all values |
| `Eval.BracketingIrrelevant` | src/dsl/eval.rs:168-208 | Any bracketing of a chain has the value of the left-deep tree over its operands |
| `Eval.SameOperandsSameValue` | src/dsl/eval.rs:168-208 | Two bracketings of the same operands have the same value |
| `EvalLaws.ReferenceCollects` | src/dsl/eval.rs:65-150 | A reference is null when its own part of the context is missing; otherwise it yields all values its path leads to from there, place by place in document order: null for none, the value itself for one, an array for more |
| `EvalLaws.NumbersCompareByValue` | src/dsl/eval.rs:234-267 | All six comparisons of two numbers are those of the numbers denoted, integer or float |
| `EvalLaws.OnlyNumbersAreOrdered` | src/dsl/eval.rs:253-267 | No ordering holds unless both sides are numbers |
| `EvalLaws.EqualExactlyWhenAlike` | src/dsl/eval.rs:234-247 | Values not both numbers are equal exactly when the same leaf, array length or key set stands at every place inside them |
| `EvalLaws.NotEqualIsNotOfEqual` | src/dsl/eval.rs:168-184 | `l != r` has the value of `!(l == r)` |
| `EvalLaws.OrderingsMirror` | src/dsl/eval.rs:181-184 | `l > r` has the value of `r < l`, `l >= r` that of `r <= l` |
| `EvalLaws.AtMostIsNotOfGreater` | src/dsl/eval.rs:253-267 | On numbers `l <= r` has the value of `!(l > r)` |
| `EvalLaws.ConnectivesFollowTruth` | src/dsl/eval.rs:170-199 | `!!x` is false for exactly null, false, zero and the three empty values; `!`, `&&` and `\|\|` follow it |
| `EvalLaws.DeMorgan` | src/dsl/eval.rs:170-199 | `a && b` agrees with `!(!a \|\| !b)` and `a \|\| b` with `!(!a && !b)` |
| `EvalLaws.CoalesceReplacesNull` | src/dsl/eval.rs:200-206 | Only null gives way to the right side |
| `EvalLaws.NumberLiterals` | src/dsl/eval.rs:210-232 | A literal that is a whole number of the signed 64-bit range is that integer, 2^63 the largest one, any other a float |
| `EvalLaws.OtherLiterals` | src/dsl/eval.rs:210-232 | String, boolean and null literals are themselves |
| `EvalLaws.RightIsNotEvaluated` | src/dsl/eval.rs:185-206 | What the left side decides is the value on a stack that only fits the left side, whatever stands on the right |
| `EvalLaws.LessIsOverflow` | src/dsl/eval.rs:162-208 | Without the three lazy operators a stack of fewer frames than the tree is high overflows |
| `Chains.ParserBuildsLeftDeep` | src/dsl/parser.rs:333-398 | A flat chain of one operator within the limits parses to the left-deep tree over its operands |
| `Chains.BracketsDoNotMatter` | src/dsl/eval.rs:185-205 | Every bracketing of the operands of a parsed chain has the value the parsed tree has |
| `Json.FieldOrderIsIrrelevant` | src/dsl/eval.rs:234-247 | Two objects with the same fields are equal in whatever order they hold them |
| `Eval.HeightIsEnoughStack` | src/dsl/eval.rs:168-208 | The short-circuiting recursion, run on as many frames as the tree is high, never overflows and has the strict value |
| `EvalBound.ParsedTreesAreBounded` | src/dsl/parser.rs:42-54 | A parsed tree has at most 256 binary nodes, at most 128 `!` on a path, height at most 385, and evaluates on 385 frames |
| `EvalBound.BoundIsReached` | src/dsl/eval.rs:162-208 | One text parses to a tree that overflows 384 frames |
| `Scanner.ScanReadsLayout` | src/kernel/dag.rs:40-41 | What the scan captures in any text that lexes: the references written without space, and what stands inside strings |
| `Scanner.ScanTemplate` | src/kernel/dag.rs:40-41 | What stands in double braces is scanned on its own, whatever is around it |
| `ScannerAgrees.ScanFindsParsedIds` | src/kernel/dag.rs:334-338 | With tight references and quiet strings the captured ids are exactly the parsed step ids, in order, each whole |
| `ScannerAgrees.ScanFindsExactlyWhen` | src/kernel/dag.rs:334-338 | On any text of an expression the captured ids number the parsed ones, less the references with white space inside, plus the hits inside strings; with quiet strings the two agree exactly when every reference is tight, with tight references exactly when every string is quiet |
| `ScannerAgrees.ScannerAgreesWithParser` | src/kernel/dag.rs:334-338 | So it is for every printed expression |
| `ScannerAgrees.SpacedReferenceIsMissed` | src/dsl/lexer.rs:125-133 | `$ steps.a` parses to a reference the scan does not see |
| `ScannerAgrees.QuotedReferenceIsReported` | src/kernel/dag.rs:40-41 | `'$steps.x'` refers to nothing yet is reported |
| `ScannerAgrees.ErrorsCanCancel` | src/kernel/dag.rs:334-338 | In `$ steps.a == '$steps.a'` the missed reference and the quoted hit cancel, so without the other neither condition is necessary |
| `Waves.LayerIntoWaves` | src/kernel/dag.rs:175-206 | Succeeds exactly on acyclic dependencies; then every step is in exactly one wave, one above its highest dependency; otherwise every stuck step waits for a stuck step |
| `Waves.StuckHasCycle` | src/kernel/dag.rs:191-198 | A stuck set contains a real cycle |
| `Waves.TightIsUnique` | src/kernel/dag.rs:175-206 | The layering is the only one of its kind |
| `Waves.FewestWaves` | src/kernel/dag.rs:175-206 | No layering that respects the dependencies has fewer waves |
| `Waves.LayeringIsAcyclic` | src/kernel/dag.rs:159-166 | A layering rules out cycles |
| `Plan.PushUnique` | src/kernel/dag.rs:351-355 | Only the first push of an id has an effect |
| `Plan.ScanString` | src/kernel/dag.rs:334-338 | The pattern loop pushes every match once, in order |
| `Plan.ScanValue` | src/kernel/dag.rs:317-332 | So for all strings of a value, at any depth, keys left out |
| `Plan.CollectInnerStepIds` | src/kernel/dag.rs:271-308 | The loops collect the set that `InnerSteps.InnerIdsAre` describes |
| `Plan.ExtractStepDeps` | src/kernel/dag.rs:225-252 | Declared dependencies first, then the scanned ones that leave the step, each once |
| `Plan.StepDepsAre` | src/kernel/dag.rs:215-224 | An id is a dependency exactly when it is declared, or scanned and not defined inside the step |
| `Plan.ReferencesAreDependencies` | src/kernel/dag.rs:36-41 | Every step that an expression in the parameters refers to is a dependency, whether the expression is a whole string or stands in double braces inside a longer one |
| `InnerSteps.InnerIdsAre` | src/kernel/dag.rs:254-308 | An id counts as defined inside a step exactly when some turns through the JSON lead to an object with it: `ifs[i]`, `branches[i][j]`, or `[j]` under one of five written-out keys, going on in the `params` of each step |
| `InnerSteps.ReferencesAre` | src/kernel/dag.rs:309-338 | An id is scanned exactly when some string at the end of array positions and object values, never a key, holds a reference to it |
| `InnerSteps.DependenciesAre` | src/kernel/dag.rs:215-252 | So a step depends on an id exactly when it declares it, or refers to it in some string and defines it in none of its bodies |
| `InnerSteps.OwnBodiesAddNothing` | src/kernel/dag.rs:215-252 | A step that declares nothing and refers only to steps of its own bodies has no dependency |
| `InnerSteps.PlannedAlone` | src/kernel/dag.rs:115-173 | Alone it is planned, unless a string in it holds two opening braces, white space and `steps.` |
| `Plan.IndexIds` | src/kernel/dag.rs:116-122 | Succeeds exactly for distinct ids, with the exact index of each |
| `Plan.ResolveStep` | src/kernel/dag.rs:124-157 | Succeeds exactly when every reference names an earlier step; adds the step as consumer of each target once |
| `Plan.BuildPlan` | src/kernel/dag.rs:115-173 | Succeeds exactly when ids are unique, no template is unrooted and every dependency is earlier; dependencies and consumers are inverse, waves are the tight layering, a rejection tells the truth, and it is never a cycle |
| `Plan.LinearExactlyWhenChained` | src/kernel/dag.rs:103-108 | One step at a time exactly when each step after the first depends on its immediate predecessor |
| `InvokeGraph.CheckAcyclic` | src/kernel/invoke.rs:381-407 | Accepted exactly when existing and new edges form no cycle; otherwise the reported cycle is real, simple and closed on its first node |
| `InvokeGraph.DfsFindCycle` | src/kernel/invoke.rs:415-466 | From any start: a simple cycle, or everything coloured is finished in an order that ranks the edges; terminates |
| `InvokeGraph.GrayOnStack` | src/kernel/invoke.rs:442-454 | A gray node is on the stack, so the lookup that closes a cycle cannot fail |
| `InvokeGraph.FinishedIsAcyclic` | src/kernel/invoke.rs:392-407 | When all sources are finished in order there is no cycle |
| `InvokeGraph.RecordEdges` | src/kernel/invoke.rs:385-390 | The adjacency lists hold exactly the edges |
| `InvokeGraph.FewerEdgesStayAcyclic` | src/kernel/registry.rs:556-565 | Dropping edges cannot create a cycle |
| `Registry.ScrubUndoesCommit` | src/kernel/registry.rs:531-568 | Scrubbing a plugin restores every index, bucket order included, to what it was before its rows were committed into free slots |
| `Registry.CommitKeepsOwned` | src/kernel/registry.rs:210-395 | After a commit every row still belongs to a registered plugin and no bucket is empty |
| `Registry.ScrubKeepsOwned` | src/kernel/registry.rs:531-568 | And after a scrub |
| `Registry.PluginRegistry.CommitManifest` | src/kernel/mod.rs:2599-2710 | The row-by-row commit has exactly the specified effect on all ten indices |
| `Registry.PluginRegistry.UnregisterPlugin` | src/kernel/registry.rs:531-568 | The in-place scrub has exactly the specified effect; an unknown plugin changes nothing |
| `Registry.PluginRegistry.RegisterSubscription` | src/kernel/registry.rs:336-345 | A pair is added once, at the end of its bucket |
| `Kernel.Kernel.RegisterPluginIn` | src/kernel/mod.rs:2161-2720 | Refused exactly when a check fails, with the error of the first that does, and then nothing has changed; otherwise the whole commit and the import claims. Contracts, aliases, imports, script runtimes, declared references, cycles, definitions and implementations are checked against the registry |
| `AdmissionLaws.RegisteredExactlyWhen` | src/kernel/mod.rs:2161-2596 | A plugin passes exactly when twelve requirements hold, each stated of the manifest and the registry alone: nearest contracts fulfilled, aliases new and with an action behind them, imports claimed once and by nobody else, runtimes for all scripts at any depth, declared targets there, no circle, definitions and implementations new and defined. A refusal blames the first that fails |
| `Kernel.Kernel.CollectEdges` | src/kernel/invoke.rs:109-231 | The walk over steps and all inner bodies collects exactly the invoked targets as written and the aliases as they resolve, sources qualified |
| `StaticCalls.EdgesAreStaticCalls` | src/kernel/invoke.rs:109-375 | A registration records an edge exactly for each static call: a way through the bodies of steps of five written-out types to an `invoke` with both targets or to an alias, the manifest's own first, then the nearest up the chain; or a target declared through the type's definition |
| `StaticCalls.NoAcceptedCircle` | src/kernel/mod.rs:2161-2720 | No accepted registration closes a circle of recorded and static calls, and a refusal for a cycle means there is one |
| `Kernel.Kernel.CollectDeclaredReferences` | src/kernel/invoke.rs:295-375 | Succeeds exactly when every literal target that a step declares through its type's definition is this plugin's action or a registered one, and then adds an edge for each |
| `Kernel.Kernel.RoleKeys` | src/kernel/mod.rs:1828-1841 | Nearest contract of each role, each key once |
| `AdmissionLaws.LanguagesAre` | src/kernel/mod.rs:5203-5310 | A script language is checked exactly when a script in it is written somewhere in an action's steps, along the same ways as for calls |
| `AdmissionLaws.RoleKeysAre` | src/kernel/mod.rs:1828-1841 | The keys are those of the nearest contract up the chain for each role, or in the plugin's own namespace when no contract is defined, each once, in the order of the roles that bring them |
| `Kernel.Kernel.ReleaseStepImports` | src/kernel/mod.rs:4194-4211 | Only the plugin's own imports are released |
| `Kernel.Kernel.LoadManifest` | src/kernel/mod.rs:1746-1758 | The specified load, or nothing changed |
| `Kernel.Kernel.UnloadManifest` | src/kernel/mod.rs:1874-1941 | The specified unload with all its refusals |
| `Kernel.Kernel.ReloadManifest` | src/kernel/mod.rs:1964-2095 | The specified replacement, rollback and failed rollback, the rollback through the same checks as any registration |
| `LifecycleLaws.UnloadUndoesLoad` | src/kernel/mod.rs:1746-1941 | Loading a plugin and unloading its handle restores registry, orders, edges, import owners and role users exactly, the counter aside; exactly when the handle was new |
| `LifecycleLaws.HandlesAreFresh` | src/kernel/mod.rs:1752-1755 | It is new in every reachable state whose counter is not exhausted |
| `LifecycleLaws.UnloadUndoesSpiLoad` | src/kernel/mod.rs:1773-1941 | For a contract it holds exactly when its key was not defined before, nobody claimed it and the handle was new |
| `LifecycleLaws.EveryStateIsSound` | src/kernel/mod.rs:1964-2095 | After any sequence of loads, registrations, unloads and reloads, failed ones included, every row, edge source and import belongs to a registered plugin, no bucket is empty and the recorded edges are acyclic |
| `LifecycleLaws.ReloadKeeps` | src/kernel/mod.rs:1964-2095 | A reload keeps that invariant on each of its paths |
| `LifecycleLaws.PluginsNeverDrift` | src/kernel/mod.rs:1925-1934 | The drift error for plugins is unreachable |
| `LifecycleLaws.ClaimedContractsStay` | src/kernel/mod.rs:1815-1913 | While a plugin's handle is neither unloaded nor reloaded, no sequence of operations but a reload of the contract itself takes away or changes a contract it claims, nor its claim |
| `Contracts.UsersAreLoadedPlugins` | src/kernel/mod.rs:1810-1872 | In every reachable state whose handle counter is not exhausted, whoever is on record for a role is a loaded plugin that declares a role which can mean it from its namespace |
| `Contracts.RefusedForAPlugin` | src/kernel/mod.rs:1897-1913 | So the unload of a contract is refused for its users exactly when such a plugin is on record |
| `Contracts.ContractLeavesExactlyWhen` | src/kernel/mod.rs:1897-2076 | One operation takes a contract out of the registry exactly when it is the unclaimed unload, or the replacement, of a handle that stands for it |
| `Contracts.DriftsExactlyWhen` | src/kernel/mod.rs:1914-1923 | A loaded contract's unload reports the drift error, its two earlier refusals aside, exactly when the contract was taken away through another handle |
| `Rollback.EveryStateReflects` | src/kernel/mod.rs:2599-2710 | In every reachable state a loaded plugin has exactly the rows of its manifest in every keyed index, exactly its imports and exactly its subscriptions |
| `Rollback.OnlyOthersRefuse` | src/kernel/mod.rs:2062-2092 | Taking a plugin out frees every slot it held, so its manifest is refused again exactly when a contract, script runtime, definition or declared reference it needs of others is missing, or its edges close a cycle |
| `Rollback.RefusedReload` | src/kernel/mod.rs:2057-2094 | After a refused replacement: under exactly that condition the replacement's error is answered and the old state is back, keyed indices and imports equal, the plugin last in its buckets, roles and edges as they resolve now; otherwise the plugin and its handle are gone and nothing else has changed |
| `LifecycleRuns.ReloadCanDestroy` | src/kernel/mod.rs:2057-2094 | A concrete run in which a malformed replacement destroys the plugin, because an alias closed a cycle |
| `LifecycleRuns.ContractCanDestroy` | src/kernel/mod.rs:2057-2094 | One in which it does so because a contract loaded since asks for an action |
| `LifecycleRuns.SharedContractIsTaken` | src/spi/loader.rs:45-66 | A run in which unloading the second handle of a contract takes it from the first |
| `LifecycleRuns.SharedContractDrifts` | src/kernel/mod.rs:1914-1923 | A run in which the first handle then reports the drift error |
| `LifecycleRuns.ClaimedBeforeLoaded` | src/kernel/mod.rs:1815-1913 | A run in which a contract loaded under a free key cannot be unloaded |
| `Rollback.RefusedContractReload` | src/kernel/mod.rs:2057-2077 | A refused replacement of a contract keeps the handle and puts back the definition that handle was loaded with; the state is unchanged exactly when that was in force and the handle claimed no role |
| `LifecycleRuns.ReloadCanRevert` | src/kernel/mod.rs:2057-2077 | A concrete run in which a malformed replacement undoes an earlier reload through another handle |
| `Identity.AcceptsExactlyNames` | src/kernel/identity.rs:187-230 | A name is accepted exactly when the grammar derives it, so it holds no separator |
| `Identity.RefusalSaysTruly` | src/kernel/identity.rs:187-230 | Each refusal of a name is true of it: the byte length, a separator, a leading digit, or the first character that may not stand there |
| `Identity.CharTakesFewestBytes` | src/kernel/identity.rs:187-196 | A character counts the fewest bytes whose payload bits hold its code point |
| `Identity.QualifyThenSplit` | src/kernel/identity.rs:273-314 | Namespace and local name come back from a qualified name, at any depth |
| `Identity.QualifyIsInjective` | src/kernel/identity.rs:273-278 | Distinct names or namespaces never share an identity |
| `Identity.SplitThenQualify` | src/kernel/identity.rs:273-314 | The converse, with its exact exception |
| `Identity.ChainIsPrefixes` | src/kernel/identity.rs:329-344 | The ancestor walk visits exactly the separator-respecting prefixes |
| `Identity.ChainClimbs` | src/kernel/identity.rs:329-344 | The nearest namespace stands first, each later one is shorter |
| `Identity.OnChainIsContainment` | src/kernel/identity.rs:346-364 | The containment rule is prefix containment of namespaces |
| `Identity.OnChainIsTransitive` | src/kernel/identity.rs:346-364 | The rule is transitive |
| `Identity.OnChainIsAntisymmetric` | src/kernel/identity.rs:346-364 | Mutual containment means the same namespace |
| `Dispatch.ResolvesToNearest` | src/kernel/mod.rs:4234-4248 | A valid reference denotes the nearest registered plugin on the caller's chain, else the caller's own namespace's |
| `Dispatch.ResolvedIsOnChain` | src/kernel/identity.rs:366-396 | What it denotes has that local name and is on the chain |
| `Dispatch.OneMorePlugin` | src/kernel/mod.rs:4213-4248 | Registering one more plugin leaves an answer as it was or makes it that plugin, which then has that name and is on the chain |
| `Dispatch.ExactGrantFollowsTheReference` | src/kernel/mod.rs:4253-4283 | For any list of grants: a plugin is granted exactly by the wildcard within its namespace, or by the exact grant of its own local name while that name, written by the caller, denotes it |
| `Dispatch.GrantedReferenceIsAccepted` | src/kernel/mod.rs:4234-4415 | What a caller asks for by a name it was granted resolves and is authorised, whatever has loaded since |
| `Dispatch.GrantsStayOnChain` | src/kernel/mod.rs:4260-4283 | No plugin grant reaches off the chain; the wildcard not above it |
| `Dispatch.RoleGrantsAre` | src/kernel/permissions.rs:1016-1027 | A role is authorised exactly by the wildcard for roles or the grant of exactly that role |
| `Dispatch.RedirectsNeedTheirOwnGrant` | src/kernel/mod.rs:4368-4415 | Whatever was requested, a resolved dispatch is accepted exactly when it lands on the caller, on a plugin it was granted, or on one in its or an enclosing namespace that the alias, the role wildcard or the grant of exactly the requested role allows; it is refused as off the chain exactly outside those namespaces |
| `Dispatch.ChainsOnlyClimb` | src/kernel/mod.rs:3915-3940 | In any chain of accepted dispatches, each callee one deeper than its caller and whatever is registered meanwhile, each callee is on the chain of every earlier caller and there are at most 16 hops |
| `Dispatch.NoReturnToANamespace` | src/kernel/mod.rs:4375-4400 | A chain that comes back to a namespace never left it |
| `Dispatch.SixteenHopsAreReached` | src/kernel/host_api.rs:2124-2130 | Sixteen hops do occur, and from there every dispatch is refused |
| `Errors.StoppedByItsRoot` | src/kernel/mod.rs:5117-5123 | An error is cancellation-shaped exactly when what lies under all callee failures is a cancel or a deadline |
| `Streaming.NothingLostNothingAdded` | src/kernel/mod.rs:3645-3707 | At any moment of any interleaving the delivered, half-read, queued and lost bytes are the accepted ones in order, the queue is bounded, and bytes are lost only once the reader has dropped a waiting read or closed its handle |
| `Streaming.LostExactlyWhen` | src/kernel/streams.rs:424-435 | Bytes have been lost exactly when the reader dropped a waiting read after a chunk had come, closed its handle on bytes not yet read, or closed it under a read that could not take them all |
| `Streaming.LostForGood` | src/kernel/streams.rs:826-839 | Once nobody holds the receiver no byte is accepted, delivered or lost any more |
| `Streaming.AbandonedReadLosesBytes` | src/kernel/streams.rs:826-1007 | A run in which a dropped read takes along a byte that the running callee wrote |
| `Streaming.EndMeansEnded` | src/kernel/mod.rs:3686-3703 | The end of file is seen only after the callee ended and everything was delivered, a failure was reported first, exactly once, and a success or cancel never; or the reader has dropped a waiting read and lost its receiver |
| `Streaming.EndWhileRunning` | src/kernel/streams.rs:826-839 | While the callee runs a read answers the end exactly when an earlier one was dropped and took the receiver |
| `Streaming.ErrorMeansFailed` | src/kernel/mod.rs:3790-3805 | An error item is the callee's own failure, after the last byte, and the only one |
| `Streaming.EndIsFinal` | src/kernel/mod.rs:3660-3704 | After the end nothing more is accepted, delivered or lost |
| `Streaming.TheEndIsReachable` | src/kernel/mod.rs:3669-3704 | Once the callee is over, the reader can read on to the end whatever the channel holds |
| `Streaming.TheEndStaysPossible` | src/kernel/mod.rs:3645-3805 | From every state in which the handle has its receiver, steps lead to the end of file with everything accepted delivered |
| `Streaming.EndIsRepeated` | src/kernel/streams.rs:826-839 | After the end every further read answers the end until the handle is closed |
| `Streaming.WaitingNeedsASender` | src/kernel/streams.rs:826-1007 | A read can be released, or dropped as soon as it starts, exactly while nothing waits in the channel and some sender still exists |
| `Streaming.ReadsTakeTurns` | src/kernel/streams.rs:826-839 | A read starts only when the previous one was answered or dropped; only a read takes, gives or is given up; the handle closes once |
| `Streaming.RoomTakesAWrite` | src/kernel/mod.rs:3645-3660 | While the callee's handle is open, somebody holds the receiver and fewer than 16 chunks wait, a write can be accepted |
| `Streaming.OnlyCommitsTake` | src/kernel/mod.rs:3645-3660 | Nothing else adds to what was accepted, and never to a full channel or one without a receiver |
| `Streaming.WritesAreAccountedFor` | src/kernel/streams.rs:424-435 | Every write begun is under way, was accepted or was given up, once |
| `Streaming.EmptyChunksSuspend` | src/kernel/streams.rs:826-1007 | A read that took a chunk can be dropped again exactly when the chunk was empty |
| `Streaming.AbandonedReadEndsEarly` | src/kernel/streams.rs:826-839 | A read dropped while it waits lets the next one answer the end while the callee runs |
| `Streaming.EveryRunKeeps` | src/kernel/mod.rs:3645-3805 | The protocol invariant holds in every reachable state |
| `Wallclock.ForeignCancelIsTheirs` | src/kernel/mod.rs:5016-5031 | A cancel from elsewhere that comes before both the watchdog's check and the wrapper's read of the token, in the order of events, is reported as the action's own outcome, unless the action was dropped |
| `Wallclock.FailuresAreNeverRewritten` | src/kernel/mod.rs:5079-5105 | An error rooted in neither cancel nor deadline, at any nesting, is reported as it is |
| `Wallclock.OnlyTheDeadlineRewrites` | src/kernel/mod.rs:5046-5105 | Any other report than the action's own is the timeout, at or past the deadline |
| `Wallclock.AbandonedIsDropped` | src/kernel/mod.rs:5049-5058 | Abandoned exactly when dropped, a grace past the deadline, with the token fired |
| `Wallclock.SuccessStands` | src/kernel/mod.rs:5060-5075 | A success is reported unless the watchdog had claimed the deadline |
| `Wallclock.DeadlineIsReported` | src/kernel/mod.rs:5033-5089 | A stop at or past the deadline is reported as the timeout exactly when the token was not found fired after the flag was found clear |
| `Wallclock.HiddenExactlyBetweenTheReads` | src/kernel/mod.rs:5016-5089 | With nobody else cancelling, it is hidden exactly when the watchdog both claimed the deadline and fired the token after the wrapper read the flag and before it read the token |
| `Wallclock.WatchdogBetweenTheReads` | src/kernel/mod.rs:5016-5047 | A run in which nobody else cancels and the deadline is still not reported |
| `Wallclock.PossibleByHistory` | src/kernel/mod.rs:5016-5075 | What can happen next follows from what has: time passes and others cancel at any moment, the action resolves until it is over, is dropped from 100 ms past its deadline, and the watchdog wakes once, at the deadline, unless aborted asleep |
| `Wallclock.EveryRunCanFinish` | src/kernel/mod.rs:5016-5105 | No run is stuck: from 100 ms past its deadline on an action may be dropped, and whatever is over gets reported |
| `Deadlines.TopLevelDeadline` | src/kernel/mod.rs:3400-3428 | A top-level call ends at its start plus what it declares, never for dataflow, plus the default otherwise; under a ceiling at the earlier of that and the ceiling |
| `Deadlines.OwnExactlyWhen` | src/kernel/mod.rs:3486-3510 | A callee keeps its own cap exactly when it declares to end by its caller's deadline; under an uncapped caller it is bounded as at top level |
| `Deadlines.AllowedTimeIsWhatIsLeft` | src/kernel/mod.rs:3486-3510 | A cap allows the time from the start to its deadline, none once that has passed |
| `Deadlines.DeadlineIsEarliest` | src/kernel/mod.rs:3486-3510 | Below a capped invocation a deadline is the earliest of its own and the caps declared in between |
| `Deadlines.NoCalleeOutlivesItsCaller` | src/kernel/mod.rs:3437-3510 | No descendant of a capped invocation has a later deadline |
| `Deadlines.OwnDeclarationHolds` | src/kernel/mod.rs:3503-3509 | No invocation runs past its own declared cap |
| `Deadlines.CeilingHolds` | src/kernel/mod.rs:3497-3509 | Under a ceiling every invocation ends within it of its own start |
| `Deadlines.UncappedExactlyWhen` | src/kernel/mod.rs:3400-3421 | Uncapped exactly when neither it nor any caller declares a cap, all are dataflow and there is no ceiling |
| `Budget.ChargedByWeight` | src/kernel/host_api.rs:440-456 | A value is charged sixteen for each value and each key inside it, at any depth, and the bytes of all strings and keys |
| `Budget.StoreIsExact` | src/kernel/host_api.rs:1742-1766 | Refused exactly when the exact total would pass the limit, and then values and total stay; replacing charges the difference |
| `Budget.Balanced` | src/kernel/host_api.rs:1716-1766 | Over any run the total is what is stored plus what loops cleared, and neither passes the limit |
| `Budget.ExactUntilSomethingIsCleared` | src/kernel/host_api.rs:1729-1766 | The total is the size of what is stored exactly when every clear so far found none of its ids stored |
| `Budget.StoresAloneAreExact` | src/kernel/host_api.rs:1742-1766 | Without clears the total is exactly the size of what is stored |
| `Budget.ClearedResultsStayCharged` | src/kernel/runtime.rs:1965-1974 | A loop is charged for every iteration while nothing is stored |
| `Budget.LoopsExhaustTheBudget` | src/kernel/runtime.rs:1965-1974 | So the iteration that passes the limit is refused although the results are empty |
| `Budget.ExecutionState.StoreStepResult` | src/kernel/host_api.rs:1742-1766 | The in-place update, the first id and the violation included |
| `Budget.ExecutionState.ClearInnerResults` | src/kernel/runtime.rs:1965-1974 | The loop drops the results of exactly the inner ids and touches nothing else |

## Left out

- Floating point: numbers are exact reals, so rounding, infinities and the loss of precision of large integers are not modelled; an index is clamped to the machine word as the code does.
- Text is a sequence of characters, not bytes: positions count characters, and UTF-8 matters only where a byte length is compared or charged.
- The entry point that parses a reference on its own (`src/dsl/parser.rs:57-64`); the reference parser it calls is modelled.
- `Parser.Parser.ParseBinary`: the five binary levels are one method indexed by the level, because they differ only in their operators.
- Object fields stand in their iteration order, which matters to wildcards and not to equality; how a JSON document is parsed, and the wording of errors and logs, are not modelled.
- `==` on two numbers compares exact values, where the code compares their nearest doubles.
- `Lifecycle.Rejection`: the checks that read only the manifest, its namespace, whether it is the kernel's own and the kernel's fixed configuration (schema, names, permissions, step shapes other than script languages, plan building, secrets, wasm compilation, provider trust, native bindings) are one predicate, any predicate of those three; the order among the checks that read the registry is the code's, and each group of checks has one error.
- `Kernel.Kernel.CollectEdges`: a step has its type, its string parameters and its inner bodies in walk order; parsing them out of JSON parameters is not modelled.
- The runtime's linker table, wasm modules as code, action plans in the registry, tool descriptors and hash map iteration order; the index that decides who owns a linker import is modelled.
- `Waves.LayerIntoWaves`: dependency indices are in range, as the code assumes when it indexes with them.
- `Dispatch.ChainsOnlyClimb`: the cheaper check made on the request before the orchestrator runs is not needed for the result and is left out; orchestrators are any choice of target.
- Step type access, events, secrets and role candidates.
- `Streaming.EveryRunKeeps`: the checks before the callee is spawned, a reader that takes the source out of the registry, and scheduling fairness are not modelled; failure texts are the errors they describe.
- `Wallclock.DeadlineIsReported`: time is in whole milliseconds and only moves forward; the wrapper without a cap simply reports the action's outcome.
- `Budget.Balanced`: with the largest machine word as the limit nothing is ever refused and saturation could hide a difference; limits below it are covered. Sizes above the machine word do not wrap, since no value of that size fits in memory.
- The wave and dataflow executors, fan-out, permissions, template substitution, the native implementation tables and configuration.
