# Verified models of Slither, Mythril and the contract monitor

Dafny models of the parts of the two analysers and of the monitoring service whose correctness
does not show in any one branch: passes that rewrite instruction lists in place, worklists, a
search over a cyclic call graph, protocols that crash at any step, and text machinery. Each method
follows the source's loop and is proved equal to, or to produce, something defined apart from it;
the lemmas then say what that means for the caller.

`dafny verify dfyconfig.toml` checks everything.

| file | what it models |
|---|---|
| `options.dfy`, `sequences.dfy`, `text.dfy`, `ir.dfy` | optional values; a law of sequences; splitting, joining and decimal numbers; the instructions of the call passes |
| `value_gas.dfy` | `integrate_value_gas`: chained `.value(..)`/`.gas(..)` pseudo-calls are folded into the real call |
| `call_propagation.dfy` | `reorder_arguments` and the loop of `propagate_type_and_convert_call` |
| `array_lowering.dfy` | `convert_to_push`, `convert_to_pop`, and a machine that runs the emitted instructions |
| `remove_unused.dfy`, `constant_types.dfy` | the two fixpoint passes |
| `storage_layout.dfy` | `_compute_storage_layout` and `storage_size`, against the Solidity documentation |
| `inheritance_worklist.dfy` | the rotating queues and the phases of `parse_contracts` |
| `call_paths.dfy` | the reverse search for call paths |
| `scanner.dfy` | `scanner_loop` over its atomic steps |
| `flat_json.dfy`, `profile_store.dfy` | profiles, snapshots, flattening and the latest difference |
| `lock_protocol.dfy` | `LockFile` between any number of processes |
| `disassembler.dfy`, `source_map.dfy` | the linear sweep; decoding compressed source maps |
| `ignore_ranges.dfy`, `comment_stripper.dfy`, `lru_cache.dfy` | ignore comments; comments and strings; the caches |

## What the code does not do

Where a promise of the code, its documentation or its comments does not hold for every input, a
lemma gives an input that shows it and another one says when it does hold.

- **Options of calls.** `f.value(1)()` on a variable leaves `ori` at the deleted pseudo-call
  (`StaleOrigin`, exact condition in `OriginAtExit`); a call of a function named `value` is dropped
  (`CallToFunctionNamedValue`); and values are kept by the name of the resolved callee, so that
  `f.value(v)(f.value(w)())` gives the outer call `w` (`NestedCallsShareValue`, exact condition in
  `OptionsAreItsOwnExactly`).
- **Named arguments.** If no declaration has the names of the call, `reorder_arguments` returns no
  arguments at all (`ReorderedDelivers`).
- **`push`.** The length is increased before the argument is read. The value that the argument had
  before the call is appended if and only if no operand of it holds the length: is the length, the
  array, or what the array is in (`PushExactly`). `a.push(a.length)` pushes one more than the length
  that the caller saw (`PushOwnLength`).
- **Unused instructions.** The last instruction is spared for its use by a return, but not if it is
  a `type(T)` call of an elementary type (`KeepsLast`).
- **Constant types.** The rule for array literals looks for constants of array type, but constants
  have elementary types, so it never converts anything (`LiteralsAreSkipped`): a constant that only
  literals of signed arrays read keeps its type (`LiteralConstantStays`, exact condition in
  `LiteralsConvertedExactly`).
- **Storage sizes.** An array is given the bytes of its elements, without the bytes that Solidity
  leaves free in each slot: `address[3]` gets two slots instead of three (`AddressTriple`,
  condition in `ArrayAgrees`). An enum with one value is given no byte (`EnumAgrees`). Every pointer
  to a function is given the 24 bytes of an external one, where Solidity takes 8 for an internal
  one, so that `function() internal f; uint128 x;` moves `x` to the next slot (`InternalPointer`);
  no other type is given too much (`NeverMore`).
- **Worklists.** A cycle, or an ancestor that is not queued, makes the loop run for ever
  (`TerminatesExactly`).
- **Scanner.** A contract is inserted before it is analyzed, so a crash in between loses the
  analysis (`CrashLosesAnalysis`, exact condition in `AnalyzedExactly`); and `base * 2 ** (n - 1)`
  raises `OverflowError` inside the handler at the 1025th transient error in a row, which ends the
  loop (`OutageKills`).
- **Lock file.** Nested `with` blocks on one object break exclusion (`NestingBreaksExclusion`), and
  the file of a dead process blocks everyone (`StaleLockBlocks`). On a timeout the message of the
  exception reads `self.filename`, which does not exist, so an `AttributeError` is raised instead;
  for the protocol both are the same step.
- **Disassembler.** The test for a swarm hash looks for `bzzr` in the printed form of the last
  bytes, where the byte 0x0B ends in a b as well (`CutWithoutSwarmHash`).
- **Comment stripper.** The documentation says that strings are emptied; their quotes go too. An
  escaped backslash before a closing quote loses the code after it (`EscapedBackslash`), and
  removing a string can bring two slashes together (`ResultHasNoComments`).
- **Source maps.** An empty map is an error, as `offset` is then read before it is assigned
  (`FirstMustBeFull`).
- **Profile differences.** Dots in keys merge leaves (`DotInKey`). A leaf that shows nothing is taken
  for a missing one (`NullLooksMissing`), and leaves of different types that show the same text for
  one another (`NumberBecomesText`); these are the only two ways for a difference not to be listed
  (`DiffIsExact`, `NothingListed`).
- **Model cache.** The answers of `check_quick_sat` are remembered by its decorator, so that "no
  model" is repeated after a model that fits was cached; only for constraints that are not
  remembered does "no model" mean that no cached model fits (`CheckQuickSat`).

## Model

| member | source | states |
|---|---|---|
| ValueGas.IntegrateValueGas | slither/slither/slithir/convert.py:305-378 | for results of calls assigned once, before use, the loop terminates and returns `Integrated(src)`, the repeated folding of setters until a round finds none |
| ValueGas.IntegratedExit | slither/slither/slithir/convert.py:313-345 | at exit no `value`/`gas` setter directly follows an argument, and the `ori` of each call whose callee is assigned in the list is the last assignment to that callee |
| ValueGas.OnlyCallsGo | slither/slither/slithir/convert.py:339-354 | for every list: nothing but calls is removed, and what arguments pass is not changed, in order |
| ValueGas.StaleOrigin | slither/slither/slithir/convert.py:322-325 | the clause on `ori` needs a definition: for `f.value(1)()` on a variable that the expression does not assign, `ori` stays at the deleted setter |
| ValueGas.OneRoundExact | slither/slither/slithir/convert.py:330-369 | the pass folds exactly the setters visible in the input if and only if folding them leaves no new one; otherwise the result is shorter still |
| ValueGas.CallToFunctionNamedValue | slither/slither/slithir/convert.py:334-344 | a call of a function that is itself named `value` is taken for the option and lost |
| ValueGas.OptionMeetsCall | slither/slither/slithir/convert.py:339-369 | in one round, every option on the way to a call, through any number of redirections, gets the `call_id` of that call, with the kind and value it was written with |
| ValueGas.OneRoundIsEnough | slither/slither/slithir/convert.py:313-369 | where `value` and `gas` members only set options (a call through one directly follows an argument, and none is taken of another one), one folding is the whole pass |
| ValueGas.PlainArgumentsStay | slither/slither/slithir/convert.py:339-369 | on such lists the CALL arguments at exit are exactly the arguments of the input that no call through a `value` or `gas` member follows: the same ones, unchanged, in order |
| ValueGas.ArgumentAtExit | slither/slither/slithir/convert.py:339-369 | an argument passes what it passed; a `value` or `gas` setter right after it gives it that kind and the name of the callee as id, and nothing else changes it but the resolution of its id |
| ValueGas.CallAtExit | slither/slither/slithir/convert.py:357-364 | a call that is no setter keeps its result; its callee becomes the one that its options were set on, and if it changed it is the id |
| ValueGas.OthersAtExit | slither/slither/slithir/convert.py:330-369 | members and other instructions are as they were |
| ValueGas.RootIsChainEnd | slither/slither/slithir/convert.py:359-369 | that callee is where a chain of setters leads, each assigning what the one before was taken of, and no setter leads on from it |
| ValueGas.OptionMeetsCallAtExit | slither/slither/slithir/convert.py:305-378 | so in the list that the pass returns every option written on a call carries the id of that call |
| ValueGas.OriginAtExit | slither/slither/slithir/convert.py:317-325 | said on the input, the `ori` of a call at exit is the definition of the callee its options were set on if the input assigns that callee by then, and else what its own callee was assigned by |
| ValueGas.LastSetIsWritten | slither/slither/slithir/convert.py:357-369 | the last option set for a callee before a call is the last one written on that call, if the last setter of the callee belongs to its chain |
| ValueGas.NestedOptions | slither/slither/slithir/convert.py:339-344 | two chains on one variable, `f.value(v)(f.value(w)())`: the outer call was written with `v`, the last value set for its callee is `w` |
| NamedArguments.ReorderArguments | slither/slither/slithir/convert.py:430-474 | with the assertions met and no parameter name repeated, the three loops return the arguments by the first declaration whose names the call all gives, or none at all |
| NamedArguments.FirstMatchIsFirst | slither/slither/slithir/convert.py:454-470 | no declaration before that one has the names of the call |
| NamedArguments.ReorderedDelivers | slither/slither/slithir/convert.py:454-474 | if a declaration matches, every argument is delivered once, at the parameter of its name; if none does, every argument is lost |
| CallPropagation.PropagateTypeAndConvertCall | slither/slither/slithir/convert.py:477-567 | the index-mutating loop terminates, never handles a spliced-in instruction again, keeps the order, and returns the output of every input instruction in turn; it fails exactly when named arguments do not fit their declarations |
| CallPropagation.Receive | slither/slither/slithir/convert.py:506-548 | one instruction: pending arguments and the value and gas tables after it, and the arguments and options a call receives |
| CallPropagation.PendingSinceLastCall | slither/slither/slithir/convert.py:509-548 | without conversions a call receives exactly the CALL arguments since the preceding call, in order |
| CallPropagation.CompletedCall | slither/slither/slithir/convert.py:509-548 | without conversions a call ends with its own arguments and the CALL arguments since the call before it: in order, or, if they are named, each at the parameter of its name; nothing else of it changes but its options |
| CallPropagation.UnmatchedCall | slither/slither/slithir/convert.py:526-548 | a named call that matches no declaration ends without the arguments it was given |
| CallPropagation.CompletedOption | slither/slither/slithir/convert.py:512-524 | a call that takes an option of a kind ends with the last one before it that has its id, and else with what it came with |
| CallPropagation.ArgumentsConserved | slither/slither/slithir/convert.py:509-548 | over a whole list without conversions and named calls, what the completed calls hold beyond what they came with, plus what is pending, is the sequence of all CALL arguments: none lost, doubled or reordered |
| CallPropagation.NothingLost | slither/slither/slithir/convert.py:509-548 | with named calls that match a declaration too, but for the order |
| CallPropagation.LeavesExactly | slither/slither/slithir/convert.py:550-566 | an argument or temporary instruction leaves nothing, any other one itself or what it is rewritten to, once |
| CallPropagation.NoTemporaryLeft | slither/slither/slithir/convert.py:550-552 | no argument or temporary instruction is left, if rewriting makes none |
| CallPropagation.OutputPreservesMeaning | slither/slither/slithir/convert.py:550-566 | for every semantics: if what an instruction is rewritten to means the same, the returned list means what the completed instructions mean one after the other |
| CallPropagation.ConversionTakesItsArgument | slither/slither/slithir/convert.py:502-507 | a conversion takes its own operand out of the pending arguments and no other |
| CallPropagation.RemovesFirst | slither/slither/slithir/convert.py:506-507 | of several equal ones it takes the first |
| CallPropagation.CallGetsLastSet | slither/slither/slithir/convert.py:339-369 | after `integrate_value_gas` a call with options gets the last value (or gas) that was set for its resolved callee |
| CallPropagation.CallGetsItsOptions | slither/slither/slithir/convert.py:509-524 | that is the last option written on this very call, if no later setter of another chain resolves to the same callee |
| CallPropagation.OptionsAreItsOwnExactly | slither/slither/slithir/convert.py:509-524 | and only then, when the setters of the callee have different arguments |
| CallPropagation.CompletedGetsLastSet | slither/slither/slithir/convert.py:305-567 | the two passes in sequence: the completed call has as `call_value` and `call_gas` what was last set for its resolved callee |
| CallPropagation.OptionsReachTheirCall | slither/slither/slithir/convert.py:305-567 | the two passes in sequence, on lists where `value` and `gas` members only set options: the completed call has the last value and the last gas written on it in the original list, under the condition of `OptionsAreItsOwnExactly` |
| CallPropagation.NestedCallsShareValue | slither/slither/slithir/convert.py:305-567 | `f.value(v)(f.value(w)())` through both passes: the outer call was written with `v` and is completed with `w` |
| ArrayLowering.CompilationUnit.ConvertToPushExpandArr | slither/slither/slithir/convert.py:1385-1422 | emits the four instructions that load the length and increase it, on fresh names |
| ArrayLowering.CompilationUnit.ConvertToPush | slither/slither/slithir/convert.py:1465-1484 | emits the code of `push`: longer array, reference to the new element, and its assignment (from a literal through a temporary, or to the result) |
| ArrayLowering.CompilationUnit.ConvertToPop | slither/slither/slithir/convert.py:1487-1549 | emits the six instructions of `pop` on fresh names |
| ArrayMachine.WriteExtends | slither/slither/slithir/convert.py:1396-1420 | writing through a reference below a place rewrites that place only |
| ArrayLowering.CallRuns | slither/slither/slithir/convert.py:1425-1549 | running the code of one call ends in the state its meaning as one operation gives, up to the new names |
| ArrayLowering.ApplyIsStackOperation | slither/slither/slithir/convert.py:1465-1549 | as one operation `push` appends to the contents of the array and `pop` removes the last element; cells at or beyond the length stay default, which `push()` relies on |
| ArrayLowering.SequenceRuns | slither/slither/slithir/convert.py:1385-1549 | the same for any sequence of calls on any number of arrays, none inside of another one, each translated in isolation with the next free names |
| ArrayLowering.LoweringPreservesMeaning | slither/slither/slithir/convert.py:1385-1549 | main statement: the code of any such sequence of `push(v)`, `push()` and `pop()` leaves every array with the contents of its own abstract stack and its cells at or beyond the length default, assigns the default element to the result of each `push()`, and changes no other variable that existed before |
| ArrayLowering.PushExactly | slither/slither/slithir/convert.py:1385-1480 | the emitted code of `push(v)` appends the value that the argument, an operand or an array literal, had before the call if and only if no operand of it is the length of the array, the array, or what it is in |
| ArrayLowering.PushOwnLength | slither/slither/slithir/convert.py:1412-1420 | for one: `a.push(a.length)` pushes one more than the length that the caller saw |
| RemoveUnused.RemoveUnused | slither/slither/slithir/convert.py:1907-1943 | terminates with `Rounds`, rounds of removal until one removes no member access |
| RemoveUnused.RoundsSupported | slither/slither/slithir/convert.py:1928-1940 | at exit each remaining member access but the last instruction is read, or written through as a reference, by a remaining instruction |
| RemoveUnused.GreatestSupported | slither/slither/slithir/convert.py:1915-1942 | the result holds every self-supporting selection of instructions: nothing is removed that could stay |
| RemoveUnused.RoundsEmbed | slither/slither/slithir/convert.py:1942-1943 | the result is a subsequence of the input |
| RemoveUnused.KeepsLast | slither/slither/slithir/convert.py:1913-1914 | the last instruction stays the last one if and only if it is no `type(T)` call of an elementary type |
| RemoveUnused.RemoveUnusedPreservesMeaning | slither/slither/slithir/convert.py:1907-1943 | for every semantics of the instructions, memory and all variables but those of dropped instructions end with the same values |
| RemoveUnused.MemoryPreserved | slither/slither/slithir/convert.py:1919-1940 | in a machine in which accesses bind references and other instructions write memory through them: if no write of the input goes through an unbound reference, none of the result does, and memory, variables and references end the same but for those of dropped instructions |
| RemoveUnused.DroppedAreMembers | slither/slither/slithir/convert.py:1928-1940 | only lvalues of member accesses, other than the last instruction, and of `type(T)` calls are given up |
| ConstantTypes.ConvertConstantTypes | slither/slither/slithir/convert.py:1954-2010 | terminates, gives every shared operand its type in `Final`, passes in order until one changes nothing, and makes exactly the least set of operands signed that is closed under the rules |
| ConstantTypes.OrderIndependent | slither/slither/slithir/convert.py:1960-2010 | that set is signed at the end for any order and repetition of the instructions |
| ConstantTypes.SignedExactly | slither/slither/slithir/convert.py:1961-1998 | the fixpoint at one look: at the end an operand is signed if and only if it was, or is passed where a signed number is declared, or is a constant that is read to compute such a variable |
| ConstantTypes.TypeIsOffered | slither/slither/slithir/convert.py:1961-1998 | an operand whose type changed has a signed type that the input offers it: one it is passed for, or, for a constant, one of a variable that it is read for |
| ConstantTypes.OneOffer | slither/slither/slithir/convert.py:1960-1998 | with only one type on offer the operand has the same type at the end for any order and repetition |
| ConstantTypes.FirstOfferWins | slither/slither/slithir/convert.py:1977-1988 | with two it gets the one that comes first |
| ConstantTypes.LiteralsAreSkipped | slither/slither/slithir/convert.py:2000-2010 | the rule for array literals changes nothing, since constants have elementary types |
| ConstantTypes.LiteralsConvertedExactly | slither/slither/slithir/convert.py:2003-2009 | so the constants in the literals of signed arrays are signed at the end if and only if other instructions of the input make each of them so |
| ConstantTypes.LiteralConstantStays | slither/slither/slithir/convert.py:2006-2009 | and one that only array literals read keeps its type |
| ConstantTypes.LeastIsClosed | slither/slither/slithir/convert.py:1961-2010 | that least set is closed under the rules and contains what was signed before |
| StorageLayout.CompilationUnit.ComputeStorageLayout | slither/slither/core/compilation_unit.py:337-378 | stores in the right dictionary the positions of the variables from the given base, and leaves every other contract and the other dictionary alone |
| StorageLayout.LayoutIsValid | slither/slither/core/compilation_unit.py:351-378 | positions are in order with disjoint byte ranges, no packed variable crosses a slot, a variable with slots of its own starts at offset 0 and shares none |
| StorageLayout.LayoutIsOptimal | slither/slither/core/compilation_unit.py:351-378 | in every other valid layout in this order from the same base each variable is at the same position or later |
| StorageLayout.LayoutFinds | slither/slither/core/compilation_unit.py:364-373 | looking up a name that no later variable repeats gives its position |
| StorageLayout.LayoutNames | slither/slither/core/compilation_unit.py:364-373 | exactly the names of the variables have a position |
| StorageSize.NeverMore | slither/slither/core/solidity_types/user_defined_type.py:32-63 | no type without pointers to internal functions is given more than in the Solidity documentation |
| StorageSize.InternalPointer | slither/slither/core/solidity_types/function_type.py:31-33 | a pointer to an internal function is: the `uint128` after it is put into the next slot, and belongs at byte 8 of the same one |
| StorageSize.ArrayAgrees | slither/slither/core/solidity_types/array_type.py:63-67 | an array gets the number of slots of the Solidity documentation if and only if its element has the right size and the bytes that Solidity leaves free do not add up, or it holds a single pointer to an internal function |
| StorageSize.AddressTriple | slither/slither/core/solidity_types/array_type.py:63-67 | `address[3]` takes three slots and is given two |
| StorageSize.EnumAgrees | slither/slither/core/solidity_types/user_defined_type.py:39-40 | an enum agrees if and only if it has at least two values |
| StorageSize.ExactAgrees | slither/slither/core/solidity_types/user_defined_type.py:32-61 | a type, nested to any depth, whose enums, arrays and pointers meet conditions on Solidity's sizes alone has Solidity's size, and is given the bytes of its content |
| StorageSize.WholeSlotArrays | slither/slither/core/solidity_types/array_type.py:63-67 | so arrays of any length of mappings, dynamic arrays, strings or such structures have Solidity's size |
| StorageSize.DifferenceShows | slither/slither/core/compilation_unit.py:351-378 | a type has another size than Solidity's if and only if a variable after it is put elsewhere |
| StorageSize.LayoutAgrees | slither/slither/core/compilation_unit.py:351-378 | for such types the whole computed layout is Solidity's |
| InheritanceWorklist.TerminatesExactly | slither/slither/solc_parsing/slither_compilation_unit_solc.py:604-722 | a rotating queue empties if and only if no contracts wait for each other or for one that is not queued; and then within n(n+1)/2 iterations |
| InheritanceWorklist.RankedDrains | slither/slither/solc_parsing/slither_compilation_unit_solc.py:604-722 | acyclic inheritance that is closed over the queue is enough |
| InheritanceWorklist.Compilation.Rotate | slither/slither/solc_parsing/slither_compilation_unit_solc.py:631-643 | one iteration: the first contract is analyzed if its ancestors were, and appended otherwise, to a new list and not to the one that was given |
| InheritanceWorklist.Compilation.AnalyzeQueue | slither/slither/solc_parsing/slither_compilation_unit_solc.py:604-617 | visits every contract exactly once, ancestors first, in at most n(n+1)/2 iterations, and leaves the caller's list as it was |
| InheritanceWorklist.Compilation.AnalyzePhase | slither/slither/solc_parsing/slither_compilation_unit_solc.py:619-722 | the libraries in order, then the queue; afterwards exactly the contracts are flagged, and the libraries but in the last phase; both lists are left as they were |
| InheritanceWorklist.Compilation.ParseContracts | slither/slither/solc_parsing/slither_compilation_unit_solc.py:551-582 | five phases in order, each over before the next begins, each visiting every contract once and ancestors first, after the first one libraries in front; the last four share their lists |
| InheritanceWorklist.KeepOrder | slither/slither/solc_parsing/slither_compilation_unit_solc.py:558-563 | libraries and other contracts each keep their order |
| CallPaths.AllFunctionDefinitions | slither/examples/scripts/possible_paths.py:74-85 | the function and the definitions of the same name in inherited contracts |
| CallPaths.FindPathsFrom | slither/examples/scripts/possible_paths.py:88-121 | terminates on cyclic call graphs and returns exactly the paths that lead to the current one through new functions and start at an accessible function |
| CallPaths.PathsAreSimple | slither/examples/scripts/possible_paths.py:88-121 | for the first call these are the simple paths of more than one function, from an accessible one to the target, each calling the next or one of its base definitions |
| CallPaths.FindTargetPaths | slither/examples/scripts/possible_paths.py:124-137 | exactly those paths, for all targets |
| Scanner.NothingMissedNothingTwice | contract-monitor/backend/app/main.py:216-311 | over every run from an empty database with crashes, exceptions and API writes anywhere: every creation above the first persisted watermark and up to the current one is in the table, and no address is analyzed twice |
| Scanner.PollMakesProgress | contract-monitor/backend/app/main.py:226-272 | with new blocks and no interruption the loop's own steps lead back to polling, with the newest block as watermark in memory and on disk; the table has gained exactly what was created in the new blocks, and what of it was not there was analyzed and its result stored, each once and in order |
| Scanner.NothingNew | contract-monitor/backend/app/main.py:234-245 | without new blocks only the counters of errors change |
| Scanner.OneStepAtATime | contract-monitor/backend/app/main.py:226-272 | in every consistent state at most one of the loop's own steps is possible |
| Scanner.TakesUp | contract-monitor/backend/app/main.py:216-232 | the loop goes on after the persisted watermark, else after the configured block, which it persists, and else just before the newest block |
| Scanner.WatermarkNeverDecreases | contract-monitor/backend/app/storage.py:219-272 | from any consistent state the persisted watermark never decreases and the table never loses an address |
| Scanner.StepKeepsInv | contract-monitor/backend/app/main.py:226-311 | every atomic step keeps the invariant behind this |
| Scanner.NeverAnalyzedLater | contract-monitor/backend/app/main.py:258-268 | an address in the table is analyzed only if that is the very next step of the loop |
| Scanner.CrashLosesAnalysis | contract-monitor/backend/app/main.py:262-268 | so a crash or exception between the insertion and the analysis loses the analysis for good |
| Scanner.AnalyzedExactly | contract-monitor/backend/app/main.py:262-268 | in any run from the insertion on, the address is analyzed if and only if its analysis starts before the first crash or exception |
| Scanner.OutageKills | contract-monitor/backend/app/main.py:282-307 | the handler survives exactly 1024 transient errors in a row: the next one overflows the exponential delay and ends the loop |
| Scanner.LogsExactly | contract-monitor/backend/app/main.py:293-304 | of the errors in a row the first one and every n-th one are logged, and all others counted as suppressed |
| LockProtocol.AtMostOneHolder | mythril/mythril/support/lock.py:31-57 | in every run at most one process holds the lock, and a process about to unlink finds its own file |
| LockProtocol.FileMeansHeld | mythril/mythril/support/lock.py:38-57 | while no process dies the file exists exactly when one is between its create and its unlink |
| LockProtocol.MutualExclusion | mythril/mythril/support/lock.py:59-72 | no two processes are in a `with` body, if none nests blocks on one object |
| LockProtocol.BlockRoundTrip | mythril/mythril/support/lock.py:31-72 | a block on an idle object and a free lock: inside, the file is the process's own; after it everything is as it was |
| LockProtocol.Waits | mythril/mythril/support/lock.py:40-48 | while the file exists, trying changes nothing, and giving up returns |
| LockProtocol.LeavesUnlocked | mythril/mythril/support/lock.py:67-72 | leaving a block with the object unlocked leaves the file alone |
| LockProtocol.NestingBreaksExclusion | mythril/mythril/support/lock.py:59-72 | in every reachable state in which a process that holds the lock is in a nested block and another one is idle, leaving the inner block releases the lock under the outer one, and both can end up in a body |
| LockProtocol.NestedIsReached | mythril/mythril/support/lock.py:59-65 | entering a second block on one object leads to such a state |
| LockProtocol.IdleIsUnlocked | mythril/mythril/support/lock.py:74-78 | an object outside of every block is not locked, so that `release` on its deletion unlinks nothing |
| LockProtocol.HolderCanDie | mythril/mythril/support/lock.py:38-39 | whoever holds the lock can die, and then its file stays |
| LockProtocol.StaleLockBlocks | mythril/mythril/support/lock.py:36-48 | the file of a dead process is never removed: nobody enters a body again |
| Disassembler.Disassemble | mythril/mythril/disassembler/asm.py:99-148 | the loop returns the linear sweep up to the limit, which the swarm-hash test sets |
| Disassembler.InstructionsExactly | mythril/mythril/disassembler/asm.py:125-145 | each instruction has the address of its opcode, which is INVALID for one that is not assigned, and exactly a push has an argument, of as many bytes as it says or as there are; the next one comes right after it |
| Disassembler.CutExactly | mythril/mythril/disassembler/asm.py:105-123 | the sweep covers everything if and only if the last 43 bytes print without "bzzr", and else all but those |
| Disassembler.UnassignedExactly | mythril/mythril/support/opcodes.py:15-143 | the bytes that no opcode has |
| Disassembler.LabelsAreValidJumps | mythril/mythril/disassembler/asm.py:125-145 | the addresses labelled JUMPDEST are the valid jump destinations of section 9.4.3 of the Ethereum Yellow Paper below the limit |
| Disassembler.EmitReproduces | mythril/mythril/disassembler/asm.py:125-145 | emitting opcodes and arguments gives the code back with unassigned opcodes as 0xFE, also for a truncated last PUSH |
| Disassembler.SweepIsFaithful | mythril/mythril/disassembler/asm.py:125-148 | for a sweep of the whole code both hold exactly, and disassembling the emitted bytes gives the same instructions |
| Disassembler.CutWithoutSwarmHash | mythril/mythril/disassembler/asm.py:118-121 | the cut can be a mistake: code of jump destinations that holds no letter b is cut to nothing |
| IgnoreRanges.SlitherCore.ParseIgnoreComments | slither/slither/core/slither_core.py:383-432 | succeeds if and only if for each check starts and ends alternate, beginning with a start; then the table holds the ranges between them, and other files are unchanged |
| IgnoreRanges.RangesAreDisjoint | slither/slither/core/slither_core.py:400-426 | the ranges of a check are ordered and disjoint |
| IgnoreRanges.OnIsInside | slither/slither/core/slither_core.py:454-459 | a line-by-line on/off flag is on exactly inside the ranges |
| IgnoreRanges.SuppressedIsOnThroughout | slither/slither/core/slither_core.py:456-459 | the range test on lines lo..hi succeeds if and only if the flag is on at every one of them |
| IgnoreRanges.SlitherCore.HasIgnoreComment | slither/slither/core/slither_core.py:434-485 | true exactly when for some element the flag of the check is on throughout, or that of `all` is, or the line before asks for it |
| CommentStripper.RemoveCommentsStrings | mythril/mythril/ethereum/util.py:177-213 | the loop terminates and equals a one-pass automaton over code, line comments, block comments and the two kinds of strings |
| CommentStripper.UnclosedLosesRest | mythril/mythril/ethereum/util.py:191-212 | a first comment or string that is never closed ends the result, after a space if it is a block comment |
| CommentStripper.StripShrinks | mythril/mythril/ethereum/util.py:183-213 | the result is no longer than the input and has no quote |
| CommentStripper.StripRendered | mythril/mythril/ethereum/util.py:177-213 | of a Solidity program cut into characters, comments and literals, the characters and one space for each block comment remain, if no literal's content ends in a backslash |
| CommentStripper.LiteralClosesExactly | mythril/mythril/ethereum/util.py:173-174 | a Solidity literal is closed by its own closing quote if and only if its content does not end in a backslash |
| CommentStripper.EscapedBackslash | mythril/mythril/ethereum/util.py:173-174 | after a literal that ends in an escaped backslash the code is lost |
| CommentStripper.ResultHasNoComments | mythril/mythril/ethereum/util.py:180-182 | the result contains the start of a comment if and only if a slash is followed, after literals only, by a slash or star |
| SourceMap.SolidityContract.GetSolcMappings | mythril/mythril/solidity/soliditycontract.py:361-393 | appends to the chosen list, and to no other, the mappings up to the first error, and reports whether there was one |
| SourceMap.DecodeInverts | mythril/mythril/solidity/soliditycontract.py:369-393 | for any list of entries, any way of leaving out fields equal to the predecessor's, down to a blank item, decodes to the list; each mapping keeps its item as written, and a blank one that of the item before |
| SourceMap.StopsAtError | mythril/mythril/solidity/soliditycontract.py:374-393 | a field that is no number, or an unknown file, ends the loop with an error after the mappings of the items before |
| Text.ParsesExactly | mythril/mythril/solidity/soliditycontract.py:375-381 | a field is a number if and only if it is one digit or more, after an optional minus sign |
| SourceMap.LineIs | mythril/mythril/solidity/soliditycontract.py:341-392 | code that the compiler generated has no line, and any other offset one more than the newlines before it, where a negative offset counts from the end |
| SourceMap.FirstMustBeFull | mythril/mythril/solidity/soliditycontract.py:372-384 | a map whose first item leaves out a field, also the empty map, is an error |
| SourceMap.LinesFollowOffsets | mythril/mythril/solidity/soliditycontract.py:384-391 | the lines of two entries of a file differ by the newlines between their offsets, so they are ordered like the offsets |
| FlatJson.FlattenJson | contract-monitor/backend/app/storage.py:504-519 | the recursion with its loops computes `Flatten` |
| FlatJson.RenderInjective | contract-monitor/backend/app/storage.py:505-516 | paths whose keys are non-empty and free of `.` and `[` are told apart by their rendering |
| FlatJson.FlattenIsLeaves | contract-monitor/backend/app/storage.py:504-519 | with such keys the table holds exactly the scalar leaves, each under its own path with its text |
| FlatJson.LeafMeans | contract-monitor/backend/app/storage.py:504-519 | elements of lists are reached by their index from 0, fields by their key; null shows as nothing, and true and false as Python prints them |
| FlatJson.RenderedForm | contract-monitor/backend/app/storage.py:509-514 | paths are written `key`, `path.key` and `path[index]` |
| FlatJson.LeavesTellApart | contract-monitor/backend/app/storage.py:531-532 | two values differ in more than the order of keys if and only if they differ at a leaf (a scalar, or an empty list or object), so that comparing leaf by leaf can see every difference |
| FlatJson.DotInKey | contract-monitor/backend/app/storage.py:507-511 | a dot in a key merges two leaves, and one is lost |
| ProfileStore.Storage.UpsertContractProfile | contract-monitor/backend/app/storage.py:372-392 | appends a snapshot and writes the row in one step; each row stays equal to its newest snapshot, or empty without one |
| ProfileStore.Storage.MarkProfileRefreshError | contract-monitor/backend/app/storage.py:394-407 | records attempt and error, creates an empty row if there is none, and keeps the same relation |
| ProfileStore.Storage.ListProfileSnapshots | contract-monitor/backend/app/storage.py:480-502 | the snapshots of the address, newest first, up to the limit |
| ProfileStore.HistoryExactly | contract-monitor/backend/app/storage.py:480-492 | those are all the snapshots of the address and no others, the last one first |
| StringOrder.LessExactly | contract-monitor/backend/app/storage.py:536-536 | keys are sorted by the first character in which they differ, and a prefix comes first |
| ProfileStore.Storage.LatestProfileDiff | contract-monitor/backend/app/storage.py:521-555 | the changes between the flattened last two snapshots, all of them in order, counted, and cut at the maximum |
| ProfileStore.DiffIsExact | contract-monitor/backend/app/storage.py:534-548 | a path is listed if and only if the leaves of the two profiles there differ, unless one is missing and the other one shows nothing, or both show the same text |
| ProfileStore.NothingListed | contract-monitor/backend/app/storage.py:534-555 | an empty list of changes means equal profiles, but for the order of keys, if and only if there is no path of either of those two kinds |
| ProfileStore.NumberBecomesText | contract-monitor/backend/app/storage.py:518-518 | 1 and "1", as null and "", differ and are not listed |
| ProfileStore.NullLooksMissing | contract-monitor/backend/app/storage.py:518-538 | a field that was null, the empty string, or an empty list or object, and is gone, differs and is not listed |
| LruCache.LRUCache.Get | mythril/mythril/support/support_utils.py:40-46 | a hit returns the last value put and makes the key the newest; a miss returns the default and changes nothing |
| LruCache.LRUCache.Put | mythril/mythril/support/support_utils.py:48-54 | the cache is always the `size` newest keys of all ever put, by last put or hit, each with its last value |
| LruCache.PutEvictsOldest | mythril/mythril/support/support_utils.py:48-54 | a put drops a key if and only if the put key is new, the cache full, and the dropped key the least recently used |
| LruCache.ModelCache.CheckQuickSat | mythril/mythril/support/support_utils.py:61-68 | a returned model satisfies the constraints and is the newest cached one that does; a remembered answer is returned whatever was cached since |

## Left out

- Instruction objects of the call passes and of `remove_unused` are values, identified by position or id: the model does not capture two lists that share an instruction object. The list itself, and in `convert_constant_types` the shared variables, are updated in place.
- The case tables of `propagate_types` and `extract_tmp_call` are parameters of the loop: keep, replace, or splice a list.
- ValueGas.IntegrateValueGas: requires that results of calls are assigned once, before use, since the redirections of other lists can be cyclic and the loop then does not end.
- CallPropagation.OptionsReachTheirCall: assumes `OnlySetsOptions`, that `value` and `gas` members only set call options; `CallToFunctionNamedValue` shows what happens to other lists, and `OneRoundExact` when one folding is enough for them.
- ArrayLowering.LoweringPreservesMeaning: requires arguments that do not hold the length of the array (`PushExactly`), arrays of which none is inside of another one (fields of one structure may be), lengths within 256 bits, and non-empty arrays for `pop`; types, expressions and nodes attached to the instructions are not modelled. The result of `push()` is the value that the source assigns, where Solidity gives a reference to the new element: `a.push().f = x` is not covered.
- NamedArguments.ReorderArguments: requires that a parameter name the call uses is not repeated in a declaration, which Solidity forbids.
- ConstantTypes.SignedExactly: requires that assignments are to variables and not to constants, and, like the lemmas beside it, that constants have elementary types; the constructors of the instructions and of constants assert both.
- `convert_delete`, `find_references_origin` and the other heuristics around the passes, and the fitting of literals into integer types, whose signed branch divides in floating point.
- StorageLayout.LayoutFinds: of two variables with one name the last one is found, as in the source's dictionary.
- The construction of the inheritance itself and the analyses of one contract: a visit is an event and a flag. Top-level structures, events and `using for` directives are not modelled.
- The scanner and the lock are transition systems rather than classes, because what matters is what happens between their steps. Remote calls may return anything, but the creations of a block are the same in every poll. Of the back-off only the exponent is modelled, which decides whether computing the delay raises. Of a scan result only that it was stored.
- LockProtocol.FileMeansHeld: assumes that no process dies; `StaleLockBlocks` says what happens then. `acquire` and `release` called directly, outside of a `with` block, and removal of the file by others are not modelled.
- Disassembler.Disassemble: code given as a hexadecimal string, and code of symbolic bytes, are not modelled; neither are `find_op_code_sequence` and `is_sequence_match`, which are simple searches.
- The regular expressions that recognise ignore comments: a line is given as what it says. `get_unused_ignore_comments`, and the marks it reads, are left out.
- IgnoreRanges.SlitherCore.HasIgnoreComment: requires that the lines of an element are consecutive, as source mappings give them, and that its file was parsed.
- Source map fields with spaces, plus signs or underscores, which Python's `int` also accepts, are errors here; `get_source_info` is left out.
- Lower-casing of addresses covers the letters A to Z; timestamps are parameters; SQL statements of one transaction are one step.
- FlatJson.FlattenJson: numbers are kept as the text they print as.
- LruCache.LRUCache.constructor: requires a size of at least one; with size zero `put` raises an exception. The only size used is 100.
- Derived-contract maps, list views of the storage, triage, printers and detectors: easy, or presentation only.
