# TinyTest decision dispatcher

TinyTest is a small fuzzing target. `Main` looks at the first command-line
argument. If there is one and it is not null or empty, Main compares its first
character with `'a'`. It calls `A` when the character is strictly below `'a'`
and `B` otherwise, passing the argument without that character. `A` and `B`
make the same kind of decision on the next character and call one of four
terminals:

| path | terminal | effect |
|---|---|---|
| low, low | `C` | prints `C`, exits 0 |
| low, high | `D` | prints `D` and `Exiting!`, exits 0 |
| high, low | `E` | prints `E`, throws `InvalidOperationException("E just failed!")` |
| high, high | `F` | prints `F`, writes `Error!` to stderr, exits 1 |

Every method first reports its own id to the instrumentation collaborator
(`Instrument.Trace`). If `A` or `B` gets an empty string, it returns
normally without printing anything.

The model is functional:

- `outcome.dfy` (module `Outcomes`) holds the observable result of a run as a value. `Outcome` records the stdout lines, the stderr lines, how the run ended (`Return`, `Exit(code)` or `Throw(exception, message)`) and the trace ids in call order. `Option` models C# `null`.
- `program.dfy` (module `TinyTest`) has `Run` (the model of `Main`) and `A`, `B`, `C`, `D`, `E`, `F`. They are pure functions that mirror the C# methods branch for branch.
- `decision_tree.dfy` (module `DecisionTree`) is a generic decision-tree interpreter over leading characters, `Walk`. Its lemmas prove, by induction over the tree, which parts of the input a walk can depend on, how long its trace is, and that the trace can be decoded back into the decisions taken.
- `properties.dfy` (module `TinyTestProperties`) proves in `RunIsTreeWalk` that `Run` equals `Walk` on `ProgramTree`. From that it derives the properties of the program.

`Main`, `A` and `B` make exactly two decisions, so a two-character argument already reaches a terminal (`"aa"` ends in `F`). `E` throws `InvalidOperationException`; it does not call `Exit`.

Determinism needs no separate lemma. `Run` is a Dafny function, so equal inputs give equal outcomes. `OnlyFirstArgumentMatters` states the stronger fact that the outcome is determined by the first argument alone.

## Model

| member | source | states |
|---|---|---|
| TinyTest.Run | TinyTest/Program.cs:12-33 | the trace starts with 50460 and has 1 to 3 ids; the run returns normally exactly when no terminal is reached (fewer than 3 ids) and exactly when nothing is printed; stderr output implies exit 1; a null/empty args array or a null/empty first argument gives only trace 50460 and a normal return |
| TinyTest.A | TinyTest/Program.cs:35-49 | records 7880 first; on an empty string it returns with no output; otherwise it reaches C (trace 61360, stdout `C`) when the first character is below `'a'` and D (trace 516, stdout `D`, `Exiting!`) otherwise, and the reached terminal always exits 0, writes nothing to stderr and adds exactly one trace id |
| TinyTest.B | TinyTest/Program.cs:51-65 | records 44666 first; on an empty string it returns with no output; otherwise it reaches E (trace 37587, stdout `E`, throws) when the first character is below `'a'` and F (trace 29875, stdout `F`, stderr `Error!`) otherwise, and the reached terminal never returns normally and never exits 0 (it fails) and adds exactly one trace id |
| TinyTestProperties.ProgramTree | TinyTest/Program.cs:16-95 | the program's decision tree is rooted at id 50460, has height 2, all its leaves are at depth 2, and sibling ids differ |
| TinyTestProperties.RunIsTreeWalk | TinyTest/Program.cs:12-95 | on every input, Main equals the generic decision-tree walk over the first argument, with null read as empty |
| TinyTestProperties.NoArgumentTakesNoBranch | TinyTest/Program.cs:16-20 | null args, an empty args array, a null first argument or `""` record only 50460 and return normally with no output |
| TinyTestProperties.OnlyFirstArgumentMatters | TinyTest/Program.cs:17-19 | two argument lists with the same first element (including both null/empty) give identical outcomes |
| TinyTestProperties.FirstDecision | TinyTest/Program.cs:22-29 | a first character below `'a'` leads to `A`, and `'a'` or above leads to `B`; either way the callee gets the argument minus its first character, and the second trace id is 7880 or 44666 accordingly |
| TinyTestProperties.SingleCharacterReturns | TinyTest/Program.cs:35-54 | a one-character argument records 50460 and then 7880 or 44666, and returns normally with no output |
| TinyTestProperties.LeadingPairSelectsTerminal | TinyTest/Program.cs:22-95 | for arguments of length 2 or more, low/low gives C (stdout `C`, exit 0), low/high gives D (`D`, `Exiting!`, exit 0), high/low gives E (`E`, throws `InvalidOperationException("E just failed!")`) and high/high gives F (`F`, stderr `Error!`, exit 1), each with its full three-id trace |
| TinyTestProperties.LaterCharactersIgnored | TinyTest/Program.cs:67-95 | two inputs whose first arguments agree on their first two characters (or are equal when shorter) give identical outcomes |
| TinyTestProperties.TraceShape | TinyTest/Program.cs:16-91 | the trace has length 1 + min(len(arg), 2), starts with 50460, then holds the A/B id chosen by the first character, then the terminal id chosen by the first two characters |
| TinyTestProperties.TraceEncodesDecisions | TinyTest/Program.cs:16-91 | decoding the trace against the program tree recovers exactly the decisions taken; there are min(len(arg), 2) of them |
| DecisionTree.PathLengthMatchesTrace | TinyTest/Program.cs:35-65 | in any decision tree, a walk records one trace id per decision taken, plus one |
| TinyTestProperties.TraceIdentifiesRun | TinyTest/Program.cs:16-91 | two runs with the same trace have the same stdout, stderr and termination |
| TinyTestProperties.TraceIdsDistinct | TinyTest/Program.cs:16-91 | the seven trace ids 50460, 7880, 44666, 61360, 516, 37587, 29875 are pairwise distinct |
| TinyTestProperties.Scenarios | TinyTest/Program.cs:12-95 | `"aaa"` gives F, `"__."` gives C, `"_z_"` gives D, `"z__"` gives E; `""`, an empty args array and null args give only trace 50460 and a normal return |
| DecisionTree.Walk | TinyTest/Program.cs:35-49 | a walk records at least one id and at most one per level of the tree, and its first id is the root's |
| DecisionTree.PathOf | TinyTest/Program.cs:38-46 | the decisions taken are no more than the characters available or the tree's height, and decision i is low exactly when character i is below `'a'` |
| DecisionTree.WalkFollowsPath | TinyTest/Program.cs:35-65 | a walk is determined entirely by the list of decisions it takes |
| DecisionTree.DecodeWalkTrace | TinyTest/Program.cs:35-65 | when sibling ids differ, the trace of a walk decodes back to the decisions it took |
| DecisionTree.TraceDeterminesWalk | TinyTest/Program.cs:35-65 | when sibling ids differ, two walks with the same trace have the same outcome |
| DecisionTree.WalkDependsOnPrefix | TinyTest/Program.cs:35-65 | two inputs that agree on their first n characters, for any n at least the tree's height, give the same walk |
| DecisionTree.CompleteWalkTraceLength | TinyTest/Program.cs:35-65 | in a tree whose leaves are all at the same depth, the trace has length 1 + min(len(s), height) |

## Left out

- The `Instrument` class is not part of this model. The model records each `Trace(id)` call as an id appended to the outcome's trace. `Dispose` and the `using` block are not modelled. Neither is the order of disposal relative to `Environment.Exit` or the thrown exception.
- Real console I/O and process termination are represented as values in `Outcome`. The model does not record how stdout and stderr lines interleave.
- The process exit code the runtime chooses for the unhandled `InvalidOperationException` is not modelled. The outcome records the exception type and message instead.
- Characters are Dafny `char` values (Unicode scalar values) compared with `<`, while C# indexes and compares UTF-16 code units, so the two agree only for characters in the Basic Multilingual Plane. A character outside it is one `char` here but two code units in C#: for the argument `"\U{1F600}_"` the model reads `U+1F600` and then `_` and ends in `E`, while C# reads the code units `D83D` and `DE00`, both `'a'` or above, and ends in `F`. Surrogate pairs and other UTF-16 details are not modelled.
- The terminals `C`, `D`, `E` and `F` have no contracts of their own. Their effects are stated through `Run` in `LeadingPairSelectsTerminal`, and their trace ids in `TraceShape`.
