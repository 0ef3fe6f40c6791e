# Finite-state machine engine and the mod-3 remainder automaton

This project models two classes from a small Python repository and proves properties of the model in Dafny.

- `FSM` (fsm.py) is a generic deterministic finite-state machine. Its constructor validates the declared states, the alphabet, the initial state, the accepting ("final") states and a transition table. It keeps a mutable cursor (`current_state`). It offers `transition` for one symbol, `run` (reset, then one transition per symbol), `reset` and the acceptance assertion `get_final_state`. Every failure raises `ValueError`.
- `ModThreeFSM` (mod_three_fsm.py) fixes one configuration. Its states "0", "1", "2" are the residues modulo 3. Its `run` resets, runs the engine, asserts acceptance and converts the final label to an integer.

## Files

- `fsm.dfy` (module `Fsm`) is the engine as pure functions over immutable values:
  - `Config` holds the constructor arguments and `Machine` is a configuration plus a cursor.
  - `Outcome` pairs the machine after an operation with its `Result`.
  - `Error` has one variant per `ValueError` the source raises.
  - The relation `Edge` and the path predicate `IsPath` give an independent reading of the table. Successful runs are characterised against them.
- `fsm_object.dfy` (module `FsmObject`) is the engine as the source exposes it: a class whose only mutable field is the cursor. The class invariant is a valid configuration with a declared cursor. Each operation method (transition, run, reset, acceptance) is proved equal to the functional definition of the same operation. The construction method reports the same errors, in the same order, as `Fsm.Create`.
- `mod_three.dfy` (module `ModThree`) holds:
  - the fixed configuration and the run;
  - the binary value of a string, and a digit-by-digit residue;
  - the end-to-end theorem that the run returns the value mod 3.
- `fsm_examples.dfy` (module `FsmExamples`) states what the engine does on the three-state machine from the engine's tests, with a complete table, a partial table and a table whose only row is empty.

Modelling choices:
- States and symbols are type parameters. The mod-3 automaton instantiates them with `string` and `char`.
- The lists of states, symbols and accepting states are sequences, and only membership in them matters, so duplicates are harmless.
- A raised error is a `Result.Err`. Operations that move the cursor also return the machine as it stands afterwards. The cursor is not rolled back when a run fails part-way, and the model keeps that.

## Model

| member | source | states |
|---|---|---|
| Fsm.ValidateTransitions | fsm.py:43-58 | The check accepts exactly when both hold: the table has at least one row; every row's state is declared, and every entry's symbol is in the alphabet with a declared target. A declared state with an empty row is accepted. |
| Fsm.Create | fsm.py:28-41 | An undeclared initial state is reported first. An undeclared accepting state is reported next (an empty list of accepting states is fine). A bad table is reported last. Construction succeeds exactly when the configuration is valid. The new machine's cursor is the initial state and satisfies the machine invariant. |
| Fsm.Step | fsm.py:60-70 | A transition's three checks, in the source's order: unknown symbol, then a state with no row, then a row with no entry for the symbol. The step succeeds exactly when all three pass. Its result is then the table's edge. |
| Fsm.Transition | fsm.py:60-72 | On success the cursor follows an edge of the table and the configuration is unchanged. On failure the machine is returned untouched with the step's error. |
| Fsm.Reset | fsm.py:80-81 | The cursor becomes the initial state and nothing else changes. |
| Fsm.GetFinalState | fsm.py:83-86 | Succeeds exactly when the cursor is an accepting state, and then returns the cursor. Otherwise it gives the not-accepting error. The cursor never moves. |
| Fsm.Feed | fsm.py:76-78 | The transition loop keeps the configuration. On success it returns the cursor it leaves. |
| Fsm.Run | fsm.py:74-78 | A run keeps the configuration. On success it returns the cursor. The empty input returns the initial state. |
| Fsm.FeedAppend | fsm.py:76-77 | Reading `u + v` reads `u`; if that did not fail, it continues with `v` from where `u` left the cursor, and otherwise it stops with `u`'s outcome. This is the left-fold law of the loop. |
| Fsm.PathFeeds | fsm.py:76-78 | Reading an input along a path of table edges succeeds and ends on the path's last state. |
| Fsm.FeedHasPath | fsm.py:76-78 | A successful read follows a path of table edges that ends at its result. |
| Fsm.FeedSucceedsIffPath | fsm.py:76-78 | A read succeeds with state `t` exactly when a path of edges over the input ends at `t`. Both directions are proved. |
| Fsm.RunSucceedsIffPath | fsm.py:74-78 | A run succeeds with state `t` exactly when a path of edges over the input leads from the initial state to `t`. |
| Fsm.FeedFailsAt | fsm.py:76-77 | Suppose the first `i` symbols are read and the step on symbol `i` fails. Then the whole read fails with that error, and the cursor is where the first `i` symbols left it. |
| Fsm.FeedFailureIndex | fsm.py:76-77 | Every failed read has a failing position `i`. The prefix before `i` was read successfully, the step on symbol `i` raised the read's error, and the machine is the one the prefix produced. |
| Fsm.RunFailureCursor | fsm.py:74-77 | After a failed run, the cursor is not reset to the initial state. It is the state that the prefix before the failing symbol reached. |
| Fsm.TransitionPreservesInv | fsm.py:55-72 | A transition from a declared cursor in a valid configuration leaves a declared cursor, because every target was checked at construction. |
| Fsm.FeedPreservesInv | fsm.py:76-77 | Reading any input, whether it succeeds or fails part-way, keeps the cursor declared. |
| Fsm.RunPreservesInv | fsm.py:74-78 | In a valid configuration, a reset and then a run leave a declared cursor, whatever the cursor was before. |
| Fsm.ResetIdempotent | fsm.py:80-81 | Resetting twice is the same as resetting once. |
| Fsm.RunEmpty | fsm.py:74-78 | The empty input returns and leaves the initial state. Acceptance afterwards succeeds exactly when the initial state accepts. |
| Fsm.RunIgnoresCursor | fsm.py:75 | Two machines with the same configuration produce the same run outcome on every input, wherever their cursors were. |
| FsmObject.StateMachine.Create | fsm.py:18-41 | The object exists exactly when the configuration is valid, and it is a new object. The three construction errors are reported in the same order as by `Fsm.Create`. The object holds that configuration with the cursor on the initial state and satisfies the class invariant. |
| FsmObject.StateMachine.Transition | fsm.py:60-72 | The object's transition is equal to `Fsm.Transition` on its snapshot, in both its result and its new cursor. It keeps the class invariant. |
| FsmObject.StateMachine.Run | fsm.py:74-78 | The object's run is equal to `Fsm.Run` on its snapshot, in both its result and its final cursor, including the cursor left by a failure. It keeps the class invariant. |
| FsmObject.StateMachine.Reset | fsm.py:80-81 | The object's reset is equal to `Fsm.Reset` on its snapshot. It keeps the class invariant. |
| FsmObject.BuildAndRun | tests/test_fsm.py:63-67 | Building a machine and running it on an input gives the construction error, in the constructor's order, when the configuration is invalid. Otherwise it gives the functional run from the initial state. |
| FsmObject.StateMachine.GetFinalState | fsm.py:83-86 | The object's acceptance assertion agrees with the functional one. |
| FsmExamples.PartialRunKeepsCursor | tests/test_fsm.py:105-113 | On a table where S1 has no entry for '1', running "01" raises the no-transition-for-symbol error. The cursor stays on S1. |
| FsmExamples.NonAcceptingEnd | tests/test_fsm.py:94-98 | Running "1" on the engine's test machine returns S1, and the acceptance assertion then fails. |
| FsmExamples.AcceptingRun | tests/test_fsm.py:63-67 | Running "10" on the engine's test machine returns S2, which the acceptance assertion accepts. |
| FsmExamples.EmptyRowAccepted | fsm.py:49-58 | A table whose only row is empty passes the constructor's checks, and a run on it fails on its first symbol with the no-transition-for-symbol error. |
| ModThree.Decode | mod_three_fsm.py:24 | Integer parsing of a state label gives a residue in 0..2 whose label is the parsed string. |
| ModThree.DecodeLabel | mod_three_fsm.py:24 | Parsing the label of residue `r` gives back `r`. |
| ModThree.ResidueIsValueMod3 | mod_three_fsm.py:13-17 | Updating the residue digit by digit with `(2*s + b) mod 3` yields the binary value of the string mod 3. |
| ModThree.ValueLeadingZero | tests/test_mod_three_fsm.py:69-72 | A leading zero does not change a binary string's value. |
| ModThree.OnesRemainder | tests/test_mod_three_fsm.py:64-67 | A string of `n` ones has value 0 mod 3 for even `n` and 1 mod 3 for odd `n`. |
| ModThree.ConfigValid | mod_three_fsm.py:9-18 | The fixed configuration passes every check of the engine's constructor. |
| ModThree.StepIsRemainderRule | mod_three_fsm.py:13-17 | The table is total over the residues and the two digits. Each entry sends residue `s` and bit `b` to `(2*s + b) mod 3`. |
| ModThree.New | mod_three_fsm.py:8-18 | Building the remainder automaton never raises. Its cursor starts on "0". |
| ModThree.RunModThree | mod_three_fsm.py:20-24 | The run keeps the fixed configuration. When it returns, the result is a residue in 0..2 and the cursor is on that residue's label. |
| ModThree.FeedOneDigit | mod_three_fsm.py:13-17 | Reading one digit from residue `s` moves to, and returns, the next residue. |
| ModThree.FeedComputesResidue | mod_three_fsm.py:22 | The engine reads every binary string from "0" without error. It stops on the label of the string's residue. |
| ModThree.FeedRejectsNonBinary | mod_three_fsm.py:10-22 | Input containing a symbol that is not a binary digit makes the engine raise the invalid-symbol error. Every earlier step succeeds because the table is total. |
| ModThree.RunModThreeCorrect | mod_three_fsm.py:20-24 | For a binary string, the run returns the string's binary value mod 3 and leaves the cursor on that residue's label. The acceptance assertion never fails. For any other string, the run raises the invalid-symbol error. |
| ModThree.RunModThreeLeadingZero | tests/test_mod_three_fsm.py:69-72 | Prefixing a zero to any input does not change the run's outcome, whether the run succeeds or fails. |
| ModThree.ConsecutiveRuns | tests/test_mod_three_fsm.py:59-62 | Three runs on one instance ("110", then "1", then "10") give 0, 1 and 2. Each run is unaffected by the one before. |
| ModThree.RunBinary | mod_three_fsm.py:20-24 | A binary string whose value has residue `r` makes the run return `r`. |
| ModThree.RunModThreeOnes | tests/test_mod_three_fsm.py:64-67 | A run over `n` ones returns 0 for even `n` and 1 for odd `n`. |
| ModThree.HundredOnes | tests/test_mod_three_fsm.py:64-67 | A hundred ones give 0. |
| ModThree.KnownRuns | tests/test_mod_three_fsm.py:10-29 | "" gives 0, "1101" gives 1, "1001" gives 0, "111" gives 1 and "1010" gives 1. |
| ModThree.KnownRejection | tests/test_mod_three_fsm.py:48-57 | "10a01" raises the invalid-symbol error. |

## Left out

- Logging is not modelled: the logger set-up (fsm.py:26, mod_three_fsm.py:4) and the message written on each transition (fsm.py:71) are side effects with no bearing on any result.
- The demonstration block that prints one remainder (mod_three_fsm.py:28-32) is output only.
- Error messages are not modelled. Only which error is raised is: each `ValueError` is one `Error` variant.
- Python's `int` parsing is modelled only on the three state labels, by `ModThree.Decode`. The final state is always one of them.
- `None` or an empty string as the initial state is not a separate case. Either one is simply not a declared state.
- Input strings are sequences of symbols. The source iterates a Python string character by character, which is the `char` instantiation used by `ModThree`.
- Table emptiness: the constructor (fsm.py:49-50) rejects only a table with no rows, so a table whose rows are all empty is accepted (`FsmExamples.EmptyRowAccepted`).
- Reasons for a bad table: the code raises one error for an unknown source state, symbol or target (fsm.py:33-34). The model has one variant, `InvalidTransitions`.
- Fsm.ValidateTransitions does not fix the order in which rows and entries are visited. The source follows dictionary order. The verdict does not depend on the order, and the contract states only the verdict.
- Aliasing of the configuration is not modelled. The source keeps the caller's `states`, `final_states` and `transitions` by reference as public attributes (fsm.py:36-41). Mutating them after construction can move the cursor to an undeclared state. The model treats the configuration as immutable, which the source follows only by convention. So `Fsm.TransitionPreservesInv` holds in the source only while nobody mutates those objects.
- ModThree.RunModThree requires the machine to carry the fixed configuration. A `ModThreeFSM` object never carries any other.
- Concurrency is not modelled. The source's objects are not shared between threads.
