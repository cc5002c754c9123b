# LipikaEngine transliteration step machine, in Dafny

This project models the runtime core of LipikaEngine, a phonetic transliteration engine. The engine turns a stream of typed characters into script output one character at a time, revising earlier output until it is declared final. The core is `Engine` and its output record `Result` (`Source/Engine.swift`).

- `Results.dfy` holds `Result`. Its constructor takes the fields in the order of the four-argument initialiser `init(input:output:isPreviousFinal:isFinal:)` at line 23. `Passthrough` is the echoing initialiser `init(inoutput:isPreviousFinal:)`.
- `Collaborators.dfy` holds the engine's external collaborators, reduced to the interface the engine uses:
  - The forward walker is `TrieWalker`. It is an object whose state is the history of characters fed to it. It answers each new character with a function `respond` of that history and the character.
  - The rules trie is a record over an opaque node type `N`: a root, a lookup of one (type, key) transition, the renderer a node may carry, and whether a node has no further transitions.
  - A renderer is an uninterpreted function from the pending fragments to text.
- `Semantics.dfy` gives the engine's behaviour as functions on an explicit state:
  - The state is the cursor, the pending fragments and the walker's history.
  - `StepInput` is `execute(input:)` and `StepInputs` is `execute(inputs:)`.
  - `StepInputsAppend` is the fold law for `execute(inputs:)`.
- `Engine.dfy` holds class `Engine`. Its fields `rulesState` and `partOutput` are updated in place, and it owns the walker object. Each method's postcondition makes the new state and the returned results exactly those of the matching function in `Semantics`.
- `Properties.dfy` states, case by case, what one step does, and proves:
  - the cursor is never advanced;
  - the fuel bound never changes a finished run;
  - only the first walker outcome is acted on;
  - some walkers make the re-execution run forever;
  - two concrete scenarios.

The recursive re-execution after a failed disambiguation (`Source/Engine.swift:76`) stops or not depending on what the external walker answers when the same text is fed again. For that reason every step takes a `fuel` bound on the depth of re-execution.
- In the functions, running out of fuel gives `OutOfFuel`.
- In the methods, running out of fuel gives `None`. This propagates like the Swift `try` does: the rest of the string is not processed.
- `StepInputsFuelMonotone` proves that a run that finishes gives the same state and results with any larger bound.
- `RetryNeverEnds` shows that some walkers make the recursion run forever. The reset before re-execution leaves the cursor where it already was, at the root, so a candidate the root does not accept fails again every time.

Some things the code does may be unexpected. The model follows the code:
- A reset outcome still emits a `Result`. The engine resets and then emits a passthrough `Result` whose `isPreviousFinal` is true (lines 63-65 and 79).
- The cursor is never advanced. `rulesState` is only assigned at lines 44 and 50. Line 69 reads the trie without storing the node, so the cursor never leaves the root (`CursorStaysAtRoot`). Every candidate is therefore checked against the cursor as it was at the last reset.
- An accepted candidate whose node has no renderer falls through to the passthrough `Result` at line 79.
- An empty candidate list takes the failed-disambiguation branch. `first(where:)` finds nothing in an empty list, so the engine resets and re-executes the text (line 74).
- A final result does not clear the pending fragments. The next accepted candidate is rendered over a fragment list that still holds the finalized fragment (`FinalNotCleared`).
- There is no rendering error. The code calls `generate` without `try`. The only `throws` is the propagation of the recursive call, so no error kind is modelled.

The Swift field `type` of a candidate and of `RuleInput` is called `kind`, because `type` is a Dafny keyword.

## Model

| member | source | states |
|---|---|---|
| `Results.Passthrough` | Source/Engine.swift:30-34 | the echoing initialiser gives input = output = the given text, `isFinal` false (its default, line 17) and `isPreviousFinal` as given |
| `Collaborators.TrieWalker.constructor` | Source/Engine.swift:45 | a new walker has an empty history and answers with the given function |
| `Collaborators.TrieWalker.Walk` | Source/Engine.swift:61 | feeding one character records it in the walker's history; the answer is the walker's function of the previous history and the character |
| `Semantics.Reset` | Source/Engine.swift:48-51 | `resetRules()` on values: no pending fragments, the cursor at the trie root, and the walker's history untouched |
| `Semantics.Accepts` | Source/Engine.swift:67 | the `first(where:)` closure: a candidate is acceptable exactly when the trie has a transition from the cursor for its (type, key) |
| `Semantics.FirstAccepted` | Source/Engine.swift:67 | the chosen candidate is the first in list order that has a rule transition from the cursor; none is chosen exactly when no candidate has one |
| `Semantics.StepInput` | Source/Engine.swift:60-82 | one character step: the walker has been fed the character, and the cursor is either unchanged or back at the root |
| `Semantics.StepInputs` | Source/Engine.swift:53-58 | a string step: the walker's history only grows, by at least the string's length when the run finishes; the cursor is either unchanged or back at the root |
| `Semantics.StepInputsAppend` | Source/Engine.swift:53-58 | running `s + t` is running `s` and then, if that finished, `t` from the state it left, with the results concatenated in order |
| `Properties.StepInputsBase` | Source/Engine.swift:53-58 | an empty string gives no results and changes nothing; a one-character string gives exactly that character's step |
| `Properties.StepInputsCons` | Source/Engine.swift:54-57 | the first character's results come first, followed by the results of the rest of the string run from the state the first character left |
| `Properties.StepInputsCutOff` | Source/Engine.swift:55 | a step that does not finish ends the string run in the state it left, and later characters are not fed |
| `Properties.NoOutcome` | Source/Engine.swift:81 | when the walker returns no outcome: no results, and the cursor and fragments are unchanged |
| `Properties.ResetOutcome` | Source/Engine.swift:63-79 | a root-boundary outcome with no candidates empties the fragments and puts the cursor at the root; it still emits exactly one passthrough result with input = output = the matched text and `isPreviousFinal` true |
| `Properties.PassthroughOutcome` | Source/Engine.swift:79 | an outcome with no candidates away from a root boundary emits one passthrough result and changes neither cursor nor fragments |
| `Properties.AcceptedOutcome` | Source/Engine.swift:67-72 | the first accepted candidate's script is appended to the fragments and the cursor does not move. The one result is either rendered from all fragments, with `isPreviousFinal` = the root-boundary flag and `isFinal` = the node has no further transitions, or the passthrough result when the node has no renderer |
| `Properties.FailedOutcome` | Source/Engine.swift:74-77 | when no candidate is accepted, the state is reset (no fragments, cursor at the root) and the results are exactly those of re-executing the matched text from that state |
| `Properties.OneResultUnlessRetried` | Source/Engine.swift:62-80 | outside the re-execution branch, a character whose walker outcome list is non-empty gives exactly one result |
| `Properties.ResetForgetsContext` | Source/Engine.swift:63-65 | after a reset outcome, the step's state and results do not depend on the cursor or fragments before it |
| `Properties.CursorStaysAtRoot` | Source/Engine.swift:40-51 | the cursor is only ever reset, never advanced: from the root it stays at the root whatever is fed |
| `Properties.StepInputFuelMonotone` | Source/Engine.swift:76 | a character step that finishes within a fuel bound gives the same outcome with any larger bound |
| `Properties.StepInputsFuelMonotone` | Source/Engine.swift:53-58 | a string run that finishes within a fuel bound gives the same outcome with any larger bound |
| `Properties.RetryNeverEnds` | Source/Engine.swift:74-77 | the re-execution need not end: a walker that offers, for every character, one candidate the trie does not accept at the root makes every step run out of any fuel bound, because the cursor stays at the root and the retry fails again |
| `Properties.FirstOutcomeDecides` | Source/Engine.swift:62-80 | two walkers whose answers for this character are both empty, or share their first outcome, and that agree on every later history, give the same step |
| `Properties.AgreeingWalkers` | Source/Engine.swift:53-58 | walkers that agree on every history from the current one on give the same string run |
| `Properties.LaterOutcomesIgnored` | Source/Engine.swift:62-80 | dropping every walker outcome after the first for this character changes nothing: later outcomes are never acted on |
| `Properties.TwoPassthroughs` | Source/Engine.swift:63-79 | two characters the walker leaves unmapped, each at a root boundary or not, give two results, each echoing its character, not final, with `isPreviousFinal` = its root-boundary flag |
| `Properties.FinalNotCleared` | Source/Engine.swift:67-72 | after a leaf rule emits a final result, the fragments are not cleared: the next accepted candidate's result is rendered over both fragments and does not mark the earlier result final |
| `Properties.ConsonantKa` | Source/Engine.swift:67-71 | typing `k`, accepted as the consonant KA by a renderer that returns the one fragment, gives exactly one result `k` -> KA, with `isPreviousFinal` = the root-boundary flag and `isFinal` = the node is a leaf |
| `Transliteration.Engine.constructor` | Source/Engine.swift:43-46 | a new engine has its cursor at the root, no pending fragments and a fresh walker with an empty history |
| `Transliteration.Engine.ResetRules` | Source/Engine.swift:48-51 | the new state is `Reset` of the old one: `partOutput` becomes empty and `rulesState` becomes the trie root, and the walker is not touched |
| `Transliteration.Engine.ExecuteInputs` | Source/Engine.swift:53-58 | the new cursor, fragments and walker history, and the results, are exactly those of `StepInputs`; the `reduce` becomes a loop whose invariant is the fold so far |
| `Transliteration.Engine.ExecuteInput` | Source/Engine.swift:60-82 | the new cursor, fragments and walker history, and the results, are exactly those of `StepInput` |

## Left out

- The forward walker's internals (`TrieWalker.walk`, longest-prefix matching across calls) are not part of this model. The walker is an arbitrary function of its input history.
- Building the rules trie and the scheme (`Rules`, `rules.rulesTrie`, `rules.scheme.forwardTrie`) is not modelled. The engine's constructor takes the trie and the walker's answer function instead. The Swift `rulesState` is a trie node that knows its root; here the root comes from the trie record.
- The body of `ruleValue.generate(intermediates:)` is an uninterpreted function.
- This file does not guarantee termination of the re-execution. `RetryNeverEnds` exhibits a walker and trie for which the recursion at line 76 never ends. The model bounds re-execution by `fuel`, and a run that needs more depth than the fuel allows is reported as unfinished instead of running on.
- Swift `Character` and grapheme semantics: a character is a Dafny `char` and a string is a sequence of them.
- Thread safety and host or keyboard display logic.
- The comments at lines 13-21 say that a final output will not be changed any more, and that everything before a result marked `isPreviousFinal` is final. The model does not state this. Whether a final output is ever revised depends on the uninterpreted renderer and on when the walker emits a reset marker. `FinalNotCleared` shows that the engine itself keeps a finalized fragment in the list the next result is rendered from.
