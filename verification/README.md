# Sudoku board store — a Dafny model

The Sudoku progressive web app keeps its playing state in one store, which a
provider component creates. The store holds four things:

- the committed value of each of the 81 cells, row-major, where 0 means empty;
- a list of pencil-mark candidates for each cell;
- the selected cell, where -1 means no selection;
- the input mode, which says whether numeric input toggles a candidate or
  commits a value.

The store offers `setBoardValue`, `addOption`, `removeOption`,
`toggleOption` and `onInput`, plus plain setters for the selection and the
mode. Each update rebuilds the affected array by slicing and spreading.

This project models that store as an immutable value with pure transition
functions, and proves what each transition does and what sequences of them
guarantee.

- `seqs.dfy` (module `Seqs`) holds the sequence helpers. `Splice` is the
  slice-and-spread rebuild of one slot. `Without` is the `filter` that drops
  one candidate. It also defines duplicate-freedom and the subsequence
  relation.
- `sudoku.dfy` (module `Sudoku`) holds the state record, the initial store
  and the operations. `Store` is the state restricted to a board and
  candidate collection of exactly 81 entries each. Every operation returns a
  `Store`, so the length invariant is checked on every transition.
- `properties.dfy` (module `StoreProperties`) holds the multi-call
  properties. These include repeated writes, add-then-remove, toggle-twice
  and order preservation. It also holds the value-domain invariant, stated
  only as a hypothesis, because the store itself validates no values.
- `scenarios.dfy` (module `Scenarios`) holds concrete runs, including the
  demonstration data the provider writes at start-up.
- `session.dfy` (module `Session`) models a sequence of UI events applied in
  arrival order. An input that faults leaves the store as it was, and the
  session carries on with the next event, recording the fault.

Reading the candidates of a cell that does not exist is a fault. `toggleOption`
calls `options()[index].includes(...)` without a bounds check. For an index
outside 0..80 that element is `undefined`, and the call raises a TypeError.
This happens, for example, on input in option mode with nothing selected. The
model returns `Err(UndefinedOptions(index))` in that case. The bounds-checked
operations treat the same index as a silent no-op.

Numbers are modelled as mathematical integers.

In three places the code guarantees less than a set of candidates would:

- Adding and then removing a candidate restores the earlier list only when the
  candidate was absent. If it was present, `filter` drops every copy, including
  the earlier ones (`StoreProperties.AddThenRemoveOption`).
- Toggling twice restores the identical list when the candidate was absent.
  When it was present, it reappears once at the end, so in general only the
  set of candidates is restored (`StoreProperties.ToggleOptionTwice`).
- The 0..9 and 1..9 domains and duplicate-freedom are not enforced. They are
  guaranteed while every input is a digit and no candidate is added directly
  (`StoreProperties.AddOptionCanDuplicate`, `Session.RunKeepsDomain`).

## Model

| member | source | states |
|---|---|---|
| StoreProperties.InitIsEmptyBoard | pwa/src/context/sudoku.tsx:20-23 | The initial store has 81 zero cells and 81 empty candidate lists. Nothing is selected and value entry is the mode. It satisfies the value-domain invariant. |
| Seqs.Splice | pwa/src/context/sudoku.tsx:28 | The slice-and-spread rebuild keeps the length and equals the sequence updated at that one position. |
| Sudoku.SetBoardValue | pwa/src/context/sudoku.tsx:25-29 | For an index in 0..80 the result is the store with only that board cell replaced by the value. Candidates, selection and mode are untouched. Any other index leaves the whole store unchanged. |
| Sudoku.AddOption | pwa/src/context/sudoku.tsx:31-35 | For an index in 0..80 the cell's candidate list gets the option appended, with no membership check. Every other cell's list, the board, selection and mode are unchanged. Any other index is a no-op. |
| Seqs.Without | pwa/src/context/sudoku.tsx:40 | The filter removes every copy of the option and keeps the count of every other value. Membership is exactly "in the input and not the option". An absent option leaves the list identical. |
| Sudoku.RemoveOption | pwa/src/context/sudoku.tsx:37-41 | For an index in 0..80 only that cell's list changes. It loses every copy of the option and keeps every other value's count. If the option was absent the store is unchanged. Any other index is a no-op. |
| Seqs.WithoutIsSubsequence | pwa/src/context/sudoku.tsx:40 | The filtered list is a subsequence of the original, so order is preserved. |
| Seqs.WithoutAppend | pwa/src/context/sudoku.tsx:34-40 | Filtering distributes over concatenation. |
| Seqs.NoDuplicatesIffCountsAtMostOne | pwa/src/context/sudoku.tsx:34-44 | "No two positions hold the same value" is equivalent to "every value occurs at most once". This is the duplicate-freedom that toggling relies on. |
| Seqs.ReAppendIsPermutation | pwa/src/context/sudoku.tsx:34-44 | In a duplicate-free list, removing a present value and appending it again yields a permutation. |
| Sudoku.ToggleOption | pwa/src/context/sudoku.tsx:43-47 | It faults, with the index, exactly when the index is outside 0..80. Otherwise only that cell's list changes. An absent option is appended once at the end. A present option has every copy removed and the remaining candidates keep their order. |
| Sudoku.OnInput | pwa/src/context/sudoku.tsx:49-54 | In value mode it never faults. It commits the value to the selected cell when that cell is in 0..80 and is a no-op otherwise, for example with a selection of -1. In option mode it faults, with the selected index, exactly when the selection is outside 0..80, and otherwise changes only the selected cell's list. An absent value is appended once at the end. A present value has every copy filtered out. |
| StoreProperties.SetBoardValueLastWriteWins | pwa/src/context/sudoku.tsx:25-29 | A second write to the same cell overrides the first. |
| StoreProperties.AddOptionCanDuplicate | pwa/src/context/sudoku.tsx:31-35 | Adding a candidate already present raises its count by one, and the list then has duplicates. |
| StoreProperties.AddThenRemoveOption | pwa/src/context/sudoku.tsx:31-41 | Add then remove equals remove alone. When the option was absent, the store returns to its prior value. |
| StoreProperties.RemoveOptionIdempotent | pwa/src/context/sudoku.tsx:37-41 | Removing twice equals removing once. |
| StoreProperties.RemoveOptionKeepsOrder | pwa/src/context/sudoku.tsx:37-41 | The remaining candidates keep their relative order. |
| StoreProperties.ToggleOptionKeepsNoDuplicates | pwa/src/context/sudoku.tsx:43-44 | Toggling keeps a duplicate-free candidate list duplicate-free. |
| StoreProperties.ToggleOptionTwice | pwa/src/context/sudoku.tsx:43-44 | Both toggles succeed on any cell of the board. If the option was absent, the store returns to the identical value. If it was present, every copy is filtered out and one copy reappears at the end. On a duplicate-free list that is a permutation of the original. |
| StoreProperties.SetBoardValueKeepsDomain | pwa/src/context/sudoku.tsx:25-29 | Committing a value in 0..9 preserves the value-domain invariant. |
| StoreProperties.ToggleOptionKeepsDomain | pwa/src/context/sudoku.tsx:43-44 | Toggling a candidate in 1..9 preserves the value-domain invariant. |
| StoreProperties.OnInputKeepsDomain | pwa/src/context/sudoku.tsx:49-54 | Input of a digit 1..9 that does not fault preserves the value-domain invariant. |
| Scenarios.CommitValueScenario | pwa/src/context/sudoku.tsx:49-54 | Selecting cell 15 and typing 5 sets cell 15 to 5 and leaves every other cell at 0. |
| Scenarios.ToggleCandidatesScenario | pwa/src/context/sudoku.tsx:43-54 | With cell 65 selected in option mode, typing 7, 3, 7 leaves exactly [3] as its candidates. |
| Scenarios.NoSelectionScenario | pwa/src/context/sudoku.tsx:49-54 | With nothing selected, value-mode input changes nothing. Option-mode input faults on index -1. |
| Scenarios.AddOptionsInOrder | pwa/src/context/sudoku.tsx:31-35 | Two appends to the same cell leave both candidates at the end of its list, in the order written, and change nothing else. |
| Scenarios.SeededValuesFixture | pwa/src/context/sudoku.tsx:70-72 | The demonstration value writes set cells 15, 18 and 27 to 5, 6 and 7. They touch no candidates and leave every cell a digit. |
| Scenarios.SeededOptionsFixture | pwa/src/context/sudoku.tsx:73-77 | The demonstration candidate writes give cell 65 [7, 3, 2] and cell 69 [1, 8], and leave the board alone. |
| Scenarios.SeededFixture | pwa/src/context/sudoku.tsx:70-77 | The demonstration writes set cells 15, 18 and 27 to 5, 6 and 7. Cell 65 gets candidates [7, 3, 2] and cell 69 gets [1, 8]. The result lies in the value domain. |
| Session.RunKeepsDomain | pwa/src/context/sudoku.tsx:49-54 | Any event sequence whose inputs are digits 1..9 keeps the value-domain invariant, whatever selections and modes it uses and whatever faults it raises. |
| Session.ValueModeRunNeverFaults | pwa/src/context/sudoku.tsx:49-54 | A run that starts in value mode and never switches to option mode raises no fault and stays in value mode. |
| Session.FaultKeepsStore | pwa/src/context/sudoku.tsx:43-54 | An event that faults changes nothing. The run continues from the same store, with that fault recorded first. |
| Session.FaultDoesNotStopSession | pwa/src/context/sudoku.tsx:43-54 | Cell 3 gets 5, then option-mode input with nothing selected raises one fault. Cell 3 still holds 5 at the end. |

## Left out

- Solid.js signals, the context object and the JSX provider (lines 1-17, 56-68, 79-83). These are framework wiring. The signals are modelled as fields of an immutable record, and the accessors as field reads.
- The error `useSudoku` raises outside a provider (lines 86-91). It is a context-lookup failure, not board logic.
- The `console.log` in `toggleOption` (line 46). It is output only and does not affect the state.
- JavaScript numbers are doubles, and the model uses integers. A fractional or NaN index is not modelled. Neither is a candidate compared by `!=` or `includes` under NaN semantics.
- Value-domain validation: the source does none, so the operations accept any integer. The 0..9 / 1..9 domain appears only in `DomainInvariant`, used as a hypothesis of the preservation lemmas.
- `Init` and the scenarios start from the store before the demonstration writes. The provider applies those writes (lines 70-77) before it publishes the store (line 80), so the first store a consumer sees is `Scenarios.Seeded`. From that store, typing 7, 3, 7 on cell 65 gives [2, 7], not [3].
- `SetSelectedCell` and `SetEditingOptions`: they are unconditional setters (lines 22-23), modelled as plain record updates with no contract of their own.
