/**
 The Sudoku board store: the four pieces of state the provider holds
 (committed cell values, pencil-mark candidates per cell, the selected cell
 and the input mode) and the operations that rebuild them. Each operation is
 a pure transition from one store value to the next.
 */
module Sudoku {
  import opened Seqs

  /** Cells on the 9x9 board, addressed row-major by 0 .. 80. */
  const Cells := 81

  /** The provider's state. `board[i]` is the committed value of cell `i`
      (0 for empty), `options[i]` its candidate list, `selectedCell` the
      cell numeric input goes to (-1 for none) and `editingOptions` whether
      input toggles a candidate instead of committing a value. */
  datatype State = State(
    board: seq<int>,
    options: seq<seq<int>>,
    selectedCell: int,
    editingOptions: bool)
  {
    predicate WellFormed() {
      |board| == Cells && |options| == Cells
    }
  }

  /** States whose board and candidate collection have one entry per cell.
      Every operation returns one, so the length never drifts from 81. */
  type Store = s: State | s.WellFormed()
    witness State(seq(81, _ => 0), seq(81, _ => []), -1, false)

  /** The run-time failure of reading the candidate list of a cell that
      does not exist (`undefined.includes(...)` raises a TypeError). */
  datatype Fault = UndefinedOptions(index: int)

  datatype Result<T> = Ok(value: T) | Err(fault: Fault)

  /** The indices the bounds-checked operations act on: the complement of
      the guard `index < 0 || index > 80`. */
  predicate InRange(index: int) {
    0 <= index <= 80
  }

  /** The state the provider starts from. */
  function Init(): Store {
    State(seq(Cells, _ => 0), seq(Cells, _ => []), -1, false)
  }

  /** Commits `value` to cell `index`; an index off the board is ignored. */
  function SetBoardValue(s: Store, index: int, value: int): (r: Store)
    ensures InRange(index) ==> r == s.(board := s.board[index := value])
    ensures !InRange(index) ==> r == s
  {
    if !InRange(index) then s
    else s.(board := Splice(s.board, index, value))
  }

  /** Appends `option` to the candidates of cell `index` without looking
      for an earlier copy; an index off the board is ignored. */
  function AddOption(s: Store, index: int, option: int): (r: Store)
    ensures InRange(index) ==>
      r == s.(options := s.options[index := s.options[index] + [option]])
    ensures !InRange(index) ==> r == s
  {
    if !InRange(index) then s
    else s.(options := Splice(s.options, index, s.options[index] + [option]))
  }

  /** Drops every copy of `option` from the candidates of cell `index`,
      keeping the others in order; an index off the board is ignored. */
  function RemoveOption(s: Store, index: int, option: int): (r: Store)
    ensures InRange(index) ==>
      && r == s.(options := s.options[index := r.options[index]])
      && option !in r.options[index]
      && (forall x :: x != option ==>
            multiset(r.options[index])[x] == multiset(s.options[index])[x])
    ensures InRange(index) && option !in s.options[index] ==> r == s
    ensures !InRange(index) ==> r == s
  {
    if !InRange(index) then s
    else s.(options := Splice(s.options, index, Without(s.options[index], option)))
  }

  /** Removes `option` from cell `index` if it is a candidate there and
      appends it otherwise. There is no bounds check before the lookup, so
      an index off the board is a run-time fault rather than a no-op. */
  function ToggleOption(s: Store, index: int, option: int): (r: Result<Store>)
    ensures r.Err? <==> !InRange(index)
    ensures r.Err? ==> r.fault == UndefinedOptions(index)
    ensures r.Ok? ==>
      && r.value == s.(options := s.options[index := r.value.options[index]])
      && (option in r.value.options[index] <==> option !in s.options[index])
      && (forall x :: x != option ==>
            multiset(r.value.options[index])[x] == multiset(s.options[index])[x])
    ensures r.Ok? && option !in s.options[index] ==>
      r.value.options[index] == s.options[index] + [option]
    ensures r.Ok? && option in s.options[index] ==>
      r.value.options[index] == Without(s.options[index], option)
  {
    if !InRange(index) then Err(UndefinedOptions(index))
    else if option in s.options[index] then Ok(RemoveOption(s, index, option))
    else Ok(AddOption(s, index, option))
  }

  /** Numeric input: toggles a candidate of the selected cell in option
      mode, commits the value to the selected cell otherwise. */
  function OnInput(s: Store, value: int): (r: Result<Store>)
    ensures r.Err? <==> s.editingOptions && !InRange(s.selectedCell)
    ensures r.Err? ==> r.fault == UndefinedOptions(s.selectedCell)
    ensures !s.editingOptions && InRange(s.selectedCell) ==>
      r.Ok? && r.value == s.(board := s.board[s.selectedCell := value])
    ensures !s.editingOptions && !InRange(s.selectedCell) ==> r == Ok(s)
    ensures s.editingOptions && r.Ok? ==>
      var i := s.selectedCell;
      && r.value == s.(options := s.options[i := r.value.options[i]])
      && (value in r.value.options[i] <==> value !in s.options[i])
      && (forall x :: x != value ==>
            multiset(r.value.options[i])[x] == multiset(s.options[i])[x])
      && (value !in s.options[i] ==> r.value.options[i] == s.options[i] + [value])
      && (value in s.options[i] ==> r.value.options[i] == Without(s.options[i], value))
  {
    if s.editingOptions then ToggleOption(s, s.selectedCell, value)
    else Ok(SetBoardValue(s, s.selectedCell, value))
  }

  /** The unchecked setter of the selection; -1 or any other index is
      accepted as is. */
  function SetSelectedCell(s: Store, index: int): Store {
    s.(selectedCell := index)
  }

  /** The unchecked setter of the input mode. */
  function SetEditingOptions(s: Store, editing: bool): Store {
    s.(editingOptions := editing)
  }
}
