/**
 Concrete runs of the board store: committing a value, toggling candidates,
 input with nothing selected, and the demonstration data the provider
 writes into a fresh store.
 */
module Scenarios {
  import opened Seqs
  import opened Sudoku
  import opened StoreProperties

  /** Select cell 15, type 5: the cell holds 5 and nothing else moved. */
  lemma CommitValueScenario()
    ensures var r := OnInput(SetSelectedCell(Init(), 15), 5);
            && r.Ok?
            && r.value.board[15] == 5
            && (forall j :: 0 <= j < Cells && j != 15 ==> r.value.board[j] == 0)
            && r.value.options == Init().options
  {
  }

  /** Select cell 65, switch to option mode, type 7, 3, 7: only 3 remains
      as a candidate of cell 65. */
  lemma ToggleCandidatesScenario()
    ensures var s := SetEditingOptions(SetSelectedCell(Init(), 65), true);
            var r1 := OnInput(s, 7);
            r1.Ok? && var r2 := OnInput(r1.value, 3);
            r2.Ok? && var r3 := OnInput(r2.value, 7);
            r3.Ok? && r3.value.options[65] == [3]
  {
    var s := SetEditingOptions(SetSelectedCell(Init(), 65), true);
    assert s.options[65] == [];
    var s1 := OnInput(s, 7).value;
    assert s1.options[65] == [7];
    var s2 := OnInput(s1, 3).value;
    assert s2.options[65] == [7, 3];
    var s3 := OnInput(s2, 7).value;
    assert s3.options[65] == Without([7, 3], 7);
    assert Without([7, 3], 7) == [3] by {
      assert [7, 3][1..] == [3];
      assert Without([3], 7) == [3];
    }
  }

  /** With nothing selected, input in value mode changes nothing and input
      in option mode faults on the missing cell. */
  lemma NoSelectionScenario(value: int)
    ensures OnInput(Init(), value) == Ok(Init())
    ensures OnInput(SetEditingOptions(Init(), true), value) == Err(UndefinedOptions(-1))
  {
  }

  /** The store after the provider's demonstration value writes. */
  function SeededValues(): Store {
    SetBoardValue(SetBoardValue(SetBoardValue(Init(), 15, 5), 18, 6), 27, 7)
  }

  /** The store after all the provider's demonstration writes. */
  function Seeded(): Store {
    var s := AddOption(SeededValues(), 65, 7);
    var s := AddOption(s, 65, 3);
    var s := AddOption(s, 65, 2);
    var s := AddOption(s, 69, 1);
    AddOption(s, 69, 8)
  }

  /** The demonstration values land in cells 15, 18 and 27, all digits,
      and leave the candidates empty. */
  lemma SeededValuesFixture()
    ensures SeededValues().board == Init().board[15 := 5][18 := 6][27 := 7]
    ensures SeededValues().options == Init().options
    ensures forall i :: 0 <= i < Cells ==> 0 <= SeededValues().board[i] <= 9
  {
    InitIsEmptyBoard();
  }

  /** Appending to a cell several times in a row lists the candidates in
      the order written. */
  lemma {:induction false} AddOptionsInOrder(s: Store, index: int, a: int, b: int)
    requires InRange(index)
    ensures AddOption(AddOption(s, index, a), index, b)
            == s.(options := s.options[index := s.options[index] + [a, b]])
  {
    var s1 := AddOption(s, index, a);
    assert s1.options[index] == s.options[index] + [a];
    assert s.options[index] + [a] + [b] == s.options[index] + [a, b];
  }

  /** The demonstration candidates go to cells 65 and 69 in the order
      written, and the board is left as the value writes made it. */
  lemma SeededOptionsFixture()
    ensures Seeded().board == SeededValues().board
    ensures Seeded().options == SeededValues().options[65 := [7, 3, 2]][69 := [1, 8]]
  {
    var b := SeededValues();
    SeededValuesFixture();
    InitIsEmptyBoard();
    assert b.options[65] == [] && b.options[69] == [];
    var o2 := AddOption(AddOption(b, 65, 7), 65, 3);
    AddOptionsInOrder(b, 65, 7, 3);
    assert [] + [7, 3] == [7, 3];
    assert o2.options == b.options[65 := [7, 3]];
    var o3 := AddOption(o2, 65, 2);
    assert [7, 3] + [2] == [7, 3, 2];
    assert o3.options == b.options[65 := [7, 3, 2]];
    var s := AddOption(AddOption(o3, 69, 1), 69, 8);
    AddOptionsInOrder(o3, 69, 1, 8);
    assert o3.options[69] == [];
    assert [] + [1, 8] == [1, 8];
    assert s.options == o3.options[69 := [1, 8]];
    assert s == Seeded();
  }

  /** The demonstration data fills three cells and two candidate lists,
      and stays within the intended value domain. */
  lemma SeededFixture()
    ensures Seeded().board[15] == 5 && Seeded().board[18] == 6 && Seeded().board[27] == 7
    ensures Seeded().options[65] == [7, 3, 2] && Seeded().options[69] == [1, 8]
    ensures forall j :: 0 <= j < Cells && j != 65 && j != 69 ==> Seeded().options[j] == []
    ensures DomainInvariant(Seeded())
  {
    SeededValuesFixture();
    SeededOptionsFixture();
    InitIsEmptyBoard();
    var s := Seeded();
    forall j | 0 <= j < Cells ensures NoDuplicates(s.options[j]) {
      if j != 65 && j != 69 {
        assert s.options[j] == [];
      }
    }
    forall j, x | 0 <= j < Cells && x in s.options[j] ensures 1 <= x <= 9 {
      assert j == 65 || j == 69;
    }
  }
}
