/**
 Properties of the board store that relate several calls: repeated writes,
 add-then-remove, repeated toggles, order preservation, and the value-domain
 invariant the operations keep when they are fed digits.
 */
module StoreProperties {
  import opened Seqs
  import opened Sudoku

  /** The intended domain of the store: committed values 0 .. 9, candidates
      1 .. 9 without repetition. The operations do not enforce it. */
  predicate DomainInvariant(s: Store) {
    && (forall i :: 0 <= i < Cells ==> 0 <= s.board[i] <= 9)
    && (forall i :: 0 <= i < Cells ==> NoDuplicates(s.options[i]))
    && (forall i, x :: 0 <= i < Cells && x in s.options[i] ==> 1 <= x <= 9)
  }

  /** The initial store is an empty board with no candidates, nothing
      selected and value entry as the mode; it lies in the domain. */
  lemma InitIsEmptyBoard()
    ensures forall i :: 0 <= i < Cells ==> Init().board[i] == 0 && Init().options[i] == []
    ensures Init().selectedCell == -1 && !Init().editingOptions
    ensures DomainInvariant(Init())
  {
  }

  /** A second write to the same cell overrides the first. */
  lemma SetBoardValueLastWriteWins(s: Store, index: int, v: int, w: int)
    ensures SetBoardValue(SetBoardValue(s, index, v), index, w) == SetBoardValue(s, index, w)
  {
  }

  /** Appending a candidate that is already there creates a duplicate:
      the appended list holds one more copy and is no longer duplicate free. */
  lemma AddOptionCanDuplicate(s: Store, index: int, option: int)
    requires InRange(index) && option in s.options[index]
    ensures multiset(AddOption(s, index, option).options[index])[option]
            == multiset(s.options[index])[option] + 1
    ensures !NoDuplicates(AddOption(s, index, option).options[index])
  {
    var xs := s.options[index];
    var ys := AddOption(s, index, option).options[index];
    assert ys == xs + [option];
    var k :| 0 <= k < |xs| && xs[k] == option;
    assert ys[k] == ys[|xs|];
  }

  /** Removing right after adding drops every copy of the candidate; when
      it was not a candidate before, the store is back where it started. */
  lemma AddThenRemoveOption(s: Store, index: int, option: int)
    ensures RemoveOption(AddOption(s, index, option), index, option)
            == RemoveOption(s, index, option)
    ensures InRange(index) && option !in s.options[index] ==>
            RemoveOption(AddOption(s, index, option), index, option) == s
  {
    if InRange(index) {
      var xs := s.options[index];
      WithoutAppend(xs, [option], option);
      assert Without([option], option) == [];
      assert Without(xs + [option], option) == Without(xs, option);
    }
  }

  /** Removing a candidate twice is the same as removing it once. */
  lemma RemoveOptionIdempotent(s: Store, index: int, option: int)
    ensures RemoveOption(RemoveOption(s, index, option), index, option)
            == RemoveOption(s, index, option)
  {
  }

  /** The remaining candidates keep their relative order. */
  lemma RemoveOptionKeepsOrder(s: Store, index: int, option: int)
    requires InRange(index)
    ensures IsSubsequence(RemoveOption(s, index, option).options[index], s.options[index])
  {
    WithoutIsSubsequence(s.options[index], option);
  }

  /** Toggling keeps a duplicate-free candidate list duplicate free. */
  lemma ToggleOptionKeepsNoDuplicates(s: Store, index: int, option: int)
    requires InRange(index) && NoDuplicates(s.options[index])
    ensures NoDuplicates(ToggleOption(s, index, option).value.options[index])
  {
    var xs := s.options[index];
    var ys := ToggleOption(s, index, option).value.options[index];
    NoDuplicatesIffCountsAtMostOne(xs);
    NoDuplicatesIffCountsAtMostOne(ys);
    if option !in xs {
      assert ys == xs + [option];
      assert multiset(ys) == multiset(xs) + multiset{option};
    }
  }

  /** Toggling the same candidate twice on a cell of the board succeeds
      both times. An absent candidate leaves the very same store; a present
      one ends up once, at the end of the list, which on a duplicate-free
      list restores the candidate multiset. */
  lemma ToggleOptionTwice(s: Store, index: int, option: int)
    requires InRange(index)
    ensures ToggleOption(s, index, option).Ok?
    ensures ToggleOption(ToggleOption(s, index, option).value, index, option).Ok?
    ensures option !in s.options[index] ==>
            ToggleOption(ToggleOption(s, index, option).value, index, option).value == s
    ensures option in s.options[index] ==>
            var t := ToggleOption(ToggleOption(s, index, option).value, index, option).value;
            t == s.(options := s.options[index := Without(s.options[index], option) + [option]])
    ensures option in s.options[index] && NoDuplicates(s.options[index]) ==>
            var t := ToggleOption(ToggleOption(s, index, option).value, index, option).value;
            multiset(t.options[index]) == multiset(s.options[index])
  {
    var xs := s.options[index];
    var t1 := ToggleOption(s, index, option).value;
    if option !in xs {
      AddThenRemoveOption(s, index, option);
    } else {
      assert t1 == RemoveOption(s, index, option);
      var t := ToggleOption(t1, index, option).value;
      assert t == AddOption(t1, index, option);
      if NoDuplicates(xs) {
        ReAppendIsPermutation(xs, option);
      }
    }
  }

  /** Committing a digit keeps the store in its domain. */
  lemma SetBoardValueKeepsDomain(s: Store, index: int, value: int)
    requires DomainInvariant(s) && 0 <= value <= 9
    ensures DomainInvariant(SetBoardValue(s, index, value))
  {
  }

  /** Toggling a digit candidate keeps the store in its domain. */
  lemma ToggleOptionKeepsDomain(s: Store, index: int, option: int)
    requires DomainInvariant(s) && 1 <= option <= 9
    ensures ToggleOption(s, index, option).Ok? ==>
            DomainInvariant(ToggleOption(s, index, option).value)
  {
    var r := ToggleOption(s, index, option);
    if r.Ok? {
      assert InRange(index);
      ToggleOptionKeepsNoDuplicates(s, index, option);
      forall i | 0 <= i < Cells ensures NoDuplicates(r.value.options[i]) {
        if i != index {
          assert r.value.options[i] == s.options[i];
        }
      }
      forall i, x | 0 <= i < Cells && x in r.value.options[i] ensures 1 <= x <= 9 {
        if i != index {
          assert r.value.options[i] == s.options[i];
        } else if x != option {
          assert multiset(r.value.options[i])[x] == multiset(s.options[i])[x];
        }
      }
    }
  }

  /** Digit input keeps the store in its domain whenever it does not fault. */
  lemma OnInputKeepsDomain(s: Store, value: int)
    requires DomainInvariant(s) && 1 <= value <= 9
    ensures OnInput(s, value).Ok? ==> DomainInvariant(OnInput(s, value).value)
  {
    if s.editingOptions {
      ToggleOptionKeepsDomain(s, s.selectedCell, value);
    } else {
      SetBoardValueKeepsDomain(s, s.selectedCell, value);
    }
  }
}
