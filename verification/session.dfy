/**
 A sequence of user interface events applied to the board store in the
 order they arrive: numeric input, selecting a cell, switching the input
 mode. An input that faults raises before any setter runs, so the store
 keeps its value and later events are still handled; the run records the
 fault and carries on.
 */
module Session {
  import opened Sudoku
  import opened StoreProperties

  datatype Event = Input(value: int) | Select(index: int) | SetMode(editing: bool)

  function Apply(s: Store, e: Event): Result<Store> {
    match e
    case Input(v) => OnInput(s, v)
    case Select(i) => Ok(SetSelectedCell(s, i))
    case SetMode(b) => Ok(SetEditingOptions(s, b))
  }

  /** The store after a run, with the faults raised along the way. */
  datatype Trace = Trace(store: Store, faults: seq<Fault>)

  function Run(s: Store, events: seq<Event>): Trace
    decreases |events|
  {
    if events == [] then Trace(s, [])
    else
      match Apply(s, events[0])
      case Ok(t) => Run(t, events[1..])
      case Err(f) =>
        var rest := Run(s, events[1..]);
        Trace(rest.store, [f] + rest.faults)
  }

  /** Every numeric input is a digit 1 .. 9. */
  predicate DigitInputs(events: seq<Event>) {
    forall k :: 0 <= k < |events| && events[k].Input? ==> 1 <= events[k].value <= 9
  }

  /** Feeding digits through the event surface never leaves the intended
      domain, whatever cells are selected, modes chosen or faults raised. */
  lemma {:induction false} RunKeepsDomain(s: Store, events: seq<Event>)
    requires DomainInvariant(s) && DigitInputs(events)
    ensures DomainInvariant(Run(s, events).store)
    decreases |events|
  {
    if events != [] {
      var e := events[0];
      if e.Input? {
        OnInputKeepsDomain(s, e.value);
      }
      assert DigitInputs(events[1..]) by {
        forall k | 0 <= k < |events[1..]| && events[1..][k].Input?
          ensures 1 <= events[1..][k].value <= 9
        {
          assert events[1..][k] == events[k + 1];
        }
      }
      if Apply(s, e).Ok? {
        RunKeepsDomain(Apply(s, e).value, events[1..]);
      } else {
        RunKeepsDomain(s, events[1..]);
      }
    }
  }

  /** A run that stays in value mode never faults, whatever it selects. */
  lemma {:induction false} ValueModeRunNeverFaults(s: Store, events: seq<Event>)
    requires !s.editingOptions
    requires forall k :: 0 <= k < |events| ==> events[k] != SetMode(true)
    ensures Run(s, events).faults == []
    ensures !Run(s, events).store.editingOptions
    decreases |events|
  {
    if events != [] {
      var t := Apply(s, events[0]);
      assert t.Ok? && !t.value.editingOptions;
      assert forall k :: 0 <= k < |events[1..]| ==> events[1..][k] == events[k + 1];
      ValueModeRunNeverFaults(t.value, events[1..]);
    }
  }

  /** An event that faults changes nothing: the run goes on from the very
      store it met, with that fault recorded first. */
  lemma FaultKeepsStore(s: Store, e: Event, rest: seq<Event>)
    requires Apply(s, e).Err?
    ensures Run(s, [e] + rest) == Trace(Run(s, rest).store, [Apply(s, e).fault] + Run(s, rest).faults)
  {
    assert ([e] + rest)[0] == e;
    assert ([e] + rest)[1..] == rest;
  }

  /** A fault does not end the session or undo earlier work: a value
      committed before an option-mode input with nothing selected survives
      the fault that input raises. */
  lemma FaultDoesNotStopSession()
    ensures var r := Run(Init(), [Select(3), Input(5), SetMode(true), Select(-1), Input(7)]);
            && r.faults == [UndefinedOptions(-1)]
            && r.store.board[3] == 5
  {
    var s1 := SetSelectedCell(Init(), 3);
    var s2 := OnInput(s1, 5).value;
    assert s2.board[3] == 5;
    var s3 := SetEditingOptions(s2, true);
    var s4 := SetSelectedCell(s3, -1);
    assert Apply(s4, Input(7)) == Err(UndefinedOptions(-1));
    FaultKeepsStore(s4, Input(7), []);
    assert Run(s4, [Input(7)]) == Trace(s4, [UndefinedOptions(-1)]) by {
      assert [Input(7)] == [Input(7)] + [];
    }
    var events := [Select(3), Input(5), SetMode(true), Select(-1), Input(7)];
    assert events[1..] == [Input(5), SetMode(true), Select(-1), Input(7)];
    assert events[1..][1..] == [SetMode(true), Select(-1), Input(7)];
    assert events[1..][1..][1..] == [Select(-1), Input(7)];
    assert events[1..][1..][1..][1..] == [Input(7)];
  }
}
