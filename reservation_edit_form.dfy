/** The reservation edit form
    (src/components/reservations/ReservationEditForm.tsx): the list of
    states a reservation may be set to, the option shown as selected, and
    the form's values from reset to submit. */
module ReservationEditForm {

  import opened Wrappers
  import opened Text
  import opened Enums

  /** One option of the state select: the translation key of its label,
      the state value, and whether it can be picked. */
  datatype StateOption = StateOption(labelKey: string, value: string, disabled: bool)

  /** A state can be chosen in the form unless it is canceled or
      submitted. */
  predicate IsEditable(s: ReservationState) {
    s != ReservationState.Canceled && s != ReservationState.Submitted
  }

  /** The option of a state: disabled when its value contains "offer". */
  function OptionOf(s: ReservationState): (o: StateOption)
    ensures o.value == s.Value()
  {
    StateOption("ENUMS.ApartmentReservationStates." + s.Name(), s.Value(), Contains(s.Value(), "offer"))
  }

  /** The editable states of `states`, in order. */
  function EditableStates(states: seq<ReservationState>): (kept: seq<ReservationState>)
    ensures |kept| <= |states|
  {
    if states == [] then []
    else (if IsEditable(states[0]) then [states[0]] else []) + EditableStates(states[1..])
  }

  /** A state is kept exactly when it is listed and editable. */
  lemma {:induction false} EditableStatesMembers(states: seq<ReservationState>, s: ReservationState)
    ensures s in EditableStates(states) <==> s in states && IsEditable(s)
  {
    if states != [] {
      EditableStatesMembers(states[1..], s);
      assert states == [states[0]] + states[1..];
    }
  }

  /** Keeping the editable states of a longer list extends the result by
      the last state when it is editable. */
  lemma {:induction false} EditableStatesSnoc(states: seq<ReservationState>, last: ReservationState)
    ensures EditableStates(states + [last]) == EditableStates(states) + if IsEditable(last) then [last] else []
  {
    if states != [] {
      assert (states + [last])[1..] == states[1..] + [last];
      EditableStatesSnoc(states[1..], last);
    }
  }

  /** The options of the given states, position by position. */
  function OptionsOf(states: seq<ReservationState>): (options: seq<StateOption>)
    ensures |options| == |states|
    ensures forall i :: 0 <= i < |states| ==> options[i] == OptionOf(states[i])
  {
    seq(|states|, i requires 0 <= i < |states| => OptionOf(states[i]))
  }

  lemma OptionsOfAppend(states: seq<ReservationState>, more: seq<ReservationState>)
    ensures OptionsOf(states + more) == OptionsOf(states) + OptionsOf(more)
  {
  }

  /** `stateOptions`: walks the reservation states in declaration order and
      pushes the option of every state except canceled and submitted. */
  method StateOptions() returns (options: seq<StateOption>)
    ensures options == OptionsOf(EditableStates(AllReservationStates))
  {
    options := CollectOptions(AllReservationStates);
  }

  /** The loop of `stateOptions` over the given states. */
  method CollectOptions(all: seq<ReservationState>) returns (options: seq<StateOption>)
    ensures options == OptionsOf(EditableStates(all))
  {
    options := [];
    var i := 0;
    while i < |all|
      invariant 0 <= i <= |all|
      invariant options == OptionsOf(EditableStates(all[..i]))
    {
      var state := all[i];
      ghost var before := EditableStates(all[..i]);
      assert all[..i + 1] == all[..i] + [state];
      EditableStatesSnoc(all[..i], state);
      if state != ReservationState.Canceled && state != ReservationState.Submitted {
        assert EditableStates(all[..i + 1]) == before + [state];
        OptionsOfAppend(before, [state]);
        assert OptionsOf([state]) == [OptionOf(state)];
        options := options + [OptionOf(state)];
      } else {
        assert EditableStates(all[..i + 1]) == before + [];
        assert before + [] == before;
      }
      i := i + 1;
    }
    assert all[..i] == all;
  }

  /** The eight editable states, in declaration order. */
  lemma EditableStatesInOrder()
    ensures EditableStates(AllReservationStates) == [
      ReservationState.AcceptedByMunicipality, ReservationState.Offered, ReservationState.OfferAccepted,
      ReservationState.OfferExpired, ReservationState.ReservationAgreement, ReservationState.Reserved,
      ReservationState.Review, ReservationState.Sold]
  {
    var a := AllReservationStates;
    EditableStatesFrom(a, 9);
    assert a[10..] == [];
    EditableStatesFrom(a, 8);
    EditableStatesFrom(a, 7);
    EditableStatesFrom(a, 6);
    EditableStatesFrom(a, 5);
    EditableStatesFrom(a, 4);
    EditableStatesFrom(a, 3);
    EditableStatesFrom(a, 2);
    EditableStatesFrom(a, 1);
    EditableStatesFrom(a, 0);
    assert a[0..] == a;
  }

  /** The editable states from position `k` on: the state at `k` when it is
      editable, then those after it. */
  lemma EditableStatesFrom(states: seq<ReservationState>, k: int)
    requires 0 <= k < |states|
    ensures EditableStates(states[k..]) == (if IsEditable(states[k]) then [states[k]] else []) + EditableStates(states[k + 1..])
  {
    assert states[k..][1..] == states[k + 1..];
  }

  /** A text that lacks a character of `sub` does not contain `sub`. */
  lemma MissingLetter(s: string, sub: string, c: char)
    requires c in sub && c !in s
    ensures !Contains(s, sub)
  {
    ContainsIffOccurs(s, sub);
  }

  /** An option is disabled exactly for the three offer states. */
  lemma DisabledIffOfferState(s: ReservationState)
    ensures OptionOf(s).disabled <==>
      s == ReservationState.Offered || s == ReservationState.OfferAccepted || s == ReservationState.OfferExpired
  {
    var v := s.Value();
    if s == ReservationState.Offered || s == ReservationState.OfferAccepted || s == ReservationState.OfferExpired {
      assert v[..5] == "offer";
    } else {
      assert 'f' in "offer";
      MissingLetter(v, "offer", 'f');
    }
  }

  /** `getStateOption`: nothing for the empty value, otherwise the options
      with exactly that value. */
  function GetStateOption(options: seq<StateOption>, value: string): (r: Option<seq<StateOption>>)
    ensures r.None? <==> value == ""
    ensures r.Some? ==> forall o :: o in r.value <==> o in options && o.value == value
  {
    if value == "" then None else Some(Filter(options, value))
  }

  /** `options.filter(x => x.value === value)`, in order. */
  function Filter(options: seq<StateOption>, value: string): (kept: seq<StateOption>)
    ensures forall o :: o in kept <==> o in options && o.value == value
  {
    if options == [] then []
    else (if options[0].value == value then [options[0]] else []) + Filter(options[1..], value)
  }

  /** Filtering a concatenation filters each part: order and repetitions
      are kept. */
  lemma {:induction false} FilterAppend(xs: seq<StateOption>, ys: seq<StateOption>, value: string)
    ensures Filter(xs + ys, value) == Filter(xs, value) + Filter(ys, value)
  {
    if xs == [] {
      assert xs + ys == ys;
    } else {
      var head := if xs[0].value == value then [xs[0]] else [];
      var xys := xs + ys;
      assert xys[0] == xs[0] && xys[1..] == xs[1..] + ys;
      FilterAppend(xs[1..], ys, value);
      calc {
        Filter(xys, value);
        head + Filter(xs[1..] + ys, value);
        head + (Filter(xs[1..], value) + Filter(ys, value));
        (head + Filter(xs[1..], value)) + Filter(ys, value);
      }
    }
  }

  /** One option is kept exactly when it has the value. */
  lemma FilterOfOne(o: StateOption, value: string)
    ensures Filter([o], value) == if o.value == value then [o] else []
  {
    assert [o][1..] == [];
  }

  /** The state select shows exactly the option of the current state; for
      a canceled or submitted reservation it shows none. */
  lemma SelectedOptionOfState(s: ReservationState)
    ensures var shown := GetStateOption(OptionsOf(EditableStates(AllReservationStates)), s.Value());
      shown.Some? && (forall o :: o in shown.value ==> o == OptionOf(s))
      && (shown.value == [] <==> !IsEditable(s))
  {
    ReservationStateValueNonEmpty(s);
    OptionsWithValue(EditableStates(AllReservationStates), s);
    EditableStatesMembers(AllReservationStates, s);
    assert s in AllReservationStates by { ListedState(s); }
  }

  /** Among the options of some states, those with the value of `s` are
      the option of `s`, and there is one exactly when `s` is listed. */
  lemma OptionsWithValue(states: seq<ReservationState>, s: ReservationState)
    ensures forall o :: o in Filter(OptionsOf(states), s.Value()) ==> o == OptionOf(s)
    ensures Filter(OptionsOf(states), s.Value()) == [] <==> s !in states
  {
    var options := OptionsOf(states);
    var shown := Filter(options, s.Value());
    forall o | o in shown
      ensures o == OptionOf(s)
    {
      var i :| 0 <= i < |options| && options[i] == o;
      ValueInjective(states[i], s);
    }
    if shown != [] {
      var i :| 0 <= i < |options| && options[i] == shown[0];
      ValueInjective(states[i], s);
    }
    if s in states {
      var i :| 0 <= i < |states| && states[i] == s;
      assert options[i] in shown;
    }
  }

  lemma ListedState(s: ReservationState)
    ensures s in AllReservationStates
  {
  }

  lemma ValueInjective(a: ReservationState, b: ReservationState)
    requires a.Value() == b.Value()
    ensures a == b
  {
  }

  /** The form's values; either may be unset. */
  datatype FormData = FormData(state: Nullable<string>, comment: Nullable<string>)

  /** The validation schema: a state is required, the comment may be
      missing or null. */
  predicate IsValid(data: FormData) {
    data.state.Present? && data.state.value != ""
  }

  /** The form's fields. */
  class EditForm {
    var state: Nullable<string>
    var comment: Nullable<string>

    /** A fresh form has no values. */
    constructor ()
      ensures state == Undefined && comment == Undefined
    {
      state := Undefined;
      comment := Undefined;
    }

    /** The reset effect: the reservation's current state and an empty
        comment. */
    method Reset(current: ReservationState)
      modifies this
      ensures state == Present(current.Value()) && comment == Present("")
    {
      state := Present(current.Value());
      comment := Present("");
    }

    /** Picking a state in the select. */
    method SelectState(value: string)
      modifies this
      ensures state == Present(value) && comment == old(comment)
    {
      state := Present(value);
    }

    /** Typing in the comment field. */
    method SetComment(value: string)
      modifies this
      ensures comment == Present(value) && state == old(state)
    {
      comment := Present(value);
    }

    /** The options shown as selected: those of the current value (`''`
        when the value is unset). */
    function Shown(options: seq<StateOption>): Option<seq<StateOption>>
      reads this
    {
      GetStateOption(options, if state.Present? then state.value else "")
    }

    /** Submitting: valid values go to the callback, invalid ones are
        held back. */
    method Submit() returns (sent: Option<FormData>)
      ensures sent.Some? <==> IsValid(FormData(state, comment))
      ensures sent.Some? ==> sent.value == FormData(state, comment)
    {
      var data := FormData(state, comment);
      if IsValid(data) {
        sent := Some(data);
      } else {
        sent := None;
      }
    }
  }

  /** After a reset the form submits the reservation's current state with
      an empty comment. */
  lemma ResetThenSubmit(current: ReservationState)
    ensures IsValid(FormData(Present(current.Value()), Present("")))
  {
    ReservationStateValueNonEmpty(current);
  }
}
