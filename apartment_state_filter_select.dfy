/** The apartment state filter select
    (src/components/apartment/ApartmentStateFilterSelect.tsx): its options,
    the option it shows as selected, and the value it reports. */
module ApartmentStateFilterSelect {

  import opened Enums

  /** An option of the select: the translation key of its label and its
      value. */
  datatype FilterOption = FilterOption(labelKey: string, value: string)

  const AllApartmentsKey: string := "components.apartment.ApartmentStateFilterSelect.allApartments"

  /** The option of an apartment state. */
  function StateOption(s: ApartmentState): (o: FilterOption)
    ensures o.value == s.Value()
  {
    FilterOption("ENUMS.ApartmentState." + s.Value(), s.Value())
  }

  /** `selectOptions`: the "all apartments" option with the empty value,
      then one option per apartment state in declaration order. */
  function SelectOptions(): (options: seq<FilterOption>)
    ensures |options| == 1 + |AllApartmentStates| == 10
    ensures options[0] == FilterOption(AllApartmentsKey, "")
    ensures forall i :: 1 <= i < |options| ==> options[i] == StateOption(AllApartmentStates[i - 1])
  {
    [FilterOption(AllApartmentsKey, "")]
      + seq(|AllApartmentStates|, i requires 0 <= i < |AllApartmentStates| => StateOption(AllApartmentStates[i]))
  }

  /** The options whose value is `activeFilter`, in order. */
  function Selected(options: seq<FilterOption>, activeFilter: string): (shown: seq<FilterOption>)
    ensures |shown| <= |options|
    ensures forall o :: o in shown <==> o in options && o.value == activeFilter
  {
    if options == [] then []
    else (if options[0].value == activeFilter then [options[0]] else []) + Selected(options[1..], activeFilter)
  }

  /** Selecting from a concatenation selects from each part: order and
      repetitions are kept. */
  lemma {:induction false} SelectedAppend(xs: seq<FilterOption>, ys: seq<FilterOption>, activeFilter: string)
    ensures Selected(xs + ys, activeFilter) == Selected(xs, activeFilter) + Selected(ys, activeFilter)
  {
    if xs == [] {
      assert xs + ys == ys;
    } else {
      var head := if xs[0].value == activeFilter then [xs[0]] else [];
      var xys := xs + ys;
      assert xys[0] == xs[0] && xys[1..] == xs[1..] + ys;
      SelectedAppend(xs[1..], ys, activeFilter);
      calc {
        Selected(xys, activeFilter);
        head + Selected(xs[1..] + ys, activeFilter);
        head + (Selected(xs[1..], activeFilter) + Selected(ys, activeFilter));
        (head + Selected(xs[1..], activeFilter)) + Selected(ys, activeFilter);
      }
    }
  }

  /** One option is shown exactly when its value is the active filter. */
  lemma SelectedOfOne(o: FilterOption, activeFilter: string)
    ensures Selected([o], activeFilter) == if o.value == activeFilter then [o] else []
  {
    assert [o][1..] == [];
  }

  /** `handleSelectChange`: the clicked option's value goes to the
      callback unchanged. */
  function ReportedValue(clicked: FilterOption): (value: string)
    ensures clicked in SelectOptions() ==> clicked in Selected(SelectOptions(), value)
  {
    clicked.value
  }

  /** No two options share a value, so a reported value shows the option
      that was clicked and no other. */
  lemma SelectThenShow(i: nat)
    requires i < |SelectOptions()|
    ensures var shown := Selected(SelectOptions(), ReportedValue(SelectOptions()[i]));
      SelectOptions()[i] in shown && forall o :: o in shown ==> o == SelectOptions()[i]
  {
    var options := SelectOptions();
    var shown := Selected(options, options[i].value);
    forall o | o in shown
      ensures o == options[i]
    {
      var j :| 0 <= j < |options| && options[j] == o;
      DistinctValues(i, j);
    }
  }

  /** Different positions carry different values. */
  lemma DistinctValues(i: nat, j: nat)
    requires i < |SelectOptions()| && j < |SelectOptions()|
    requires SelectOptions()[i].value == SelectOptions()[j].value
    ensures i == j
  {
    var options := SelectOptions();
    if i == 0 || j == 0 {
      if i != j {
        var k := if i == 0 then j else i;
        ApartmentStateValueNonEmpty(AllApartmentStates[k - 1]);
      }
    } else {
      ApartmentStateValueInjective(AllApartmentStates[i - 1], AllApartmentStates[j - 1]);
      AllApartmentStatesDistinct(i - 1, j - 1);
    }
  }

  /** The filter value "-" shows no option as selected. */
  lemma DashShowsNothing()
    ensures Selected(SelectOptions(), "-") == []
  {
    var options := SelectOptions();
    forall i | 1 <= i < |options|
      ensures options[i].value != "-"
    {
      ApartmentStateValueNotDash(AllApartmentStates[i - 1]);
    }
    NoneSelected(options, "-");
  }

  /** Nothing is selected when no option has the value. */
  lemma {:induction false} NoneSelected(options: seq<FilterOption>, activeFilter: string)
    requires forall i :: 0 <= i < |options| ==> options[i].value != activeFilter
    ensures Selected(options, activeFilter) == []
  {
    if options != [] {
      NoneSelected(options[1..], activeFilter);
    }
  }
}
