/** The project page (src/pages/project/ProjectDetail.tsx): the apartment
    state filter kept per project in session storage, the apartments it lets
    through to the apartment table and the installments tab, and the guard
    on starting the lottery. */
module ProjectDetail {

  import opened Wrappers
  import opened Text
  import opened Enums
  import opened Types
  import ApartmentStateFilterSelect

  /** The stored filter value that means "no filter". */
  const NoFilter: string := "-"

  /** The session-storage key of a project's filter:
      `apartmentStateFilter-${projectId || project?.id}`. */
  function StorageKey(routeId: Nullable<string>, projectId: Nullable<int>): (key: string)
    ensures routeId.Present? && routeId.value != "" ==> key == "apartmentStateFilter-" + routeId.value
    ensures !(routeId.Present? && routeId.value != "") ==> key == "apartmentStateFilter-" + TemplateInt(projectId)
  {
    "apartmentStateFilter-" + if routeId.Present? && routeId.value != "" then routeId.value else TemplateInt(projectId)
  }

  /** The filter a key holds: its stored value, or "-" when nothing has
      been stored under it. */
  function FilterIn(stored: map<string, string>, key: string): (f: string)
    ensures key !in stored ==> f == NoFilter
    ensures key in stored ==> f == stored[key]
  {
    if key in stored then stored[key] else NoFilter
  }

  /** Storing one project's filter leaves every other project's filter as
      it was, and a project never touched reads "-". */
  lemma FiltersArePerProject(stored: map<string, string>, key: string, other: string, value: string)
    requires other != key
    ensures FilterIn(stored[key := value], key) == value
    ensures FilterIn(stored[key := value], other) == FilterIn(stored, other)
    ensures FilterIn(map[], other) == NoFilter
  {
  }

  /** `hasActiveFilters` as written: any value other than "-". */
  predicate HasActiveFiltersAsWritten(filter: string) {
    filter != NoFilter
  }

  /** The apartments whose state is `state`, in their original order. */
  function WithState(apartments: seq<Apartment>, state: string): (kept: seq<Apartment>)
    ensures |kept| <= |apartments|
    ensures forall a :: a in kept <==> a in apartments && a.state == state
  {
    if apartments == [] then []
    else (if apartments[0].state == state then [apartments[0]] else []) + WithState(apartments[1..], state)
  }

  /** Filtering a concatenation filters each part: the kept apartments
      keep their order and their repetitions. */
  lemma {:induction false} WithStateAppend(xs: seq<Apartment>, ys: seq<Apartment>, state: string)
    ensures WithState(xs + ys, state) == WithState(xs, state) + WithState(ys, state)
  {
    if xs == [] {
      assert xs + ys == ys;
    } else {
      var head := if xs[0].state == state then [xs[0]] else [];
      var xys := xs + ys;
      assert xys[0] == xs[0] && xys[1..] == xs[1..] + ys;
      WithStateAppend(xs[1..], ys, state);
      calc {
        WithState(xys, state);
        head + WithState(xs[1..] + ys, state);
        head + (WithState(xs[1..], state) + WithState(ys, state));
        (head + WithState(xs[1..], state)) + WithState(ys, state);
      }
    }
  }

  /** One apartment is kept exactly when it is in the state. */
  lemma WithStateOfOne(a: Apartment, state: string)
    ensures WithState([a], state) == if a.state == state then [a] else []
  {
    assert [a][1..] == [];
  }

  /** `getFilteredProjects` as written. */
  function FilteredApartmentsAsWritten(apartments: seq<Apartment>, filter: string): (shown: seq<Apartment>)
    ensures !HasActiveFiltersAsWritten(filter) ==> shown == apartments
    ensures HasActiveFiltersAsWritten(filter) ==> shown == WithState(apartments, filter)
  {
    if HasActiveFiltersAsWritten(filter) then WithState(apartments, filter) else apartments
  }

  /** As written, picking the "all apartments" option (value `''`) counts
      as an active filter, and since no apartment state is `''` the page
      then lists no apartment at all. */
  lemma AllApartmentsOptionHidesEverything(apartments: seq<Apartment>)
    requires forall i :: 0 <= i < |apartments| ==> apartments[i].state in ApartmentStateValues()
    ensures ApartmentStateFilterSelect.SelectOptions()[0].value == ""
    ensures FilteredApartmentsAsWritten(apartments, ApartmentStateFilterSelect.SelectOptions()[0].value) == []
  {
    var shown := WithState(apartments, "");
    if shown != [] {
      var i :| 0 <= i < |apartments| && apartments[i] == shown[0];
      var s :| s in AllApartmentStates && s.Value() == apartments[i].state;
      ApartmentStateValueNonEmpty(s);
    }
  }

  /** The values of all apartment states. */
  function ApartmentStateValues(): (values: set<string>)
    ensures forall v :: v in values <==> exists s :: s in AllApartmentStates && s.Value() == v
  {
    set s | s in AllApartmentStates :: s.Value()
  }

  /** A concrete page: one free apartment, "all apartments" picked, and
      nothing listed. */
  lemma AllApartmentsCounterexample()
    ensures FilteredApartmentsAsWritten([Apartment("A 1", "a1", "free", [])], "") == []
  {
    assert WithState([Apartment("A 1", "a1", "free", [])], "") == [];
  }

  /** The filter as evidently intended: "-" and the "all apartments"
      value `''` both mean no filter. */
  predicate HasActiveFilters(filter: string) {
    filter != NoFilter && filter != ""
  }

  /** The apartments the page lists: all of them, in order, when no filter
      is active, otherwise exactly those in the chosen state, in order. */
  function FilteredApartments(apartments: seq<Apartment>, filter: string): (shown: seq<Apartment>)
    ensures !HasActiveFilters(filter) ==> shown == apartments
    ensures HasActiveFilters(filter) ==> forall a :: a in shown <==> a in apartments && a.state == filter
  {
    if HasActiveFilters(filter) then WithState(apartments, filter) else apartments
  }

  /** The listed apartments of a concatenation are those of each part, in
      order. */
  lemma FilteredApartmentsAppend(xs: seq<Apartment>, ys: seq<Apartment>, filter: string)
    ensures FilteredApartments(xs + ys, filter) == FilteredApartments(xs, filter) + FilteredApartments(ys, filter)
  {
    if HasActiveFilters(filter) {
      WithStateAppend(xs, ys, filter);
    }
  }

  /** One apartment is listed exactly when no filter is active or it is in
      the chosen state. */
  lemma FilteredApartmentsOfOne(a: Apartment, filter: string)
    ensures FilteredApartments([a], filter) == if !HasActiveFilters(filter) || a.state == filter then [a] else []
  {
    WithStateOfOne(a, filter);
  }

  /** With the intended filter, every option of the select does what its
      label says: "all apartments" lists all of them, a state lists the
      apartments in that state. */
  lemma SelectOptionsFilterAsLabelled(apartments: seq<Apartment>, i: nat)
    requires i < |ApartmentStateFilterSelect.SelectOptions()|
    ensures var options := ApartmentStateFilterSelect.SelectOptions();
      (i == 0 ==> FilteredApartments(apartments, options[i].value) == apartments)
      && (i > 0 ==> FilteredApartments(apartments, options[i].value)
                    == WithState(apartments, AllApartmentStates[i - 1].Value()))
  {
    var options := ApartmentStateFilterSelect.SelectOptions();
    if i > 0 {
      ApartmentStateValueNonEmpty(AllApartmentStates[i - 1]);
      ApartmentStateValueNotDash(AllApartmentStates[i - 1]);
    }
  }

  /** The lottery date as a condition (`!!lottery_completed_at`). */
  predicate LotteryCompleted(p: Project) {
    p.lotteryCompletedAt.Some? && p.lotteryCompletedAt.value != ""
  }

  /** What the page renders. */
  datatype PageView =
    | Spinner
    | LoadError
    | Nothing
    | Page(
        showStateFilter: bool,
        tableApartments: seq<Apartment>,
        installmentApartments: seq<Apartment>,
        hasActiveFilters: bool,
        isLotteryCompleted: bool)

  /** The render: a spinner while loading, an error notice on error,
      nothing without a loaded project; otherwise the state filter select
      (only once the lottery is completed) and the same filtered
      apartments for the table and the installments tab. */
  function Render(isLoading: bool, isError: bool, isSuccess: bool, project: Option<Project>, filter: string): (v: PageView)
    ensures isLoading ==> v == Spinner
    ensures !isLoading && isError ==> v == LoadError
    ensures !isLoading && !isError && (!isSuccess || project.None?) ==> v == Nothing
    ensures v.Page? <==> !isLoading && !isError && isSuccess && project.Some?
    ensures v.Page? ==>
      (project.Some?
       && (v.showStateFilter <==> LotteryCompleted(project.value))
       && v.isLotteryCompleted == LotteryCompleted(project.value)
       && v.tableApartments == v.installmentApartments == FilteredApartments(project.value.apartments, filter)
       && v.hasActiveFilters == HasActiveFilters(filter))
  {
    if isLoading then Spinner
    else if isError then LoadError
    else if !isSuccess || project.None? then Nothing
    else
      var p := project.value;
      var shown := FilteredApartments(p.apartments, filter);
      Page(LotteryCompleted(p), shown, shown, HasActiveFilters(filter), LotteryCompleted(p))
  }

  /** The page's session-stored filters and the start-lottery mutation's
      loading flag. */
  class ProjectDetailPage {
    var filters: map<string, string>
    var startLotteryLoading: bool

    constructor ()
      ensures filters == map[] && !startLotteryLoading
    {
      filters := map[];
      startLotteryLoading := false;
    }

    /** The filter of the project under `key`. */
    function Filter(key: string): string
      reads this
    {
      FilterIn(filters, key)
    }

    /** `handleFilterChangeCallback`: stores the value under the project's
        key. */
    method SetFilter(key: string, value: string)
      modifies this
      ensures filters == old(filters)[key := value]
      ensures startLotteryLoading == old(startLotteryLoading)
    {
      filters := filters[key := value];
    }

    /** `onStartLotteryClick` up to the request: ignored while a start is
        loading; otherwise the request for the project's uuid is sent. */
    method StartLottery(projectUuid: Nullable<string>) returns (request: Option<Nullable<string>>)
      modifies this
      ensures old(startLotteryLoading) ==> request == None && unchanged(this)
      ensures !old(startLotteryLoading) ==> request == Some(projectUuid) && startLotteryLoading && filters == old(filters)
    {
      if startLotteryLoading {
        request := None;
      } else {
        startLotteryLoading := true;
        request := Some(projectUuid);
      }
    }

    /** The start's outcome: a success toast and a refetch, or nothing but
        a console message. */
    method ResolveLottery(succeeded: bool) returns (toast: Option<Toast>, refetch: bool)
      modifies this
      ensures !startLotteryLoading && filters == old(filters)
      ensures succeeded ==> toast == Some(SuccessToast) && refetch
      ensures !succeeded ==> toast == None && !refetch
    {
      startLotteryLoading := false;
      if succeeded {
        toast := Some(SuccessToast);
        refetch := true;
      } else {
        toast := None;
        refetch := false;
      }
    }
  }
}
