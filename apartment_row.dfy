/** src/components/apartment/ApartmentRow.tsx: one apartment of a project
    with its reservations. Before the lottery the row lists the applicants;
    after it, the row shows the applicant first in the queue and, when
    expanded, every reservation with its actions. */
module ApartmentRow {

  import opened Wrappers
  import opened Text
  import opened Enums
  import opened Types

  const TPath: string := "components.apartment.ApartmentRow"

  // ---------------------------------------------------------------------
  // One reservation

  predicate IsCanceled(r: Reservation) {
    r.state == ReservationState.Canceled
  }

  /** `renderPositionNumber`: a canceled reservation shows its lottery
      position behind "00", or "-" when it has none (0 counts as none); any
      other shows its queue position as a template literal followed by
      ".". */
  function PositionLabel(r: Reservation): (text: string)
    ensures IsCanceled(r) && IsTruthyInt(r.lotteryPosition) ==>
      text == "00" + IntToString(r.lotteryPosition.value)
    ensures IsCanceled(r) && !IsTruthyInt(r.lotteryPosition) ==> text == "-"
    ensures !IsCanceled(r) ==> text == TemplateInt(r.queuePosition) + "."
  {
    if IsCanceled(r) then
      if IsTruthyInt(r.lotteryPosition) then "00" + IntToString(r.lotteryPosition.value) else "-"
    else TemplateInt(r.queuePosition) + "."
  }

  /** The position label can be read back: the label of an active
      reservation ends with "." and the rest is its queue position; the
      label of a canceled one never ends with "." and, when it is not "-",
      is "00" followed by the lottery position. */
  lemma PositionLabelReadBack(r: Reservation)
    ensures var text := PositionLabel(r);
      |text| >= 1 && (text[|text| - 1] == '.' <==> !IsCanceled(r))
    ensures !IsCanceled(r) && r.queuePosition.Present? ==>
      var text := PositionLabel(r);
      ParseInt(text[..|text| - 1]) == Some(r.queuePosition.value)
    ensures IsCanceled(r) && IsTruthyInt(r.lotteryPosition) ==>
      var text := PositionLabel(r);
      |text| >= 3 && text[..2] == "00" && ParseInt(text[2..]) == Some(r.lotteryPosition.value)
  {
    var text := PositionLabel(r);
    if !IsCanceled(r) && r.queuePosition.Present? {
      IntToStringRoundTrip(r.queuePosition.value);
      assert text[..|text| - 1] == IntToString(r.queuePosition.value);
    }
    if IsCanceled(r) && IsTruthyInt(r.lotteryPosition) {
      var n := r.lotteryPosition.value;
      IntToStringRoundTrip(n);
      assert text[2..] == IntToString(n);
      IntToStringEndsInDigit(n);
      assert text[|text| - 1] == IntToString(n)[|IntToString(n)| - 1];
    }
  }

  /** The decimal text of an integer ends with a digit. */
  lemma IntToStringEndsInDigit(n: int)
    ensures var s := IntToString(n); |s| >= 1 && IsDigit(s[|s| - 1])
  {
    if n < 0 {
      var d := NatToString(-n);
      assert IntToString(n)[|IntToString(n)| - 1] == d[|d| - 1];
    }
  }

  /** `renderNotificationIcon`: the bell of a customer with several winning
      apartments, shown only on lottery results and never for a canceled
      reservation. */
  predicate ShowsBell(r: Reservation, isLotteryResult: bool) {
    !IsCanceled(r) && isLotteryResult && r.hasMultipleWinningApartments
  }

  /** What `renderHasoNumberOrFamilyIcon` renders. */
  datatype HasoCell = NumberCell(number: string) | FamilyIcon | EmptyCell

  /** In a project whose ownership type is exactly "haso" the customer's
      right-of-residence number (nothing when it is null or missing);
      elsewhere the family icon for a reservation with children. */
  function HasoOrFamily(ownershipType: string, r: Reservation): (cell: HasoCell)
    ensures cell.NumberCell? <==> ownershipType == "haso" && r.rightOfResidence.Present?
    ensures cell.NumberCell? ==> cell.number == IntToString(r.rightOfResidence.value)
    ensures cell == FamilyIcon <==> ownershipType != "haso" && r.hasChildren == Present(true)
  {
    if ownershipType == "haso" then
      if r.rightOfResidence.Present? then NumberCell(IntToString(r.rightOfResidence.value)) else EmptyCell
    else if r.hasChildren == Present(true) then FamilyIcon
    else EmptyCell
  }

  /** `renderCustomerProfile`: "last, first " and, on lottery results, a
      non-breaking space, a space and the email when there is one. */
  function ProfileLine(p: ProfileSummary, isLotteryResult: bool): (line: string)
    ensures var head := p.lastName + ", " + p.firstName + " ";
      |line| >= |head| && line[..|head|] == head
      && (line == head <==> !isLotteryResult || p.email == "")
      && (line != head ==> line[|head|..] == ['\U{00A0}', ' '] + p.email)
  {
    p.lastName + ", " + p.firstName + " "
      + (if isLotteryResult && p.email != "" then ['\U{00A0}', ' '] + p.email else "")
  }

  /** The applicant cell of `renderApplicants`. */
  datatype ApplicantView = ApplicantView(
    customerId: int,
    position: Option<string>,
    primary: string,
    secondary: Option<string>,
    showsOffer: bool,
    bell: bool)

  /** `renderApplicants`: nothing without a customer; otherwise the
      customer's profiles, and on lottery results the position label, the
      offer status and the bell. */
  function ApplicantCell(r: Reservation, isLotteryResult: bool): (cell: Option<ApplicantView>)
    ensures cell.Some? <==> r.customer.Present?
    ensures cell.Some? ==>
      var c := r.customer.value;
      cell.value.customerId == c.id
      && (cell.value.position.Some? <==> isLotteryResult)
      && (cell.value.position.Some? ==> cell.value.position.value == PositionLabel(r))
      && cell.value.primary == ProfileLine(c.primaryProfile, isLotteryResult)
      && (cell.value.secondary.Some? <==> c.secondaryProfile.Present?)
      && (cell.value.secondary.Some? ==>
            cell.value.secondary.value == ProfileLine(c.secondaryProfile.value, isLotteryResult))
      && (cell.value.showsOffer <==> isLotteryResult && r.offer.Present?)
      && (cell.value.bell <==> ShowsBell(r, isLotteryResult))
  {
    match r.customer
    case Present(c) =>
      Some(ApplicantView(
        c.id,
        if isLotteryResult then Some(PositionLabel(r)) else None,
        ProfileLine(c.primaryProfile, isLotteryResult),
        if c.secondaryProfile.Present? then Some(ProfileLine(c.secondaryProfile.value, isLotteryResult)) else None,
        isLotteryResult && r.offer.Present?,
        ShowsBell(r, isLotteryResult)))
    case _ => None
  }

  // ---------------------------------------------------------------------
  // Actions

  /** A button and the modal it opens. The edit modal is opened with the
      project's uuid and no apartment id. */
  datatype Action =
    | CancelAction(reservationId: int)
    | EditAction(reservationId: int, projectId: Nullable<string>, apartmentId: Nullable<string>)
    | OfferAction(reservationId: int, isNewOffer: bool)

  /** What `renderActionButtons` renders. */
  datatype ActionArea =
    | CancellationInfo(reasonKey: Option<string>, timestamp: Option<string>)
    | ActionButtons(actions: seq<Action>)

  /** A canceled reservation gets its cancellation reason and time and no
      button; any other gets Cancel, followed by Edit and Offer only when
      all buttons are shown. */
  function Actions(r: Reservation, projectUuid: string, showAllButtons: bool): (area: ActionArea)
    ensures area.CancellationInfo? <==> IsCanceled(r)
    ensures area.CancellationInfo? ==>
      (area.reasonKey.Some? <==> r.cancellationReason.Present?)
      && (area.reasonKey.Some? ==>
            area.reasonKey.value == "ENUMS.ReservationCancelReasons." + r.cancellationReason.value.Name())
      && (area.timestamp.Some? <==> r.cancellationTimestamp.Present? && r.cancellationTimestamp.value != "")
      && (area.timestamp.Some? ==> area.timestamp.value == r.cancellationTimestamp.value)
    ensures area.ActionButtons? ==>
      |area.actions| >= 1 && area.actions[0] == CancelAction(r.id)
      && (|area.actions| > 1 <==> showAllButtons)
      && (showAllButtons ==>
            area.actions[1..] == [EditAction(r.id, Present(projectUuid), Undefined), OfferAction(r.id, !r.offer.Present?)])
  {
    if IsCanceled(r) then
      CancellationInfo(
        if r.cancellationReason.Present?
        then Some("ENUMS.ReservationCancelReasons." + r.cancellationReason.value.Name()) else None,
        if r.cancellationTimestamp.Present? && r.cancellationTimestamp.value != ""
        then Some(r.cancellationTimestamp.value) else None)
    else
      ActionButtons(
        [CancelAction(r.id)]
        + if showAllButtons
          then [EditAction(r.id, Present(projectUuid), Undefined), OfferAction(r.id, !r.offer.Present?)]
          else [])
  }

  // ---------------------------------------------------------------------
  // Lottery results

  /** `reservations.find(r => r.queue_position === 1)`, as a position. */
  function FirstInQueueIndex(reservations: seq<Reservation>): (k: Option<nat>)
    ensures k.Some? ==> k.value < |reservations| && reservations[k.value].queuePosition == Present(1)
    ensures k.Some? ==> forall j :: 0 <= j < k.value ==> reservations[j].queuePosition != Present(1)
    ensures k.None? ==> forall j :: 0 <= j < |reservations| ==> reservations[j].queuePosition != Present(1)
  {
    if reservations == [] then None
    else if reservations[0].queuePosition == Present(1) then Some(0)
    else match FirstInQueueIndex(reservations[1..])
      case None => None
      case Some(k) => Some(k + 1)
  }

  /** A row of the lottery results: a reservation with its applicant, its
      Haso number or family icon and its actions, or the add-applicant
      button. */
  datatype ResultRow =
    | ReservationRow(applicant: Option<ApplicantView>, haso: HasoCell, actions: ActionArea)
    | AddApplicantRow

  function ResultRowOf(r: Reservation, ownershipType: string, projectUuid: string, showAllButtons: bool): ResultRow {
    ReservationRow(ApplicantCell(r, true), HasoOrFamily(ownershipType, r), Actions(r, projectUuid, showAllButtons))
  }

  /** `renderFirstInQueue`: the add-applicant button when nobody is first in
      the queue or the first in the queue is canceled; otherwise that
      reservation with all its buttons. */
  function CollapsedResultRow(reservations: seq<Reservation>, ownershipType: string, projectUuid: string): (row: ResultRow)
    ensures row == AddApplicantRow <==>
      var k := FirstInQueueIndex(reservations); k.None? || IsCanceled(reservations[k.value])
    ensures row.ReservationRow? ==>
      var first := reservations[FirstInQueueIndex(reservations).value];
      row == ResultRowOf(first, ownershipType, projectUuid, true)
  {
    var k := FirstInQueueIndex(reservations);
    if k.None? || IsCanceled(reservations[k.value]) then AddApplicantRow
    else ResultRowOf(reservations[k.value], ownershipType, projectUuid, true)
  }

  /** The expanded lottery results: every reservation in the order
      received, all buttons only for the one whose queue position is 1,
      then the add-applicant button; an empty list shows only that
      button. */
  function ExpandedResultRows(reservations: seq<Reservation>, ownershipType: string, projectUuid: string): (rows: seq<ResultRow>)
    ensures |rows| == |reservations| + 1 && rows[|reservations|] == AddApplicantRow
    ensures forall i :: 0 <= i < |reservations| ==>
      rows[i] == ResultRowOf(reservations[i], ownershipType, projectUuid, reservations[i].queuePosition == Present(1))
  {
    if |reservations| > 0 then
      seq(|reservations|, i requires 0 <= i < |reservations| =>
        ResultRowOf(reservations[i], ownershipType, projectUuid, reservations[i].queuePosition == Present(1)))
      + [AddApplicantRow]
    else [AddApplicantRow]
  }

  /** The collapsed row shows the first in the queue exactly as the
      expanded list shows it. */
  lemma CollapsedIsExpandedFirst(reservations: seq<Reservation>, ownershipType: string, projectUuid: string)
    ensures var row := CollapsedResultRow(reservations, ownershipType, projectUuid);
      row.ReservationRow? ==>
        var k := FirstInQueueIndex(reservations).value;
        row == ExpandedResultRows(reservations, ownershipType, projectUuid)[k]
  {
  }

  /** Only the first in the queue gets its Edit and Offer buttons in the
      expanded list, unless another reservation also has queue position 1. */
  lemma ExpandedAllButtonsOnlyInFirstPlace(reservations: seq<Reservation>, ownershipType: string, projectUuid: string, i: int)
    requires 0 <= i < |reservations|
    ensures var row := ExpandedResultRows(reservations, ownershipType, projectUuid)[i];
      row.ReservationRow? && row.actions.ActionButtons? && |row.actions.actions| > 1
      <==> !IsCanceled(reservations[i]) && reservations[i].queuePosition == Present(1)
  {
  }

  // ---------------------------------------------------------------------
  // Before the lottery

  /** The text of the toggle button. */
  datatype CountText = NoApplicantsText | ApplicantsText(count: nat)

  /** A row of the application list. */
  datatype ApplicationRow =
    | ApplicationEntry(applicant: Option<ApplicantView>, haso: HasoCell)
    | NoApplicantsRow

  /** `renderReservations`. */
  datatype ApplicationsView = ApplicationsView(
    toggleDisabled: bool,
    countText: CountText,
    ariaExpanded: bool,
    rows: seq<ApplicationRow>)

  /** With no reservation the toggle is disabled and reads "no applicants";
      otherwise it counts the applicants, and the list shows each
      reservation without lottery details. */
  function Applications(reservations: seq<Reservation>, ownershipType: string, open: bool): (v: ApplicationsView)
    ensures v.toggleDisabled <==> reservations == []
    ensures v.countText == NoApplicantsText <==> reservations == []
    ensures v.countText.ApplicantsText? ==> v.countText.count == |reservations|
    ensures v.ariaExpanded <==> reservations != [] && open
    ensures reservations == [] ==> v.rows == [NoApplicantsRow]
    ensures reservations != [] ==> |v.rows| == |reservations|
    ensures reservations != [] ==> forall i :: 0 <= i < |reservations| ==>
      v.rows[i] == ApplicationEntry(ApplicantCell(reservations[i], false), HasoOrFamily(ownershipType, reservations[i]))
  {
    var noApplicants := |reservations| == 0;
    ApplicationsView(
      noApplicants,
      if noApplicants then NoApplicantsText else ApplicantsText(|reservations|),
      |reservations| > 0 && open,
      if |reservations| > 0 then
        seq(|reservations|, i requires 0 <= i < |reservations| =>
          ApplicationEntry(ApplicantCell(reservations[i], false), HasoOrFamily(ownershipType, reservations[i])))
      else [NoApplicantsRow])
  }

  /** The list before the lottery never shows positions, offers or bells. */
  lemma ApplicationsShowNoLotteryDetails(reservations: seq<Reservation>, ownershipType: string, open: bool, i: int)
    requires 0 <= i < |reservations|
    ensures var row := Applications(reservations, ownershipType, open).rows[i];
      row.ApplicationEntry? && (row.applicant.Some? ==>
        row.applicant.value.position.None? && !row.applicant.value.showsOffer && !row.applicant.value.bell)
  {
  }

  // ---------------------------------------------------------------------
  // The row and its two open flags

  /** What the whole row renders. */
  datatype RowView =
    | LotteryResultsView(showState: bool, collapsed: ResultRow, open: bool, expanded: seq<ResultRow>)
    | BeforeLotteryView(showState: bool, applications: ApplicationsView)

  /** The two session-stored flags of the row. */
  class RowState {
    var applicationRowOpen: bool
    var resultRowOpen: bool

    /** Each flag starts with its stored value, or closed. */
    constructor (storedApplicationRowOpen: Option<bool>, storedResultRowOpen: Option<bool>)
      ensures applicationRowOpen == (storedApplicationRowOpen == Some(true))
      ensures resultRowOpen == (storedResultRowOpen == Some(true))
    {
      applicationRowOpen := storedApplicationRowOpen == Some(true);
      resultRowOpen := storedResultRowOpen == Some(true);
    }

    /** `toggleApplicationRow`. */
    method ToggleApplicationRow()
      modifies this
      ensures applicationRowOpen == !old(applicationRowOpen)
      ensures resultRowOpen == old(resultRowOpen)
    {
      applicationRowOpen := !applicationRowOpen;
    }

    /** `toggleResultRow`. */
    method ToggleResultRow()
      modifies this
      ensures resultRowOpen == !old(resultRowOpen)
      ensures applicationRowOpen == old(applicationRowOpen)
    {
      resultRowOpen := !resultRowOpen;
    }

    /** The rendered row: the lottery results once the lottery is
      completed, the applications before it. The apartment's state is shown
      only on an expanded lottery result. */
    function View(apartment: Apartment, ownershipType: string, isLotteryCompleted: bool, projectUuid: string): (v: RowView)
      reads this
      ensures v.showState <==> isLotteryCompleted && resultRowOpen
      ensures v.LotteryResultsView? <==> isLotteryCompleted
      ensures v.LotteryResultsView? ==>
        v.collapsed == CollapsedResultRow(apartment.reservations, ownershipType, projectUuid)
        && v.open == resultRowOpen
        && v.expanded == ExpandedResultRows(apartment.reservations, ownershipType, projectUuid)
      ensures v.BeforeLotteryView? ==>
        v.applications == Applications(apartment.reservations, ownershipType, applicationRowOpen)
    {
      if isLotteryCompleted then
        LotteryResultsView(
          resultRowOpen,
          CollapsedResultRow(apartment.reservations, ownershipType, projectUuid),
          resultRowOpen,
          ExpandedResultRows(apartment.reservations, ownershipType, projectUuid))
      else
        BeforeLotteryView(false, Applications(apartment.reservations, ownershipType, applicationRowOpen))
    }
  }
}
