/** The reservation edit modal
    (src/components/reservations/ReservationEditModal.tsx): when it renders,
    and the submit flow around the state-change mutation, whose outcome is a
    parameter. */
module ReservationEditModal {

  import opened Wrappers
  import opened Text
  import opened Types
  import opened ReservationEditForm
  import ApartmentRow

  /** What the modal was opened with: the reservation and the ids used to
      invalidate cached data. */
  datatype ModalContent = ModalContent(
    reservation: Nullable<Reservation>,
    projectId: Nullable<string>,
    apartmentId: Nullable<string>)

  /** The arguments of the state-change mutation. */
  datatype StateRequest = StateRequest(
    formData: FormData,
    reservationId: int,
    projectId: string,
    apartmentId: string)

  /** What the component renders. */
  datatype View =
    | Hidden
      /** Open without a reservation: an error toast and nothing else. */
    | MissingReservation
    | Dialog(reservationId: int, formId: string, submitDisabled: bool)

  /** `value || ''` on an optional id. */
  function IdOrEmpty(id: Nullable<string>): (s: string)
    ensures s == "" <==> id.IsNullish() || id.value == ""
    ensures s != "" ==> id == Present(s)
  {
    if id.Present? && id.value != "" then id.value else ""
  }

  /** The request a submit sends for a reservation: missing ids become
      `''`. */
  function RequestOf(formData: FormData, r: Reservation, content: ModalContent): (req: StateRequest)
    ensures req.reservationId == r.id && req.formData == formData
    ensures req.projectId == IdOrEmpty(content.projectId)
    ensures req.apartmentId == IdOrEmpty(content.apartmentId)
  {
    StateRequest(formData, r.id, IdOrEmpty(content.projectId), IdOrEmpty(content.apartmentId))
  }

  /** The content the apartment row's Edit button opens the modal with. */
  function ContentOfEdit(r: Reservation, action: ApartmentRow.Action): ModalContent
    requires action.EditAction?
  {
    ModalContent(Present(r), action.projectId, action.apartmentId)
  }

  /** Opened from an apartment row, the modal asks to invalidate the
      project but no apartment: the apartment id sent is `''`. */
  lemma EditFromApartmentRow(r: Reservation, projectUuid: string, showAllButtons: bool, formData: FormData)
    requires showAllButtons && !ApartmentRow.IsCanceled(r)
    ensures var area := ApartmentRow.Actions(r, projectUuid, showAllButtons);
      area.ActionButtons? && |area.actions| > 1 && area.actions[1].EditAction?
      && RequestOf(formData, r, ContentOfEdit(r, area.actions[1])).apartmentId == ""
      && RequestOf(formData, r, ContentOfEdit(r, area.actions[1])).projectId == projectUuid
  {
    var area := ApartmentRow.Actions(r, projectUuid, showAllButtons);
    assert area.actions[1..][0] == area.actions[1];
  }

  /** The reservation the modal was opened with, if any
      (`content?.reservation`). */
  function ReservationOf(content: Option<ModalContent>): Nullable<Reservation> {
    if content.Some? then content.value.reservation else Undefined
  }

  /** The render: nothing while closed; an error toast and nothing while
      open without a reservation; otherwise the dialog, whose submit
      button is disabled while loading. */
  function RenderOf(isOpened: bool, content: Option<ModalContent>, isLoading: bool): (v: View)
    ensures v.Hidden? <==> !isOpened
    ensures v.MissingReservation? <==> isOpened && ReservationOf(content).IsNullish()
    ensures v.Dialog? ==>
      (ReservationOf(content).Present?
       && v.reservationId == ReservationOf(content).value.id
       && v.formId == "reservation-edit-form-" + IntToString(v.reservationId)
       && (v.submitDisabled <==> isLoading))
  {
    if !isOpened then Hidden
    else
      var r := ReservationOf(content);
      if r.IsNullish() then MissingReservation
      else Dialog(r.value.id, "reservation-edit-form-" + IntToString(r.value.id), isLoading)
  }

  /** The modal's store slice and its local flags. */
  class EditModal {
    var isOpened: bool
    var content: Option<ModalContent>
    /** The component's own `isLoading`. */
    var isLoading: bool
    /** The mutation hook's `isLoading`. */
    var mutationInFlight: bool

    constructor ()
      ensures !isOpened && content == None && !isLoading && !mutationInFlight
    {
      isOpened := false;
      content := None;
      isLoading := false;
      mutationInFlight := false;
    }

    /** What the component renders now. */
    function Render(): View
      reads this
    {
      RenderOf(isOpened, content, isLoading)
    }

    /** The store action that opens the modal. */
    method Show(c: ModalContent)
      modifies this
      ensures isOpened && content == Some(c)
      ensures isLoading == old(isLoading) && mutationInFlight == old(mutationInFlight)
    {
      isOpened := true;
      content := Some(c);
    }

    /** `closeDialog`. */
    method Close()
      modifies this
      ensures !isOpened && content == old(content)
      ensures isLoading == old(isLoading) && mutationInFlight == old(mutationInFlight)
    {
      isOpened := false;
    }

    /** `handleFormCallback` up to the request: ignored while a mutation is
        in flight, otherwise it marks the modal loading and sends the
        form data with the reservation's id and the ids or `''`. */
    method Submit(formData: FormData) returns (request: Option<StateRequest>)
      requires Render().Dialog?
      modifies this
      ensures old(mutationInFlight) ==> request == None && unchanged(this)
      ensures !old(mutationInFlight) ==>
        (request == Some(RequestOf(formData, ReservationOf(old(content)).value, old(content).value))
         && isLoading && mutationInFlight
         && isOpened == old(isOpened) && content == old(content))
    {
      if mutationInFlight {
        request := None;
      } else {
        isLoading := true;
        mutationInFlight := true;
        request := Some(RequestOf(formData, ReservationOf(content).value, content.value));
      }
    }

    /** The mutation's outcome: a success toast and a closed dialog, or an
        error toast with the dialog left open; loading ends either way. */
    method Resolve(succeeded: bool) returns (toast: Toast)
      requires mutationInFlight
      modifies this
      ensures !isLoading && !mutationInFlight && content == old(content)
      ensures succeeded ==> toast == SuccessToast && !isOpened
      ensures !succeeded ==> toast == ErrorToast && isOpened == old(isOpened)
      ensures succeeded ==> Render() == Hidden
      ensures !succeeded && old(Render()).Dialog? ==> Render() == old(Render()).(submitDisabled := false)
    {
      mutationInFlight := false;
      isLoading := false;
      if succeeded {
        toast := SuccessToast;
        isOpened := false;
      } else {
        toast := ErrorToast;
      }
    }
  }

}
