/** The records of the back office (src/types.ts), restricted to the fields
    that the modelled components read. Optional TypeScript fields
    (`x?: T | null`) are `Nullable<T>`; `T | null` fields are `Option<T>`. */
module Types {

  import opened Wrappers
  import opened Enums

  /** `Pick<CustomerProfile, 'first_name' | 'last_name' | 'email'>`. */
  datatype ProfileSummary = ProfileSummary(firstName: string, lastName: string, email: string)

  /** `ApartmentReservationCustomer`. */
  datatype ReservationCustomer = ReservationCustomer(
    id: int,
    primaryProfile: ProfileSummary,
    secondaryProfile: Nullable<ProfileSummary>)

  /** `CustomerProfile`. */
  datatype CustomerProfile = CustomerProfile(
    city: Nullable<string>,
    dateOfBirth: string,
    email: string,
    firstName: string,
    id: string,
    lastName: string,
    nationalIdentificationNumber: Nullable<string>,
    phoneNumber: string,
    postalCode: Nullable<string>,
    streetAddress: Nullable<string>)

  /** `Customer`. */
  datatype Customer = Customer(
    additionalInformation: string,
    createdAt: string,
    hasChildren: Nullable<bool>,
    id: int,
    lastContactDate: Nullable<string>,
    primaryProfile: CustomerProfile,
    rightOfResidence: Nullable<int>,
    rightOfResidenceIsOldBatch: Nullable<bool>,
    secondaryProfile: Nullable<CustomerProfile>)

  /** `Applicant`, as the latest application lists it. */
  datatype Applicant = Applicant(
    city: string,
    email: string,
    firstName: string,
    lastName: string,
    isPrimaryApplicant: bool,
    phoneNumber: string,
    postalCode: string,
    streetAddress: string)

  /** `Offer`, reduced to what the rows read. */
  datatype Offer = Offer(id: int, state: OfferState, validUntil: string)

  /** `WinningReservation`: an `ApartmentReservationWithCustomer` with
      `has_multiple_winning_apartments`, which is what the apartment rows
      receive. */
  datatype Reservation = Reservation(
    apartmentUuid: string,
    cancellationReason: Nullable<CancelReason>,
    cancellationTimestamp: Nullable<string>,
    id: int,
    lotteryPosition: Nullable<int>,
    offer: Nullable<Offer>,
    priorityNumber: Nullable<int>,
    queuePosition: Nullable<int>,
    state: ReservationState,
    submittedLate: bool,
    customer: Nullable<ReservationCustomer>,
    hasChildren: Nullable<bool>,
    rightOfResidence: Nullable<int>,
    rightOfResidenceIsOldBatch: Nullable<bool>,
    hasMultipleWinningApartments: bool)

  /** An apartment of a project, with the reservations the apartment row
      lists (the row reads a `reservations` field that the `Apartment`
      type itself does not declare). */
  datatype Apartment = Apartment(
    apartmentNumber: string,
    apartmentUuid: string,
    state: string,
    reservations: seq<Reservation>)

  /** `Project`. */
  datatype Project = Project(
    apartments: seq<Apartment>,
    housingCompany: string,
    id: int,
    lotteryCompletedAt: Option<string>,
    ownershipType: string,
    streetAddress: string,
    uuid: string)

  /** `ReservationStateChangeEvent`. */
  datatype StateChangeEvent = StateChangeEvent(
    timestamp: string,
    state: ReservationState,
    comment: string,
    cancellationReason: Nullable<CancelReason>)

  /** `CustomerReservation`: a reservation as listed on the customer page. */
  datatype CustomerReservation = CustomerReservation(
    apartmentNumber: string,
    apartmentUuid: string,
    hasChildren: Nullable<bool>,
    id: int,
    lotteryPosition: Nullable<int>,
    offer: Nullable<Offer>,
    priorityNumber: Nullable<int>,
    projectHousingCompany: string,
    projectLotteryCompleted: bool,
    projectOwnershipType: string,
    projectUuid: string,
    queuePosition: Nullable<int>,
    rightOfResidence: Nullable<int>,
    rightOfResidenceIsOldBatch: Nullable<bool>,
    state: ReservationState,
    stateChangeEvents: Nullable<seq<StateChangeEvent>>,
    submittedLate: bool)

  /** `ProjectInstallment`: a saved installment template. */
  datatype ProjectInstallment = ProjectInstallment(
    installmentType: InstallmentType,
    amount: Nullable<int>,
    percentage: Nullable<string>,
    percentageSpecifier: Nullable<PercentageSpecifier>,
    accountNumber: string,
    dueDate: Option<string>)

  /** `ProjectInstallmentInputRow`: one editable row of the template form.
      Every field is the text of a form control. */
  datatype InstallmentRow = InstallmentRow(
    installmentType: string,
    unit: string,
    sum: string,
    percentageSpecifier: string,
    accountNumber: string,
    dueDate: string)

  /** A piece of rendered text: the translation of a key (the translation
      function itself is opaque) or literal text. */
  datatype Piece = Key(key: string) | Plain(text: string)

  /** The kind of a toast notification. */
  datatype Toast = SuccessToast | ErrorToast

  /** `SelectOption`. */
  datatype SelectOption = SelectOption(labelText: string, name: string, selectValue: string, disabled: bool)
}
