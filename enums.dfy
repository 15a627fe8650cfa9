/** The string enumerations of the back office (src/enums.ts), each with its
    wire value and, where the components iterate over it, the list of its
    members in declaration order (the order of `Object.values`). */
module Enums {

  import opened Text

  /** `ApartmentReservationStates`. */
  datatype ReservationState =
    | AcceptedByMunicipality | Canceled | Offered | OfferAccepted | OfferExpired
    | ReservationAgreement | Reserved | Review | Sold | Submitted
  {
    /** The enum value, as the API sends it. */
    function Value(): string {
      match this
      case AcceptedByMunicipality => "accepted_by_municipality"
      case Canceled => "canceled"
      case Offered => "offered"
      case OfferAccepted => "offer_accepted"
      case OfferExpired => "offer_expired"
      case ReservationAgreement => "reservation_agreement"
      case Reserved => "reserved"
      case Review => "review"
      case Sold => "sold"
      case Submitted => "submitted"
    }

    /** The enum member name, which is the upper-cased value and which the
        translation keys use (`state.toUpperCase()`). */
    function Name(): string {
      match this
      case AcceptedByMunicipality => "ACCEPTED_BY_MUNICIPALITY"
      case Canceled => "CANCELED"
      case Offered => "OFFERED"
      case OfferAccepted => "OFFER_ACCEPTED"
      case OfferExpired => "OFFER_EXPIRED"
      case ReservationAgreement => "RESERVATION_AGREEMENT"
      case Reserved => "RESERVED"
      case Review => "REVIEW"
      case Sold => "SOLD"
      case Submitted => "SUBMITTED"
    }
  }

  /** The members of `ApartmentReservationStates` in declaration order. */
  const AllReservationStates: seq<ReservationState> := [
    ReservationState.AcceptedByMunicipality, ReservationState.Canceled,
    ReservationState.Offered, ReservationState.OfferAccepted, ReservationState.OfferExpired,
    ReservationState.ReservationAgreement, ReservationState.Reserved,
    ReservationState.Review, ReservationState.Sold, ReservationState.Submitted
  ]

  /** No reservation state has the empty string as its value. */
  lemma ReservationStateValueNonEmpty(s: ReservationState)
    ensures s.Value() != ""
  {
    match s
    case AcceptedByMunicipality =>
    case Canceled =>
    case Offered =>
    case OfferAccepted =>
    case OfferExpired =>
    case ReservationAgreement =>
    case Reserved =>
    case Review =>
    case Sold =>
    case Submitted =>
  }

  /** `ApartmentState`, the sales state of an apartment. */
  datatype ApartmentState =
    | Free | Reserved | ReservationAgreement | Offered | OfferAccepted
    | OfferExpired | AcceptedByMunicipality | Sold | Review
  {
    function Value(): string {
      match this
      case Free => "free"
      case Reserved => "reserved"
      case ReservationAgreement => "reservation_agreement"
      case Offered => "offered"
      case OfferAccepted => "offer_accepted"
      case OfferExpired => "offer_expired"
      case AcceptedByMunicipality => "accepted_by_municipality"
      case Sold => "sold"
      case Review => "review"
    }
  }

  /** The members of `ApartmentState` in declaration order. */
  const AllApartmentStates: seq<ApartmentState> := [
    ApartmentState.Free, ApartmentState.Reserved, ApartmentState.ReservationAgreement,
    ApartmentState.Offered, ApartmentState.OfferAccepted, ApartmentState.OfferExpired,
    ApartmentState.AcceptedByMunicipality, ApartmentState.Sold, ApartmentState.Review
  ]

  /** No apartment state has the empty string as its value. */
  lemma ApartmentStateValueNonEmpty(s: ApartmentState)
    ensures s.Value() != ""
  {
    match s
    case Free =>
    case Reserved =>
    case ReservationAgreement =>
    case Offered =>
    case OfferAccepted =>
    case OfferExpired =>
    case AcceptedByMunicipality =>
    case Sold =>
    case Review =>
  }

  /** Distinct apartment states have distinct values. */
  lemma ApartmentStateValueInjective(a: ApartmentState, b: ApartmentState)
    requires a.Value() == b.Value()
    ensures a == b
  {
  }

  /** No apartment state has "-" as its value. */
  lemma ApartmentStateValueNotDash(s: ApartmentState)
    ensures s.Value() != "-"
  {
    match s
    case Free =>
    case Reserved =>
    case ReservationAgreement =>
    case Offered =>
    case OfferAccepted =>
    case OfferExpired =>
    case AcceptedByMunicipality =>
    case Sold =>
    case Review =>
  }

  /** Each apartment state is listed once. */
  lemma AllApartmentStatesDistinct(i: nat, j: nat)
    requires i < |AllApartmentStates| && j < |AllApartmentStates|
    requires AllApartmentStates[i] == AllApartmentStates[j]
    ensures i == j
  {
  }

  /** `InstallmentTypes`. */
  datatype InstallmentType =
    | Payment1 | Payment2 | Payment3 | Payment4 | Payment5 | Payment6 | Payment7
    | Refund | Refund2 | Refund3 | DownPayment | LatePaymentInterest
    | RightOfOccupancyPayment | RightOfOccupancyPayment2 | RightOfOccupancyPayment3
    | ForInvoicing | Deposit | ReservationFee
  {
    function Value(): string {
      match this
      case Payment1 => "PAYMENT_1"
      case Payment2 => "PAYMENT_2"
      case Payment3 => "PAYMENT_3"
      case Payment4 => "PAYMENT_4"
      case Payment5 => "PAYMENT_5"
      case Payment6 => "PAYMENT_6"
      case Payment7 => "PAYMENT_7"
      case Refund => "REFUND"
      case Refund2 => "REFUND_2"
      case Refund3 => "REFUND_3"
      case DownPayment => "DOWN_PAYMENT"
      case LatePaymentInterest => "LATE_PAYMENT_INTEREST"
      case RightOfOccupancyPayment => "RIGHT_OF_OCCUPANCY_PAYMENT"
      case RightOfOccupancyPayment2 => "RIGHT_OF_OCCUPANCY_PAYMENT_2"
      case RightOfOccupancyPayment3 => "RIGHT_OF_OCCUPANCY_PAYMENT_3"
      case ForInvoicing => "FOR_INVOICING"
      case Deposit => "DEPOSIT"
      case ReservationFee => "RESERVATION_FEE"
    }
  }

  /** The members of `InstallmentTypes` in declaration order. */
  const AllInstallmentTypes: seq<InstallmentType> := [
    Payment1, Payment2, Payment3, Payment4, Payment5, Payment6, Payment7,
    Refund, Refund2, Refund3, DownPayment, LatePaymentInterest,
    RightOfOccupancyPayment, RightOfOccupancyPayment2, RightOfOccupancyPayment3,
    ForInvoicing, Deposit, ReservationFee
  ]

  /** The wire values of `InstallmentTypes` in declaration order. */
  function InstallmentTypeValues(): (vs: seq<string>)
    ensures |vs| == |AllInstallmentTypes|
    ensures forall i :: 0 <= i < |vs| ==> vs[i] == AllInstallmentTypes[i].Value()
  {
    seq(|AllInstallmentTypes|, i requires 0 <= i < |AllInstallmentTypes| => AllInstallmentTypes[i].Value())
  }

  /** `Object.values(InstallmentTypes).indexOf(v)`: the position of the
      member whose value is `v`, or -1. */
  function InstallmentTypeIndex(v: string): (k: int)
    ensures -1 <= k < |AllInstallmentTypes|
    ensures k >= 0 ==> AllInstallmentTypes[k].Value() == v
    ensures k >= 0 ==> forall j :: 0 <= j < k ==> AllInstallmentTypes[j].Value() != v
    ensures k == -1 ==> forall j :: 0 <= j < |AllInstallmentTypes| ==> AllInstallmentTypes[j].Value() != v
  {
    IndexFrom(InstallmentTypeValues(), v, 0)
  }

  function IndexFrom(vs: seq<string>, v: string, from: nat): (k: int)
    requires from <= |vs|
    ensures -1 <= k < |vs|
    ensures k >= 0 ==> from <= k && vs[k] == v && forall j :: from <= j < k ==> vs[j] != v
    ensures k == -1 ==> forall j :: from <= j < |vs| ==> vs[j] != v
    decreases |vs| - from
  {
    if from == |vs| then -1 else if vs[from] == v then from else IndexFrom(vs, v, from + 1)
  }

  /** Each installment type sits at its own position in declaration order. */
  lemma InstallmentTypeIndexOfMember(t: InstallmentType)
    ensures 0 <= InstallmentTypeIndex(t.Value()) < 18
    ensures AllInstallmentTypes[InstallmentTypeIndex(t.Value())] == t
  {
    var k := InstallmentTypeIndex(t.Value());
    assert t in AllInstallmentTypes;
    if k >= 0 {
      InstallmentTypeValueInjective(AllInstallmentTypes[k], t);
    }
  }

  lemma InstallmentTypeValueInjective(a: InstallmentType, b: InstallmentType)
    requires a.Value() == b.Value()
    ensures a == b
  {
  }

  /** No installment type has the empty string as its value. */
  lemma InstallmentTypeValueNonEmpty(t: InstallmentType)
    ensures t.Value() != ""
  {
    match t
    case Payment1 =>
    case Payment2 =>
    case Payment3 =>
    case Payment4 =>
    case Payment5 =>
    case Payment6 =>
    case Payment7 =>
    case Refund =>
    case Refund2 =>
    case Refund3 =>
    case DownPayment =>
    case LatePaymentInterest =>
    case RightOfOccupancyPayment =>
    case RightOfOccupancyPayment2 =>
    case RightOfOccupancyPayment3 =>
    case ForInvoicing =>
    case Deposit =>
    case ReservationFee =>
  }

  /** The percentage specifiers: the three of Hitas projects
      (`HitasInstallmentPercentageSpecifiers`) and the one of Haso projects
      (`HasoInstallmentPercentageSpecifiers`). */
  datatype PercentageSpecifier = SalesPrice | DebtFreeSalesPrice | SalesPriceFlexible | RightOfOccupancy
  {
    function Value(): string {
      match this
      case SalesPrice => "SALES_PRICE"
      case DebtFreeSalesPrice => "DEBT_FREE_SALES_PRICE"
      case SalesPriceFlexible => "SALES_PRICE_FLEXIBLE"
      case RightOfOccupancy => "RIGHT_OF_OCCUPANCY_PAYMENT"
    }
  }

  /** `ReservationCancelReasons`. */
  datatype CancelReason =
    | CancelCanceled | ReservationAgreementCanceled | Terminated | Transferred
    | OtherApartmentOffered | LowerPriority | OfferRejected
  {
    function Value(): string {
      match this
      case CancelCanceled => "canceled"
      case ReservationAgreementCanceled => "reservation_agreement_canceled"
      case Terminated => "terminated"
      case Transferred => "transferred"
      case OtherApartmentOffered => "other_apartment_offered"
      case LowerPriority => "lower_priority"
      case OfferRejected => "offer_rejected"
    }

    /** The member name, the upper-cased value, which the translation keys
        use. */
    function Name(): string {
      match this
      case CancelCanceled => "CANCELED"
      case ReservationAgreementCanceled => "RESERVATION_AGREEMENT_CANCELED"
      case Terminated => "TERMINATED"
      case Transferred => "TRANSFERRED"
      case OtherApartmentOffered => "OTHER_APARTMENT_OFFERED"
      case LowerPriority => "LOWER_PRIORITY"
      case OfferRejected => "OFFER_REJECTED"
    }
  }

  /** `OfferState`. */
  datatype OfferState = Accepted | Pending | Rejected
}
