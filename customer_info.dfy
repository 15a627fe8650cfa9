/** The customer details panel (src/components/customers/CustomerInfo.tsx):
    which value each profile field shows when the profile and the latest
    application disagree, and how the name is displayed. */
module CustomerInfo {

  import opened Wrappers
  import opened Text
  import opened Types

  /** `isEmptyish`: missing, blank after trimming, or a lone "-". */
  predicate IsEmptyish(v: Nullable<string>) {
    v.IsNullish() || v.value == "" || Trim(v.value) == "" || Trim(v.value) == "-"
  }

  /** `pick`: the primary value unless it is emptyish, then the fallback
      unless it is emptyish, then `''`. */
  function Pick(primary: Nullable<string>, fallback: Nullable<string>): (r: string)
    ensures !IsEmptyish(primary) ==> r == primary.value
    ensures IsEmptyish(primary) && !IsEmptyish(fallback) ==> r == fallback.value
    ensures IsEmptyish(primary) && IsEmptyish(fallback) ==> r == ""
    ensures r == "" || !IsEmptyish(Present(r))
  {
    if !IsEmptyish(primary) then primary.value
    else if !IsEmptyish(fallback) then fallback.value
    else ""
  }

  /** Picking again from a picked value changes nothing: a picked value is
      never replaced by a fallback. */
  lemma PickKeepsPicked(primary: Nullable<string>, fallback: Nullable<string>, other: Nullable<string>)
    requires Pick(primary, fallback) != ""
    ensures Pick(Present(Pick(primary, fallback)), other) == Pick(primary, fallback)
  {
  }

  /** `[last, first].filter(Boolean)` joined as "last, first", the single
      part, or "—". */
  function DisplayName(last: string, first: string): (s: string)
    ensures s != ""
    ensures last != "" && first != "" ==> s == last + ", " + first
    ensures last != "" && first == "" ==> s == last
    ensures last == "" && first != "" ==> s == first
    ensures last == "" && first == "" ==> s == "—"
  {
    var parts := (if last != "" then [last] else []) + (if first != "" then [first] else []);
    if |parts| == 2 then parts[0] + ", " + parts[1]
    else if |parts| == 1 then parts[0]
    else "—"
  }

  /** The fields a profile column can take from the latest application. */
  datatype ApplicantFieldName = FirstName | LastName | Email | Phone | Street | City | Postal

  /** The latest application's value of a field (`applicant?.field`). */
  function ApplicantField(applicant: Option<Applicant>, field: ApplicantFieldName): Nullable<string> {
    if applicant.None? then Undefined
    else
      var a := applicant.value;
      Present(match field
        case FirstName => a.firstName
        case LastName => a.lastName
        case Email => a.email
        case Phone => a.phoneNumber
        case Street => a.streetAddress
        case City => a.city
        case Postal => a.postalCode)
  }

  /** The fields a profile column shows. */
  datatype ProfileView = ProfileView(
    firstName: string,
    lastName: string,
    email: string,
    phone: string,
    street: string,
    city: string,
    postal: string,
    displayName: string)

  /** `renderProfileInfo`: nothing for a missing profile. The primary
      profile's names fall back to the application; the secondary
      profile's names never do. Contact fields fall back for both. */
  function ProfileInfo(customer: Customer, isPrimary: bool, applicant: Option<Applicant>): (v: Option<ProfileView>)
    ensures v.None? <==> !isPrimary && customer.secondaryProfile.IsNullish()
    ensures v.Some? ==>
      var p := if isPrimary then customer.primaryProfile else customer.secondaryProfile.value;
      (isPrimary ==> v.value.firstName == Pick(Present(p.firstName), ApplicantField(applicant, FirstName)))
      && (isPrimary ==> v.value.lastName == Pick(Present(p.lastName), ApplicantField(applicant, LastName)))
      && (!isPrimary ==> v.value.firstName == p.firstName && v.value.lastName == p.lastName)
      && v.value.email == Pick(Present(p.email), ApplicantField(applicant, Email))
      && v.value.phone == Pick(Present(p.phoneNumber), ApplicantField(applicant, Phone))
      && v.value.street == Pick(p.streetAddress, ApplicantField(applicant, Street))
      && v.value.city == Pick(p.city, ApplicantField(applicant, City))
      && v.value.postal == Pick(p.postalCode, ApplicantField(applicant, Postal))
      && v.value.displayName == DisplayName(v.value.lastName, v.value.firstName)
  {
    if !isPrimary && customer.secondaryProfile.IsNullish() then None
    else
      var p := if isPrimary then customer.primaryProfile else customer.secondaryProfile.value;
      var first := if isPrimary then Pick(Present(p.firstName), ApplicantField(applicant, FirstName)) else p.firstName;
      var last := if isPrimary then Pick(Present(p.lastName), ApplicantField(applicant, LastName)) else p.lastName;
      Some(ProfileView(
        first, last,
        Pick(Present(p.email), ApplicantField(applicant, Email)),
        Pick(Present(p.phoneNumber), ApplicantField(applicant, Phone)),
        Pick(p.streetAddress, ApplicantField(applicant, Street)),
        Pick(p.city, ApplicantField(applicant, City)),
        Pick(p.postalCode, ApplicantField(applicant, Postal)),
        DisplayName(last, first)))
  }

  /** An emptyish first name ("-", blank) is replaced by the application's
      for the primary profile but shown as it is for the secondary one. */
  lemma NamesFallBackOnlyForPrimary(customer: Customer, applicant: Applicant)
    requires IsEmptyish(Present(customer.primaryProfile.firstName)) && !IsEmptyish(Present(applicant.firstName))
    requires customer.secondaryProfile.Present?
    ensures ProfileInfo(customer, true, Some(applicant)).value.firstName == applicant.firstName
    ensures ProfileInfo(customer, false, Some(applicant)).value.firstName == customer.secondaryProfile.value.firstName
  {
  }

  /** Every picked field of a column is either `''` or a real value. */
  lemma PickedFieldsAreNotEmptyish(customer: Customer, isPrimary: bool, applicant: Option<Applicant>)
    requires isPrimary || customer.secondaryProfile.Present?
    ensures var v := ProfileInfo(customer, isPrimary, applicant).value;
      IsShown(v.email) && IsShown(v.phone) && IsShown(v.street) && IsShown(v.city) && IsShown(v.postal)
  {
  }

  /** A shown field is `''` or a value that is not emptyish. */
  predicate IsShown(f: string) {
    f == "" || !IsEmptyish(Present(f))
  }

  /** The panel: an error notice without a customer, otherwise the primary
      column and, when there is a secondary profile, the co-applicant
      column. */
  datatype Panel =
    | NoCustomerNotice
    | Info(primary: ProfileView, coApplicant: Option<ProfileView>)

  function Render(customer: Option<Customer>, applicant: Option<Applicant>): (p: Panel)
    ensures p.NoCustomerNotice? <==> customer.None?
    ensures p.Info? ==>
      Some(p.primary) == ProfileInfo(customer.value, true, applicant)
      && (p.coApplicant.Some? <==> customer.value.secondaryProfile.Present?)
      && (p.coApplicant.Some? ==> p.coApplicant == ProfileInfo(customer.value, false, applicant))
  {
    if customer.None? then NoCustomerNotice
    else
      var c := customer.value;
      Info(ProfileInfo(c, true, applicant).value,
           if c.secondaryProfile.Present? then ProfileInfo(c, false, applicant) else None)
  }
}
