/** src/utils/mapApartmentReservationCustomerData.ts: the customer summary
    that the offer and cancel dialogs receive. */
module CustomerMapping {

  import opened Wrappers
  import opened Types

  /** The name and e-mail of a profile, the only profile fields copied. */
  function Summary(p: CustomerProfile): (s: ProfileSummary)
    ensures s.firstName == p.firstName && s.lastName == p.lastName && s.email == p.email
  {
    ProfileSummary(p.firstName, p.lastName, p.email)
  }

  /** `mapApartmentReservationCustomerData(customer)`. */
  function MapCustomerData(customer: Customer): (r: ReservationCustomer)
    ensures r.id == customer.id
    ensures r.primaryProfile == Summary(customer.primaryProfile)
    ensures !customer.secondaryProfile.Present? ==> r.secondaryProfile == Undefined
    ensures customer.secondaryProfile.Present? ==>
      r.secondaryProfile == Present(Summary(customer.secondaryProfile.value))
  {
    var secondary := if customer.secondaryProfile.Present?
      then Present(Summary(customer.secondaryProfile.value)) else Undefined;
    ReservationCustomer(customer.id, Summary(customer.primaryProfile), secondary)
  }

  /** No other customer field reaches the result: two customers that agree
      on the id and on the names and e-mails of their profiles map to the
      same summary. */
  lemma MapCustomerDataDependsOnlyOnCopiedFields(a: Customer, b: Customer)
    requires a.id == b.id
    requires Summary(a.primaryProfile) == Summary(b.primaryProfile)
    requires a.secondaryProfile.Present? == b.secondaryProfile.Present?
    requires a.secondaryProfile.Present? ==>
      Summary(a.secondaryProfile.value) == Summary(b.secondaryProfile.value)
    ensures MapCustomerData(a) == MapCustomerData(b)
  {
  }

  /** The summary never carries a secondary profile set to `null`: it is
      either left out or a copy. */
  lemma MapCustomerDataSecondaryNeverNull(customer: Customer)
    ensures MapCustomerData(customer).secondaryProfile != Null
  {
  }
}
