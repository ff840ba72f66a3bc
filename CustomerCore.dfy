/**
 * What the two CustomerBuilder files share: the fluent builder with its
 * defaults and the over-18 test on a birthdate.  The Sample customer (which
 * notifies property changes) and the UnitTests customer (which is read-only)
 * are built on this in their own modules.
 */
module CustomerCore {
  import opened Exceptions
  import opened Dates

  const DefaultFirstname := "John"
  const DefaultLastname := "Doe"
  const DefaultBirthdate: DateTime := Date(2000, 1, 1)

  /**
   * `birthdate.AddYears(18).CompareTo(currentDate) <= 0`: the customer is
   * adult from the 18th birthday on.  AddYears throws for a birthdate in the
   * last 18 years of the DateTime range, and so does IsAdult.
   */
  function IsAdultOn(birthdate: DateTime, currentDate: DateTime): (r: Result<bool>)
    ensures r.Throws? <==> birthdate.year + 18 > MaxYear
    ensures r.Throws? ==> r.exception == ArgumentOutOfRangeException
    ensures r.Ok? ==> (r.value <==> CalendarAtMost(AddYears(birthdate, 18).value, currentDate))
  {
    match AddYears(birthdate, 18)
    case Throws(e) => Throws(e)
    case Ok(adulthood) =>
      CompareToIsCalendarOrder(adulthood, currentDate);
      Ok(CompareTo(adulthood, currentDate) <= 0)
  }

  /** Once adult, adult on every later date. */
  lemma IsAdultMonotone(birthdate: DateTime, d1: DateTime, d2: DateTime)
    requires IsAdultOn(birthdate, d1) == Ok(true)
    requires CalendarAtMost(d1, d2)
    ensures IsAdultOn(birthdate, d2) == Ok(true)
  {
    var adulthood := AddYears(birthdate, 18).value;
    CompareToIsCalendarOrder(adulthood, d1);
    CompareToIsCalendarOrder(d1, d2);
    CompareToIsCalendarOrder(adulthood, d2);
  }

  /** Adult on the 18th birthday itself (February 28th for someone born on February 29th). */
  lemma AdultOnEighteenthBirthday(birthdate: DateTime)
    requires birthdate.year + 18 <= MaxYear
    ensures IsAdultOn(birthdate, AddYears(birthdate, 18).value) == Ok(true)
  {
  }

  /** Before the 18th birthday, not adult. */
  lemma NotAdultBeforeEighteenthBirthday(birthdate: DateTime, d: DateTime)
    requires birthdate.year + 18 <= MaxYear
    requires CalendarBefore(d, AddYears(birthdate, 18).value)
    ensures IsAdultOn(birthdate, d) == Ok(false)
  {
    CompareToIsCalendarOrder(d, AddYears(birthdate, 18).value);
  }

  /** The dates the sample tests use, and the leap-day birthday. */
  lemma IsAdultExamples()
    ensures IsAdultOn(Date(1990, 4, 1), Date(2008, 3, 31)) == Ok(false)
    ensures IsAdultOn(Date(1990, 4, 1), Date(2008, 4, 1)) == Ok(true)
    ensures IsAdultOn(Date(2000, 2, 29), Date(2018, 2, 28)) == Ok(true)
    ensures IsAdultOn(Date(2000, 2, 29), Date(2018, 2, 27)) == Ok(false)
    ensures IsAdultOn(Date(9990, 1, 1), Date(9999, 12, 31)) == Throws(ArgumentOutOfRangeException)
  {
    AddYearsClampsLeapDay();
  }

  /**
   * The fluent builder.  Each `With...` call overwrites its own field and
   * returns the builder itself, so calls can be chained.
   */
  class CustomerBuilder {
    var firstname: string
    var lastname: string
    var birthdate: DateTime

    /** A new builder holds the defaults John Doe, born 2000-01-01. */
    constructor ()
      ensures firstname == DefaultFirstname && lastname == DefaultLastname && birthdate == DefaultBirthdate
    {
      firstname := DefaultFirstname;
      lastname := DefaultLastname;
      birthdate := DefaultBirthdate;
    }

    method WithFirstname(firstname: string) returns (r: CustomerBuilder)
      modifies this`firstname
      ensures r == this
      ensures this.firstname == firstname && lastname == old(lastname) && birthdate == old(birthdate)
    {
      this.firstname := firstname;
      r := this;
    }

    method WithLastname(lastname: string) returns (r: CustomerBuilder)
      modifies this`lastname
      ensures r == this
      ensures this.lastname == lastname && firstname == old(firstname) && birthdate == old(birthdate)
    {
      this.lastname := lastname;
      r := this;
    }

    method WithBirthdate(birthdate: DateTime) returns (r: CustomerBuilder)
      modifies this`birthdate
      ensures r == this
      ensures this.birthdate == birthdate && firstname == old(firstname) && lastname == old(lastname)
    {
      this.birthdate := birthdate;
      r := this;
    }
  }
}
