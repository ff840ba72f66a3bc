/**
 * The UnitTests project's Customer: the builder's values are copied into
 * readonly fields, so a created customer never changes, and it raises no
 * events.
 */
module UnitTestCustomers {
  import opened Exceptions
  import opened Dates
  import opened CustomerCore

  class Customer {
    const firstname: string
    const lastname: string
    const birthdate: DateTime

    constructor (firstname: string, lastname: string, birthdate: DateTime)
      ensures this.firstname == firstname && this.lastname == lastname && this.birthdate == birthdate
    {
      this.firstname := firstname;
      this.lastname := lastname;
      this.birthdate := birthdate;
    }

    /** `IsAdult(currentDate)`: adult from the 18th birthday on. */
    function IsAdult(currentDate: DateTime): (r: Result<bool>)
      ensures r.Throws? <==> birthdate.year + 18 > MaxYear
      ensures r.Ok? ==> (r.value <==> CalendarAtMost(AddYears(birthdate, 18).value, currentDate))
    {
      IsAdultOn(birthdate, currentDate)
    }
  }

  /** `builder.Create()`: a new customer holding the builder's current values. */
  method Create(builder: CustomerBuilder) returns (c: Customer)
    ensures fresh(c)
    ensures c.firstname == builder.firstname && c.lastname == builder.lastname && c.birthdate == builder.birthdate
  {
    c := new Customer(builder.firstname, builder.lastname, builder.birthdate);
  }

  /** The arrange/act/assert sample: a customer born 1990-04-01 is not adult on 2008-03-31. */
  method IsAdultSample() returns (result: Result<bool>)
    ensures result == Ok(false)
  {
    var builder := new CustomerBuilder();
    builder := builder.WithBirthdate(Date(1990, 4, 1));
    var customer := Create(builder);
    result := customer.IsAdult(Date(2008, 3, 31));
    IsAdultExamples();
  }

  /**
   * Chained `With...` calls on one builder: each sets its own field, the
   * default birthdate stays, and changing the builder after Create leaves the
   * created customer as it was.
   */
  method BuilderSample() returns (c: Customer, b: CustomerBuilder)
    ensures c.firstname == "Jane" && c.lastname == "Roe" && c.birthdate == DefaultBirthdate
    ensures b.firstname == "Max" && b.lastname == "Roe"
  {
    b := new CustomerBuilder();
    var same := b.WithFirstname("Jane");
    same := same.WithLastname("Roe");
    c := Create(same);
    same := b.WithFirstname("Max");
  }
}
