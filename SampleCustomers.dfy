/**
 * The Sample project's Customer: first and last name can be changed, and
 * every actual change raises the INotifyPropertyChanged event PropertyChanged
 * with the property's name.  The customer's one event is held by a Publisher
 * object whose single event is PropertyChanged; raising it runs whatever is
 * subscribed at that moment (nothing when no one is, as `?.Invoke` does).
 */
module SampleCustomers {
  import opened Exceptions
  import opened Dates
  import opened Events
  import opened CustomerCore

  const PropertyChangedEvent := EventDecl("PropertyChanged", "PropertyChangedEventHandler", true)

  class Customer {
    var firstname: string
    var lastname: string
    var birthdate: DateTime
    /** The publisher holding the customer's one event, PropertyChanged, at index 0. */
    const propertyChanged: Publisher

    predicate Valid()
      reads propertyChanged
    {
      propertyChanged.declared == [PropertyChangedEvent] && propertyChanged.Valid()
    }

    /** `new Customer(firstname, lastname, birthdate)`, with no one subscribed yet. */
    constructor (firstname: string, lastname: string, birthdate: DateTime)
      ensures Valid() && fresh(propertyChanged)
      ensures this.firstname == firstname && this.lastname == lastname && this.birthdate == birthdate
      ensures propertyChanged.subscribers == [[]]
    {
      this.firstname := firstname;
      this.lastname := lastname;
      this.birthdate := birthdate;
      propertyChanged := new Publisher([PropertyChangedEvent]);
    }

    /** The monitors that receive a PropertyChanged raised now. */
    function Observers(): set<EventMonitor>
      requires Valid()
      reads propertyChanged
    {
      propertyChanged.ListenersOf(0)
    }

    /** `OnPropertyChanged(name)`: raises PropertyChanged with this customer as sender. */
    method OnPropertyChanged(propertyName: string)
      requires Valid()
      modifies Observers()`events
      ensures forall m :: m in old(Observers()) ==>
                m.events == old(m.events)
                            + Repeat(EventData(this, PropertyChangedArgs(propertyName)), Deliveries(propertyChanged.subscribers[0], m))
    {
      propertyChanged.Raise(0, this, PropertyChangedArgs(propertyName));
    }

    /** The FirstName setter: stores and notifies only when the value differs. */
    method SetFirstName(value: string)
      requires Valid()
      modifies this`firstname, Observers()`events
      ensures Valid() && propertyChanged.subscribers == old(propertyChanged.subscribers)
      ensures firstname == value && lastname == old(lastname) && birthdate == old(birthdate)
      ensures old(firstname) == value ==> forall m :: m in old(Observers()) ==> m.events == old(m.events)
      ensures old(firstname) != value ==>
                forall m :: m in old(Observers()) ==>
                  m.events == old(m.events)
                              + Repeat(EventData(this, PropertyChangedArgs("FirstName")), Deliveries(propertyChanged.subscribers[0], m))
    {
      if firstname != value {
        firstname := value;
        OnPropertyChanged("FirstName");
      }
    }

    /** The LastName setter: stores and notifies only when the value differs. */
    method SetLastName(value: string)
      requires Valid()
      modifies this`lastname, Observers()`events
      ensures Valid() && propertyChanged.subscribers == old(propertyChanged.subscribers)
      ensures lastname == value && firstname == old(firstname) && birthdate == old(birthdate)
      ensures old(lastname) == value ==> forall m :: m in old(Observers()) ==> m.events == old(m.events)
      ensures old(lastname) != value ==>
                forall m :: m in old(Observers()) ==>
                  m.events == old(m.events)
                              + Repeat(EventData(this, PropertyChangedArgs("LastName")), Deliveries(propertyChanged.subscribers[0], m))
    {
      if lastname != value {
        lastname := value;
        OnPropertyChanged("LastName");
      }
    }

    /** `IsAdult(currentDate)`: adult from the 18th birthday on. */
    function IsAdult(currentDate: DateTime): (r: Result<bool>)
      reads this
      ensures r.Throws? <==> birthdate.year + 18 > MaxYear
      ensures r.Ok? ==> (r.value <==> CalendarAtMost(AddYears(birthdate, 18).value, currentDate))
    {
      IsAdultOn(birthdate, currentDate)
    }
  }

  /** `builder.Create()`: a new customer holding the builder's current values. */
  method Create(builder: CustomerBuilder) returns (c: Customer)
    ensures fresh(c) && fresh(c.propertyChanged) && c.Valid() && c.propertyChanged.subscribers == [[]]
    ensures c.firstname == builder.firstname && c.lastname == builder.lastname && c.birthdate == builder.birthdate
  {
    c := new Customer(builder.firstname, builder.lastname, builder.birthdate);
  }

  /** The arrange/act/assert sample: a customer born 1990-04-01 is not adult on 2008-03-31. */
  method IsAdultSample() returns (result: Result<bool>)
    ensures result == Ok(false)
  {
    var builder := new CustomerBuilder();
    builder := builder.WithBirthdate(Date(1990, 4, 1));
    var customer := Create(builder);
    result := customer.IsAdult(Date(2008, 3, 31));
    IsAdultExamples();
  }

  /** John Doe from a builder, with a new EventMonitor as the only subscriber. */
  method MonitoredCustomer() returns (customer: Customer, monitor: EventMonitor)
    ensures fresh(customer) && fresh(customer.propertyChanged) && fresh(monitor)
    ensures customer.Valid() && customer.firstname == "John" && customer.lastname == "Doe"
    ensures monitor.publisher == customer.propertyChanged && monitor.events == []
    ensures monitor.registeredHandlers == [Capture(monitor, PropertyChangedEvent.delegateType)]
    ensures customer.propertyChanged.subscribers == [monitor.registeredHandlers]
  {
    var builder := new CustomerBuilder();
    builder := builder.WithFirstname("John");
    builder := builder.WithLastname("Doe");
    customer := Create(builder);
    monitor := new EventMonitor(customer.propertyChanged);
  }

  /**
   * The act step of the sample with a monitor as the only subscriber:
   * FirstName "John" to "Michael", LastName "Doe" to "Dee", then LastName to
   * "Dee" again, which records nothing.
   */
  method RenameObserved(customer: Customer, monitor: EventMonitor)
    requires customer.Valid() && customer.firstname == "John" && customer.lastname == "Doe"
    requires customer.propertyChanged.subscribers == [[Capture(monitor, PropertyChangedEvent.delegateType)]]
    modifies customer`firstname, customer`lastname, monitor`events
    ensures customer.Valid() && customer.propertyChanged.subscribers == old(customer.propertyChanged.subscribers)
    ensures customer.firstname == "Michael" && customer.lastname == "Dee"
    ensures monitor.events == old(monitor.events) + [EventData(customer, PropertyChangedArgs("FirstName")),
                                                     EventData(customer, PropertyChangedArgs("LastName"))]
  {
    var h := Capture(monitor, PropertyChangedEvent.delegateType);
    assert monitor in customer.Observers() by {
      assert h in customer.propertyChanged.subscribers[0];
    }
    var first := EventData(customer, PropertyChangedArgs("FirstName"));
    var last := EventData(customer, PropertyChangedArgs("LastName"));
    RepeatOnce(first);
    RepeatOnce(last);
    DeliveriesAppend([], h, monitor);
    assert Deliveries(customer.propertyChanged.subscribers[0], monitor) == 1;
    customer.SetFirstName("Michael");
    assert monitor.events == old(monitor.events) + [first];
    customer.SetLastName("Dee");
    assert monitor.events == old(monitor.events) + [first] + [last];
    customer.SetLastName("Dee");
  }

  /**
   * The property-change sample, observed through an EventMonitor: setting
   * FirstName to "Michael" and LastName to "Dee" on John Doe records the
   * notifications FirstName, then LastName, both sent by the customer.
   * Setting a name to its current value records nothing, and after Dispose
   * the monitor records nothing more.
   */
  method PropertyChangedSample() returns (customer: Customer, recorded: seq<EventData>, afterDispose: seq<EventData>)
    ensures recorded == [EventData(customer, PropertyChangedArgs("FirstName")),
                         EventData(customer, PropertyChangedArgs("LastName"))]
    ensures PropertyNames(recorded) == ["FirstName", "LastName"]
    ensures afterDispose == recorded
  {
    var monitor;
    customer, monitor := MonitoredCustomer();
    var h := monitor.registeredHandlers[0];
    RenameObserved(customer, monitor);
    recorded := monitor.Events();
    PropertyNamesAppend([], recorded[0]);
    PropertyNamesAppend([recorded[0]], recorded[1]);

    UnregisterSucceedsIff([[h]], [PropertyChangedEvent], [h], 1);
    DisposeAfterRegisterRestores([[]], [[h]], [PropertyChangedEvent], [h], monitor);
    var ok := monitor.Dispose();
    assert customer.propertyChanged.subscribers == [[]];
    customer.SetFirstName("Anna");
    afterDispose := monitor.Events();
  }
}
