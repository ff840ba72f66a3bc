# unittest-proj-template: a verified model of its test helpers

The C# repository is a template for MSTest projects. It contains no production code, but a few of its helpers have behaviour that can be stated and proved:

- **EventMonitor** (Template project). A monitor subscribes one capture handler to every event of a publisher. It keeps the (sender, event args) pairs of every firing in firing order, and `Dispose` unsubscribes it again.
- **CustomerBuilder** (Sample and UnitTests projects). A fluent builder with the defaults John Doe, born 2000-01-01. The Sample `Customer` raises `PropertyChanged` whenever a name actually changes. The UnitTests `Customer` is read-only. In both, `IsAdult` compares the 18th birthday with a given date.
- **StringExtensions.Left** (Template project): the first `length` characters of a string.
- **TestBase** (Template and Sample projects). It provides `AssertThrows<T>` and the two `AssertIsEmpty` overloads. The Template copy also has four `AssertDateTimesAreEqual` overloads with a tick tolerance.

How the model is laid out:

| module | file | models |
|---|---|---|
| `Exceptions` | Exceptions.dfy | exception types as base-class chains, `catch (T e)` matching, `Result` (a value or a thrown exception) |
| `Dates` | Dates.dfy | the parts of `System.DateTime` and `System.TimeSpan` that are used: ticks, `CompareTo`, subtraction, `AddYears` with the February 29th clamp, `TimeSpan.Milliseconds` |
| `StringExtensions` | StringExtensions.dfy | `Left` |
| `TestBase` | TestBase.dfy | the assertion helpers shared by both `TestBase.cs` files, and the Template-only date assertions |
| `Events` | Events.dfy | `EventMonitor` and a `Publisher` class that stands for the monitored object's events |
| `CustomerCore` | CustomerCore.dfy | the `CustomerBuilder` class both projects share, and the `IsAdult` decision |
| `SampleCustomers` | SampleCustomers.dfy | the Sample project's notifying `Customer` and its `Create` |
| `UnitTestCustomers` | UnitTestCustomers.dfy | the UnitTests project's read-only `Customer` and its `Create` |

Where the two `CustomerBuilder.cs` files and the two `TestBase.cs` files share code, that code is modelled once, and the table below cites both files.

The model stays close to .NET in these ways:

- An assertion failure (`Assert.Fail`) is the returned value `Fail(message)`. The message is a datatype that records which message was chosen and the values it would format.
- An action under test is represented by how it ends: `Completed`, or `Threw(type)`.
- An event's delegates are an invocation list, a sequence of handlers:
  - `Delegate.Combine` appends a handler.
  - `Delegate.Remove` drops the last occurrence of a handler.
  - Two handlers compare equal when target and delegate type are equal.
- Reflection is replaced by the publisher's explicit list of event declarations.
- `EventData` is a datatype: its `Sender` and `EventArgs` are exactly the values it was built from, and nothing can change them.
- `Events()` returns the records so far as a sequence value. Reading it again after a firing gives the longer list.

## Model

| member | source | states |
|---|---|---|
| Exceptions.EveryExceptionIsAnException | src/TestProject.Sample.Template/TestBase.cs:28-35 | the `catch (Exception e)` clause catches every exception type |
| Exceptions.IsATransitive | src/TestProject.Sample.Template/TestBase.cs:24-27 | `catch (T e)` also catches types derived from types derived from T |
| Exceptions.StandardHierarchy | src/TestProject.Sample/SampleUnitTests.cs:58-61 | IndexOutOfRangeException derives from SystemException but not from ArgumentException; ArgumentOutOfRangeException derives from ArgumentException |
| Dates.Date | src/TestProject.Sample/TestObjectBuilder/CustomerBuilder.cs:23 | `new DateTime(y, m, d)` is midnight of that valid calendar day |
| Dates.AddYears | src/TestProject.Sample/TestObjectBuilder/CustomerBuilder.cs:144 | it succeeds exactly when \|value\| <= 10000 and the target year is in 1..9999, and otherwise throws ArgumentOutOfRangeException; year, month and time of day move as expected; the day changes only when February 29th lands in a common year, where it becomes the 28th |
| Dates.AddYearsRoundTrip | src/TestProject.Sample/TestObjectBuilder/CustomerBuilder.cs:144 | adding n years and then −n years gives back the original date, unless February 29th was clamped |
| Dates.AddYearsClampsLeapDay | src/UnitTests/TestObjectBuilder/CustomerBuilder.cs:98 | 2000-02-29 plus 18 years is 2018-02-28, plus 4 years is 2004-02-29, plus 1 year is 2001-02-28; 9990 plus 18 years throws |
| Dates.Ticks | src/TestProject.Sample.Template/TestBase.cs:113 | every DateTime has a tick count between 0 (0001-01-01 00:00) and 3 155 378 975 999 999 999 (`DateTime.MaxValue.Ticks`), and the count modulo one day is the time of day |
| Dates.CompareTo | src/TestProject.Sample/TestObjectBuilder/CustomerBuilder.cs:144 | the result is −1, 0 or 1; it is negative exactly when the first DateTime comes earlier in the calendar, zero exactly when the two are equal, positive exactly when it comes later |
| Dates.Subtract | src/TestProject.Sample.Template/TestBase.cs:113 | `expected - actual` is zero exactly for equal DateTimes, negative exactly when `expected` comes first, and never longer than the whole DateTime range |
| Dates.CompareToIsCalendarOrder | src/TestProject.Sample/TestObjectBuilder/CustomerBuilder.cs:144 | `CompareTo` works on tick counts, yet its sign is exactly the calendar order (year, month, day, time of day), in both directions |
| Dates.TicksInjective | src/TestProject.Sample.Template/TestBase.cs:113 | two DateTimes have equal tick counts exactly when they are the same DateTime |
| Dates.MillisecondsComponent | src/TestProject.Sample.Template/TestBase.cs:99 | `TimeSpan.Milliseconds` lies strictly between −1000 and 1000 and is the whole milliseconds modulo 1000, truncated toward zero |
| StringExtensions.Left | src/TestProject.Sample.Template/Extensions/StringExtensions.cs:33-43 | it succeeds exactly for length >= 0, and a negative length throws ArgumentOutOfRangeException; the result is a prefix of s of length min(\|s\|, length) |
| StringExtensions.LeftOfShortString | src/TestProject.Sample.Template/Extensions/StringExtensions.cs:35-38 | a string no longer than `length` comes back unchanged |
| StringExtensions.LeftOfLongString | src/TestProject.Sample.Template/Extensions/StringExtensions.cs:39-42 | otherwise exactly the first `length` characters come back |
| StringExtensions.LeftIdempotent | src/TestProject.Sample.Template/Extensions/StringExtensions.cs:33-43 | Left(Left(s, n), n) == Left(s, n) |
| TestBase.Run | src/TestProject.Sample.Template/TestBase.cs:22 | running an action that evaluates an operation completes exactly when the operation yields a value, and otherwise throws its exception |
| TestBase.AssertThrows | src/TestProject.Sample.Template/TestBase.cs:18-41 | it never passes silently; it returns the exception exactly when the action threw T or a subtype; otherwise it fails with the wrong-type message (naming both types) or the no-exception message, the latter exactly when the action completed; the same code is at src/TestProject.Sample/TestBase.cs:20-43 |
| TestBase.AssertThrowsBaseType | src/TestProject.Sample.Template/TestBase.cs:24-27 | whatever AssertThrows for a derived type accepts, AssertThrows for its base type accepts with the same result |
| TestBase.AssertThrowsException | src/TestProject.Sample.Template/TestBase.cs:24-27 | `AssertThrows<Exception>` returns every thrown exception |
| TestBase.ElementAt | src/TestProject.Sample/SampleUnitTests.cs:60 | array indexing yields the element for 0 <= i < length, and IndexOutOfRangeException otherwise |
| TestBase.IndexOutOfRangeScenario | src/TestProject.Sample/SampleUnitTests.cs:54-62 | reading element 3 of { 1, 2, 3 } passes AssertThrows for IndexOutOfRangeException and for SystemException; for ArgumentException it fails with the wrong-type message; reading element 2 fails with the no-exception message |
| TestBase.FailWhenEmpty | src/TestProject.Sample.Template/TestBase.cs:61-64 | the shared decision fails with the message exactly on an empty collection and passes exactly on a non-empty one |
| TestBase.AssertIsEmpty | src/TestProject.Sample.Template/TestBase.cs:59-65 | as written, it fails with the caller's message exactly when the collection is empty, and passes exactly when it is not; the same code is at src/TestProject.Sample/TestBase.cs:61-67 |
| TestBase.AssertIsEmptyWithCount | src/TestProject.Sample.Template/TestBase.cs:48-51 | the one-argument overload passes exactly when the two-argument one does, and its failure message carries the element count; the same code is at src/TestProject.Sample/TestBase.cs:50-53 |
| TestBase.AssertIsEmptyIsInverted | src/TestProject.Sample.Template/TestBase.cs:43-65 | the empty list fails, a one-element list passes, and the count message then always reports 0 items |
| TestBase.AssertIsEmptyIntended | src/TestProject.Sample.Template/TestBase.cs:53-58 | the documented behaviour: passes exactly on an empty collection, otherwise fails with the message |
| TestBase.IntendedIsNegationOfWritten | src/TestProject.Sample/TestBase.cs:55-67 | on every input, the documented check passes exactly when the written one does not |
| TestBase.AssertDateTimesAreEqualWithin | src/TestProject.Sample.Template/TestBase.cs:111-117 | passes exactly when the expected ticks lie within ±delta of the actual ticks, and otherwise fails with the caller's message |
| TestBase.AssertDateTimesAreEqual | src/TestProject.Sample.Template/TestBase.cs:72-76 | zero tolerance: passes exactly when the two DateTimes are equal; otherwise fails with the message naming both timestamps |
| TestBase.AssertDateTimesAreEqualMessage | src/TestProject.Sample.Template/TestBase.cs:84-87 | zero tolerance with the caller's message: passes exactly on equal DateTimes |
| TestBase.AssertDateTimesAreEqualDelta | src/TestProject.Sample.Template/TestBase.cs:95-102 | passes exactly when \|expected − actual\| in ticks is at most delta; the failure message carries `delta.Milliseconds` |
| TestBase.DeltaMessageDropsSeconds | src/TestProject.Sample.Template/TestBase.cs:97-100 | with a two-second tolerance and timestamps three seconds apart, the failure message reports 0 milliseconds; 1.5 seconds is reported as 500 |
| TestBase.TotalMilliseconds | src/TestProject.Sample.Template/TestBase.cs:99 | the whole tolerance in milliseconds, truncated toward zero |
| TestBase.AssertDateTimesAreEqualDeltaIntended | src/TestProject.Sample.Template/TestBase.cs:95-102 | the same pass/fail decision as the written overload, with a message that reports the whole tolerance |
| TestBase.DeltaMessagesAgreeBelowOneSecond | src/TestProject.Sample.Template/TestBase.cs:99 | for a non-negative tolerance, the written and corrected numbers agree exactly when the tolerance is under one second |
| TestBase.DateToleranceSymmetric | src/TestProject.Sample.Template/TestBase.cs:113 | swapping expected and actual does not change the outcome |
| TestBase.DateToleranceMonotone | src/TestProject.Sample.Template/TestBase.cs:113 | a wider tolerance accepts everything a narrower one accepts |
| TestBase.NegativeToleranceAlwaysFails | src/TestProject.Sample.Template/TestBase.cs:113 | a negative delta rejects every pair, even two equal timestamps |
| TestBase.OneMillisecondApart | src/TestProject.Sample.Template/TestBase.cs:95-102 | a one-millisecond tolerance accepts timestamps one millisecond apart, and rejects them one tick further apart |
| Events.RemoveLastEffect | src/TestProject.Sample.Template/EventMonitor.cs:66 | removing a delegate takes away exactly one of its occurrences (none when it is absent, leaving the list unchanged) and keeps every other subscriber in order |
| Events.RemoveLastOfAppended | src/TestProject.Sample.Template/EventMonitor.cs:66 | removing the delegate that was appended last gives back the list from before |
| Events.RemoveLastDeliveries | src/TestProject.Sample.Template/EventMonitor.cs:66 | removing a subscribed capture handler of a monitor cuts that monitor's deliveries per firing by one |
| Events.NoDeliveriesWithoutCaptures | src/TestProject.Sample.Template/EventMonitor.cs:71-74 | a monitor with no capture handler in the list receives nothing |
| Events.DeliveriesAppend | src/TestProject.Sample.Template/EventMonitor.cs:55 | subscribing one more handler adds one delivery exactly for its own monitor |
| Events.DeliveriesOutsideListeners | src/TestProject.Sample.Template/EventMonitor.cs:71-74 | only monitors among the listeners receive records |
| Events.PropertyNamesAppend | src/TestProject.Sample/SampleUnitTests.cs:104-111 | a new property-change record adds its name at the end of the name sequence |
| Events.UnregisterUpTo | src/TestProject.Sample.Template/EventMonitor.cs:60-69 | the state after the outer loop of UnregisterHandlers has one invocation list per event |
| Events.RemoveEach | src/TestProject.Sample.Template/EventMonitor.cs:64-67 | the inner loop for one event: after n handlers have been passed, the list is at most n delegates shorter, and every subscriber that was not passed keeps all its occurrences |
| Events.RemoveEachSucceedsIff | src/TestProject.Sample.Template/EventMonitor.cs:64-67 | the inner loop over the registered handlers completes exactly when all of them have the event's delegate type |
| Events.RemoveEachStopsAtFailure | src/TestProject.Sample.Template/EventMonitor.cs:64-67 | once a removal has thrown, the later handlers are not visited |
| Events.UnregisterStopsAtFailure | src/TestProject.Sample.Template/EventMonitor.cs:62-68 | once an event's removals have thrown, the later events are not visited |
| Events.UnregisterSucceedsIff | src/TestProject.Sample.Template/EventMonitor.cs:60-69 | Dispose as written completes exactly when every registered handler has the delegate type of every event |
| Events.DisposeSucceedsIffOneDelegateType | src/TestProject.Sample.Template/EventMonitor.cs:60-69 | for a monitor's own handlers, Dispose as written completes exactly when all events share one delegate type |
| Events.UnregisterPerEvent | src/TestProject.Sample.Template/EventMonitor.cs:62-68 | once the outer loop has completed, each event's list is its inner loop's result, and events not yet visited are untouched |
| Events.RemoveEachUniform | src/TestProject.Sample.Template/EventMonitor.cs:64-67 | when all handlers are the same delegate h, an event's list loses min(n, its count of h) copies of h and keeps all other subscribers in order |
| Events.RemoveEachAbsent | src/TestProject.Sample.Template/EventMonitor.cs:64-67 | a list without the handler is left exactly as it was |
| Events.RemoveEachRestores | src/TestProject.Sample.Template/EventMonitor.cs:64-67 | a list that had h appended once, and did not hold it before, is restored exactly |
| Events.DisposeRestoresSubscribers | src/TestProject.Sample.Template/EventMonitor.cs:42-45 | subscribe-then-dispose is the identity on every invocation list when all events share one delegate type |
| Events.DisposeTwiceRemovesNothing | src/TestProject.Sample.Template/EventMonitor.cs:42-45 | a second Dispose, with the handler already gone from every list, changes nothing and completes |
| Events.DisposeAfterRegisterRestores | src/TestProject.Sample.Template/EventMonitor.cs:60-69 | whenever Dispose as written completes, every invocation list is exactly what it was before the monitor subscribed, other subscribers included |
| Events.Publisher.AddEventHandler | src/TestProject.Sample.Template/EventMonitor.cs:55 | appends the delegate to that event's list and to no other; a delegate of another type is rejected and nothing changes |
| Events.Publisher.RemoveEventHandler | src/TestProject.Sample.Template/EventMonitor.cs:66 | `Delegate.Remove` on that event's list alone; a delegate of another type is rejected and nothing changes |
| Events.Publisher.Raise | src/TestProject.Sample.Template/EventMonitor.cs:71-74 | each monitor reached gets one (sender, args) record appended per capture handler of it subscribed at that moment; earlier records stay as they were |
| Events.EventMonitor.constructor | src/TestProject.Sample.Template/EventMonitor.cs:22-29 | a new monitor has no records; it holds one handler per event, in declaration order, each bound to this monitor and appended to that event's list, which did not hold it before; each firing then reaches the monitor exactly once; the same code is at src/TestProject.Sample.Template/EventMonitor.cs:47-58 |
| Events.EventMonitor.Events | src/TestProject.Sample.Template/EventMonitor.cs:34-37 | returns the monitor's current records, in firing order, as a value; no contract beyond that (see "## Left out") |
| Events.EventMonitor.AddEventDetails | src/TestProject.Sample.Template/EventMonitor.cs:71-74 | appends exactly one record (sender, e) at the end |
| Events.EventMonitor.Dispose | src/TestProject.Sample.Template/EventMonitor.cs:60-69 | as written: for every event, in order, passes every registered handler to RemoveEventHandler and stops at the first rejection; the resulting lists and the success flag are UnregisterUpTo's |
| Events.EventMonitor.DisposePaired | src/TestProject.Sample.Template/EventMonitor.cs:60-69 | corrected: removes each registered handler from the event it was registered on, which is never rejected |
| Events.NoEventsSample | src/TestProject.Sample.Template/EventMonitor.cs:52-57 | a publisher without events gets no handler from the monitor, and the monitor's record list is empty |
| Events.DisposeMixedTypesSample | src/TestProject.Sample.Template/EventMonitor.cs:60-69 | on a publisher with a PropertyChangedEventHandler event and an EventHandler event, Dispose as written does not complete, and a later firing of the second event is still recorded |
| Events.DisposePairedMixedTypesSample | src/TestProject.Sample.Template/EventMonitor.cs:42-45 | with the corrected cleanup, both lists are empty again and later firings record nothing |
| Events.DisposedMonitorRecordsNothing | src/TestProject.Sample.Template/EventMonitor.cs:22-74 | on any publisher whose events share one delegate type: a new monitor's Dispose completes, every invocation list is exactly as before the monitor subscribed, a later firing of any event records nothing for it, and every other monitor receives exactly its own deliveries |
| Events.DisposePairedRestores | src/TestProject.Sample.Template/EventMonitor.cs:22-69 | with the corrected cleanup, on any publisher whose events are all bindable (mixed delegate types included), subscribe-then-dispose leaves every invocation list exactly as it was, other subscribers included |
| CustomerCore.IsAdultOn | src/TestProject.Sample/TestObjectBuilder/CustomerBuilder.cs:142-145 | it throws (ArgumentOutOfRangeException, from AddYears) exactly when birth year + 18 exceeds 9999; otherwise it is true exactly when the 18th birthday is at or before the current date in calendar order; the same code is at src/UnitTests/TestObjectBuilder/CustomerBuilder.cs:96-99 |
| CustomerCore.IsAdultMonotone | src/UnitTests/TestObjectBuilder/CustomerBuilder.cs:96-99 | once adult, adult on every later date |
| CustomerCore.AdultOnEighteenthBirthday | src/TestProject.Sample/TestObjectBuilder/CustomerBuilder.cs:144 | adult on the 18th birthday itself |
| CustomerCore.NotAdultBeforeEighteenthBirthday | src/TestProject.Sample/TestObjectBuilder/CustomerBuilder.cs:144 | not adult on any date before the 18th birthday |
| CustomerCore.IsAdultExamples | src/TestProject.Sample/SampleUnitTests.cs:21-30 | born 1990-04-01: not adult on 2008-03-31, adult on 2008-04-01; born 2000-02-29: adult on 2018-02-28, not on 2018-02-27; born 9990-01-01: IsAdult throws |
| CustomerCore.CustomerBuilder.constructor | src/TestProject.Sample/TestObjectBuilder/CustomerBuilder.cs:18-24 | a new builder holds "John", "Doe" and 2000-01-01; the same code is at src/UnitTests/TestObjectBuilder/CustomerBuilder.cs:17-23 |
| CustomerCore.CustomerBuilder.WithFirstname | src/TestProject.Sample/TestObjectBuilder/CustomerBuilder.cs:31-35 | sets the first name, leaves the other two fields unchanged, and returns the same builder; the same code is at src/UnitTests/TestObjectBuilder/CustomerBuilder.cs:30-34 |
| CustomerCore.CustomerBuilder.WithLastname | src/TestProject.Sample/TestObjectBuilder/CustomerBuilder.cs:42-46 | sets the last name, leaves the other two fields unchanged, and returns the same builder; the same code is at src/UnitTests/TestObjectBuilder/CustomerBuilder.cs:41-45 |
| CustomerCore.CustomerBuilder.WithBirthdate | src/TestProject.Sample/TestObjectBuilder/CustomerBuilder.cs:53-57 | sets the birthdate, leaves the names unchanged, and returns the same builder; the same code is at src/UnitTests/TestObjectBuilder/CustomerBuilder.cs:52-56 |
| SampleCustomers.Customer.constructor | src/TestProject.Sample/TestObjectBuilder/CustomerBuilder.cs:83-88 | stores the three values; the PropertyChanged event starts with no subscribers |
| SampleCustomers.Customer.OnPropertyChanged | src/TestProject.Sample/TestObjectBuilder/CustomerBuilder.cs:147-150 | every monitor subscribed at that moment records (this customer, PropertyChanged(name)) once per subscribed handler; with no subscribers nothing happens |
| SampleCustomers.Customer.SetFirstName | src/TestProject.Sample/TestObjectBuilder/CustomerBuilder.cs:105-112 | stores the value and leaves the last name and birthdate alone; a different value notifies "FirstName" with this customer as sender; the current value notifies nothing |
| SampleCustomers.Customer.SetLastName | src/TestProject.Sample/TestObjectBuilder/CustomerBuilder.cs:125-132 | stores the value and leaves the first name and birthdate alone; a different value notifies "LastName"; the current value notifies nothing |
| SampleCustomers.Customer.IsAdult | src/TestProject.Sample/TestObjectBuilder/CustomerBuilder.cs:142-145 | the IsAdultOn decision on the customer's birthdate |
| SampleCustomers.Create | src/TestProject.Sample/TestObjectBuilder/CustomerBuilder.cs:63-66 | a new customer with the builder's current three values and no subscribers |
| SampleCustomers.IsAdultSample | src/TestProject.Sample/SampleUnitTests.cs:21-30 | a customer built with birthdate 1990-04-01 is not adult on 2008-03-31 |
| SampleCustomers.MonitoredCustomer | src/TestProject.Sample/SampleUnitTests.cs:99-102 | John Doe from the builder, with a new monitor as the only subscriber and no records yet |
| SampleCustomers.RenameObserved | src/TestProject.Sample/SampleUnitTests.cs:107-111 | "Michael" then "Dee" (then "Dee" again) appends exactly the two records FirstName, LastName |
| SampleCustomers.PropertyChangedSample | src/TestProject.Sample/SampleUnitTests.cs:97-111 | the recorded notifications are FirstName, then LastName, both sent by the customer; after Dispose a further change records nothing |
| UnitTestCustomers.Customer.constructor | src/UnitTests/TestObjectBuilder/CustomerBuilder.cs:82-87 | stores the three values in fields that nothing can change afterwards |
| UnitTestCustomers.Customer.IsAdult | src/UnitTests/TestObjectBuilder/CustomerBuilder.cs:96-99 | the IsAdultOn decision on the customer's birthdate |
| UnitTestCustomers.Create | src/UnitTests/TestObjectBuilder/CustomerBuilder.cs:62-65 | a new customer with the builder's current three values |
| UnitTestCustomers.IsAdultSample | src/UnitTests/SampleUnitTests.cs:20-29 | a customer built with birthdate 1990-04-01 is not adult on 2008-03-31 |
| UnitTestCustomers.BuilderSample | src/UnitTests/TestObjectBuilder/CustomerBuilder.cs:30-65 | chained `With...` calls set their own fields and keep the default birthdate; changing the builder after Create leaves the created customer unchanged |

## Left out

- Reflection in EventMonitor: `GetEvents`, `GetMethod` and `Delegate.CreateDelegate` are replaced by the publisher's explicit event declarations.
- Events.EventMonitor.constructor: it requires every event's delegate type to be bindable to `AddEventDetails(object, EventArgs)`, because the CLR's binding rules are not modelled. When `CreateDelegate` or `AddEventHandler` throws part-way, the half-registered state is not modelled either.
- Events.Publisher.Raise: records only what monitors receive. What other subscribers do when they run is outside the model.
- Events.EventMonitor.Events: the C# property hands out the `List<EventData>` itself, so a reference taken earlier grows with later firings and can be changed through a cast. Here `Events()` returns the current records as a value, so that shared reference (aliasing) is not modelled. The getter has no contract because it only reads the field.
- Events.EventMonitor.Dispose: when a removal throws, the exception is returned as `ok == false`. The exception type (ArgumentException) and its propagation to the caller are not modelled.
- Threading: events raised from other threads are not modelled.
- Null: a null action, collection, string or publisher is not modelled. Every value is present.
- Strings are compared by characters only. There is no culture or normalisation.
- StringExtensions.Left: .NET counts `Length` and `Substring` in UTF-16 code units, while a Dafny string counts characters, so the model agrees with the source only on text without surrogate pairs. For example, `"😀".Left(1)` is a lone high surrogate in .NET but the whole character here.
- `TimeSpan.TotalMilliseconds` is a floating-point number in .NET. Here it is the whole milliseconds, truncated.
- Message formatting: `string.Format`, the culture-specific `DateTime` format strings and the text of `AssertIsEmpty`'s count message are not modelled. Only which message is chosen, and the values it would show, are modelled.
- Dates.Date: `new DateTime(y, m, d)` throws for an invalid date, which is a precondition here. The DateTimeKind tag is not modelled.
- `AssertThrowsAsync`, `AssertRaisesPropertyChangedEvents` and the `a` factory are used by the sample tests but not defined in the modelled files. The property-change sample is therefore stated with an EventMonitor as the observer.
- `StringExtensions.AsStream`, `TempFolder`, `TestDocument`/`TestDocumentBuilder`, the test-category attributes and the async sample tests involve files, streams, GUIDs and tasks, and are not modelled.
- MSTest itself (`[TestClass]`, `Assert.AreEqual`, `Assert.Fail` as an exception) is not modelled. A failed assertion is a returned `Fail` value.

## Findings

| source | as written | input that shows it | evidently intended | confidence | as-written member | corrected member |
|---|---|---|---|---|---|---|
| src/TestProject.Sample.Template/TestBase.cs:61-64 | `AssertIsEmpty` fails when the collection has no elements | an empty list fails, `[x]` passes | fail exactly when the collection is not empty, as the doc comment says | not executed; high | TestBase.AssertIsEmptyIsInverted | TestBase.AssertIsEmptyIntended |
| src/TestProject.Sample/TestBase.cs:63-66 | the Sample copy has the same inverted test | an empty list fails, `[x]` passes | fail exactly when the collection is not empty | not executed; high | TestBase.AssertIsEmptyIsInverted | TestBase.IntendedIsNegationOfWritten |
| src/TestProject.Sample.Template/EventMonitor.cs:62-68 | UnregisterHandlers passes every registered handler to every event's RemoveEventHandler, and the reflective call rejects a delegate of another type with ArgumentException | a publisher with a PropertyChanged event (PropertyChangedEventHandler) and an EventHandler event: Dispose throws, and the monitor stays subscribed to the second event | remove each handler from the event it was registered on | not executed; medium | Events.DisposeMixedTypesSample | Events.EventMonitor.DisposePaired |
| src/TestProject.Sample.Template/TestBase.cs:99 | the tolerance message shows `delta.Milliseconds`, the millisecond component only | tolerance of 2 seconds, timestamps 3 seconds apart: the message says "by more than 0 milliseconds" | report the whole tolerance in milliseconds | not executed; medium | TestBase.DeltaMessageDropsSeconds | TestBase.AssertDateTimesAreEqualDeltaIntended |
