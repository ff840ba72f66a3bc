/**
 * The assertion helpers of the test base class.  The Sample and the Template
 * projects carry the same AssertThrows and AssertIsEmpty; only the Template
 * adds the DateTime assertions.  MSTest's `Assert.Fail` becomes a returned
 * `Fail(message)`, and an action under test is represented by how it ends.
 */
module TestBase {
  import opened Exceptions
  import opened Dates

  /** Which failure message a helper chooses, with the values it formats into it. */
  datatype Message =
    | Text(text: string)
    | WrongExceptionType(expectedType: string, actualType: string)
    | NoExceptionThrown(expectedType: string)
    | EmptyCollectionExpected(count: nat)
    | TimestampsDiffer(expected: DateTime, actual: DateTime)
    | TimestampDiffersBy(actual: DateTime, deltaMilliseconds: int, expected: DateTime)

  datatype AssertionResult = Pass | Fail(message: Message) | Returned(exception: ExceptionType)

  /** How an `Action` ends: normally, or by throwing. */
  datatype ActionOutcome = Completed | Threw(exception: ExceptionType)

  /** Running an action that evaluates an operation and discards its value. */
  function Run<T>(r: Result<T>): (o: ActionOutcome)
    ensures o.Completed? <==> r.Ok?
    ensures o.Threw? ==> o.exception == r.exception
  {
    match r
    case Ok(_) => Completed
    case Throws(e) => Threw(e)
  }

  // ---------------------------------------------------------------------------
  // AssertThrows<T>

  /**
   * `AssertThrows<T>(action)`: returns the exception when the action throws a
   * T (or a subclass of T), fails naming both types when it throws anything
   * else, and fails when it completes normally.
   */
  function AssertThrows(t: ExceptionType, action: ActionOutcome): (r: AssertionResult)
    requires t.WellFormed()
    ensures !r.Pass?
    ensures r.Returned? <==> action.Threw? && IsA(action.exception, t)
    ensures r.Returned? ==> r.exception == action.exception
    ensures r == Fail(NoExceptionThrown(t.Name())) <==> action.Completed?
    ensures r.Fail? && action.Threw? ==>
              r.message == WrongExceptionType(t.Name(), action.exception.Name())
  {
    match action
    case Threw(e) =>
      if IsA(e, t) then Returned(e) else Fail(WrongExceptionType(t.Name(), e.Name()))
    case Completed => Fail(NoExceptionThrown(t.Name()))
  }

  /** A handler for a base type accepts what a handler for a derived type accepts. */
  lemma AssertThrowsBaseType(t: ExceptionType, base: ExceptionType, action: ActionOutcome)
    requires t.WellFormed() && base.WellFormed() && IsA(t, base)
    requires AssertThrows(t, action).Returned?
    ensures AssertThrows(base, action) == AssertThrows(t, action)
  {
    IsATransitive(action.exception, t, base);
  }

  /** `AssertThrows<Exception>` accepts every exception. */
  lemma AssertThrowsException(action: ActionOutcome)
    requires action.Threw? && action.exception.WellFormed()
    ensures AssertThrows(RootException, action) == Returned(action.exception)
  {
    EveryExceptionIsAnException(action.exception);
  }

  /** Indexing an array: IndexOutOfRangeException outside 0 .. length - 1. */
  function ElementAt(numbers: seq<int>, i: int): (r: Result<int>)
    ensures r.Ok? <==> 0 <= i < |numbers|
    ensures r.Ok? ==> r.value == numbers[i]
    ensures r.Throws? ==> r.exception == IndexOutOfRangeException
  {
    if 0 <= i < |numbers| then Ok(numbers[i]) else Throws(IndexOutOfRangeException)
  }

  /**
   * The sample test: reading element 3 of `{ 1, 2, 3 }` passes
   * `AssertThrows<IndexOutOfRangeException>`, and so would a check for
   * SystemException; a check for ArgumentException fails with the
   * mismatched-type message; element 2 would fail with "no exception".
   */
  lemma IndexOutOfRangeScenario()
    ensures AssertThrows(IndexOutOfRangeException, Run(ElementAt([1, 2, 3], 3)))
            == Returned(IndexOutOfRangeException)
    ensures AssertThrows(SystemException, Run(ElementAt([1, 2, 3], 3))) == Returned(IndexOutOfRangeException)
    ensures AssertThrows(ArgumentException, Run(ElementAt([1, 2, 3], 3)))
            == Fail(WrongExceptionType("ArgumentException", "IndexOutOfRangeException"))
    ensures AssertThrows(IndexOutOfRangeException, Run(ElementAt([1, 2, 3], 2)))
            == Fail(NoExceptionThrown("IndexOutOfRangeException"))
  {
    StandardHierarchy();
  }

  // ---------------------------------------------------------------------------
  // AssertIsEmpty

  /** The decision both AssertIsEmpty overloads share, as the code makes it. */
  function FailWhenEmpty<T>(items: seq<T>, message: Message): (r: AssertionResult)
    ensures r == Fail(message) <==> |items| == 0
    ensures r == Pass <==> |items| > 0
  {
    if |items| == 0 then Fail(message) else Pass
  }

  /** `AssertIsEmpty(items, message)` as written: it fails on an EMPTY collection. */
  function AssertIsEmpty<T>(items: seq<T>, message: string): (r: AssertionResult)
    ensures r == Fail(Text(message)) <==> items == []
    ensures r == Pass <==> items != []
  {
    FailWhenEmpty(items, Text(message))
  }

  /** `AssertIsEmpty(items)`: the same decision, with a message reporting the element count. */
  function AssertIsEmptyWithCount<T>(items: seq<T>): (r: AssertionResult)
    ensures r.Pass? <==> AssertIsEmpty(items, "").Pass?
    ensures !r.Pass? ==> r == Fail(EmptyCollectionExpected(|items|))
  {
    FailWhenEmpty(items, EmptyCollectionExpected(|items|))
  }

  /**
   * The discrepancy: the assertion documented as "the collection is empty"
   * rejects the empty collection and accepts a non-empty one, and whenever the
   * one-argument overload fails, its message reports zero items.
   */
  lemma AssertIsEmptyIsInverted<T>(x: T)
    ensures AssertIsEmpty<T>([], "m").Fail?
    ensures AssertIsEmpty([x], "m").Pass?
    ensures AssertIsEmptyWithCount<T>([]) == Fail(EmptyCollectionExpected(0))
  {
  }

  /** What the documentation promises: pass exactly on an empty collection. */
  function AssertIsEmptyIntended<T>(items: seq<T>, message: string): (r: AssertionResult)
    ensures r.Pass? <==> items == []
    ensures !r.Pass? ==> r == Fail(Text(message))
  {
    if |items| == 0 then Pass else Fail(Text(message))
  }

  /** The corrected check decides the opposite of the code as written, on every input. */
  lemma IntendedIsNegationOfWritten<T>(items: seq<T>, message: string)
    ensures AssertIsEmptyIntended(items, message).Pass? <==> !AssertIsEmpty(items, message).Pass?
  {
  }

  // ---------------------------------------------------------------------------
  // AssertDateTimesAreEqual (Template only)

  function Abs(x: int): int {
    if x < 0 then -x else x
  }

  /**
   * `AssertDateTimesAreEqual(expected, actual, delta, message)`: fails when the
   * two timestamps are more than `delta` ticks apart.
   */
  function AssertDateTimesAreEqualWithin(expected: DateTime, actual: DateTime, delta: TimeSpan, message: Message)
    : (r: AssertionResult)
    ensures r.Pass? <==> Ticks(actual) - delta.ticks <= Ticks(expected) <= Ticks(actual) + delta.ticks
    ensures !r.Pass? ==> r == Fail(message)
  {
    if Abs(Subtract(expected, actual).ticks) > delta.ticks then Fail(message) else Pass
  }

  /** `AssertDateTimesAreEqual(expected, actual)`: zero tolerance, message naming both timestamps. */
  function AssertDateTimesAreEqual(expected: DateTime, actual: DateTime): (r: AssertionResult)
    ensures r.Pass? <==> expected == actual
    ensures !r.Pass? ==> r == Fail(TimestampsDiffer(expected, actual))
  {
    TicksInjective(expected, actual);
    AssertDateTimesAreEqualWithin(expected, actual, TimeSpan(0), TimestampsDiffer(expected, actual))
  }

  /** `AssertDateTimesAreEqual(expected, actual, message)`: zero tolerance, caller's message. */
  function AssertDateTimesAreEqualMessage(expected: DateTime, actual: DateTime, message: string)
    : (r: AssertionResult)
    ensures r.Pass? <==> expected == actual
    ensures !r.Pass? ==> r == Fail(Text(message))
  {
    TicksInjective(expected, actual);
    AssertDateTimesAreEqualWithin(expected, actual, TimeSpan(0), Text(message))
  }

  /**
   * `AssertDateTimesAreEqual(expected, actual, delta)`: the message shows
   * `delta.Milliseconds`, the millisecond component of the tolerance.
   */
  function AssertDateTimesAreEqualDelta(expected: DateTime, actual: DateTime, delta: TimeSpan)
    : (r: AssertionResult)
    ensures r.Pass? <==> Abs(Ticks(expected) - Ticks(actual)) <= delta.ticks
    ensures !r.Pass? ==> r == Fail(TimestampDiffersBy(actual, MillisecondsComponent(delta), expected))
  {
    AssertDateTimesAreEqualWithin(expected, actual, delta,
      TimestampDiffersBy(actual, MillisecondsComponent(delta), expected))
  }

  /**
   * The sentence "differs by more than N milliseconds" reports only the
   * millisecond component of the tolerance: a tolerance of two seconds is
   * reported as 0 milliseconds, and one of 1.5 seconds as 500.
   */
  lemma DeltaMessageDropsSeconds()
    ensures AssertDateTimesAreEqualDelta(DateParts(2020, 5, 17, 0), DateParts(2020, 5, 17, 30_000_000),
                                         TimeSpan(20_000_000))
            == Fail(TimestampDiffersBy(DateParts(2020, 5, 17, 30_000_000), 0, DateParts(2020, 5, 17, 0)))
    ensures MillisecondsComponent(TimeSpan(15_000_000)) == 500
  {
  }

  /** The whole tolerance in milliseconds, truncated toward zero. */
  function TotalMilliseconds(t: TimeSpan): (r: int)
    ensures t.ticks >= 0 ==> 0 <= r && r * TicksPerMillisecond <= t.ticks < (r + 1) * TicksPerMillisecond
    ensures t.ticks < 0 ==> r <= 0 && (r - 1) * TicksPerMillisecond < t.ticks <= r * TicksPerMillisecond
  {
    if t.ticks >= 0 then t.ticks / TicksPerMillisecond else -((-t.ticks) / TicksPerMillisecond)
  }

  /** The evidently intended message: the same decision, reporting the whole tolerance. */
  function AssertDateTimesAreEqualDeltaIntended(expected: DateTime, actual: DateTime, delta: TimeSpan)
    : (r: AssertionResult)
    ensures r.Pass? <==> AssertDateTimesAreEqualDelta(expected, actual, delta).Pass?
    ensures !r.Pass? ==> r == Fail(TimestampDiffersBy(actual, TotalMilliseconds(delta), expected))
  {
    AssertDateTimesAreEqualWithin(expected, actual, delta,
      TimestampDiffersBy(actual, TotalMilliseconds(delta), expected))
  }

  /**
   * The two messages agree exactly when the tolerance is under a second; from
   * one second on, the corrected message reports at least 1000 milliseconds.
   */
  lemma DeltaMessagesAgreeBelowOneSecond(delta: TimeSpan)
    requires delta.ticks >= 0
    ensures MillisecondsComponent(delta) == TotalMilliseconds(delta) <==> delta.ticks < 1000 * TicksPerMillisecond
    ensures delta.ticks >= 1000 * TicksPerMillisecond ==> TotalMilliseconds(delta) >= 1000
  {
  }

  /** Swapping expected and actual does not change whether the assertion passes. */
  lemma DateToleranceSymmetric(e: DateTime, a: DateTime, delta: TimeSpan, m: Message)
    ensures AssertDateTimesAreEqualWithin(e, a, delta, m) == AssertDateTimesAreEqualWithin(a, e, delta, m)
  {
  }

  /** A larger tolerance accepts everything a smaller one accepts. */
  lemma DateToleranceMonotone(e: DateTime, a: DateTime, delta: TimeSpan, wider: TimeSpan, m: Message)
    requires delta.ticks <= wider.ticks
    requires AssertDateTimesAreEqualWithin(e, a, delta, m).Pass?
    ensures AssertDateTimesAreEqualWithin(e, a, wider, m).Pass?
  {
  }

  /** A negative tolerance rejects every pair, even two equal timestamps. */
  lemma NegativeToleranceAlwaysFails(e: DateTime, a: DateTime, delta: TimeSpan, m: Message)
    requires delta.ticks < 0
    ensures AssertDateTimesAreEqualWithin(e, a, delta, m) == Fail(m)
  {
  }

  /** A one-millisecond tolerance accepts two timestamps a millisecond apart on the same day. */
  lemma OneMillisecondApart()
    ensures AssertDateTimesAreEqualDelta(DateParts(2020, 5, 17, 0), DateParts(2020, 5, 17, 10_000),
                                         TimeSpan(10_000)).Pass?
    ensures AssertDateTimesAreEqualDelta(DateParts(2020, 5, 17, 0), DateParts(2020, 5, 17, 10_001),
                                         TimeSpan(10_000)).Fail?
  {
  }
}
