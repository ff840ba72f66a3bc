/**
 * .NET exceptions as the assertion helpers and the builders see them: an
 * exception is identified by its runtime type, and a type by its chain of
 * base classes, most derived first, ending in "Exception".  `catch (T e)`
 * matches exactly when the thrown type's chain ends with T's chain.
 */
module Exceptions {

  datatype ExceptionType = ExceptionType(chain: seq<string>) {

    /** Every exception type derives from System.Exception. */
    predicate WellFormed() {
      |chain| > 0 && chain[|chain| - 1] == "Exception"
    }

    /** The type's simple name, as `typeof(T).Name` and `e.GetType().Name` give it. */
    function Name(): string {
      if |chain| == 0 then "" else chain[0]
    }
  }

  const RootException := ExceptionType(["Exception"])
  const SystemException := ExceptionType(["SystemException", "Exception"])
  const ArgumentException := ExceptionType(["ArgumentException", "SystemException", "Exception"])
  const ArgumentOutOfRangeException :=
    ExceptionType(["ArgumentOutOfRangeException", "ArgumentException", "SystemException", "Exception"])
  const IndexOutOfRangeException := ExceptionType(["IndexOutOfRangeException", "SystemException", "Exception"])
  const InvalidOperationException := ExceptionType(["InvalidOperationException", "SystemException", "Exception"])

  /** `t` is `s` or derives from `s`: the chain of `s` is a suffix of the chain of `t`. */
  predicate IsA(t: ExceptionType, s: ExceptionType) {
    |s.chain| <= |t.chain| && t.chain[|t.chain| - |s.chain|..] == s.chain
  }

  /** An operation that either yields a value or throws. */
  datatype Result<+T> = Ok(value: T) | Throws(exception: ExceptionType)

  /** Every well-formed exception type is caught by `catch (Exception e)`. */
  lemma EveryExceptionIsAnException(t: ExceptionType)
    requires t.WellFormed()
    ensures IsA(t, RootException)
  {
    assert t.chain[|t.chain| - 1..] == [t.chain[|t.chain| - 1]];
  }

  /** Derivation is transitive: a handler for a base class catches grandchildren too. */
  lemma {:induction false} IsATransitive(t: ExceptionType, s: ExceptionType, u: ExceptionType)
    requires IsA(t, s) && IsA(s, u)
    ensures IsA(t, u)
  {
    var n, m, k := |t.chain|, |s.chain|, |u.chain|;
    forall i | 0 <= i < k
      ensures t.chain[n - k + i] == u.chain[i]
    {
      assert t.chain[n - m..][m - k + i] == s.chain[m - k + i];
      assert s.chain[m - k..][i] == u.chain[i];
    }
    assert t.chain[n - k..] == u.chain;
  }

  /** The standard types used by the model form the expected hierarchy. */
  lemma StandardHierarchy()
    ensures ArgumentOutOfRangeException.WellFormed() && IndexOutOfRangeException.WellFormed()
    ensures IsA(ArgumentOutOfRangeException, ArgumentException)
    ensures IsA(ArgumentOutOfRangeException, SystemException)
    ensures IsA(IndexOutOfRangeException, SystemException)
    ensures !IsA(IndexOutOfRangeException, ArgumentException)
    ensures !IsA(SystemException, IndexOutOfRangeException)
    ensures !IsA(InvalidOperationException, IndexOutOfRangeException)
  {
    assert ArgumentOutOfRangeException.chain[1..] == ArgumentException.chain;
    assert ArgumentOutOfRangeException.chain[2..] == SystemException.chain;
    assert IndexOutOfRangeException.chain[1..] == SystemException.chain;
    assert IndexOutOfRangeException.chain[0] != ArgumentException.chain[0];
    assert InvalidOperationException.chain[0] != IndexOutOfRangeException.chain[0];
  }
}
