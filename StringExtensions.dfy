/** The string helper `Left` of the template's StringExtensions class. */
module StringExtensions {
  import opened Exceptions

  function Min(a: int, b: int): int {
    if a <= b then a else b
  }

  /**
   * `s.Left(length)`: the whole string when it is shorter than `length`,
   * otherwise `s.Substring(0, length)`, which throws
   * ArgumentOutOfRangeException for a negative length.
   */
  function Left(s: string, length: int): (r: Result<string>)
    ensures r.Ok? <==> length >= 0
    ensures r.Throws? ==> r.exception == ArgumentOutOfRangeException
    ensures r.Ok? ==> |r.value| == Min(|s|, length) && r.value <= s
  {
    if |s| < length then Ok(s)
    else if length < 0 then Throws(ArgumentOutOfRangeException)
    else Ok(s[..length])
  }

  /** A string no longer than `length` comes back unchanged (also when its length is exactly `length`). */
  lemma LeftOfShortString(s: string, length: int)
    requires |s| <= length
    ensures Left(s, length) == Ok(s)
  {
    assert s[..|s|] == s;
  }

  /** Otherwise the first `length` characters come back. */
  lemma LeftOfLongString(s: string, t: string)
    ensures Left(s + t, |s|) == Ok(s)
  {
    assert (s + t)[..|s|] == s;
  }

  /** Taking the left part twice is the same as taking it once. */
  lemma LeftIdempotent(s: string, length: int)
    requires length >= 0
    ensures Left(Left(s, length).value, length) == Left(s, length)
  {
    LeftOfShortString(Left(s, length).value, length);
  }
}
