/**
 * Shared vocabulary of the model: optional values, results carrying the
 * exception the Python code would raise, and ASCII case folding.
 */
module Common {

  datatype Option<+T> = None | Some(value: T)

  /** The value a Python call returns, or the exception it raises. */
  datatype Result<+T> = Ok(value: T) | Failure(error: Error)

  /** The outcome of a `clean()`-style check that returns nothing. */
  datatype Outcome = Pass | Fail(error: Error)

  /** The exception classes raised by the modelled code. */
  datatype Error =
    | ValueError
    | AttributeError
    | AssertionError
    | KeyError
    | IndexError
    | TypeError
    | UnauthorizedError
    | TransportError(message: string)

  /** Python truthiness of an optional string: present and non-empty. */
  predicate Truthy(s: Option<string>)
  {
    s.Some? && s.value != ""
  }

  function LowerChar(c: char): char
  {
    if 'A' <= c <= 'Z' then (c as int + 32) as char else c
  }

  /** `str.lower()`, restricted to ASCII letters. */
  function Lower(s: string): (r: string)
    ensures |r| == |s|
    ensures forall i :: 0 <= i < |s| ==> r[i] == LowerChar(s[i])
  {
    seq(|s|, i requires 0 <= i < |s| => LowerChar(s[i]))
  }

  /** Lower-casing twice is lower-casing once. */
  lemma LowerIdempotent(s: string)
    ensures Lower(Lower(s)) == Lower(s)
  {
    assert forall i :: 0 <= i < |s| ==> LowerChar(LowerChar(s[i])) == LowerChar(s[i]);
  }
}
