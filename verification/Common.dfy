/** Small types shared by every component of the gateway model. */
module Common {

  datatype Option<+T> = None | Some(value: T) {
    predicate IsFailure() { None? }

    function PropagateFailure<U>(): Option<U>
      requires None?
    {
      None
    }

    function Extract(): T
      requires Some?
    {
      value
    }
  }

  datatype Result<+T, +E> = Ok(value: T) | Err(error: E)

  /** A provider/model pair: the unit of health, leases, metrics and ranking. */
  datatype Key = Key(provider: string, model: string)

  function Lookup<T>(m: map<Key, T>, key: Key): Option<T> {
    if key in m then Some(m[key]) else None
  }

  /** The closed classification of provider failures. */
  datatype ErrorType =
    | Timeout
    | ConnectionError
    | AuthenticationError
    | RateLimit
    | ProviderFault
    | InvalidResponse
    | UnknownError

  predicate Unit(x: real) { 0.0 <= x <= 1.0 }

  predicate IsDigit(c: char) { '0' <= c <= '9' }

  predicate AllDigits(s: string) {
    forall i :: 0 <= i < |s| ==> IsDigit(s[i])
  }

  /** The number a text of digits denotes. */
  function DigitsValue(s: string): nat
    requires AllDigits(s)
  {
    if s == [] then 0
    else
      assert IsDigit(s[|s| - 1]);
      10 * DigitsValue(s[..|s| - 1]) + (s[|s| - 1] as int - '0' as int)
  }

  function Pow10(n: nat): (p: nat)
    ensures p >= 1
  {
    if n == 0 then 1 else 10 * Pow10(n - 1)
  }

  function Times(w: real, x: real): real { w * x }

  lemma TimesQuotient(s: real, w: real)
    requires w > 0.0
    ensures Times(w, s / w) == s
  {
  }

  lemma ProductOrder(a: int, b: int, d: int)
    requires d >= 0
    ensures a <= b ==> a * d <= b * d
  {
  }
}
