/** Small pieces of Java semantics that the timer engine relies on:
    nullable values, thrown exceptions as results, Math.max and the
    truncating integer division of Java. */
module JavaLang {

  /** A Java reference or map lookup that may be null. */
  datatype Option<+T> = None | Some(value: T) {
    /** The value, or `default` when absent (Map.getOrDefault, or a null check with a fallback). */
    function GetOr(default: T): T {
      match this
      case Some(v) => v
      case None => default
    }
  }

  /** Map.get: the value stored under `key`, or None where Java returns null. */
  function Get<K, V>(m: map<K, V>, key: K): Option<V>
  {
    if key in m then Some(m[key]) else None
  }

  /** A computation that either returns a value or throws. */
  datatype Result<+T, +E> = Success(value: T) | Failure(error: E)

  /** Math.max on integers. */
  function Max(a: int, b: int): (m: int)
    ensures m >= a && m >= b
    ensures m == a || m == b
  {
    if a >= b then a else b
  }

  /** Java's `a / b` for a positive divisor: the quotient is rounded toward zero. */
  function JavaDiv(a: int, b: int): int
    requires b > 0
  {
    if a >= 0 then a / b else -((-a) / b)
  }

  /** Java's `a % b` for a positive divisor: the remainder takes the sign of `a`. */
  function JavaRem(a: int, b: int): int
    requires b > 0
  {
    if a >= 0 then a % b else -((-a) % b)
  }

  /** Java's division and remainder fit together, and the remainder is smaller
      than the divisor and never has the opposite sign of the dividend. */
  lemma JavaDivRem(a: int, b: int)
    requires b > 0
    ensures JavaDiv(a, b) * b + JavaRem(a, b) == a
    ensures -b < JavaRem(a, b) < b
    ensures a >= 0 ==> JavaRem(a, b) >= 0 && JavaDiv(a, b) == a / b
    ensures a < 0 ==> JavaRem(a, b) <= 0
  {
    if a < 0 {
      var q, r := (-a) / b, (-a) % b;
      assert q * b + r == -a;
    }
  }
}
