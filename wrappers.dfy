/** Optional values: a JavaScript field that may be `undefined`/`null` is an `Option`. */
module Wrappers {

  datatype Option<+T> = None | Some(value: T) {

    /** The value, or `default` when absent (JavaScript's `x || default` on a possibly-missing field). */
    function GetOr(default: T): T {
      match this
      case Some(v) => v
      case None => default
    }
  }

  /** JavaScript truthiness of an optional string: absent and `''` are both falsy. */
  predicate Truthy(s: Option<string>) {
    s.Some? && s.value != ""
  }

  /** `s || default` for an optional string. */
  function OrElse(s: Option<string>, default: string): (r: string)
    ensures Truthy(s) ==> r == s.value
    ensures !Truthy(s) ==> r == default
  {
    if Truthy(s) then s.value else default
  }
}

/** Identifiers, clock readings and the integer arithmetic the handlers use. */
module Base {

  /** A document identifier (a MongoDB ObjectId). */
  type Id = nat

  /** A clock reading in milliseconds (`Date.now()`), always supplied by the caller. */
  type Millis = nat

  /** Multiplying by a non-negative factor keeps an inequality. */
  lemma MulMonotone(a: int, b: int, c: int)
    requires a <= b && c >= 0
    ensures a * c <= b * c
  {
  }

  /** `Math.ceil(n / d)` for a non-zero integer divisor, characterised without division. */
  function CeilDiv(n: int, d: int): (r: int)
    requires d != 0
    ensures d > 0 ==> (r - 1) * d < n <= r * d
    ensures d < 0 ==> r * d <= n < (r - 1) * d
  {
    if d > 0 then
      var q := (-n) / d;
      assert -n == q * d + (-n) % d;
      assert (-q - 1) * d == -(q * d) - d;
      -q
    else
      var q := n / (-d);
      assert n == q * (-d) + n % (-d);
      assert (-q) * d == q * (-d);
      assert (-q - 1) * d == q * (-d) + (-d);
      -q
  }

  function Min(a: int, b: int): int {
    if a <= b then a else b
  }
}
