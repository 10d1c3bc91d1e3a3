/** Shared vocabulary of the licence server model: optional values, the
    millisecond clock and the rounding helpers the route handlers apply to it. */
module Common {

  /** A value that may be absent (a missing body field, a lookup that finds nothing). */
  datatype Option<T> = None | Some(value: T)

  /** Timestamps are milliseconds since the epoch, as `Date.now()` returns them. */
  type Millis = int

  /** `1000 * 60 * 60 * 24`: the day length used by every "days remaining" computation. */
  const MsPerDay: int := 86400000

  /** The largest distance from the epoch a JavaScript `Date` can hold,
      100 000 000 days (ECMA-262, section 21.4.1.1, "Time Values and Time
      Range"). `new Date(t)` farther out is an Invalid Date. Every integer
      up to this bound is exact as a double, so arithmetic that stays within
      it needs no rounding. */
  const MaxTimeValue: int := 8640000000000000

  predicate IsTimeValue(t: Millis)
  {
    -MaxTimeValue <= t <= MaxTimeValue
  }

  /** `Math.ceil(a / b)` for a non-zero integer divisor, written with Dafny's
      Euclidean division (which floors for a positive divisor). */
  function CeilDiv(a: int, b: int): (r: int)
    requires b != 0
    ensures b > 0 ==> (r - 1) * b < a <= r * b
    ensures b < 0 ==> r * b <= a < (r - 1) * b
  {
    if b > 0 then
      var q := (-a) / b;
      assert -a == b * q + (-a) % b;
      -q
    else
      var q := a / (-b);
      assert a == (-b) * q + a % (-b);
      -q
  }

  /** `Math.max(0, x)`. */
  function ClampToZero(x: int): (r: nat)
    ensures r >= x && (r == 0 || r == x)
  {
    if x > 0 then x else 0
  }

  /** `Math.abs(x)`. */
  function Abs(x: int): (r: nat)
    ensures r == x || r == -x
  {
    if x < 0 then -x else x
  }
}
