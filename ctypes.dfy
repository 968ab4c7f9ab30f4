/** Machine-level types and libm stand-ins shared by the measurement core.
    C's fixed-width unsigned integers become bounded ints; `double` and
    `float` become exact reals. */
module CTypes {
  type u8 = x: int | 0 <= x < 0x100
  type u16 = x: int | 0 <= x < 0x1_0000
  type u32 = x: int | 0 <= x < 0x1_0000_0000

  /** M_PI from <math.h>. */
  const Pi: real := 3.14159265358979323846

  /** `fabs` */
  function Abs(x: real): (r: real)
    ensures r >= 0.0 && (r == x || r == -x)
  {
    if x < 0.0 then -x else x
  }

  /** The one property of libm's `cos` (and `sin`) the model relies on:
      its value lies in [-1, 1]. Both functions are parameters of the
      model, never given a definition. */
  ghost predicate UnitBounded(f: real -> real)
  {
    forall t :: -1.0 <= f(t) <= 1.0
  }
}
