/** Doubles as exact reals plus not-a-number. */
module Doubles {

  datatype Double = NaN | Val(r: real)

  function Power(b: real, e: nat): real { if e == 0 then 1.0 else b * Power(b, e - 1) }

  /** The largest finite double, 2^1024 - 2^971. */
  const MAX_VALUE: real := Power(2.0, 1024) - Power(2.0, 971)

  lemma {:induction false} PowersAdd(b: real, m: nat, n: nat)
    ensures Power(b, m + n) == Power(b, m) * Power(b, n)
  {
    if m > 0 { PowersAdd(b, m - 1, n); }
  }

  lemma SmallPowers()
    ensures Power(2.0, 11) == 2048.0 && Power(2.0, 53) == 9007199254740992.0
    ensures Power(2.0, 64) == 18446744073709551616.0
  {
    assert Power(2.0, 3) == 8.0 && Power(2.0, 4) == 16.0 && Power(2.0, 5) == 32.0;
    PowersAdd(2.0, 4, 4); PowersAdd(2.0, 8, 3); PowersAdd(2.0, 8, 8); PowersAdd(2.0, 16, 16); PowersAdd(2.0, 32, 32);
    PowersAdd(2.0, 16, 5); PowersAdd(2.0, 32, 21);
  }

  lemma {:induction false} SixtyFours(n: nat)
    ensures Power(2.0, 64 * n) == Power(18446744073709551616.0, n)
  {
    if n > 0 {
      SixtyFours(n - 1);
      PowersAdd(2.0, 64, 64 * (n - 1));
      SmallPowers();
    }
  }

  /** (2^53 - 1) * 2^11 * (2^64)^15, the small powers written out. */
  lemma LargestDouble()
    ensures MAX_VALUE == 9007199254740991.0 * 2048.0 * Power(18446744073709551616.0, 15)
  {
    SixtyFours(15); SmallPowers();
    PowersAdd(2.0, 971, 53); PowersAdd(2.0, 960, 11);
  }

  /** The lowest finite double. */
  const LOWEST_VALUE: real := -MAX_VALUE
}
