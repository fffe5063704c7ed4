/** Powers of two. */
module Powers {
  function Power(k: nat): (p: nat)
    ensures p > 0
  {
    if k == 0 then 1 else 2 * Power(k - 1)
  }

  lemma {:induction false} PowerDoubles(a: nat, b: nat)
    ensures Power(a + b) == Power(a) * Power(b)
  {
    if b > 0 {
      PowerDoubles(a, b - 1);
      assert Power(a) * (2 * Power(b - 1)) == 2 * (Power(a) * Power(b - 1));
    }
  }
}
