/** Uniqueness of quotient and remainder, shared by the codec and the record padding. */
module DivMod {
  lemma MultipleIsFar(d: nat, k: int)
    requires d > 0
    ensures k >= 1 ==> d * k >= d
    ensures k <= -1 ==> d * k + d <= 0
  {
    if k >= 1 {
      assert d * k == d * (k - 1) + d;
    } else if k <= -1 {
      assert d * k == d * (k + 1) - d;
    }
  }

  lemma DivModUnique(x: nat, d: nat, q: nat, r: nat)
    requires 0 < d && r < d && x == d * q + r
    ensures x % d == r && x / d == q
  {
    var q', r' := x / d, x % d;
    assert x == d * q' + r';
    assert d * (q - q') == d * q - d * q';
    MultipleIsFar(d, q - q');
  }
}
