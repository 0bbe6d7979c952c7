/** Quotients and remainders of natural numbers by a divisor that is not a constant. */
module Division {
  lemma ProductMonotone(a: int, b: int, s: nat)
    requires a <= b
    ensures a * s <= b * s
  {
    assert (b - a) * s >= 0;
  }

  function Quot(i: nat, s: nat): nat
    requires s > 0
  {
    i / s
  }

  function Rem(i: nat, s: nat): (r: nat)
    requires s > 0
    ensures r < s
  {
    i % s
  }

  lemma QuotRem(i: nat, s: nat)
    requires s > 0
    ensures i == Quot(i, s) * s + Rem(i, s)
  {
  }

  /** Quotient and remainder are the only numbers of their kind. */
  lemma QuotRemUnique(q: nat, r: nat, s: nat)
    requires r < s
    ensures Quot(q * s + r, s) == q && Rem(q * s + r, s) == r
  {
    var i := q * s + r;
    QuotRem(i, s);
    var q', r' := Quot(i, s), Rem(i, s);
    hide Quot, Rem;
    if q < q' { assert (q + 1) * s == q * s + s; ProductMonotone(q + 1, q', s); }
    if q' < q { assert (q' + 1) * s == q' * s + s; ProductMonotone(q' + 1, q, s); }
  }

  lemma QuotBound(i: nat, n: nat, s: nat)
    requires s > 0 && i < n * s
    ensures Quot(i, s) < n
  {
    QuotRem(i, s);
    var q := Quot(i, s);
    hide Quot, Rem;
    if n <= q { ProductMonotone(n, q, s); }
  }

  lemma QuotStep(i: nat, s: nat)
    requires s > 0
    ensures Rem(i, s) + 1 < s ==> Quot(i + 1, s) == Quot(i, s) && Rem(i + 1, s) == Rem(i, s) + 1
    ensures Rem(i, s) + 1 == s ==> Quot(i + 1, s) == Quot(i, s) + 1 && Rem(i + 1, s) == 0
  {
    QuotRem(i, s);
    var q, r := Quot(i, s), Rem(i, s);
    hide Quot, Rem;
    if r + 1 < s {
      QuotRemUnique(q, r + 1, s);
    } else {
      assert (q + 1) * s == q * s + s;
      QuotRemUnique(q + 1, 0, s);
    }
  }

  /** p to the k. */
  function Power(p: nat, k: nat): (r: nat)
    ensures p > 0 ==> r > 0
  {
    if k == 0 then 1 else PowerGrows(p, Power(p, k - 1)); p * Power(p, k - 1)
  }

  lemma PowerGrows(p: nat, x: nat)
    ensures p > 0 && x > 0 ==> p * x > 0
  {
  }
}
