/** Powers, products and quotients of natural numbers. */
module Powers {
  function Pow(b: nat, e: nat): nat { if e == 0 then 1 else b * Pow(b, e - 1) }

  lemma MulLe(a: int, b: int, c: nat)
    requires a <= b
    ensures a * c <= b * c
  {
  }

  lemma MulPositive(a: nat, b: nat)
    requires a > 0 && b > 0
    ensures a * b > 0
  {
  }

  lemma Assoc(a: nat, b: nat, c: nat)
    ensures a * (b * c) == a * b * c
  {
  }

  lemma QuotRem(v: nat, base: nat)
    requires base >= 2
    ensures v == v / base * base + v % base && v % base < base
  {
  }

  lemma DivLess(v: nat, base: nat)
    requires v > 0 && base >= 2
    ensures v / base < v
  {
    assert v == v / base * base + v % base;
  }

  lemma DivMod(q: nat, r: nat, base: nat)
    requires r < base
    ensures (q * base + r) / base == q && (q * base + r) % base == r
  {
    var v := q * base + r;
    assert v == v / base * base + v % base;
    assert (v / base - q) * base == r - v % base;
    if v / base > q { MulLe(1, v / base - q, base); }
    if v / base < q { MulLe(v / base - q, -1, base); }
  }

  lemma SmallMod(v: nat, base: nat)
    requires base >= 2 && v / base == 0
    ensures v % base == v
  {
    assert v == v / base * base + v % base;
  }

  lemma {:induction false} PowPositive(b: nat, e: nat)
    requires b > 0
    ensures Pow(b, e) > 0
    decreases e
  {
    if e > 0 { PowPositive(b, e - 1); MulPositive(b, Pow(b, e - 1)); }
  }

  lemma PowOne(b: nat)
    ensures Pow(b, 1) == b
  {
    assert Pow(b, 0) == 1;
  }

  lemma {:induction false} PowAdd(b: nat, e: nat, f: nat)
    ensures Pow(b, e + f) == Pow(b, e) * Pow(b, f)
    decreases e
  {
    if e > 0 {
      PowAdd(b, e - 1, f);
      Assoc(b, Pow(b, e - 1), Pow(b, f));
    }
  }

  lemma {:induction false} PowPow(b: nat, e: nat, k: nat)
    ensures Pow(Pow(b, e), k) == Pow(b, e * k)
    decreases k
  {
    if k > 0 {
      PowPow(b, e, k - 1);
      PowAdd(b, e, e * (k - 1));
      assert e + e * (k - 1) == e * k;
    } else {
      assert e * k == 0;
    }
  }

  lemma Products(a: nat, b: nat, c: nat, d: nat)
    requires a < b && c < d
    ensures a * c < b * d
  {
    MulLe(a, b, c);
    assert b * c < b * d by { assert b * d - b * c == b * (d - c); MulPositive(b, d - c); }
  }

  lemma {:induction false} PowLess(a: nat, b: nat, k: nat)
    requires a < b && k > 0
    ensures Pow(a, k) < Pow(b, k)
    decreases k
  {
    if k == 1 {
      PowOne(a);
      PowOne(b);
    } else {
      PowLess(a, b, k - 1);
      Products(a, b, Pow(a, k - 1), Pow(b, k - 1));
    }
  }

  lemma {:induction false} PowLe(b: nat, e: nat, f: nat)
    requires b > 0 && e <= f
    ensures Pow(b, e) <= Pow(b, f)
  {
    hide Pow;
    PowAdd(b, e, f - e);
    PowPositive(b, f - e);
    MulLe(1, Pow(b, f - e), Pow(b, e));
  }

  lemma PowStep(b: nat, e: nat)
    ensures Pow(b, e + 1) == b * Pow(b, e)
  {
  }
}
