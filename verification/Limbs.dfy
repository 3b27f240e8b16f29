/** Little-endian strings of 32-bit limbs and the numbers they stand for. */
module Limbs {
  import opened Powers

  const BASE: nat := 0x1_0000_0000

  type Limb = n: nat | n < BASE

  function Val(s: seq<Limb>): nat
    decreases |s|
  {
    if s == [] then 0 else Val(s[..|s| - 1]) + s[|s| - 1] * Pow(BASE, |s| - 1)
  }

  /** One more than the largest number of that many limbs. */
  function Modulus(width: nat): (m: nat)
    ensures m > 0
  {
    PowPositive(BASE, width);
    Pow(BASE, width)
  }

  lemma {:induction false} ValStep(s: seq<Limb>, i: nat)
    requires i < |s|
    ensures Val(s[..i + 1]) == Val(s[..i]) + s[i] * Pow(BASE, i)
  {
    hide Pow;
    assert s[..i + 1][..i] == s[..i];
  }

  lemma {:induction false} ValBound(s: seq<Limb>)
    ensures Val(s) < Pow(BASE, |s|)
    decreases |s|
  {
    if s != [] {
      var n := |s| - 1;
      ValBound(s[..n]);
      TopLimb(Val(s[..n]), s[n], Pow(BASE, n));
    }
  }

  lemma TopLimb(v: nat, d: Limb, p: nat)
    requires v < p
    ensures v + d * p < BASE * p
  {
    MulLe(d + 1, BASE, p);
  }

  lemma {:induction false} ValZero(s: seq<Limb>)
    requires forall i :: 0 <= i < |s| ==> s[i] == 0
    ensures Val(s) == 0
    decreases |s|
  {
    if s != [] {
      ValZero(s[..|s| - 1]);
      assert s[|s| - 1] * Pow(BASE, |s| - 1) == 0;
    }
  }

  lemma {:induction false} ValSplit(s: seq<Limb>, k: nat)
    requires k <= |s|
    ensures Val(s) == Val(s[..k]) + Pow(BASE, k) * Val(s[k..])
    decreases |s|
  {
    if k == |s| {
      assert s[..k] == s && s[k..] == [];
      assert Pow(BASE, k) * 0 == 0;
    } else {
      var n := |s| - 1;
      ValSplit(s[..n], k);
      assert s[..n][..k] == s[..k] && s[..n][k..] == s[k..][..n - k];
      PowAdd(BASE, k, n - k);
      Distribute(Pow(BASE, k), Val(s[k..n]), s[n], Pow(BASE, n - k));
      assert s[k..][..n - k] == s[k..n];
    }
  }

  lemma Distribute(p: nat, v: nat, d: nat, q: nat)
    ensures p * v + d * (p * q) == p * (v + d * q)
  {
    calc {
      p * (v + d * q);
      p * v + p * (d * q);
      { Assoc(p, d, q); Assoc(d, p, q); }
      p * v + d * (p * q);
    }
  }

  /** One place of a carry loop. */
  lemma {:induction false} Carry(v: nat, c: nat, p: nat, t: nat)
    ensures var n := c + t; v + n % BASE * p + n / BASE * (BASE * p) == v + c * p + t * p
  {
    var n := c + t;
    calc {
      n % BASE * p + n / BASE * (BASE * p);
      { Assoc(n / BASE, BASE, p); }
      n % BASE * p + n / BASE * BASE * p;
      (n % BASE + n / BASE * BASE) * p;
      n * p;
      c * p + t * p;
    }
  }

  /** The end of a carry loop: what is carried out is a multiple of the modulus. */
  lemma ModIs(v: nat, c: nat, m: nat, x: nat)
    requires v < m && v + c * m == x
    ensures x % m == v && x / m == c
  {
    DivMod(c, v, m);
  }

  lemma ModAdds(x: int, m: nat, k: int)
    requires m > 0
    ensures (x + k * m) % m == x % m
  {
    var q, r := x / m, x % m;
    assert x == q * m + r;
    var y := x + k * m;
    assert y == (q + k) * m + r by { assert (q + k) * m == q * m + k * m; }
    Unique(y / m, y % m, q + k, r, m);
  }

  lemma Unique(q: int, r: nat, s: int, t: nat, m: nat)
    requires r < m && t < m && q * m + r == s * m + t
    ensures q == s && r == t
  {
    assert (q - s) * m == t - r;
    if q > s { MulLe(1, q - s, m); }
    if q < s { MulLe(q - s, -1, m); }
  }

  // ---- Sums ----

  /** State of the addition loop: the first i limbs are done. */
  ghost predicate Summed(now: seq<Limb>, a: seq<Limb>, b: seq<Limb>, carry: nat, i: nat) {
    && i <= |now| == |a| == |b| && carry <= 1 && now[i..] == a[i..]
    && Val(now[..i]) + carry * Pow(BASE, i) == Val(a[..i]) + Val(b[..i])
  }

  lemma {:induction false} SummedNext(now: seq<Limb>, a: seq<Limb>, b: seq<Limb>, carry: nat, i: nat)
    requires Summed(now, a, b, carry, i) && i < |a|
    ensures now[i] == a[i]
    ensures var n := carry + a[i] + b[i]; Summed(now[i := n % BASE], a, b, n / BASE, i + 1)
  {
    hide Val, Pow;
    assert now[i] == now[i..][0] == a[i..][0];
    var x: nat, y: nat := a[i], b[i];
    var p, n, t := Pow(BASE, i), carry + a[i] + b[i], x + y;
    var next := now[i := n % BASE];
    assert next[i + 1..] == now[i..][1..] == a[i..][1..] == a[i + 1..];
    assert next[..i] == now[..i];
    ValStep(next, i);
    ValStep(a, i);
    ValStep(b, i);
    Carry(Val(now[..i]), carry, p, t);
    PowStep(BASE, i);
    assert t * p == a[i] * p + b[i] * p;
  }

  lemma {:induction false} SummedStart(a: seq<Limb>, b: seq<Limb>)
    requires |a| == |b|
    ensures Summed(a, a, b, 0, 0)
  {
  }

  lemma {:induction false} SummedEnd(now: seq<Limb>, a: seq<Limb>, b: seq<Limb>, carry: nat)
    requires Summed(now, a, b, carry, |a|)
    ensures Val(now) == (Val(a) + Val(b)) % Modulus(|a|)
  {
    assert now[..|a|] == now && a[..|a|] == a && b[..|a|] == b;
    ValBound(now);
    ModIs(Val(now), carry, Modulus(|a|), Val(a) + Val(b));
  }

  // ---- Complement and increment ----

  lemma {:induction false} ValComplement(s: seq<Limb>, t: seq<Limb>)
    requires |s| == |t| && forall i :: 0 <= i < |s| ==> t[i] == BASE - 1 - s[i]
    ensures Val(s) + Val(t) == Modulus(|s|) - 1
    decreases |s|
  {
    if s != [] {
      var n := |s| - 1;
      ValComplement(s[..n], t[..n]);
      var p := Pow(BASE, n);
      assert s[n] * p + t[n] * p == (s[n] + t[n]) * p == BASE * p - p;
    }
  }

  lemma {:induction false} OneMore(s: seq<Limb>, t: seq<Limb>, i: nat)
    requires |s| == |t| && i < |s| && Val(t[..i]) == 0 && Val(s[..i]) == Pow(BASE, i) - 1
    requires t[i] as nat == s[i] as nat + 1 && s[i + 1..] == t[i + 1..]
    ensures Val(t) == Val(s) + 1
  {
    hide Val, Pow;
    ValStep(s, i);
    ValStep(t, i);
    ValSplit(s, i + 1);
    ValSplit(t, i + 1);
    var x: nat, p := s[i], Pow(BASE, i);
    assert (x + 1) * p == x * p + p;
  }

  /** All ones up to i, then the limb counted up. */
  lemma {:induction false} ValIncrement(s: seq<Limb>, t: seq<Limb>, i: nat)
    requires |s| == |t| && i <= |s|
    requires forall k :: 0 <= k < i ==> s[k] == BASE - 1 && t[k] == 0
    requires i < |s| ==> t[i] as nat == s[i] as nat + 1 && s[i + 1..] == t[i + 1..]
    ensures Val(t) == (Val(s) + 1) % Modulus(|s|)
  {
    hide Val, Pow;
    ValZero(t[..i]);
    ValComplement(s[..i], t[..i]);
    ValBound(s);
    ValBound(t);
    if i == |s| {
      assert s[..i] == s && t[..i] == t;
      ModIs(0, 1, Modulus(|s|), Val(s) + 1);
      assert 1 * Modulus(|s|) == Modulus(|s|);
    } else {
      OneMore(s, t, i);
      ModIs(Val(t), 0, Modulus(|s|), Val(s) + 1);
    }
  }

  /** Adding the two's complement subtracts. */
  lemma {:induction false} SubMod(a: nat, b: nat, m: nat)
    requires b < m
    ensures (a + (m - b) % m) % m == (a - b) % m
  {
    if b == 0 {
      ModIs(0, 1, m, m);
    } else {
      ModIs(m - b, 0, m, m - b);
      ModAdds(a - b, m, 1);
    }
  }

  /** The complement plus one is the negation. */
  lemma {:induction false} NegMod(v: nat, c: nat, m: nat)
    requires v + c == m - 1 && m > 0
    ensures (c + 1) % m == (m - v) % m
  {
  }

  // ---- Products ----

  lemma {:induction false} ProductStep(now: seq<Limb>, a: seq<Limb>, x: Limb, carry: nat, i: nat)
    requires i < |now| == |a| && now[i..] == a[i..] && carry < BASE
    requires Val(now[..i]) + carry * Pow(BASE, i) == x * Val(a[..i])
    ensures now[i] == a[i]
    ensures var n := carry + x * a[i];
            && n / BASE < BASE && n < BASE * BASE
            && var next := now[i := n % BASE];
               next[i + 1..] == a[i + 1..] && Val(next[..i + 1]) + n / BASE * Pow(BASE, i + 1) == x * Val(a[..i + 1])
  {
    hide Val, Pow;
    assert now[i] == now[i..][0] == a[i..][0];
    var p, n := Pow(BASE, i), carry + x * a[i];
    var next := now[i := n % BASE];
    assert next[i + 1..] == now[i..][1..] == a[i..][1..] == a[i + 1..];
    assert next[..i] == now[..i];
    LimbProduct(x, a[i], carry, 0);
    ValStep(next, i);
    ValStep(a, i);
    Carry(Val(now[..i]), carry, p, x * a[i]);
    PowStep(BASE, i);
    Distribute(x, Val(a[..i]), 1, a[i] * p);
    Assoc(x, a[i], p);
  }

  /** A 64-bit word is enough for a product of limbs with a carry and one more limb. */
  lemma LimbProduct(x: Limb, y: Limb, carry: nat, z: nat)
    requires carry < BASE && z < BASE
    ensures carry + z + x * y < BASE * BASE && (carry + z + x * y) / BASE < BASE
  {
    MulLe(x, BASE - 1, y);
    MulLe(y, BASE - 1, BASE - 1);
  }

  /** Row j of the long multiplication: acc gains x * b * BASE^j, done up to limb i of b. */
  ghost predicate Row(acc: seq<Limb>, was: seq<Limb>, b: seq<Limb>, x: Limb, j: nat, i: nat, carry: nat) {
    && i + j <= |acc| == |was| == |b| && carry < BASE && acc[i + j..] == was[i + j..]
    && Val(acc[..i + j]) + carry * Pow(BASE, i + j) == Val(was[..i + j]) + x * Val(b[..i]) * Pow(BASE, j)
  }

  lemma {:induction false} RowNext(acc: seq<Limb>, was: seq<Limb>, b: seq<Limb>, x: Limb, j: nat, i: nat, carry: nat)
    requires Row(acc, was, b, x, j, i, carry) && i + j < |acc|
    ensures var n := carry + acc[i + j] + x * b[i];
            n < BASE * BASE && Row(acc[i + j := n % BASE], was, b, x, j, i + 1, n / BASE)
  {
    hide Val, Pow;
    var k := i + j;
    assert acc[k] == acc[k..][0] == was[k..][0] == was[k];
    var p, n := Pow(BASE, k), carry + acc[k] + x * b[i];
    var next := acc[k := n % BASE];
    assert next[k + 1..] == acc[k..][1..] == was[k..][1..] == was[k + 1..];
    assert next[..k] == acc[..k];
    LimbProduct(x, b[i], carry, acc[k]);
    ValStep(next, k);
    ValStep(was, k);
    ValStep(b, i);
    Carry(Val(acc[..k]), carry, p, acc[k] + x * b[i]);
    PowStep(BASE, k);
    PowAdd(BASE, i, j);
    RowAlgebra(x, Val(b[..i]), b[i], Pow(BASE, i), Pow(BASE, j), acc[k], p);
  }

  lemma {:induction false} RowAlgebra(x: nat, v: nat, d: nat, p: nat, q: nat, z: nat, pq: nat)
    requires pq == p * q
    ensures x * (v + d * p) * q + z * pq == x * v * q + (z + x * d) * pq
  {
    calc {
      x * (v + d * p) * q;
      (x * v + x * (d * p)) * q;
      { Assoc(x, d, p); }
      (x * v + x * d * p) * q;
      x * v * q + x * d * p * q;
      { Assoc(x * d, p, q); }
      x * v * q + x * d * pq;
    }
    assert (z + x * d) * pq == z * pq + x * d * pq;
  }

  /** After the whole row, up to a multiple of the modulus. */
  lemma {:induction false} RowEnd(acc: seq<Limb>, was: seq<Limb>, a: seq<Limb>, b: seq<Limb>, j: nat, carry: nat, q: nat)
    requires j < |a| == |acc| && Row(acc, was, b, a[j], j, |a| - j, carry)
    requires Val(was) + q * Modulus(|a|) == Val(a[..j]) * Val(b)
    ensures Val(acc) + (q + carry + a[j] * Val(b[|a| - j..])) * Modulus(|a|) == Val(a[..j + 1]) * Val(b)
  {
    hide Val, Pow;
    var w, x, m := |a|, a[j], Modulus(|a|);
    assert acc[..w] == acc && was[..w] == was;
    ValStep(a, j);
    ValSplit(b, w - j);
    PowAdd(BASE, w - j, j);
    var lo, hi, pj, pk := Val(b[..w - j]), Val(b[w - j..]), Pow(BASE, j), Pow(BASE, w - j);
    calc {
      Val(a[..j + 1]) * Val(b);
      Val(a[..j]) * Val(b) + x * pj * Val(b);
      { HighPart(x, pj, pk, lo, hi); }
      Val(a[..j]) * Val(b) + x * lo * pj + x * hi * (pk * pj);
      Val(was) + q * m + x * lo * pj + x * hi * m;
      Val(acc) + carry * m + q * m + x * hi * m;
      { assert (q + carry + x * hi) * m == q * m + carry * m + x * hi * m; }
      Val(acc) + (q + carry + x * hi) * m;
    }
  }

  lemma {:induction false} HighPart(x: nat, pj: nat, pk: nat, lo: nat, hi: nat)
    ensures x * pj * (lo + pk * hi) == x * lo * pj + x * hi * (pk * pj)
  {
    calc {
      x * pj * (lo + pk * hi);
      x * pj * lo + x * pj * (pk * hi);
      { assert x * pj * lo == x * lo * pj; }
      x * lo * pj + x * pj * (pk * hi);
      { assert x * pj * (pk * hi) == x * hi * (pk * pj); }
      x * lo * pj + x * hi * (pk * pj);
    }
  }
}
