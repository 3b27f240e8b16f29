/** Bits of limbs, and what shifting, comparing and setting a bit do to the number. */
module LimbShifts {
  import opened Powers
  import opened Limbs

  // ---- Single limbs ----

  /** Bitwise or. */
  function Or(a: nat, b: nat): nat
    decreases a + b
  {
    if a == 0 && b == 0 then 0 else (if a % 2 == 1 || b % 2 == 1 then 1 else 0) + 2 * Or(a / 2, b / 2)
  }

  lemma {:induction false} OrZero(b: nat)
    ensures Or(0, b) == b
    decreases b
  {
    if b > 0 { OrZero(b / 2); }
  }

  lemma {:induction false} OrFlip(a: nat, b: nat)
    ensures Or(a, b) == Or(b, a)
    decreases a + b
  {
    if a > 0 || b > 0 { OrFlip(a / 2, b / 2); }
  }

  /** Where no bit is shared, or is addition. */
  lemma {:induction false} OrDisjoint(a: nat, q: nat, s: nat)
    requires a < Pow(2, s)
    ensures Or(a, q * Pow(2, s)) == a + q * Pow(2, s) && Or(q * Pow(2, s), a) == a + q * Pow(2, s)
    decreases s
  {
    var b := q * Pow(2, s);
    OrFlip(a, b);
    if s == 0 {
      OrZero(b);
    } else {
      var h := q * Pow(2, s - 1);
      assert b == 2 * h by { Assoc(q, 2, Pow(2, s - 1)); Assoc(2, q, Pow(2, s - 1)); }
      OrDisjoint(a / 2, q, s - 1);
    }
  }

  lemma {:induction false} Split32(r: nat)
    requires r <= 32
    ensures Pow(2, r) * Pow(2, 32 - r) == BASE
  {
    hide Pow;
    PowAdd(2, r, 32 - r);
    Pow32();
  }

  lemma {:induction false} Pow32()
    ensures Pow(2, 32) == BASE
  {
    assert Pow(2, 8) == 256;
    PowAdd(2, 8, 8);
    PowAdd(2, 16, 16);
  }

  /** What a left shift by r leaves in the limb, and what it moves to the next one. */
  function ShlLow(a: Limb, r: nat): Limb
    requires r < 32
  {
    a * Pow(2, r) % BASE
  }

  function ShlHigh(a: Limb, r: nat): nat
    requires r < 32
  {
    if r == 0 then 0 else
      PowPositive(2, 32 - r);
      a / Pow(2, 32 - r)
  }

  lemma {:induction false} ShlParts(a: Limb, r: nat) returns (l: nat)
    requires r < 32
    ensures a * Pow(2, r) == ShlLow(a, r) + BASE * ShlHigh(a, r)
    ensures ShlHigh(a, r) < Pow(2, r) && ShlLow(a, r) == l * Pow(2, r)
  {
    hide Pow;
    var p, q := Pow(2, r), Pow(2, 32 - r);
    Split32(r);
    PowPositive(2, r);
    PowPositive(2, 32 - r);
    if r == 0 {
      PowZero();
      l := a;
    } else {
      var h := a / q;
      l := a % q;
      assert a == h * q + l;
      Times(h, q, l, p);
      assert q * p == p * q;
      MulLe(l, q - 1, p);
      assert (q - 1) * p == q * p - p;
      DivMod(h, l * p, BASE);
      Quotient(a, p, q);
    }
  }

  lemma Times(h: nat, q: nat, l: nat, p: nat)
    ensures (h * q + l) * p == h * (q * p) + l * p
  {
    Assoc(h, q, p);
    assert (h * q + l) * p == h * q * p + l * p;
  }

  lemma Quotient(a: nat, p: nat, q: nat)
    requires q > 0 && a < p * q
    ensures a / q < p
  {
    var h := a / q;
    assert a == h * q + a % q;
    if h >= p { MulLe(p, h, q); }
  }

  lemma PowZero()
    ensures Pow(2, 0) == 1
  {
  }

  /** What a right shift by r leaves in the limb, and what it moves to the one below. */
  function ShrHigh(a: Limb, r: nat): Limb
    requires r < 32
  {
    PowPositive(2, r);
    QuotLe(a, Pow(2, r));
    a / Pow(2, r)
  }

  lemma QuotLe(a: nat, p: nat)
    requires p > 0
    ensures a / p <= a
  {
    assert a == a / p * p + a % p;
    MulLe(1, p, a / p);
  }

  function ShrLow(a: Limb, r: nat): Limb
    requires r < 32
  {
    if r == 0 then 0 else a * Pow(2, 32 - r) % BASE
  }

  lemma {:induction false} ShrParts(a: Limb, r: nat) returns (l: nat)
    requires r < 32
    ensures Pow(2, r) > 0
    ensures ShrHigh(a, r) < Pow(2, 32 - r) && ShrLow(a, r) == l * Pow(2, 32 - r) && l == a % Pow(2, r)
    ensures ShrLow(a, r) * Pow(2, r) == l * BASE && a == ShrHigh(a, r) * Pow(2, r) + l
  {
    hide Pow;
    var p, q := Pow(2, r), Pow(2, 32 - r);
    Split32(r);
    PowPositive(2, r);
    PowPositive(2, 32 - r);
    l := a % p;
    var h := a / p;
    assert a == h * p + l;
    assert p * q == q * p;
    Quotient(a, q, p);
    if r == 0 {
      PowZero();
    } else {
      Times(h, p, l, q);
      MulLe(l, p - 1, q);
      assert (p - 1) * q == p * q - q;
      DivMod(h, l * q, BASE);
      Assoc(l, q, p);
    }
  }

  // ---- Changing one limb ----

  lemma {:induction false} ValPut(s: seq<Limb>, i: nat, x: Limb)
    requires i < |s|
    ensures Val(s[i := x]) + s[i] * Pow(BASE, i) == Val(s) + x * Pow(BASE, i)
  {
    hide Val, Pow;
    var t := s[i := x];
    ValSplit(s, i + 1);
    ValSplit(t, i + 1);
    ValStep(s, i);
    ValStep(t, i);
    assert t[i + 1..] == s[i + 1..] && t[..i] == s[..i];
  }

  /** Adding to one limb and filling the clear limb above it. */
  lemma {:induction false} ValPutTwo(s: seq<Limb>, m: nat, lo: nat, hi: Limb)
    requires m + 1 < |s| && s[m + 1] == 0 && s[m] as nat + lo < BASE
    ensures Val(s[m + 1 := hi][m := s[m] as nat + lo]) == Val(s) + lo * Pow(BASE, m) + hi * (BASE * Pow(BASE, m))
    ensures s[m + 1 := hi][m := s[m] as nat + lo] == s[m := s[m] as nat + lo][m + 1 := hi]
  {
    hide Val, Pow;
    var x: nat, p := s[m], Pow(BASE, m);
    ValPut(s, m + 1, hi);
    ValPut(s[m + 1 := hi], m, x + lo);
    PowStep(BASE, m);
    assert (x + lo) * p == x * p + lo * p;
    assert 0 * (BASE * p) == 0;
  }

  // ---- Left shift ----

  function Least(a: nat, b: nat): nat { if a < b then a else b }

  /** State of the left-shift loop; c is what was shifted out. */
  ghost predicate Shl(out: seq<Limb>, a: seq<Limb>, k: nat, r: nat, i: nat, c: nat) {
    && |out| == |a| && k <= |a| && i <= |a| && r < 32
    && Val(out) + c * Modulus(|a|) == Val(a[..Least(i, |a| - k)]) * Pow(2, r) * Pow(BASE, k)
    && (i + k < |a| ==> c == 0 && out[i + k] < Pow(2, r) && forall m :: i + k < m < |a| ==> out[m] == 0)
  }

  lemma {:induction false} ShlStart(out: seq<Limb>, a: seq<Limb>, k: nat, r: nat)
    requires |out| == |a| && k <= |a| && r < 32 && forall m :: 0 <= m < |a| ==> out[m] == 0
    ensures Shl(out, a, k, r, 0, 0)
  {
    ValZero(out);
    PowPositive(2, r);
    assert 0 * Pow(2, r) * Pow(BASE, k) == 0;
    assert 0 * Modulus(|a|) == 0;
  }

  /** One round, below the top limb. */
  lemma {:induction false} ShlNext(out: seq<Limb>, a: seq<Limb>, k: nat, r: nat, i: nat)
    requires Shl(out, a, k, r, i, 0) && i + k + 1 < |a|
    ensures Or(0, ShlHigh(a[i], r)) == ShlHigh(a[i], r) < BASE && Or(out[i + k], ShlLow(a[i], r)) < BASE
    ensures Shl(out[i + k + 1 := ShlHigh(a[i], r)][i + k := Or(out[i + k], ShlLow(a[i], r))], a, k, r, i + 1, 0)
  {
    hide Val, Pow;
    var m := i + k;
    var lo, hi := ShlLow(a[i], r), ShlHigh(a[i], r);
    OrZero(hi);
    ShlLimb(out, a, k, r, i);
    ValPutTwo(out, m, lo, hi);
    ShlSum(Val(a[..i]), a[i], Pow(BASE, i), Pow(2, r), Pow(BASE, k), out[m], lo, hi, Pow(BASE, m));
  }

  /** The round that fills the top limb. */
  lemma {:induction false} ShlTop(out: seq<Limb>, a: seq<Limb>, k: nat, r: nat, i: nat)
    requires Shl(out, a, k, r, i, 0) && i + k + 1 == |a|
    ensures Or(out[i + k], ShlLow(a[i], r)) < BASE
    ensures Shl(out[i + k := Or(out[i + k], ShlLow(a[i], r))], a, k, r, i + 1, ShlHigh(a[i], r))
  {
    hide Val, Pow;
    var m := i + k;
    var lo, hi := ShlLow(a[i], r), ShlHigh(a[i], r);
    ShlLimb(out, a, k, r, i);
    PowStep(BASE, m);
    ValPut(out, m, Or(out[m], lo));
    ShlSum(Val(a[..i]), a[i], Pow(BASE, i), Pow(2, r), Pow(BASE, k), out[m], lo, hi, Pow(BASE, m));
  }

  lemma {:induction false} ShlLimb(out: seq<Limb>, a: seq<Limb>, k: nat, r: nat, i: nat)
    requires Shl(out, a, k, r, i, 0) && i + k < |a|
    ensures Or(out[i + k], ShlLow(a[i], r)) == out[i + k] as nat + ShlLow(a[i], r) as nat < BASE
    ensures ShlHigh(a[i], r) < Pow(2, r) <= BASE && a[i] * Pow(2, r) == ShlLow(a[i], r) + BASE * ShlHigh(a[i], r)
    ensures Pow(BASE, i + k) == Pow(BASE, i) * Pow(BASE, k)
    ensures Val(a[..i + 1]) == Val(a[..i]) + a[i] * Pow(BASE, i)
  {
    hide Val, Pow;
    var l := ShlParts(a[i], r);
    OrDisjoint(out[i + k], l, r);
    ValStep(a, i);
    PowAdd(BASE, i, k);
    Split32(r);
    PowPositive(2, 32 - r);
    MulLe(1, Pow(2, 32 - r), Pow(2, r));
    Below(out[i + k], l, Pow(2, r), Pow(2, 32 - r));
  }

  /** A multiple of p below p*q plus something below p is below p*q. */
  lemma Below(x: nat, l: nat, p: nat, q: nat)
    requires x < p && l * p < p * q
    ensures x + l * p < p * q
  {
    if l >= q { MulLe(q, l, p); }
    MulLe(l + 1, q, p);
  }

  lemma {:induction false} ShlSum(v: nat, d: nat, pi: nat, p: nat, pk: nat, o: nat, lo: nat, hi: nat, pm: nat)
    requires d * p == lo + BASE * hi && pm == pi * pk
    ensures v * p * pk + (lo * pm + hi * (BASE * pm)) == (v + d * pi) * p * pk
  {
    calc {
      (v + d * pi) * p * pk;
      (v * p + d * pi * p) * pk;
      v * p * pk + d * pi * p * pk;
      { Reorder(d, pi, p, pk); }
      v * p * pk + d * p * pm;
      v * p * pk + (lo + BASE * hi) * pm;
      { assert (lo + BASE * hi) * pm == lo * pm + BASE * hi * pm; assert BASE * hi * pm == hi * (BASE * pm); }
      v * p * pk + (lo * pm + hi * (BASE * pm));
    }
  }

  lemma Reorder(d: nat, pi: nat, p: nat, pk: nat)
    ensures d * pi * p * pk == d * p * (pi * pk)
  {
    assert d * pi * p == d * p * pi;
    Assoc(d * p, pi, pk);
  }

  lemma {:induction false} TwoPow(k: nat, r: nat)
    ensures Pow(2, 32 * k + r) == Pow(2, r) * Pow(BASE, k)
  {
    hide Pow;
    PowAdd(2, 32 * k, r);
    PowPow(2, 32, k);
    Pow32();
    assert Pow(BASE, k) * Pow(2, r) == Pow(2, r) * Pow(BASE, k);
  }

  lemma {:induction false} ShlEnd(out: seq<Limb>, a: seq<Limb>, k: nat, r: nat, c: nat)
    requires Shl(out, a, k, r, |a|, c)
    ensures Val(out) == Val(a) * Pow(2, 32 * k + r) % Modulus(|a|)
  {
    hide Val, Pow;
    var w, n := |a|, |a| - k;
    var p, pk, pn, m := Pow(2, r), Pow(BASE, k), Pow(BASE, n), Modulus(|a|);
    TwoPow(k, r);
    ValSplit(a, n);
    PowAdd(BASE, n, k);
    ValBound(out);
    var lo, hi := Val(a[..n]), Val(a[n..]);
    calc {
      (lo + pn * hi) * (p * pk);
      lo * (p * pk) + pn * hi * (p * pk);
      { Assoc(lo, p, pk); Reorder(hi, pn, p, pk); Assoc(pn * hi, p, pk); assert pn * hi == hi * pn; }
      lo * p * pk + hi * p * m;
      Val(out) + c * m + hi * p * m;
      { assert (c + hi * p) * m == c * m + hi * p * m; }
      Val(out) + (c + hi * p) * m;
    }
    ModIs(Val(out), c + hi * p, m, Val(a) * (p * pk));
  }

  /** Shifting by the whole width or more leaves nothing. */
  lemma {:induction false} ShlAll(out: seq<Limb>, a: seq<Limb>, k: nat, r: nat)
    requires |out| == |a| <= k && forall m :: 0 <= m < |a| ==> out[m] == 0
    ensures Val(out) == Val(a) * Pow(2, 32 * k + r) % Modulus(|a|)
  {
    hide Val, Pow;
    ValZero(out);
    TwoPow(k, r);
    PowAdd(BASE, |a|, k - |a|);
    var v, p, m, x := Val(a), Pow(2, r), Modulus(|a|), Pow(BASE, k - |a|);
    assert v * (p * (m * x)) == v * p * x * m by { Assoc(v, p, m * x); Assoc(v * p, x, m); assert m * x == x * m; }
    ModIs(0, v * p * x, m, v * (p * (m * x)));
  }

  // ---- Left shift, round by round, for every shift ----

  /** Both contributions of a limb fit where they are put. */
  ghost predicate LeftOk(o: seq<Limb>, x: Limb, k: nat, r: nat, i: nat)
    requires r < 32
  {
    && (i + k + 1 < |o| ==> o[i + k + 1] == 0 && Or(0, ShlHigh(x, r)) == ShlHigh(x, r) < BASE)
    && (i + k < |o| ==> Or(o[i + k], ShlLow(x, r)) < BASE)
  }

  ghost function Left(o: seq<Limb>, x: Limb, k: nat, r: nat, i: nat): (n: seq<Limb>)
    requires r < 32 && LeftOk(o, x, k, r, i)
    ensures |n| == |o|
  {
    if i + k + 1 < |o| then o[i + k + 1 := ShlHigh(x, r)][i + k := Or(o[i + k], ShlLow(x, r))]
    else if i + k < |o| then o[i + k := Or(o[i + k], ShlLow(x, r))]
    else o
  }

  ghost predicate ShlState(out: seq<Limb>, a: seq<Limb>, k: nat, r: nat, i: nat, c: nat) {
    if k < |a| then Shl(out, a, k, r, i, c) else |out| == |a| && r < 32 && forall m :: 0 <= m < |a| ==> out[m] == 0
  }

  lemma {:induction false} ShlBegin(out: seq<Limb>, a: seq<Limb>, k: nat, r: nat)
    requires |out| == |a| && r < 32 && forall m :: 0 <= m < |a| ==> out[m] == 0
    ensures ShlState(out, a, k, r, 0, 0)
  {
    if k < |a| { ShlStart(out, a, k, r); }
  }

  lemma {:induction false} ShlRound(out: seq<Limb>, a: seq<Limb>, k: nat, r: nat, i: nat, c: nat) returns (c': nat)
    requires r < 32 && i < |a| && ShlState(out, a, k, r, i, c)
    ensures LeftOk(out, a[i], k, r, i) && ShlState(Left(out, a[i], k, r, i), a, k, r, i + 1, c')
  {
    hide Val, Pow, Or, ShlLow, ShlHigh;
    c' := c;
    if i + k + 1 < |a| {
      ShlNext(out, a, k, r, i);
    } else if i + k + 1 == |a| {
      ShlTop(out, a, k, r, i);
      c' := ShlHigh(a[i], r);
    }
  }

  lemma {:induction false} ShlFinish(out: seq<Limb>, a: seq<Limb>, k: nat, r: nat, c: nat)
    requires ShlState(out, a, k, r, |a|, c)
    ensures Val(out) == Val(a) * Pow(2, 32 * k + r) % Modulus(|a|)
  {
    hide Val, Pow, Shl;
    if k < |a| { ShlEnd(out, a, k, r, c); } else { ShlAll(out, a, k, r); }
  }

  // ---- Right shift ----

  /** State of the right-shift loop. */
  ghost predicate Shr(out: seq<Limb>, a: seq<Limb>, k: nat, r: nat, i: nat) {
    && |out| == |a| && k < |a| && i <= |a| && r < 32 && Pow(2, r) > 0
    && (forall m :: 0 <= m < |a| && m >= i - k ==> out[m] == 0)
    && (i > k ==> out[i - k - 1] < Pow(2, 32 - r) && Val(out) * Pow(2, r) + a[k] % Pow(2, r) == Val(a[k..i]))
  }

  lemma {:induction false} ShrFirst(out: seq<Limb>, a: seq<Limb>, k: nat, r: nat)
    requires Shr(out, a, k, r, k)
    ensures Or(0, ShrHigh(a[k], r)) == ShrHigh(a[k], r)
    ensures Shr(out[0 := ShrHigh(a[k], r)], a, k, r, k + 1)
  {
    hide Val, Pow;
    var l := ShrParts(a[k], r);
    var h := ShrHigh(a[k], r);
    OrZero(h);
    ValZero(out);
    ValPut(out, 0, h);
    PowZeroBase();
    assert a[k..k + 1] == [a[k]];
    ValOne(a[k]);
  }

  lemma PowZeroBase()
    ensures Pow(BASE, 0) == 1
  {
  }

  lemma ValOne(x: Limb)
    ensures Val([x]) == x
  {
    assert [x][..0] == [];
    assert Val([]) == 0;
  }

  lemma {:induction false} ShrNext(out: seq<Limb>, a: seq<Limb>, k: nat, r: nat, i: nat)
    requires Shr(out, a, k, r, i) && k < i < |a|
    ensures Or(out[i - k - 1], ShrLow(a[i], r)) < BASE && Or(0, ShrHigh(a[i], r)) == ShrHigh(a[i], r)
    ensures Shr(out[i - k - 1 := Or(out[i - k - 1], ShrLow(a[i], r))][i - k := ShrHigh(a[i], r)], a, k, r, i + 1)
  {
    hide Val, Pow;
    var n := i - k;
    var l := ShrParts(a[i], r);
    var h, low := ShrHigh(a[i], r), ShrLow(a[i], r);
    OrZero(h);
    OrDisjoint(out[n - 1], l, 32 - r);
    Split32(r);
    Below(out[n - 1], l, Pow(2, 32 - r), Pow(2, r));
    var y := Or(out[n - 1], low);
    ValPutTwo(out, n - 1, low, h);
    PowStep(BASE, n - 1);
    ValStep(a[k..], n);
    assert a[k..][..n + 1] == a[k..i + 1] && a[k..][..n] == a[k..i] && a[k..][n] == a[i];
    ShrSum(Val(out), low, h, l, a[i], Pow(BASE, n - 1), Pow(2, r));
  }

  lemma {:induction false} ShrSum(v: nat, low: nat, h: nat, l: nat, d: nat, q: nat, p: nat)
    requires low * p == l * BASE && d == h * p + l
    ensures (v + low * q + h * (BASE * q)) * p == v * p + d * (BASE * q)
  {
    calc {
      (v + low * q + h * (BASE * q)) * p;
      v * p + low * q * p + h * (BASE * q) * p;
      { assert low * q * p == low * p * q; assert h * (BASE * q) * p == h * p * (BASE * q); }
      v * p + l * BASE * q + h * p * (BASE * q);
      { Assoc(l, BASE, q); }
      v * p + l * (BASE * q) + h * p * (BASE * q);
      { assert (h * p + l) * (BASE * q) == h * p * (BASE * q) + l * (BASE * q); }
      v * p + d * (BASE * q);
    }
  }

  lemma {:induction false} ShrEnd(out: seq<Limb>, a: seq<Limb>, k: nat, r: nat)
    requires Shr(out, a, k, r, |a|)
    ensures Pow(2, 32 * k + r) > 0 && Val(out) == Val(a) / Pow(2, 32 * k + r)
  {
    hide Val, Pow;
    TwoPow(k, r);
    PowPositive(2, 32 * k + r);
    ValSplit(a, k);
    ValBound(a[..k]);
    assert a[k..|a|] == a[k..];
    var p, pk, lo, rem, v := Pow(2, r), Pow(BASE, k), Val(a[..k]), a[k] % Pow(2, r), Val(out);
    calc {
      lo + pk * (v * p + rem);
      { Distribute(pk, rem, v, p); }
      v * (pk * p) + (rem * pk + lo);
      { assert pk * p == p * pk; }
      v * (p * pk) + (rem * pk + lo);
    }
    MulLe(rem + 1, p, pk);
    assert (rem + 1) * pk == rem * pk + pk;
    DivMod(v, rem * pk + lo, p * pk);
  }

  lemma {:induction false} ShrAll(out: seq<Limb>, a: seq<Limb>, k: nat, r: nat)
    requires |out| == |a| <= k && forall m :: 0 <= m < |a| ==> out[m] == 0
    ensures Pow(2, 32 * k + r) > 0 && Val(out) == Val(a) / Pow(2, 32 * k + r)
  {
    hide Val, Pow;
    ValZero(out);
    TwoPow(k, r);
    PowPositive(2, 32 * k + r);
    PowLe(BASE, |a|, k);
    ValBound(a);
    PowPositive(2, r);
    MulLe(1, Pow(2, r), Pow(BASE, k));
    DivMod(0, Val(a), Pow(2, 32 * k + r));
  }

  // ---- Right shift, round by round, for every shift ----

  ghost predicate RightOk(o: seq<Limb>, x: Limb, k: nat, r: nat, i: nat)
    requires r < 32 && i < |o|
  {
    && (i >= k ==> o[i - k] == 0 && Or(0, ShrHigh(x, r)) == ShrHigh(x, r))
    && (i > k ==> Or(o[i - k - 1], ShrLow(x, r)) < BASE && (r == 0 ==> Or(o[i - k - 1], ShrLow(x, r)) == o[i - k - 1]))
  }

  ghost function Right(o: seq<Limb>, x: Limb, k: nat, r: nat, i: nat): (n: seq<Limb>)
    requires r < 32 && i < |o| && RightOk(o, x, k, r, i)
    ensures |n| == |o|
  {
    if i > k then o[i - k - 1 := Or(o[i - k - 1], ShrLow(x, r))][i - k := ShrHigh(x, r)]
    else if i == k then o[0 := ShrHigh(x, r)]
    else o
  }

  ghost predicate ShrState(out: seq<Limb>, a: seq<Limb>, k: nat, r: nat, i: nat) {
    if k < |a| then Shr(out, a, k, r, if i < k then k else i) else |out| == |a| && r < 32 && forall m :: 0 <= m < |a| ==> out[m] == 0
  }

  lemma {:induction false} ShrBegin(out: seq<Limb>, a: seq<Limb>, k: nat, r: nat)
    requires |out| == |a| && r < 32 && forall m :: 0 <= m < |a| ==> out[m] == 0
    ensures ShrState(out, a, k, r, 0)
  {
    PowPositive(2, r);
  }

  lemma {:induction false} ShrRound(out: seq<Limb>, a: seq<Limb>, k: nat, r: nat, i: nat)
    requires r < 32 && i < |a| && ShrState(out, a, k, r, i) && |out| == |a|
    ensures RightOk(out, a[i], k, r, i) && ShrState(Right(out, a[i], k, r, i), a, k, r, i + 1)
  {
    hide Val, Pow, Or, ShrHigh;
    if i == k {
      ShrFirst(out, a, k, r);
    } else if i > k {
      ShrNext(out, a, k, r, i);
      OrNone(out[i - k - 1]);
    }
  }

  lemma OrNone(x: nat)
    ensures Or(x, 0) == x
  {
    OrFlip(x, 0);
    OrZero(x);
  }

  lemma {:induction false} ShrFinish(out: seq<Limb>, a: seq<Limb>, k: nat, r: nat)
    requires ShrState(out, a, k, r, |a|)
    ensures Pow(2, 32 * k + r) > 0 && Val(out) == Val(a) / Pow(2, 32 * k + r)
  {
    hide Val, Pow, Shr;
    if k < |a| { ShrEnd(out, a, k, r); } else { ShrAll(out, a, k, r); }
  }

  // ---- Comparison ----

  lemma {:induction false} Differs(a: seq<Limb>, b: seq<Limb>, i: nat)
    requires |a| == |b| && i < |a| && a[i + 1..] == b[i + 1..] && a[i] < b[i]
    ensures Val(a) < Val(b)
  {
    hide Val, Pow;
    ValSplit(a, i + 1);
    ValSplit(b, i + 1);
    ValStep(a, i);
    ValStep(b, i);
    ValBound(a[..i]);
    var x: nat, y: nat, p := a[i], b[i], Pow(BASE, i);
    MulLe(x + 1, y, p);
    assert (x + 1) * p == x * p + p;
  }

  // ---- Bit length ----

  /** A number has n bits when it lies between two powers of two. */
  ghost predicate HasBits(v: nat, n: nat) {
    if n == 0 then v == 0 else Pow(2, n - 1) <= v < Pow(2, n)
  }

  lemma {:induction false} TopBits(s: seq<Limb>, pos: nat, n: nat)
    requires pos < |s| && n < 32 && Pow(2, n) <= s[pos] < Pow(2, n + 1) && forall m :: pos < m < |s| ==> s[m] == 0
    ensures HasBits(Val(s), 32 * pos + n + 1)
  {
    hide Val, Pow;
    ValSplit(s, pos + 1);
    ValZero(s[pos + 1..]);
    ValStep(s, pos);
    ValBound(s[..pos]);
    TwoPow(pos, n);
    TwoPow(pos, n + 1);
    var x: nat, p := s[pos], Pow(BASE, pos);
    MulLe(Pow(2, n), x, p);
    MulLe(x + 1, Pow(2, n + 1), p);
    assert (x + 1) * p == x * p + p;
    assert Pow(BASE, pos + 1) * 0 == 0;
  }

  /** If the bit is clear and none above is set, the limb is that much smaller. */
  lemma {:induction false} BitClear(x: nat, n: nat)
    requires x < Pow(2, n + 1)
    ensures Pow(2, n) > 0 && x / Pow(2, n) % 2 == (if x < Pow(2, n) then 0 else 1)
  {
    var p := Pow(2, n);
    PowPositive(2, n);
    assert Pow(2, n + 1) == 2 * p;
    if x < p { DivMod(0, x, p); } else { DivMod(1, x - p, p); }
  }

  // ---- Setting a bit of the quotient ----

  /** Bit s and all bits below it are clear. */
  ghost predicate Clear(q: seq<Limb>, s: nat) {
    && s / 32 < |q|
    && (forall m :: 0 <= m < s / 32 ==> q[m] == 0)
    && Pow(2, s % 32 + 1) > 0 && q[s / 32] % Pow(2, s % 32 + 1) == 0
  }

  lemma {:induction false} SetBit(q: seq<Limb>, s: nat)
    requires Clear(q, s)
    ensures Or(q[s / 32], Pow(2, s % 32)) < BASE
    ensures Val(q[s / 32 := Or(q[s / 32], Pow(2, s % 32))]) == Val(q) + Pow(2, s)
    ensures s > 0 ==> Clear(q[s / 32 := Or(q[s / 32], Pow(2, s % 32))], s - 1) && Clear(q, s - 1)
  {
    hide Val, Pow;
    var j, b := s / 32, s % 32;
    var x, p := q[j], Pow(2, b);
    PowPositive(2, b);
    HalfClear(x, b);
    var y := Or(x, p);
    ValPut(q, j, y);
    TwoPow(j, b);
    var z: nat := x;
    assert (z + p) * Pow(BASE, j) == z * Pow(BASE, j) + p * Pow(BASE, j);
    if s > 0 {
      if b > 0 {
        assert (s - 1) / 32 == j && (s - 1) % 32 + 1 == b;
      } else {
        assert (s - 1) / 32 == j - 1 && (s - 1) % 32 == 31;
        PowPositive(2, 32);
        ModZero(Pow(2, 32));
      }
    }
  }

  lemma ModZero(m: nat)
    requires m > 0
    ensures 0 % m == 0
  {
  }

  /** A limb with the low b+1 bits clear: bit b can be added, and then the low b bits are clear. */
  lemma {:induction false} HalfClear(x: Limb, b: nat)
    requires b < 32 && Pow(2, b + 1) > 0 && x % Pow(2, b + 1) == 0
    ensures Pow(2, b) > 0 && Or(x, Pow(2, b)) == x as nat + Pow(2, b) < BASE
    ensures x % Pow(2, b) == 0 && (x as nat + Pow(2, b)) % Pow(2, b) == 0
  {
    var p, m := Pow(2, b), x / Pow(2, b + 1);
    PowPositive(2, b);
    assert Pow(2, b + 1) == 2 * p;
    assert x == m * (2 * p) by { assert x == m * Pow(2, b + 1) + x % Pow(2, b + 1); }
    OrDisjoint(p, m, b + 1);
    Assoc(m, 2, p);
    DivMod(m * 2, 0, p);
    DivMod(m * 2 + 1, 0, p);
    assert (m * 2 + 1) * p == m * 2 * p + p;
    Split32(b + 1);
    Below(p, m, 2 * p, Pow(2, 31 - b));
  }
}
