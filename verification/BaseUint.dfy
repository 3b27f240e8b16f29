/** Fixed-width unsigned integers as arrays of 32-bit limbs; every operator is proved against the integers. */
module BaseUints {
  import opened Powers
  import opened Limbs
  import opened LimbShifts

  class BaseUint {
    const pn: array<Limb>

    function Value(): nat
      reads pn
    {
      Val(pn[..])
    }

    ghost function Mod(): (m: nat)
      ensures m > 0
    {
      Modulus(pn.Length)
    }

    constructor (width: nat)
      ensures fresh(pn) && pn.Length == width && Value() == 0 && forall i :: 0 <= i < width ==> pn[i] == 0
    {
      pn := new Limb[width](i => 0);
      new;
      ValZero(pn[..]);
    }

    constructor Copy(b: BaseUint)
      ensures fresh(pn) && pn.Length == b.pn.Length && pn[..] == b.pn[..]
    {
      pn := new Limb[b.pn.Length](i => 0);
      new;
      CopyLimbs(pn, b.pn);
    }

    /** Assignment of a 64-bit number; it writes two limbs whatever the width. */
    method Assign64(b: nat)
      requires b < BASE * BASE && pn.Length >= 2
      modifies pn
      ensures Value() == b && (b == 0 ==> forall i :: 0 <= i < pn.Length ==> pn[i] == 0)
    {
      pn[0] := b % BASE;
      pn[1] := b / BASE;
      for i := 2 to pn.Length
        invariant pn[0] == b % BASE && pn[1] == b / BASE && forall m :: 2 <= m < i ==> pn[m] == 0
      {
        pn[i] := 0;
      }
      TwoLimbs(pn[..], b);
    }

    method AddAssign(b: BaseUint)
      requires b.pn.Length == pn.Length
      modifies pn
      ensures Value() == (old(Value()) + old(b.Value())) % Mod()
    {
      hide Val, Summed;
      ghost var x, y := pn[..], b.pn[..];
      var carry: nat := 0;
      SummedStart(x, y);
      for i := 0 to pn.Length
        invariant Summed(pn[..], x, y, carry, i)
        invariant b.pn[i..] == y[i..]
      {
        SummedNext(pn[..], x, y, carry, i);
        assert b.pn[i] == b.pn[i..][0] == y[i];
        ghost var now := pn[..];
        var n: nat := carry + pn[i] + b.pn[i];
        var low: Limb := n % BASE;
        pn[i] := low;
        assert pn[..] == now[i := low];
        assert b.pn[i + 1..] == y[i..][1..];
        carry := n / BASE;
      }
      SummedEnd(pn[..], x, y, carry);
    }

    method Increment()
      modifies pn
      ensures Value() == (old(Value()) + 1) % Mod()
    {
      hide Val;
      ghost var x := pn[..];
      var i := 0;
      while i < pn.Length && pn[i] == BASE - 1
        invariant i <= pn.Length && pn[i..] == x[i..]
        invariant forall k :: 0 <= k < i ==> x[k] == BASE - 1 && pn[k] == 0
      {
        assert x[i] == x[i..][0] == pn[i];
        ghost var was := pn[..];
        pn[i] := 0;
        assert pn[i + 1..] == was[i..][1..] == x[i..][1..];
        i := i + 1;
      }
      if i < pn.Length {
        assert x[i] == x[i..][0] == pn[i];
        ghost var was := pn[..];
        pn[i] := pn[i] + 1;
        assert pn[i + 1..] == was[i..][1..] == x[i..][1..];
      }
      ValIncrement(x, pn[..], i);
    }

    /** The two's complement. */
    method Negated() returns (r: BaseUint)
      ensures fresh(r) && fresh(r.pn) && r.pn.Length == pn.Length
      ensures r.Value() == (Mod() - Value()) % Mod()
    {
      hide Val;
      r := new BaseUint(pn.Length);
      for i := 0 to pn.Length
        invariant forall k :: 0 <= k < i ==> r.pn[k] == BASE - 1 - pn[k]
      {
        r.pn[i] := BASE - 1 - pn[i];
      }
      ValComplement(pn[..], r.pn[..]);
      NegMod(Value(), r.Value(), Mod());
      r.Increment();
    }

    method SubAssign(b: BaseUint)
      requires b.pn.Length == pn.Length
      modifies pn
      ensures Value() == (old(Value()) - old(b.Value())) % Mod()
    {
      hide Val;
      var minus := b.Negated();
      ValBound(b.pn[..]);
      SubMod(Value(), b.Value(), Mod());
      AddAssign(minus);
    }

    method MulAssign32(b32: Limb)
      modifies pn
      ensures Value() == old(Value()) * b32 % Mod()
    {
      hide Val, Pow;
      ghost var x := pn[..];
      var carry: nat := 0;
      NoProduct(x, b32);
      for i := 0 to pn.Length
        invariant carry < BASE && pn[i..] == x[i..]
        invariant Val(pn[..i]) + carry * Pow(BASE, i) == b32 * Val(x[..i])
      {
        assert pn[..][i..] == pn[i..] && pn[..][..i] == pn[..i];
        ProductStep(pn[..], x, b32, carry, i);
        ghost var now := pn[..];
        var n := carry + b32 * pn[i];
        var low: Limb := n % BASE;
        pn[i] := low;
        assert pn[..] == now[i := low];
        assert pn[i + 1..] == pn[..][i + 1..] && pn[..i + 1] == pn[..][..i + 1];
        carry := n / BASE;
      }
      assert pn[..pn.Length] == pn[..] && x[..pn.Length] == x;
      ValBound(pn[..]);
      ModIs(Value(), carry, Mod(), b32 * Val(x));
      assert b32 * Val(x) == Val(x) * b32;
    }

    method MulAssign(b: BaseUint)
      requires b.pn.Length == pn.Length
      modifies pn
      ensures Value() == old(Value()) * old(b.Value()) % Mod()
    {
      hide Val;
      var a := new BaseUint(pn.Length);
      MulInto(a.pn, pn, b.pn);
      CopyLimbs(pn, a.pn);
    }

    method ShiftLeft(shift: nat)
      modifies pn
      ensures Value() == old(Value()) * Pow(2, shift) % Mod()
    {
      hide Val, Pow;
      var out := new BaseUint(pn.Length);
      ShlInto(out.pn, pn, shift / 32, shift % 32);
      CopyLimbs(pn, out.pn);
    }

    method ShiftRight(shift: nat)
      modifies pn
      ensures Pow(2, shift) > 0 && Value() == old(Value()) / Pow(2, shift)
    {
      hide Val, Pow;
      var out := new BaseUint(pn.Length);
      ShrInto(out.pn, pn, shift / 32, shift % 32);
      CopyLimbs(pn, out.pn);
    }

    method CompareTo(b: BaseUint) returns (r: int)
      requires b.pn.Length == pn.Length
      ensures r == if Value() < b.Value() then -1 else if Value() > b.Value() then 1 else 0
    {
      hide Val;
      var i := pn.Length - 1;
      while i >= 0
        invariant -1 <= i < pn.Length && forall m :: i < m < pn.Length ==> pn[m] == b.pn[m]
      {
        if pn[i] < b.pn[i] {
          DiffersAt(pn[..], b.pn[..], i);
          return -1;
        }
        if pn[i] > b.pn[i] {
          DiffersAt(b.pn[..], pn[..], i);
          return 1;
        }
        i := i - 1;
      }
      assert pn[..] == b.pn[..];
      return 0;
    }

    method Bits() returns (n: nat)
      ensures HasBits(Value(), n)
    {
      hide Val, Pow;
      var pos := pn.Length - 1;
      while pos >= 0
        invariant -1 <= pos < pn.Length && forall m :: pos < m < pn.Length ==> pn[m] == 0
      {
        if pn[pos] != 0 {
          Pow32();
          var nbits: nat := 31;
          while nbits > 0
            invariant nbits <= 31 && pn[pos] < Pow(2, nbits + 1)
          {
            BitClear(pn[pos], nbits);
            if pn[pos] / Pow(2, nbits) % 2 == 1 {
              TopBits(pn[..], pos, nbits);
              return 32 * pos + nbits + 1;
            }
            nbits := nbits - 1;
          }
          PowZero();
          TopBits(pn[..], pos, 0);
          return 32 * pos + 1;
        }
        pos := pos - 1;
      }
      ValZero(pn[..]);
      return 0;
    }

    /** Long division by shifting and subtracting; false, with the number zeroed, when dividing by zero. */
    method DivAssign(b: BaseUint) returns (ok: bool)
      requires b.pn.Length == pn.Length >= 2
      modifies pn
      ensures ok <==> old(b.Value()) != 0
      ensures !ok ==> Value() == 0
      ensures ok ==> Value() == old(Value()) / old(b.Value())
    {
      hide Val, Pow, HasBits, Dividing;
      ghost var v, d := Value(), b.Value();
      var div := new BaseUint.Copy(b);
      var num := new BaseUint.Copy(this);
      Assign64(0);
      var numBits := num.Bits();
      var divBits := div.Bits();
      ValBound(num.pn[..]);
      BitsFit(v, numBits, pn.Length);
      BitsZero(d, divBits);
      if divBits == 0 {
        return false;
      }
      if divBits > numBits {
        FewerBits(v, numBits, d, divBits);
        return true;
      }
      var shift := numBits - divBits;
      Aligned(v, numBits, d, divBits, pn.Length);
      div.ShiftLeft(shift);
      ModIs(d * Pow(2, shift), 0, Mod(), d * Pow(2, shift));
      AllClear(pn[..], shift);
      Reduce(num, div, shift, v, d);
      return true;
    }

    /** The shift-and-subtract loop; the remainder is left in num, and no set bit ever leaves div. */
    method Reduce(num: BaseUint, div: BaseUint, start: nat, ghost v: nat, ghost d: nat)
      requires num.pn != div.pn && num.pn != pn && div.pn != pn && num.pn.Length == div.pn.Length == pn.Length
      requires start < 32 * pn.Length && div.Value() == Scaled(d, start) && Clear(pn[..], start) && d > 0
      requires Dividing(v, Value(), num.Value(), d, start + 1)
      modifies pn, num.pn, div.pn
      ensures Value() == v / d && num.Value() == v % d
    {
      hide Val, Pow, Clear, Or, Dividing, Scaled;
      var shift: int := start;
      while shift >= 0
        invariant -1 <= shift < 32 * pn.Length
        invariant shift >= 0 ==> div.Value() == Scaled(d, shift) && Clear(pn[..], shift)
        invariant Dividing(v, Value(), num.Value(), d, shift + 1)
      {
        var cmp := num.CompareTo(div);
        SetBit(pn[..], shift);
        DivRound(v, Value(), num.Value(), d, shift);
        if cmp >= 0 {
          Subtract(num, div);
          PutBit(pn, shift);
        }
        HalfScaled(d, shift);
        PowOne(2);
        div.ShiftRight(1);
        shift := shift - 1;
      }
      DivEnd(v, Value(), num.Value(), d);
    }
  }

  /** Subtraction that does not wrap. */
  method Subtract(num: BaseUint, div: BaseUint)
    requires num.pn != div.pn && num.pn.Length == div.pn.Length && num.Value() >= div.Value()
    modifies num.pn
    ensures num.Value() == old(num.Value()) - div.Value()
  {
    hide Val, Pow;
    ghost var n := num.Value() - div.Value();
    ValBound(num.pn[..]);
    num.SubAssign(div);
    assert 0 * num.Mod() == 0;
    ModIs(n, 0, num.Mod(), n);
  }

  method PutBit(q: array<Limb>, s: nat)
    requires s / 32 < q.Length && Or(q[s / 32], Pow(2, s % 32)) < BASE
    modifies q
    ensures q[..] == old(q[..])[s / 32 := Or(old(q[..])[s / 32], Pow(2, s % 32))]
  {
    hide Or, Pow;
    q[s / 32] := Or(q[s / 32], Pow(2, s % 32));
  }

  /** The divisor moved up s places. */
  ghost function Scaled(d: nat, s: nat): nat { d * Pow(2, s) }

  /** What is divided is what the quotient accounts for and a rest below the divisor s places up. */
  ghost predicate Dividing(v: nat, q: nat, n: nat, d: nat, s: nat) { v == q * d + n && n < Scaled(d, s) }

  lemma {:induction false} DivRound(v: nat, q: nat, n: nat, d: nat, s: nat)
    requires Dividing(v, q, n, d, s + 1)
    ensures n >= Scaled(d, s) ==> Dividing(v, q + Pow(2, s), n - Scaled(d, s), d, s)
    ensures n < Scaled(d, s) ==> Dividing(v, q, n, d, s)
  {
    assert Pow(2, s + 1) == 2 * Pow(2, s);
    hide Pow;
    var p := Pow(2, s);
    assert d * (2 * p) == 2 * (d * p);
    assert (q + p) * d == q * d + d * p;
  }

  lemma {:induction false} DivEnd(v: nat, q: nat, n: nat, d: nat)
    requires d > 0 && Dividing(v, q, n, d, 0)
    ensures q == v / d && n == v % d
  {
    assert Pow(2, 0) == 1;
    DivMod(q, n, d);
  }

  lemma {:induction false} HalfScaled(d: nat, s: nat)
    ensures s > 0 ==> Scaled(d, s) / 2 == Scaled(d, s - 1)
  {
    if s > 0 { assert d * (2 * Pow(2, s - 1)) == 2 * (d * Pow(2, s - 1)); }
  }

  method CopyLimbs(dst: array<Limb>, src: array<Limb>)
    requires dst.Length == src.Length
    modifies dst
    ensures dst[..] == old(src[..])
  {
    for i := 0 to src.Length
      invariant dst[..i] == old(src[..i])
      invariant src[i..] == old(src[i..])
    {
      assert src[i] == src[i..][0] == old(src[i..])[0];
      ghost var rest := src[i..];
      dst[i] := src[i];
      assert src[i + 1..] == rest[1..];
    }
  }

  /** One row of the long multiplication. */
  method AddRow(a: array<Limb>, b: array<Limb>, x: Limb, j: nat) returns (carry: nat)
    requires a.Length == b.Length && j < a.Length && a != b
    modifies a
    ensures Row(a[..], old(a[..]), b[..], x, j, a.Length - j, carry)
  {
    hide Row;
    ghost var was := a[..];
    carry := 0;
    RowStart(was, b[..], x, j);
    var i := 0;
    while i + j < a.Length
      invariant i + j <= a.Length && Row(a[..], was, b[..], x, j, i, carry)
    {
      RowNext(a[..], was, b[..], x, j, i, carry);
      ghost var now := a[..];
      var n := carry + a[i + j] + x * b[i];
      var low: Limb := n % BASE;
      a[i + j] := low;
      assert a[..] == now[i + j := low];
      carry := n / BASE;
      i := i + 1;
    }
  }

  method MulInto(a: array<Limb>, x: array<Limb>, b: array<Limb>)
    requires a.Length == x.Length == b.Length && a != x && a != b && forall i :: 0 <= i < a.Length ==> a[i] == 0
    modifies a
    ensures Val(a[..]) == Val(x[..]) * Val(b[..]) % Modulus(x.Length)
  {
    hide Val, Pow, Row;
    ghost var q: nat := 0;
    NoRows(a[..], x[..], b[..]);
    for j := 0 to x.Length
      invariant Val(a[..]) + q * Modulus(x.Length) == Val(x[..][..j]) * Val(b[..])
    {
      ghost var was := a[..];
      var carry := AddRow(a, b, x[j], j);
      RowEnd(a[..], was, x[..], b[..], j, carry, q);
      q := q + carry + x[..][j] * Val(b[..][x.Length - j..]);
    }
    assert x[..][..x.Length] == x[..];
    ValBound(a[..]);
    ModIs(Val(a[..]), q, Modulus(x.Length), Val(x[..]) * Val(b[..]));
  }

  method ShlInto(out: array<Limb>, a: array<Limb>, k: nat, r: nat)
    requires out.Length == a.Length && out != a && r < 32 && forall i :: 0 <= i < a.Length ==> out[i] == 0
    modifies out
    ensures Val(out[..]) == Val(a[..]) * Pow(2, 32 * k + r) % Modulus(a.Length)
  {
    hide Val, Pow, ShlState, Or, ShlLow, ShlHigh;
    ghost var c: nat := 0;
    ShlBegin(out[..], a[..], k, r);
    for i := 0 to a.Length
      invariant ShlState(out[..], a[..], k, r, i, c)
    {
      c := ShlRound(out[..], a[..], k, r, i, c);
      PutLeft(out, a[i], k, r, i);
    }
    ShlFinish(out[..], a[..], k, r, c);
  }

  method ShrInto(out: array<Limb>, a: array<Limb>, k: nat, r: nat)
    requires out.Length == a.Length && out != a && r < 32 && forall i :: 0 <= i < a.Length ==> out[i] == 0
    modifies out
    ensures Pow(2, 32 * k + r) > 0 && Val(out[..]) == Val(a[..]) / Pow(2, 32 * k + r)
  {
    hide Val, Pow, ShrState, Or, ShrLow, ShrHigh;
    ShrBegin(out[..], a[..], k, r);
    for i := 0 to a.Length
      invariant ShrState(out[..], a[..], k, r, i)
    {
      ShrRound(out[..], a[..], k, r, i);
      PutRight(out, a[i], k, r, i);
    }
    ShrFinish(out[..], a[..], k, r);
  }

  /** The two contributions of a limb to the shifted number. */
  method PutLeft(out: array<Limb>, x: Limb, k: nat, r: nat, i: nat)
    requires r < 32 && LeftOk(out[..], x, k, r, i)
    modifies out
    ensures out[..] == Left(old(out[..]), x, k, r, i)
  {
    hide Or, ShlLow, Pow;
    if i + k + 1 < out.Length && r != 0 {
      PowPositive(2, 32 - r);
      out[i + k + 1] := Or(out[i + k + 1], x / Pow(2, 32 - r));
    }
    if i + k < out.Length {
      out[i + k] := Or(out[i + k], ShlLow(x, r));
    }
  }

  method PutRight(out: array<Limb>, x: Limb, k: nat, r: nat, i: nat)
    requires r < 32 && i < out.Length && RightOk(out[..], x, k, r, i)
    modifies out
    ensures out[..] == Right(old(out[..]), x, k, r, i)
  {
    hide Or, ShrHigh, Pow;
    if i - k - 1 >= 0 && r != 0 {
      out[i - k - 1] := Or(out[i - k - 1], x * Pow(2, 32 - r) % BASE);
    }
    if i - k >= 0 {
      out[i - k] := Or(out[i - k], ShrHigh(x, r));
    }
  }

  // ---- Small facts the loops use ----

  lemma {:induction false} TwoLimbs(s: seq<Limb>, b: nat)
    requires |s| >= 2 && b < BASE * BASE && s[0] == b % BASE && s[1] == b / BASE && forall m :: 2 <= m < |s| ==> s[m] == 0
    ensures Val(s) == b
  {
    ValSplit(s, 2);
    ValZero(s[2..]);
    assert s[..2][..1] == s[..1] && s[..1][..0] == [];
    ValStep(s, 0);
    ValStep(s, 1);
    assert Pow(BASE, 0) == 1 && Pow(BASE, 1) == BASE;
    assert Pow(BASE, 2) * 0 == 0;
  }

  lemma NoProduct(x: seq<Limb>, b: nat)
    ensures Val(x[..0]) == 0 && 0 * Pow(BASE, 0) == b * Val(x[..0])
  {
  }

  lemma {:induction false} NoRows(a: seq<Limb>, x: seq<Limb>, b: seq<Limb>)
    requires forall i :: 0 <= i < |a| ==> a[i] == 0
    ensures Val(a) + 0 * Modulus(|x|) == Val(x[..0]) * Val(b)
  {
    ValZero(a);
    assert Val(x[..0]) == 0 && 0 * Val(b) == 0 && 0 * Modulus(|x|) == 0;
  }

  lemma {:induction false} DiffersAt(a: seq<Limb>, b: seq<Limb>, i: nat)
    requires |a| == |b| && i < |a| && a[i] < b[i] && forall m :: i < m < |a| ==> a[m] == b[m]
    ensures Val(a) < Val(b)
  {
    hide Val;
    assert a[i + 1..] == b[i + 1..];
    Differs(a, b, i);
  }

  lemma {:induction false} RowStart(was: seq<Limb>, b: seq<Limb>, x: Limb, j: nat)
    requires |was| == |b| && j <= |b|
    ensures Row(was, was, b, x, j, 0, 0)
  {
    assert b[..0] == [];
    assert x * 0 * Pow(BASE, j) == 0 && 0 * Pow(BASE, j) == 0;
  }

  lemma {:induction false} BitsFit(v: nat, n: nat, width: nat)
    requires HasBits(v, n) && v < Modulus(width)
    ensures n <= 32 * width
  {
    TwoPow(width, 0);
    assert Pow(2, 0) == 1;
    if n > 32 * width { PowLe(2, 32 * width, n - 1); }
  }

  lemma {:induction false} BitsZero(v: nat, n: nat)
    requires HasBits(v, n)
    ensures n == 0 <==> v == 0
  {
    if n > 0 { PowPositive(2, n - 1); }
  }

  lemma {:induction false} FewerBits(v: nat, n: nat, d: nat, m: nat)
    requires HasBits(v, n) && HasBits(d, m) && m > n
    ensures d > 0 && v / d == 0
  {
    PowPositive(2, m - 1);
    if n > 0 { PowLe(2, n, m - 1); }
    DivMod(0, v, d);
  }

  /** Aligning the divisor with the dividend shifts no set bit out, and takes it past half the dividend. */
  lemma {:induction false} Aligned(v: nat, n: nat, d: nat, m: nat, width: nat)
    requires HasBits(v, n) && HasBits(d, m) && 0 < m <= n <= 32 * width
    ensures d * Pow(2, n - m) < Modulus(width) && Dividing(v, 0, v, d, n - m + 1)
  {
    hide Pow;
    assert 0 * d == 0;
    TwoPow(width, 0);
    PowZero();
    PowAdd(2, m, n - m);
    PowAdd(2, m - 1, n - m + 1);
    PowPositive(2, n - m);
    PowLe(2, n, 32 * width);
    MulLe(d + 1, Pow(2, m), Pow(2, n - m));
    MulLe(Pow(2, m - 1), d, Pow(2, n - m + 1));
    assert (d + 1) * Pow(2, n - m) == d * Pow(2, n - m) + Pow(2, n - m);
  }

  lemma {:induction false} AllClear(q: seq<Limb>, s: nat)
    requires s < 32 * |q| && forall m :: 0 <= m < |q| ==> q[m] == 0
    ensures Clear(q, s)
  {
    PowPositive(2, s % 32 + 1);
    ModZero(Pow(2, s % 32 + 1));
  }
}
