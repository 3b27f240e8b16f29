/** The carry loops over fixed-size buffers, proved against the conversion of numbers. */
module Base58Codec {
  import opened Wrappers
  import opened Base58
  import opened Powers

  /** The buffer holds v in its last `length` places, and zeroes before them. */
  ghost predicate Holds(b: seq<nat>, to: nat, length: nat, v: nat) {
    && length <= |b| && Below(b, to) && Val(b, to) == v
    && forall i :: 0 <= i < |b| - length ==> b[i] == 0
  }

  lemma {:induction false} ValFront(d: nat, s: seq<nat>, base: nat)
    ensures Val([d] + s, base) == d * Pow(base, |s|) + Val(s, base)
    decreases |s|
  {
    var t := [d] + s;
    if s == [] {
      assert t[..0] == [];
      assert d * Pow(base, 0) == d;
    } else {
      var n := |s| - 1;
      assert t[..|t| - 1] == [d] + s[..n];
      ValFront(d, s[..n], base);
      FrontStep(d, Pow(base, n), Val(s[..n], base), base, s[n]);
    }
  }

  lemma FrontStep(d: nat, p: nat, v: nat, base: nat, x: nat)
    ensures (d * p + v) * base + x == d * (base * p) + (v * base + x)
  {
    assert (d * p + v) * base == d * p * base + v * base;
    assert d * p * base == d * (base * p) by { Assoc(d, p, base); }
  }

  /** One place of the carry loop. */
  lemma {:induction false} CarryStep(from: nat, to: nat, d: nat, carry: nat, p: nat, v: nat, old_: nat, x: nat)
    requires to >= 2 && v + carry * p == from * old_ + x
    ensures var c := carry + from * d; c % to * p + v + c / to * (to * p) == from * (d * p + old_) + x
  {
    var c := carry + from * d;
    QuotRem(c, to);
    calc {
      c % to * p + c / to * (to * p);
      { Assoc(c / to, to, p); }
      c % to * p + c / to * to * p;
      (c % to + c / to * to) * p;
      c * p;
      carry * p + from * d * p;
      { Assoc(from, d, p); }
      carry * p + from * (d * p);
    }
  }

  /** Whole-buffer value from the untouched front and the rewritten back. */
  lemma {:induction false} ValSplit(a: seq<nat>, s: seq<nat>, base: nat)
    ensures Val(a + s, base) == Val(a, base) * Pow(base, |s|) + Val(s, base)
    decreases |s|
  {
    if s == [] {
      assert a + s == a;
      assert Val(a, base) * Pow(base, 0) == Val(a, base);
    } else {
      var n := |s| - 1;
      assert (a + s)[..|a + s| - 1] == a + s[..n];
      ValSplit(a, s[..n], base);
      FrontStep(Val(a, base), Pow(base, n), Val(s[..n], base), base, s[n]);
    }
  }

  lemma {:induction false} ValAllZero(s: seq<nat>, base: nat)
    requires forall i :: 0 <= i < |s| ==> s[i] == 0
    ensures Val(s, base) == 0
  {
    ValZeroes(|s|, [], base);
    assert s == Zeroes(|s|) + [];
  }

  /** State of the carry loop after i places. */
  ghost predicate Carried(b: seq<nat>, was: seq<nat>, from: nat, to: nat, carry: nat, i: nat, x: nat) {
    && i <= |b| == |was| && Below(b, to)
    && b[..|b| - i] == was[..|b| - i]
    && Val(b[|b| - i..], to) + carry * Pow(to, i) == from * Val(was[|b| - i..], to) + x
  }

  lemma {:induction false} CarriedNext(b: seq<nat>, was: seq<nat>, from: nat, to: nat, carry: nat, i: nat, x: nat)
    requires to >= 2 && Carried(b, was, from, to, carry, i, x) && i < |b|
    ensures var k := |b| - 1 - i;
            var c := carry + from * b[k];
            Carried(b[k := c % to], was, from, to, c / to, i + 1, x)
  {
    hide Val, Pow;
    PowStep(to, i);
    var k := |b| - 1 - i;
    var c := carry + from * b[k];
    var b' := b[k := c % to];
    assert b[k] == b[..k + 1][k] == was[..k + 1][k] == was[k];
    assert b'[k..] == [c % to] + b[k + 1..];
    assert was[k..] == [was[k]] + was[k + 1..];
    ValFront(c % to, b[k + 1..], to);
    ValFront(was[k], was[k + 1..], to);
    CarryStep(from, to, was[k], carry, Pow(to, i), Val(b[k + 1..], to), Val(was[k + 1..], to), x);
    QuotRem(c, to);
    assert b'[..k] == b[..k + 1][..k] == was[..k + 1][..k] == was[..k];
  }

  /** The loop has gone far enough: what is left of the carry is nothing, and the buffer holds the result. */
  lemma {:induction false} CarriedEnd(b: seq<nat>, was: seq<nat>, from: nat, to: nat, carry: nat, i: nat, x: nat, length: nat, v: nat)
    requires to >= 2 && Carried(b, was, from, to, carry, i, x) && Holds(was, to, length, v)
    requires from * v + x < Pow(to, |b|)
    requires i == |b| || (carry == 0 && i >= length)
    ensures carry == 0 && Holds(b, to, i, from * v + x)
  {
    hide Val, Pow;
    var k := |b| - i;
    var front := b[..k];
    assert front == was[..k];
    assert forall j :: 0 <= j < k ==> front[j] == 0;
    ValAllZero(front, to);
    assert b == front + b[k..] && was == front + was[k..];
    ValSplit(front, b[k..], to);
    ValSplit(front, was[k..], to);
    if carry > 0 {
      MulLe(1, carry, Pow(to, i));
    }
  }

  /** One place of the buffer takes its digit and gives the carry on. */
  method CarryInto(b: array<nat>, from: nat, to: nat, carry: nat, k: nat, ghost was: seq<nat>, ghost i: nat, ghost x: nat) returns (next: nat)
    requires to >= 2 && k + i == b.Length - 1 && Carried(b[..], was, from, to, carry, i, x)
    modifies b
    ensures Carried(b[..], was, from, to, next, i + 1, x)
  {
    hide Carried;
    CarriedNext(b[..], was, from, to, carry, i, x);
    ghost var now := b[..];
    var c := carry + from * b[k];
    var low: nat := c % to;
    b[k] := low;
    assert b[..] == now[k := low];
    next := c / to;
  }

  /** buffer := buffer * from + digit, in base `to`. */
  method MulAdd(b: array<nat>, from: nat, to: nat, digit: nat, length: nat, ghost v: nat) returns (newLength: nat)
    requires to >= 2 && Holds(b[..], to, length, v) && from * v + digit < Pow(to, b.Length)
    modifies b
    ensures Holds(b[..], to, newLength, from * v + digit)
  {
    hide Holds, Carried, Pow, Val;
    ghost var was := b[..];
    var carry: nat, i: nat := digit, 0;
    CarriedStart(was, from, to, digit, length, v);
    while (carry != 0 || i < length) && i < b.Length
      invariant i <= b.Length && Carried(b[..], was, from, to, carry, i, digit)
      decreases b.Length - i
    {
      carry := CarryInto(b, from, to, carry, b.Length - 1 - i, was, i, digit);
      i := i + 1;
    }
    CarriedEnd(b[..], was, from, to, carry, i, digit, length, v);
    assert carry == 0;
    newLength := i;
  }

  lemma {:induction false} CarriedStart(was: seq<nat>, from: nat, to: nat, x: nat, length: nat, v: nat)
    requires Holds(was, to, length, v)
    ensures Carried(was, was, from, to, x, 0, x)
  {
    assert was[|was|..] == [];
    assert x * Pow(to, 0) == x;
  }

  /** The places after the leading zeroes are the digits of the number. */
  method Skip(b: array<nat>, to: nat, length: nat, ghost v: nat) returns (digits: seq<nat>)
    requires to >= 2 && Holds(b[..], to, length, v)
    ensures digits == Digits(v, to)
  {
    hide Digits;
    var it := b.Length - length;
    while it < b.Length && b[it] == 0
      invariant b.Length - length <= it <= b.Length
      invariant forall j :: 0 <= j < it ==> b[j] == 0
    {
      it := it + 1;
    }
    digits := b[it..];
    assert b[..] == Zeroes(it) + digits;
    ValZeroes(it, digits, to);
    PlainUnique(digits, to);
  }

  lemma {:induction false} EmptyHolds(b: seq<nat>, to: nat)
    requires to >= 2 && forall i :: 0 <= i < |b| ==> b[i] == 0
    ensures Holds(b, to, 0, 0)
  {
    ValAllZero(b, to);
  }

  /** The number so far, with one more digit, still fits. */
  lemma {:induction false} PrefixFits(s: seq<nat>, k: nat, from: nat, to: nat, size: nat)
    requires from > 0 && to > 0 && k < |s| && Below(s, from) && Pow(from, |s|) <= Pow(to, size)
    ensures Val(s[..k + 1], from) == from * Val(s[..k], from) + s[k] < Pow(to, size)
  {
    assert s[..k + 1][..k] == s[..k];
    ValBound(s[..k + 1], from);
    PowLe(from, k + 1, |s|);
  }

  method Encode(bytes: seq<nat>) returns (str: string)
    requires Below(bytes, 256)
    ensures str == Base58.Encode(bytes)
  {
    hide Digits, Val, Holds, Pow;
    var zeroes := 0;
    while zeroes < |bytes| && bytes[zeroes] == 0
      invariant zeroes <= |bytes| && forall i :: 0 <= i < zeroes ==> bytes[i] == 0
    {
      zeroes := zeroes + 1;
    }
    var s := bytes[zeroes..];
    var b58 := new nat[|s| * 138 / 100 + 1](i => 0);
    EncodeFits(|s|);
    EmptyHolds(b58[..], 58);
    ValNone(256);
    var length := 0;
    for k := 0 to |s|
      invariant Holds(b58[..], 58, length, Val(s[..k], 256))
    {
      PrefixFits(s, k, 256, 58, b58.Length);
      length := MulAdd(b58, 256, 58, s[k], length, Val(s[..k], 256));
    }
    assert s[..|s|] == s;
    var digits := Skip(b58, 58, length, Val(s, 256));
    assert bytes == Zeroes(zeroes) + s;
    LeadIs(zeroes, s);
    ValZeroes(zeroes, s, 256);
    DigitsPlain(Val(s, 256), 58);
    str := seq(zeroes, i => '1') + ToText(digits);
    assert str == ToText(Zeroes(zeroes) + digits);
  }

  lemma {:induction false} ValNone(base: nat)
    ensures Val([], base) == 0
  {
  }

  method SkipBlanks(t: string, i: nat) returns (j: nat)
    requires i <= |t|
    ensures j == Span(t, IsSpace, i)
  {
    j := i;
    while j < |t| && t[j] != '\0' && IsSpace(t[j])
      invariant i <= j <= |t| && Span(t, IsSpace, j) == Span(t, IsSpace, i)
      decreases |t| - j
    {
      j := j + 1;
    }
  }

  /** Length up to the end or a NUL. */
  method StrLen(t: string, i: nat) returns (n: nat)
    requires i <= |t|
    ensures i + n <= |t| && (i + n == |t| || t[i + n] == '\0') && forall k :: i <= k < i + n ==> t[k] != '\0'
  {
    n := 0;
    while i + n < |t| && t[i + n] != '\0'
      invariant i + n <= |t| && forall k :: i <= k < i + n ==> t[k] != '\0'
      decreases |t| - n
    {
      n := n + 1;
    }
  }

  /** Reads digits from p to the next blank or the end; false at a character outside the alphabet. */
  method ReadDigits(t: string, start: nat, b256: array<nat>, n: nat) returns (ok: bool, p: nat, length: nat, ghost s: seq<nat>)
    requires start + n <= |t| && (start + n == |t| || t[start + n] == '\0') && forall k :: start <= k < start + n ==> t[k] != '\0'
    requires b256.Length == n * 733 / 1000 + 1 && forall i :: 0 <= i < b256.Length ==> b256[i] == 0
    modifies b256
    ensures start <= p <= |t| && |s| == p - start && Below(s, 58)
    ensures forall k :: start <= k < p ==> !IsSpace(t[k]) && t[k] != '\0' && Digit(t[k]) == s[k - start]
    ensures ok ==> (p == |t| || t[p] == '\0' || IsSpace(t[p])) && Holds(b256[..], 256, length, Val(s, 58))
    ensures !ok ==> p < |t| && t[p] != '\0' && !IsSpace(t[p]) && Digit(t[p]) == -1
  {
    hide Val, Holds, Pow, Digit, IsSpace;
    EmptyHolds(b256[..], 256);
    ValNone(58);
    p, s, length := start, [], 0;
    while p < |t| && t[p] != '\0' && !IsSpace(t[p])
      invariant start <= p <= start + n && |s| == p - start && Below(s, 58)
      invariant forall k :: start <= k < p ==> !IsSpace(t[k]) && t[k] != '\0' && Digit(t[k]) == s[k - start]
      invariant Holds(b256[..], 256, length, Val(s, 58))
      decreases |t| - p
    {
      var d := Digit(t[p]);
      if d == -1 {
        return false, p, length, s;
      }
      Room(s, d, n, b256.Length);
      length := MulAdd(b256, 58, 256, d, length, Val(s, 58));
      s := s + [d];
      p := p + 1;
    }
    ok := true;
  }

  method Decode(t: string) returns (r: Option<seq<nat>>)
    ensures r == Base58.Decode(t)
  {
    hide Digits, Val, Holds, Digit, IsSpace, Rebase, Span, Base58.Decode, Pow;
    var a := SkipBlanks(t, 0);
    var p := a;
    while p < |t| && t[p] == '1'
      invariant a <= p <= |t| && forall i :: a <= i < p ==> t[i] == '1'
    {
      p := p + 1;
    }
    var zeroes := p - a;
    var n := StrLen(t, p);
    var b256 := new nat[n * 733 / 1000 + 1](i => 0);
    var ok, q, length, s := ReadDigits(t, p, b256, n);
    One();
    if !ok {
      Rejected(t, a, q);
      return None;
    }
    var e := SkipBlanks(t, q);
    Accepted(t, a, q, e, zeroes, s);
    if e < |t| && t[e] != '\0' {
      return None;
    }
    var digits := Skip(b256, 256, length, Val(s, 58));
    r := Some(seq(zeroes, i => 0) + digits);
    assert seq(zeroes, i => 0) == Zeroes(zeroes);
  }

  lemma {:induction false} Accepted(t: string, a: nat, q: nat, e: nat, zeroes: nat, s: seq<nat>)
    requires a == Span(t, IsSpace, 0) && a + zeroes + |s| == q <= |t| && e == Span(t, IsSpace, q) && Below(s, 58)
    requires forall i :: a <= i < a + zeroes ==> t[i] == '1'
    requires a + zeroes == |t| || t[a + zeroes] != '1'
    requires forall k :: a + zeroes <= k < q ==> !IsSpace(t[k]) && t[k] != '\0' && Digit(t[k]) == s[k - a - zeroes]
    requires q == |t| || t[q] == '\0' || IsSpace(t[q])
    ensures Base58.Decode(t) == if e == |t| || t[e] == '\0' then Some(Zeroes(zeroes) + Digits(Val(s, 58), 256)) else None
  {
    hide Digits, Val, Digit, IsSpace, Rebase;
    One();
    SpanIs(t, c => !IsSpace(c), a, q);
    Collected(t, a, q, zeroes, s);
  }

  lemma {:induction false} Rejected(t: string, a: nat, q: nat)
    requires a == Span(t, IsSpace, 0) && a <= q < |t| && Digit(t[q]) == -1
    requires forall i :: a <= i <= q ==> !IsSpace(t[i]) && t[i] != '\0'
    ensures Base58.Decode(t) == None
  {
    hide Digit, IsSpace, Rebase;
    var b := Span(t, c => !IsSpace(c), a);
    assert b > q;
    assert t[a..b][q - a] == t[q];
  }

  lemma One()
    ensures Digit('1') == 0 && !IsSpace('1')
  {
  }

  lemma {:induction false} Room(s: seq<nat>, d: nat, n: nat, size: nat)
    requires Below(s, 58) && d < 58 && |s| < n && size == n * 733 / 1000 + 1
    ensures Val(s + [d], 58) == 58 * Val(s, 58) + d < Pow(256, size)
  {
    hide Pow;
    var t := s + [d];
    assert t[..|s|] == s;
    ValBound(t, 58);
    DecodeFits(n);
    PowLe(58, |t|, n);
  }

  /** The characters read are the alphabetic text, leading ones apart. */
  lemma {:induction false} Collected(t: string, a: nat, b: nat, zeroes: nat, s: seq<nat>)
    requires a + zeroes + |s| == b <= |t| && Below(s, 58)
    requires forall i :: a <= i < a + zeroes ==> t[i] == '1'
    requires a + zeroes == b || t[a + zeroes] != '1'
    requires forall k :: a + zeroes <= k < b ==> Digit(t[k]) == s[k - a - zeroes]
    ensures Alphabetic(t[a..b]) && Rebase(FromText(t[a..b]), 58, 256) == Zeroes(zeroes) + Digits(Val(s, 58), 256)
  {
    hide Digits, Val, Digit;
    One();
    forall i | 0 <= i < b - a ensures Digit(t[a..b][i]) != -1 {
      assert t[a..b][i] == t[a + i];
    }
    var f := FromText(t[a..b]);
    forall i | 0 <= i < |f| ensures f[i] == (Zeroes(zeroes) + s)[i] {
      assert t[a..b][i] == t[a + i];
    }
    assert f == Zeroes(zeroes) + s;
    if s != [] && s[0] == 0 { OnlyOne(t[a + zeroes]); }
    LeadIs(zeroes, s);
    ValZeroes(zeroes, s, 58);
  }

  lemma OnlyOne(c: char)
    requires Digit(c) == 0
    ensures c == '1'
  {
  }
}
