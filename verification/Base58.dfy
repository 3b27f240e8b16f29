/**
 Base58: a byte string and its text are the same number in two bases, with leading zeroes counted
 apart. Digit strings are big-endian.
 */
module Base58 {
  import opened Powers
  import opened Wrappers

  // ---- Numbers and digit strings ----

  function Val(s: seq<nat>, base: nat): nat
    decreases |s|
  {
    if s == [] then 0 else Val(s[..|s| - 1], base) * base + s[|s| - 1]
  }

  predicate Below(s: seq<nat>, base: nat) { forall i :: 0 <= i < |s| ==> s[i] < base }

  /** The digits of a number, without leading zeroes. */
  function Digits(v: nat, base: nat): seq<nat>
    requires base >= 2
  {
    if v == 0 then [] else
      DivLess(v, base);
      Digits(v / base, base) + [v % base]
  }

  predicate Plain(s: seq<nat>, base: nat) { Below(s, base) && (s != [] ==> s[0] != 0) }

  lemma {:induction false} DigitsPlain(v: nat, base: nat)
    requires base >= 2
    ensures Plain(Digits(v, base), base) && Val(Digits(v, base), base) == v && (v > 0 ==> Digits(v, base) != [])
    decreases v
  {
    if v > 0 {
      DivLess(v, base);
      DigitsPlain(v / base, base);
      DigitsStep(v, base);
    }
  }

  lemma {:induction false} DigitsStep(v: nat, base: nat)
    requires base >= 2 && v > 0
    requires Plain(Digits(v / base, base), base) && Val(Digits(v / base, base), base) == v / base
    requires v / base > 0 ==> Digits(v / base, base) != []
    ensures Plain(Digits(v, base), base) && Val(Digits(v, base), base) == v && Digits(v, base) != []
  {
    var d, q, r := Digits(v, base), v / base, v % base;
    QuotRem(v, base);
    assert d == Digits(q, base) + [r];
    hide Digits;
    assert d[..|d| - 1] == Digits(q, base);
    if q == 0 { SmallMod(v, base); }
  }

  /** A number has only one digit string without leading zeroes. */
  lemma {:induction false} PlainUnique(s: seq<nat>, base: nat)
    requires base >= 2 && Plain(s, base)
    ensures Digits(Val(s, base), base) == s && (s != [] ==> Val(s, base) > 0)
    decreases |s|
  {
    if s != [] {
      var n := |s| - 1;
      PlainUnique(s[..n], base);
      DivMod(Val(s[..n], base), s[n], base);
      if n > 0 { MulPositive(Val(s[..n], base), base); }
      assert s == s[..n] + [s[n]];
    }
  }

  /** How many leading digits are zero. */
  function Lead(s: seq<nat>): (k: nat)
    ensures k <= |s| && (forall i :: 0 <= i < k ==> s[i] == 0) && (k < |s| ==> s[k] != 0)
  {
    if s == [] || s[0] != 0 then 0 else 1 + Lead(s[1..])
  }

  function Zeroes(k: nat): (s: seq<nat>)
    ensures |s| == k && forall i :: 0 <= i < k ==> s[i] == 0
  {
    seq(k, i => 0)
  }

  /** The same number in another base, behind as many leading zeroes. */
  function Rebase(s: seq<nat>, from: nat, to: nat): seq<nat>
    requires to >= 2
  {
    Zeroes(Lead(s)) + Digits(Val(s, from), to)
  }

  lemma {:induction false} ValZeroes(k: nat, s: seq<nat>, base: nat)
    ensures Val(Zeroes(k) + s, base) == Val(s, base)
    decreases k + |s|
  {
    var t := Zeroes(k) + s;
    if s != [] {
      assert t[..|t| - 1] == Zeroes(k) + s[..|s| - 1];
      ValZeroes(k, s[..|s| - 1], base);
    } else if k > 0 {
      assert t[..|t| - 1] == Zeroes(k - 1) + [];
      ValZeroes(k - 1, [], base);
    }
  }

  lemma {:induction false} LeadIs(k: nat, s: seq<nat>)
    requires s == [] || s[0] != 0
    ensures Lead(Zeroes(k) + s) == k
  {
    var t := Zeroes(k) + s;
    assert forall i :: 0 <= i < k ==> t[i] == 0;
    assert k < |t| ==> t[k] == s[0];
  }

  /** Conversion is its own inverse with the bases exchanged. */
  lemma {:induction false} RebaseInverse(s: seq<nat>, from: nat, to: nat)
    requires from >= 2 && to >= 2 && Below(s, from)
    ensures Below(Rebase(s, from, to), to)
    ensures Rebase(Rebase(s, from, to), to, from) == s
  {
    hide Digits, Val;
    var k, v := Lead(s), Val(s, from);
    var d, rest := Digits(v, to), s[k..];
    DigitsPlain(v, to);
    LeadIs(k, d);
    ValZeroes(k, d, to);
    assert s == Zeroes(k) + rest;
    ValZeroes(k, rest, from);
    PlainUnique(rest, from);
  }

  // ---- How long a result can be ----

  /** If a^p < b^q and q*n <= p*m, then n digits in base a fit in m digits in base b. */
  lemma {:induction false} Enough(a: nat, b: nat, p: nat, q: nat, n: nat, m: nat)
    requires b > 0 && p > 0 && Pow(a, p) < Pow(b, q) && q * n <= p * m
    ensures Pow(a, n) <= Pow(b, m)
  {
    if Pow(a, n) > Pow(b, m) {
      PowLess(Pow(b, m), Pow(a, n), p);
      PowPow(b, m, p);
      PowPow(a, n, p);
      if n > 0 {
        PowLess(Pow(a, p), Pow(b, q), n);
        PowPow(a, p, n);
        PowPow(b, q, n);
      }
      assert n * p == p * n && m * p == p * m;
      PowLe(b, q * n, p * m);
      if n == 0 { assert Pow(a, 0) == 1; PowPositive(b, m); }
    }
  }

  /** 2^64 < 58^11. */
  lemma {:induction false} Certificate64()
    ensures Pow(256, 8) < Pow(58, 11)
  {
    Pow58();
    Pow2();
    PowPow(2, 8, 8);
    assert Pow(2, 8) == 256;
  }

  lemma {:induction false} Pow58()
    ensures Pow(58, 11) == 24986644000165537792
  {
    assert Pow(58, 3) == 195112;
    assert Pow(58, 2) == 3364;
    PowAdd(58, 3, 3);
    PowAdd(58, 6, 3);
    PowAdd(58, 9, 2);
  }

  lemma {:induction false} Pow2()
    ensures Pow(2, 64) == 18446744073709551616
  {
    assert Pow(2, 8) == 256;
    PowAdd(2, 8, 8);
    PowAdd(2, 16, 16);
    PowAdd(2, 32, 32);
  }

  /** 58^22 < 2^129. */
  lemma {:induction false} Certificate129()
    ensures Pow(58, 22) < Pow(2, 129)
  {
    hide Pow;
    Pow58();
    Pow2();
    PowAdd(58, 11, 11);
    PowAdd(2, 64, 64);
    PowAdd(2, 128, 1);
    PowOne(2);
  }

  /** The buffer for encoding is always long enough. */
  lemma {:induction false} EncodeFits(n: nat)
    ensures Pow(256, n) <= Pow(58, n * 138 / 100 + 1)
  {
    hide Pow;
    Certificate64();
    Enough(256, 58, 8, 11, n, n * 138 / 100 + 1);
  }

  /** The buffer for decoding is always long enough. */
  lemma {:induction false} DecodeFits(n: nat)
    ensures Pow(58, n) <= Pow(256, n * 733 / 1000 + 1)
  {
    var m := n * 733 / 1000 + 1;
    Certificate129();
    Enough(58, 2, 22, 129, n, 8 * m);
    PowPow(2, 8, m);
    assert Pow(2, 8) == 256;
  }

  /** A digit string is less than the power of its length. */
  lemma {:induction false} ValBound(s: seq<nat>, base: nat)
    requires base > 0 && Below(s, base)
    ensures Val(s, base) < Pow(base, |s|)
    decreases |s|
  {
    if s != [] {
      var n := |s| - 1;
      ValBound(s[..n], base);
      NextDigit(Val(s[..n], base), s[n], base, Pow(base, n));
    }
  }

  lemma NextDigit(v: nat, d: nat, base: nat, p: nat)
    requires v < p && d < base
    ensures v * base + d < base * p
  {
    MulLe(v + 1, p, base);
  }

  // ---- Text ----

  /** The alphabet: all digits and letters but '0', 'I', 'O' and 'l', in the order of their codes. */
  function Symbol(d: nat): char
    requires d < 58
  {
    if d < 9 then ('1' as int + d) as char
    else if d < 17 then ('A' as int + d - 9) as char
    else if d < 22 then ('J' as int + d - 17) as char
    else if d < 33 then ('P' as int + d - 22) as char
    else if d < 44 then ('a' as int + d - 33) as char
    else ('m' as int + d - 44) as char
  }

  predicate IsSpace(c: char) { c == ' ' || c == '\U{0C}' || c == '\n' || c == '\r' || c == '\t' || c == '\U{0B}' }

  /** The decoding table, run by run of consecutive characters; -1 for any other character. */
  function Digit(c: char): (d: int)
    ensures -1 <= d < 58
  {
    if '1' <= c <= '9' then c as int - '1' as int
    else if 'A' <= c <= 'H' then c as int - 'A' as int + 9
    else if 'J' <= c <= 'N' then c as int - 'J' as int + 17
    else if 'P' <= c <= 'Z' then c as int - 'P' as int + 22
    else if 'a' <= c <= 'k' then c as int - 'a' as int + 33
    else if 'm' <= c <= 'z' then c as int - 'm' as int + 44
    else -1
  }

  /** The table and the alphabet are inverse to each other. */
  lemma DigitSymbol(d: nat)
    requires d < 58
    ensures Digit(Symbol(d)) == d && !IsSpace(Symbol(d)) && Symbol(d) != '\0'
  {
  }

  lemma SymbolDigit(c: char)
    requires Digit(c) != -1
    ensures Symbol(Digit(c)) == c && !IsSpace(c) && c != '\0'
  {
  }

  /** Conversion to text and from text that holds alphabet characters only. */
  function ToText(s: seq<nat>): string
    requires Below(s, 58)
  {
    seq(|s|, i requires 0 <= i < |s| => Symbol(s[i]))
  }

  predicate Alphabetic(t: string) { forall i :: 0 <= i < |t| ==> Digit(t[i]) != -1 }

  function FromText(t: string): (s: seq<nat>)
    requires Alphabetic(t)
    ensures Below(s, 58)
  {
    seq(|t|, i requires 0 <= i < |t| => Digit(t[i]) as nat)
  }

  lemma {:induction false} FromToText(s: seq<nat>)
    requires Below(s, 58)
    ensures Alphabetic(ToText(s)) && FromText(ToText(s)) == s
  {
    forall i | 0 <= i < |s| ensures Digit(ToText(s)[i]) == s[i] { DigitSymbol(s[i]); }
  }

  lemma {:induction false} ToFromText(t: string)
    requires Alphabetic(t)
    ensures ToText(FromText(t)) == t
  {
    forall i | 0 <= i < |t| ensures Symbol(FromText(t)[i]) == t[i] { SymbolDigit(t[i]); }
  }

  function Encode(bytes: seq<nat>): string
    requires Below(bytes, 256)
  {
    RebaseInverse(bytes, 256, 58);
    ToText(Rebase(bytes, 256, 58))
  }

  /** How many characters from i on satisfy p, up to the end of the text or a NUL. */
  function Span(t: string, p: char -> bool, i: nat): (j: nat)
    requires i <= |t|
    ensures i <= j <= |t| && (forall k :: i <= k < j ==> t[k] != '\0' && p(t[k]))
    ensures j < |t| ==> t[j] == '\0' || !p(t[j])
    decreases |t| - i
  {
    if i < |t| && t[i] != '\0' && p(t[i]) then Span(t, p, i + 1) else i
  }

  /** Blanks, then the text proper, then blanks; the end is the end of the string or a NUL. */
  function Decode(t: string): Option<seq<nat>> {
    var a := Span(t, IsSpace, 0);
    var b := Span(t, c => !IsSpace(c), a);
    var e := Span(t, IsSpace, b);
    if Alphabetic(t[a..b]) && (e == |t| || t[e] == '\0') then Some(Rebase(FromText(t[a..b]), 58, 256)) else None
  }

  // ---- The round trips ----

  /** Decoding the text of any byte string gives the byte string. */
  lemma {:induction false} DecodeEncode(bytes: seq<nat>)
    requires Below(bytes, 256)
    ensures Decode(Encode(bytes)) == Some(bytes)
  {
    hide Rebase;
    RebaseInverse(bytes, 256, 58);
    FromToText(Rebase(bytes, 256, 58));
    DecodePlain(Encode(bytes));
  }

  /** A text of alphabet characters decodes, and encoding the result gives it back. */
  lemma {:induction false} EncodeDecode(t: string)
    requires Alphabetic(t)
    ensures Decode(t).Some? && Below(Decode(t).value, 256) && Encode(Decode(t).value) == t
  {
    hide Rebase;
    DecodePlain(t);
    RebaseInverse(FromText(t), 58, 256);
    ToFromText(t);
  }

  lemma {:induction false} DecodePlain(t: string)
    requires Alphabetic(t)
    ensures Decode(t) == Some(Rebase(FromText(t), 58, 256))
  {
    hide Digit, IsSpace, Rebase;
    forall i | 0 <= i < |t| ensures !IsSpace(t[i]) && t[i] != '\0' { SymbolDigit(t[i]); }
    assert Span(t, IsSpace, 0) == 0;
    assert Span(t, c => !IsSpace(c), 0) == |t|;
    assert t[0..|t|] == t;
  }

  /** Exactly the texts that decode: alphabet characters between blanks, up to the end or a NUL. */
  lemma {:induction false} DecodesIff(t: string)
    ensures Decode(t).Some? <==>
      exists a, b, e :: 0 <= a <= b <= e <= |t| && Blank(t[..a]) && Alphabetic(t[a..b]) && Blank(t[b..e]) && (e == |t| || t[e] == '\0')
  {
    hide Rebase;
    if Decode(t).Some? {
      var a := Span(t, IsSpace, 0);
      var b := Span(t, c => !IsSpace(c), a);
      var e := Span(t, IsSpace, b);
      assert Blank(t[..a]) && Alphabetic(t[a..b]) && Blank(t[b..e]);
    }
    if a, b, e :| 0 <= a <= b <= e <= |t| && Blank(t[..a]) && Alphabetic(t[a..b]) && Blank(t[b..e]) && (e == |t| || t[e] == '\0') {
      Spans(t, a, b, e);
    }
  }

  /** Blanks around a text, and what follows a NUL, make no difference. */
  lemma {:induction false} DecodeBetweenBlanks(t: string, a: nat, b: nat, e: nat)
    requires a <= b <= e <= |t| && Blank(t[..a]) && Alphabetic(t[a..b]) && Blank(t[b..e]) && (e == |t| || t[e] == '\0')
    ensures Decode(t) == Decode(t[a..b])
  {
    hide Rebase;
    SpansAre(t, a, b, e);
    DecodePlain(t[a..b]);
  }

  /** The alphabet is the digits and letters without '0', 'I', 'O' and 'l', and symbols grow with their digits. */
  lemma {:induction false} AlphabetIs(c: char, i: nat, j: nat)
    requires i < j < 58
    ensures Digit(c) != -1 <==> ('0' <= c <= '9' || 'A' <= c <= 'Z' || 'a' <= c <= 'z') && c != '0' && c != 'I' && c != 'O' && c != 'l'
    ensures Symbol(i) < Symbol(j)
  {
  }

  /** Which characters are blanks, and a short text of the test data. */
  lemma Vectors()
    ensures forall c :: IsSpace(c) <==> c in [' ', '\t', '\n', '\U{0B}', '\U{0C}', '\r']
    ensures Encode([]) == "" && Encode([0x61]) == "2g"
  {
    assert Digits(0x61 / 58 / 58, 58) == [];
    assert Digits(0x61 / 58, 58) == [1];
    assert Digits(0x61, 58) == [1, 39];
    assert Val([], 256) == 0;
    assert [0x61][..0] == [];
    assert Val([0x61], 256) == 0x61;
  }

  ghost predicate Blank(s: string) { forall i :: 0 <= i < |s| ==> IsSpace(s[i]) }

  lemma {:induction false} Spans(t: string, a: nat, b: nat, e: nat)
    requires a <= b <= e <= |t| && Blank(t[..a]) && Alphabetic(t[a..b]) && Blank(t[b..e]) && (e == |t| || t[e] == '\0')
    ensures Decode(t).Some?
  {
    SpansAre(t, a, b, e);
  }

  lemma {:induction false} SpansAre(t: string, a: nat, b: nat, e: nat)
    requires a <= b <= e <= |t| && Blank(t[..a]) && Alphabetic(t[a..b]) && Blank(t[b..e]) && (e == |t| || t[e] == '\0')
    ensures Decode(t) == Some(Rebase(FromText(t[a..b]), 58, 256))
  {
    hide Digit, Rebase;
    forall i | a <= i < b ensures !IsSpace(t[i]) && t[i] != '\0' && Digit(t[i]) != -1 { assert t[i] == t[a..b][i - a]; SymbolDigit(t[i]); }
    forall i | 0 <= i < a ensures IsSpace(t[i]) && t[i] != '\0' { assert t[i] == t[..a][i]; }
    forall i | b <= i < e ensures IsSpace(t[i]) && t[i] != '\0' { assert t[i] == t[b..e][i - b]; }
    if a == b {
      SpanIs(t, IsSpace, 0, e);
      SpanIs(t, c => !IsSpace(c), e, e);
      SpanIs(t, IsSpace, e, e);
    } else {
      SpanIs(t, IsSpace, 0, a);
      SpanIs(t, c => !IsSpace(c), a, b);
      SpanIs(t, IsSpace, b, e);
    }
  }

  lemma {:induction false} SpanIs(t: string, p: char -> bool, i: nat, j: nat)
    requires i <= j <= |t| && (forall k :: i <= k < j ==> t[k] != '\0' && p(t[k])) && (j == |t| || t[j] == '\0' || !p(t[j]))
    ensures Span(t, p, i) == j
  {
  }
}
