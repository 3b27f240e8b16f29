/**
 How many rounds a walk over skip pointers takes. Heights are looked at in blocks of a power of two:
 from the last height of a block the walk clears ones two at a time from below, until it would pass
 the target; then it enters a smaller block at its last height. The number of rounds grows with the
 square of the number of bits.
 */
module SkipWalk {
  import opened Powers
  import opened Chain

  function P(k: nat): (r: nat)
    ensures r > 0
  {
    PowPositive(2, k);
    Pow(2, k)
  }

  lemma PStep(k: nat)
    ensures P(k + 1) == 2 * P(k)
  {
  }

  lemma {:induction false} PLe(a: nat, b: nat)
    requires a <= b
    ensures P(a) <= P(b)
  {
    PowLe(2, a, b);
  }

  lemma {:induction false} PSplit(a: nat, b: nat)
    ensures P(a + b) == P(a) * P(b)
  {
    PowAdd(2, a, b);
  }

  // ---- One round ----

  lemma {:induction false} RoundsStop(w: nat)
    ensures Rounds(w, w) == 0
  {
  }

  /** A walk takes no more rounds than there are heights in between. */
  lemma {:induction false} RoundsAtMost(w: nat, g: nat)
    requires g <= w
    ensures Rounds(w, g) <= w - g
    decreases w
  {
    if g < w { RoundsAtMost(Onward(w, g), g); }
  }

  lemma {:induction false} Follows(w: nat, g: nat)
    requires g < w && g <= GetSkipHeight(w) && (GetSkipHeight(w) == g || GetSkipHeight(w - 1) >= GetSkipHeight(w) - 2 || GetSkipHeight(w - 1) < g)
    ensures GetSkipHeight(w) < w && Rounds(w, g) == 1 + Rounds(GetSkipHeight(w), g)
  {
    hide GetSkipHeight;
    SkipsBack(w);
  }

  lemma {:induction false} Steps(w: nat, g: nat)
    requires g < w && GetSkipHeight(w) < g
    ensures Rounds(w, g) == 1 + Rounds(w - 1, g)
  {
    hide GetSkipHeight;
  }

  lemma {:induction false} Declines(w: nat, g: nat)
    requires g < w && g < GetSkipHeight(w) && g <= GetSkipHeight(w - 1) < GetSkipHeight(w) - 2
    ensures Rounds(w, g) == 1 + Rounds(w - 1, g)
  {
    hide GetSkipHeight;
  }

  /** Whichever way the walk goes. */
  lemma {:induction false} EitherWay(w: nat, g: nat, bound: nat)
    requires g < w && Rounds(w - 1, g) <= bound
    requires g <= GetSkipHeight(w) < w ==> Rounds(GetSkipHeight(w), g) <= bound
    ensures Rounds(w, g) <= bound + 1
  {
    hide GetSkipHeight;
    SkipsBack(w);
  }

  // ---- Clearing ones below the end of a block ----

  /** Below a multiple of 2^p, clearing goes up one bit. */
  lemma {:induction false} ClearTop(p: nat, u: nat, a: nat)
    requires a < p && u > 0
    ensures P(a) < P(a + 1) <= P(p) <= P(p) * u && InvertLowestOne(P(p) * u - P(a)) == P(p) * u - P(a + 1)
  {
    hide InvertLowestOne, P;
    var d := p - a - 1;
    PSplit(a, d + 1);
    PStep(d);
    PStep(a);
    PLe(a + 1, p);
    MulLe(1, u, P(p));
    var m := P(d) * u - 1;
    MulPositive(P(d), u);
    Spread(P(a), P(d), u);
    InvertAtP(a, m);
  }

  lemma Spread(x: nat, y: nat, u: nat)
    requires y * u > 0
    ensures x * (2 * (y * u - 1) + 1) == (x * (2 * y)) * u - x && x * (2 * (y * u - 1)) == (x * (2 * y)) * u - 2 * x
  {
    assert x * (2 * (y * u - 1) + 1) == x * (2 * (y * u)) - x;
    assert x * (2 * (y * u - 1)) == x * (2 * (y * u)) - 2 * x;
    assert (x * (2 * y)) * u == x * (2 * (y * u)) by { Assoc(x, 2 * y, u); Assoc(2, y, u); }
  }

  lemma InvertAtP(k: nat, m: nat)
    ensures InvertLowestOne(P(k) * (2 * m + 1)) == P(k) * (2 * m)
  {
    InvertAt(k, m);
  }

  /** The skip of an even height a power of two below the end. */
  lemma {:induction false} SkipBelow(p: nat, u: nat, a: nat)
    requires 1 <= a < p && u > 0
    ensures P(a) < P(a + 1) <= P(p) <= P(p) * u && GetSkipHeight(P(p) * u - P(a)) == P(p) * u - P(a + 1)
  {
    hide InvertLowestOne;
    ClearTop(p, u, a);
    EvenBelow(p, u, a);
  }

  /** The skip of the odd height after it. */
  lemma {:induction false} SkipAbove(p: nat, u: nat, a: nat)
    requires 1 <= a && a + 2 <= p && u > 0
    ensures P(a) < P(a + 1) < P(a + 2) <= P(p) <= P(p) * u && GetSkipHeight(P(p) * u - P(a) + 1) == P(p) * u - P(a + 2) + 1
  {
    hide InvertLowestOne;
    ClearTop(p, u, a);
    ClearTop(p, u, a + 1);
    EvenBelow(p, u, a);
    SkipsAfterEven(P(p) * u - P(a));
  }

  lemma {:induction false} EvenBelow(p: nat, u: nat, a: nat)
    requires 1 <= a < p && u > 0 && P(a + 1) <= P(p) * u
    ensures 2 <= P(p) * u - P(a) && (P(p) * u - P(a)) % 2 == 0
  {
    hide P;
    PStep(p - 1);
    PStep(a - 1);
    PStep(a);
    Assoc(2, P(p - 1), u);
    var x := P(p - 1) * u - P(a - 1);
    assert P(p) * u - P(a) == 2 * x;
  }

  // ---- Walks inside a block ----

  /** Rounds from the last height of a block of 2^p heights to any height of it, at most. */
  function BlockRounds(p: nat): nat {
    if p <= 2 then p else if p == 3 then 4 else BlockRounds(p - 1) + if p % 2 == 0 then p / 2 + 1 else (p + 3) / 2
  }

  lemma {:induction false} BlockRoundsGrow(a: nat, p: nat)
    requires a <= p
    ensures BlockRounds(a) <= BlockRounds(p) && p <= BlockRounds(p)
    decreases p
  {
    if p > 0 { BlockRoundsGrow(if a < p then a else p - 1, p - 1); }
  }

  /** What is left after clearing ones twice at a time pays for entering the smaller block. */
  lemma {:induction false} EnoughLeft(a: nat, p: nat)
    requires a % 2 == 1 && a <= p
    ensures a == p ==> 1 + (a - 1) / 2 <= BlockRounds(p)
    ensures a + 1 == p && a >= 3 ==> 2 + BlockRounds(a) + (a - 1) / 2 <= BlockRounds(p)
    ensures a + 2 <= p && a >= 3 ==> 3 + BlockRounds(a + 1) + (a - 1) / 2 <= BlockRounds(p)
    ensures a + 2 <= p ==> 4 <= BlockRounds(p)
  {
    BlockRoundsGrow(a, p);
    if a + 2 <= p {
      BlockRoundsGrow(a + 2, p);
      BlockRoundsGrow(3, p);
      assert a >= 3 ==> BlockRounds(a + 2) == BlockRounds(a + 1) + (a + 5) / 2;
    }
  }

  /** What lies below the end by 2^a is the end of a block of 2^a. */
  lemma {:induction false} SubBlock(p: nat, u: nat, a: nat) returns (v: nat)
    requires a < p && u > 0
    ensures v > 0 && P(a) <= P(p) * u && P(p) * u - P(a) == P(a) * v
  {
    hide P;
    PSplit(a, p - a);
    PLe(1, p - a);
    POne();
    MulPositive(P(p - a), u);
    MulLe(1, u, P(p - a));
    v := P(p - a) * u - 1;
    Assoc(P(a), P(p - a), u);
    assert P(a) * v == P(a) * (P(p - a) * u) - P(a);
    MulLe(1, P(p - a) * u, P(a));
  }

  lemma POne()
    ensures P(0) == 1 && P(1) == 2 && P(2) == 4 && P(3) == 8
  {
    assert Pow(2, 0) == 1 && Pow(2, 1) == 2 && Pow(2, 2) == 4;
  }

  lemma {:induction false} InvertLe(n: nat)
    ensures InvertLowestOne(n) <= n
  {
    if n > 0 { AndLe(n, n - 1); }
  }

  /** Two below the end: the parent's skip passes the target or is no better. */
  lemma {:induction false} NotDeclined(p: nat, u: nat, a: nat, g: nat)
    requires 1 <= a && a % 2 == 1 && a + 2 <= p && u > 0
    requires P(a + 2) <= P(p) * u && P(p) * u - P(a + 2) + 1 < g
    ensures P(a) < P(a + 1) < P(a + 2)
    ensures var s := GetSkipHeight(P(p) * u - P(a) - 1); s >= P(p) * u - P(a + 1) - 2 || s < g
  {
    hide P, GetSkipHeight, InvertLowestOne;
    PStep(a);
    PStep(a + 1);
    POne();
    if a == 1 {
      var n := P(p) * u;
      EvenBelow(p, u, 2);
      SkipsAfterEven(n - 4);
      ClearTop(p, u, 2);
      InvertLe(n - 8);
    } else {
      PLe(3, a);
      var v := SubBlock(p, u, a);
      SkipAbove(a, v, 1);
    }
  }

  /** At an even height below the end, the next clearing of two ones having been refused. */
  lemma {:induction false} EvenStop(p: nat, u: nat, a: nat, g: nat)
    requires 1 <= a && a % 2 == 1 && a + 2 <= p && u > 0 && P(a + 2) <= P(p) * u
    requires P(p) * u - P(a + 2) + 1 < g <= P(p) * u - P(a)
    ensures Rounds(P(p) * u - P(a), g) <= if a == 1 then 3 else 2 + BlockRounds(a + 1)
    decreases p, 0
  {
    hide P, GetSkipHeight, BlockRounds, Rounds;
    var n := P(p) * u;
    POne();
    SkipBelow(p, u, a);
    SkipBelow(p, u, a + 1);
    PStep(a);
    PStep(a + 1);
    BlockRoundsGrow(a, a + 1);
    if g == n - P(a) {
      RoundsStop(g);
    } else if g <= n - P(a + 1) {
      NotDeclined(p, u, a, g);
      Follows(n - P(a), g);
      if g == n - P(a + 1) {
        RoundsStop(g);
      } else {
        Steps(n - P(a + 1), g);
        if a == 1 {
          RoundsAtMost(n - P(2) - 1, g);
        } else {
          var v := SubBlock(p, u, a + 1);
          InBlock(a + 1, v, g);
        }
      }
    } else {
      Steps(n - P(a), g);
      if a == 1 {
        RoundsAtMost(n - P(1) - 1, g);
      } else {
        var v := SubBlock(p, u, a);
        InBlock(a, v, g);
      }
    }
  }

  /** In the last part of the block. */
  lemma {:induction false} LastStop(p: nat, u: nat, a: nat, g: nat)
    requires 1 <= a && a + 1 == p && u > 0 && P(p) <= P(p) * u && P(p) * u - P(p) <= g <= P(p) * u - P(a)
    ensures Rounds(P(p) * u - P(a) + 1, g) <= if a == 1 then 2 else 2 + BlockRounds(a)
    decreases p, 0
  {
    hide P, GetSkipHeight, BlockRounds, Rounds, InvertLowestOne;
    var n := P(p) * u;
    POne();
    PStep(a);
    SkipBelow(p, u, a);
    EvenBelow(p, u, a);
    SkipsAfterEven(n - P(a));
    ClearTop(p, u, a);
    InvertLe(n - P(p));
    var w, s := n - P(a) + 1, GetSkipHeight(n - P(a) + 1);
    if g <= s { RoundsAtMost(s, g); }
    if g == n - P(a) {
      RoundsStop(g);
    } else if g == n - P(p) {
      Follows(n - P(a), g);
      RoundsStop(g);
    } else {
      Steps(n - P(a), g);
      if a == 1 {
        RoundsAtMost(n - P(a) - 1, g);
      } else {
        var v := SubBlock(p, u, a);
        InBlock(a, v, g);
      }
    }
    EitherWay(w, g, if a == 1 then 1 else 1 + BlockRounds(a));
  }

  /** At an odd height of the descent, after (a - 1) / 2 rounds. */
  lemma {:induction false} Descent(p: nat, u: nat, a: nat, g: nat)
    requires a % 2 == 1 && a <= p && u > 0 && P(p) <= P(p) * u && P(a) <= P(p) && P(p) * u - P(p) <= g <= P(p) * u - P(a) + 1
    ensures Rounds(P(p) * u - P(a) + 1, g) + (a - 1) / 2 <= BlockRounds(p)
    decreases p, 1 + p - a
  {
    hide P, GetSkipHeight, BlockRounds, Rounds;
    var n := P(p) * u;
    EnoughLeft(a, p);
    BlockRoundsGrow(a, p);
    if g == n - P(a) + 1 {
      RoundsStop(g);
    } else if a == p {
      RoundsAtMost(n - P(a) + 1, g);
    } else if a + 1 == p {
      LastStop(p, u, a, g);
      if a == 1 { BlockTwo(); }
    } else {
      SkipAbove(p, u, a);
      if g <= n - P(a + 2) + 1 {
        SkipBelow(p, u, a);
        Follows(n - P(a) + 1, g);
        PLe(a + 2, p);
        Descent(p, u, a + 2, g);
      } else {
        Steps(n - P(a) + 1, g);
        EvenStop(p, u, a, g);
      }
    }
  }

  lemma BlockTwo()
    ensures BlockRounds(2) == 2 && BlockRounds(0) == 0
  {
  }

  /** From the last height of a block to any height of it. */
  lemma {:induction false} InBlock(p: nat, u: nat, g: nat)
    requires u > 0 && P(p) <= P(p) * u && P(p) * u - P(p) <= g < P(p) * u
    ensures Rounds(P(p) * u - 1, g) <= BlockRounds(p)
    decreases p, 2 + p
  {
    hide P, GetSkipHeight, BlockRounds, Rounds;
    POne();
    if p == 0 {
      RoundsStop(g);
    } else {
      PLe(1, p);
      Descent(p, u, 1, g);
    }
  }

  // ---- From any height to the block of the target ----

  /** The first height with the topmost bit in which the walk and the target differ; the target lies in the 2^p heights before it. */
  function Mid(p: nat, r: nat): nat { P(p) * (2 * r + 1) }

  ghost predicate Below(p: nat, r: nat, g: nat) { P(p) * (2 * r) <= g < Mid(p, r) }

  lemma {:induction false} MidFacts(p: nat, r: nat)
    ensures Mid(p, r) == P(p) * (2 * r) + P(p)
    ensures InvertLowestOne(Mid(p, r)) == P(p) * (2 * r)
    ensures p > 0 ==> Mid(p, r) >= 2 && Mid(p, r) % 2 == 0 && GetSkipHeight(Mid(p, r)) == P(p) * (2 * r)
  {
    hide InvertLowestOne;
    InvertAtP(p, r);
    if p > 0 {
      EvenPower(p, 2 * r + 1);
      SkipsEven(p, r);
    }
  }

  lemma {:induction false} FromMid(p: nat, r: nat, g: nat)
    requires Below(p, r, g)
    ensures Rounds(Mid(p, r), g) <= 1 + BlockRounds(p)
  {
    hide P, GetSkipHeight, BlockRounds, Rounds, InvertLowestOne;
    MidFacts(p, r);
    POne();
    if p == 0 {
      RoundsAtMost(Mid(p, r), g);
    } else if g == P(p) * (2 * r) {
      Follows(Mid(p, r), g);
      RoundsStop(g);
    } else {
      Steps(Mid(p, r), g);
      InBlock(p, 2 * r + 1, g);
    }
  }

  /** Clearing the lowest one of what lies above the middle: it is at bit i, and what is left is a multiple of the next power. */
  lemma {:induction false} ClearIn(p: nat, r: nat, k: nat, m: nat) returns (i: nat, rest: nat)
    requires k <= p && 0 < m < P(p - k)
    ensures k <= i < p && rest < P(p - i - 1)
    ensures P(k) * m == P(i) + P(i + 1) * rest
    ensures InvertLowestOne(Mid(p, r) + P(k) * m) == Mid(p, r) + P(i + 1) * rest
    decreases p - k
  {
    hide P, InvertLowestOne, Mid;
    POne();
    assert k < p;
    PStep(p - k - 1);
    var h := m / 2;
    if m == 2 * h {
      EvenPart(k, h);
      i, rest := ClearIn(p, r, k + 1, h);
    } else {
      i, rest := k, h;
      ClearOdd(p, r, k, h);
    }
  }

  lemma EvenPart(k: nat, h: nat)
    ensures P(k) * (2 * h) == P(k + 1) * h
  {
    hide P;
    PStep(k);
    Assoc(P(k), 2, h);
  }

  lemma {:induction false} ClearOdd(p: nat, r: nat, k: nat, h: nat)
    requires k < p
    ensures P(k) * (2 * h + 1) == P(k) + P(k + 1) * h
    ensures InvertLowestOne(Mid(p, r) + P(k) * (2 * h + 1)) == Mid(p, r) + P(k + 1) * h
  {
    hide P, InvertLowestOne, Mid;
    MidAt(p, r, k);
    PStep(k);
    var x := P(p - k - 1) * (2 * r + 1);
    OddPart(P(k), x, h);
    InvertAtP(k, x + h);
  }

  lemma OddPart(c: nat, x: nat, h: nat)
    ensures c * (2 * h + 1) == c + (2 * c) * h
    ensures c * (2 * x) + c * (2 * h + 1) == c * (2 * (x + h) + 1)
    ensures c * (2 * (x + h)) == c * (2 * x) + (2 * c) * h
  {
  }

  lemma {:induction false} MidAt(p: nat, r: nat, k: nat)
    requires k < p
    ensures Mid(p, r) == P(k) * (2 * (P(p - k - 1) * (2 * r + 1)))
  {
    hide P;
    PSplit(k, p - k);
    PStep(p - k - 1);
    Assoc(P(k), P(p - k), 2 * r + 1);
    Assoc(2, P(p - k - 1), 2 * r + 1);
  }

  lemma {:induction false} EvenAbove(p: nat, r: nat, k: nat, m: nat)
    requires 1 <= k <= p && m < P(p - k)
    ensures Mid(p, r) + P(k) * m >= 2 && (Mid(p, r) + P(k) * m) % 2 == 0
    ensures GetSkipHeight(Mid(p, r) + P(k) * m) == InvertLowestOne(Mid(p, r) + P(k) * m)
    ensures GetSkipHeight(Mid(p, r) + P(k) * m + 1) == InvertLowestOne(InvertLowestOne(Mid(p, r) + P(k) * m)) + 1
  {
    hide InvertLowestOne, P;
    MidFacts(p, r);
    PStep(k - 1);
    Assoc(2, P(k - 1), m);
    EvenSum(Mid(p, r), P(k - 1) * m);
    SkipsAfterEven(Mid(p, r) + P(k) * m);
  }

  lemma EvenSum(a: nat, b: nat)
    requires a % 2 == 0
    ensures (a + 2 * b) % 2 == 0
  {
  }

  /** Just below a multiple of eight the skip goes back by six. */
  lemma {:induction false} BeforeEight(y: nat)
    requires y > 0
    ensures GetSkipHeight(8 * y - 1) == 8 * y - 7
  {
    hide GetSkipHeight, P;
    POne();
    SkipAbove(3, y, 1);
  }

  lemma {:induction false} EightAt(p: nat, r: nat, k: nat, m: nat) returns (y: nat)
    requires 3 <= k <= p && m < P(p - k)
    ensures y > 0 && Mid(p, r) + P(k) * m == 8 * y
  {
    hide P;
    POne();
    PSplit(3, p - 3);
    PSplit(3, k - 3);
    Assoc(8, P(p - 3), 2 * r + 1);
    Assoc(8, P(k - 3), m);
    MulPositive(P(p - 3), 2 * r + 1);
    y := P(p - 3) * (2 * r + 1) + P(k - 3) * m;
  }

  /** From a multiple of eight above the middle every round clears one one. */
  lemma {:induction false} EvenRun(p: nat, r: nat, k: nat, m: nat, g: nat)
    requires 3 <= k <= p && m < P(p - k) && Below(p, r, g)
    ensures Rounds(Mid(p, r) + P(k) * m, g) <= p - k + 1 + BlockRounds(p)
    decreases p - k
  {
    hide P, GetSkipHeight, BlockRounds, Rounds, InvertLowestOne, Mid;
    FromMid(p, r, g);
    if m > 0 {
      var n := Mid(p, r) + P(k) * m;
      EvenAbove(p, r, k, m);
      var y := EightAt(p, r, k, m);
      BeforeEight(y);
      var i, rest := ClearIn(p, r, k, m);
      PLe(3, i);
      POne();
      Follows(n, g);
      EvenRun(p, r, i + 1, rest, g);
    } else {
      assert P(k) * m == 0;
    }
  }

  /** One one above the middle, and a target that no skip from there reaches. */
  lemma {:induction false} SingleOne(p: nat, r: nat, i: nat, g: nat)
    requires 1 <= i < p && Below(p, r, g) && P(p) * (2 * r) + 1 < g
    ensures Rounds(Mid(p, r) + P(i), g) <= 2 + BlockRounds(p)
  {
    hide P, GetSkipHeight, BlockRounds, Rounds, InvertLowestOne, Mid;
    POne();
    PLe(1, p - i);
    EvenAbove(p, r, i, 1);
    var j, rest := ClearIn(p, r, i, 1);
    OneOnly(i, j, rest);
    MidFacts(p, r);
    var n := Mid(p, r) + P(i);
    if i == 1 {
      SkipsAfterEven(Mid(p, r));
      InvertLe(P(p) * (2 * r));
    } else if i == 2 {
      PLe(1, p - 1);
      EvenAbove(p, r, 1, 1);
      var j1, rest1 := ClearIn(p, r, 1, 1);
      OneOnly(1, j1, rest1);
    } else {
      var y := EightAt(p, r, i, 1);
      BeforeEight(y);
      PLe(3, i);
    }
    Follows(n, g);
    FromMid(p, r, g);
  }

  lemma {:induction false} OneOnly(i: nat, j: nat, rest: nat)
    requires i <= j && P(i) * 1 == P(j) + P(j + 1) * rest
    ensures j == i && rest == 0
  {
    hide P;
    PLe(i, j);
    if rest > 0 { MulLe(1, rest, P(j + 1)); }
    if i < j { PLe(i + 1, j); PStep(i); }
  }

  /** From an odd height above the middle every round clears two ones. */
  lemma {:induction false} OddRun(p: nat, r: nat, k: nat, m: nat, g: nat)
    requires 1 <= k <= p && m < P(p - k) && Below(p, r, g)
    ensures Rounds(Mid(p, r) + P(k) * m + 1, g) <= (p - k) / 2 + 3 + BlockRounds(p)
    decreases p - k
  {
    hide P, GetSkipHeight, BlockRounds, Rounds, InvertLowestOne, Mid;
    var n := Mid(p, r) + P(k) * m;
    EvenAbove(p, r, k, m);
    MidFacts(p, r);
    FromMid(p, r, g);
    if m == 0 {
      assert P(k) * m == 0;
      OddAtMid(p, r, g);
    } else {
      var i, rest := ClearIn(p, r, k, m);
      if rest == 0 {
        assert P(i + 1) * rest == 0;
        OddSingle(p, r, i, g);
      } else {
        var i2, rest2 := ClearIn(p, r, i + 1, rest);
        Follows(n + 1, g);
        OddRun(p, r, i2 + 1, rest2, g);
      }
    }
  }

  lemma {:induction false} OddAtMid(p: nat, r: nat, g: nat)
    requires p > 0 && Below(p, r, g)
    ensures Rounds(Mid(p, r) + 1, g) <= 2 + BlockRounds(p)
  {
    hide P, GetSkipHeight, BlockRounds, Rounds, InvertLowestOne, Mid;
    MidFacts(p, r);
    FromMid(p, r, g);
    SkipsAfterEven(Mid(p, r));
    InvertLe(P(p) * (2 * r));
    var s := GetSkipHeight(Mid(p, r) + 1);
    if g <= s { RoundsAtMost(s, g); }
    EitherWay(Mid(p, r) + 1, g, 1 + BlockRounds(p));
  }

  lemma {:induction false} OddSingle(p: nat, r: nat, i: nat, g: nat)
    requires 1 <= i < p && Below(p, r, g)
    ensures Rounds(Mid(p, r) + P(i) + 1, g) <= 3 + BlockRounds(p)
  {
    hide P, GetSkipHeight, BlockRounds, Rounds, InvertLowestOne, Mid;
    POne();
    PLe(1, p - i);
    EvenAbove(p, r, i, 1);
    var j, rest := ClearIn(p, r, i, 1);
    OneOnly(i, j, rest);
    assert P(j + 1) * rest == 0;
    MidFacts(p, r);
    var n, base := Mid(p, r) + P(i), P(p) * (2 * r);
    assert GetSkipHeight(n + 1) == base + 1 && GetSkipHeight(n) == Mid(p, r);
    if g <= base + 1 {
      Follows(n + 1, g);
      RoundsAtMost(base + 1, g);
    } else {
      Steps(n + 1, g);
      SingleOne(p, r, i, g);
    }
  }

  // ---- The whole walk ----

  function Approach(p: nat): nat { if p - 3 > (p + 5) / 2 then p - 3 else (p + 5) / 2 }

  /** Rounds of a walk whose ends differ first in bit p, at most. */
  function WalkRounds(p: nat): nat { Approach(p) + 1 + BlockRounds(p) }

  /** An even height above the middle. */
  lemma {:induction false} EvenStart(p: nat, r: nat, m: nat, g: nat)
    requires 1 <= p && 0 < m < P(p - 1) && Below(p, r, g)
    ensures Rounds(Mid(p, r) + P(1) * m, g) <= WalkRounds(p)
  {
    hide P, GetSkipHeight, BlockRounds, Rounds, InvertLowestOne, Mid;
    var i, rest := ClearIn(p, r, 1, m);
    if i == 1 {
      EvenStartOne(p, r, rest, g);
    } else if i == 2 {
      EvenStartTwo(p, r, rest, g);
    } else {
      OddPart(P(i), 0, rest);
      PStep(i);
      PStep(p - i - 1);
      EvenRun(p, r, i, 2 * rest + 1, g);
    }
  }

  /** The lowest one is at bit 2: unless it is the only one, the walk goes over to odd heights. */
  lemma {:induction false} EvenStartTwo(p: nat, r: nat, rest: nat, g: nat)
    requires 3 <= p && rest < P(p - 3) && Below(p, r, g)
    ensures Rounds(Mid(p, r) + P(2) + P(3) * rest, g) <= WalkRounds(p)
  {
    hide P, GetSkipHeight, BlockRounds, Rounds, InvertLowestOne, Mid;
    POne();
    PSplit(2, p - 3);
    PSplit(1, p - 3);
    PStep(p - 3);
    var n := Mid(p, r) + P(2) + P(3) * rest;
    EvenAbove(p, r, 2, 2 * rest + 1);
    ClearOdd(p, r, 2, rest);
    EvenAbove(p, r, 1, 4 * rest + 1);
    ClearOdd(p, r, 1, 2 * rest);
    OddRun(p, r, 1, 4 * rest + 1, g);
    assert n - 1 == Mid(p, r) + P(1) * (4 * rest + 1) + 1;
    if rest == 0 {
      FromMid(p, r, g);
      EitherWay(n, g, (p - 1) / 2 + 3 + BlockRounds(p));
    } else {
      var i, more := ClearIn(p, r, 3, rest);
      PLe(3, i);
      Declines(n, g);
    }
  }

  /** The lowest one is at bit 1. */
  lemma {:induction false} EvenStartOne(p: nat, r: nat, rest: nat, g: nat)
    requires 2 <= p && rest < P(p - 2) && Below(p, r, g)
    ensures Rounds(Mid(p, r) + P(1) + P(2) * rest, g) <= WalkRounds(p)
  {
    hide P, GetSkipHeight, BlockRounds, Rounds, InvertLowestOne, Mid;
    POne();
    PStep(p - 2);
    var n, c := Mid(p, r) + P(1) + P(2) * rest, Mid(p, r) + P(2) * rest;
    EvenAbove(p, r, 1, 2 * rest + 1);
    ClearOdd(p, r, 1, rest);
    EvenAbove(p, r, 2, rest);
    OddRun(p, r, 2, rest, g);
    FromMid(p, r, g);
    MidFacts(p, r);
    if rest == 0 {
      EitherWay(n, g, (p - 1) / 2 + 3 + BlockRounds(p));
    } else {
      var i, more := ClearIn(p, r, 2, rest);
      PLe(2, i);
      if more == 0 {
        assert P(i + 1) * more == 0;
        if P(p) * (2 * r) + 1 < g {
          SingleOne(p, r, i, g);
          EitherWay(n, g, (p - 1) / 2 + 3 + BlockRounds(p));
        } else {
          Declines(n, g);
        }
      } else {
        var i2, more2 := ClearIn(p, r, i + 1, more);
        Declines(n, g);
      }
    }
  }

  /** Any height from the middle on. */
  lemma {:induction false} FromAbove(p: nat, r: nat, w: nat, g: nat)
    requires Mid(p, r) <= w < Mid(p, r) + P(p) && Below(p, r, g)
    ensures Rounds(w, g) <= WalkRounds(p)
  {
    hide P, GetSkipHeight, BlockRounds, Rounds, InvertLowestOne, Mid;
    FromMid(p, r, g);
    POne();
    var x := w - Mid(p, r);
    if x > 0 {
      assert p > 0;
      PStep(p - 1);
      if x % 2 == 0 {
        EvenStart(p, r, x / 2, g);
      } else {
        OddRun(p, r, 1, x / 2, g);
      }
    }
  }

  /** The topmost bit in which two heights differ. */
  lemma {:induction false} Differ(w: nat, g: nat) returns (p: nat, r: nat)
    requires g < w
    ensures Mid(p, r) <= w < Mid(p, r) + P(p) && Below(p, r, g)
    decreases w
  {
    hide P;
    if w / 2 == g / 2 {
      p, r := 0, g / 2;
      POne();
    } else {
      var q;
      q, r := Differ(w / 2, g / 2);
      p := q + 1;
      PStep(q);
      Assoc(2, P(q), 2 * r + 1);
      Assoc(2, P(q), 2 * r);
    }
  }

  lemma {:induction false} WalkRoundsGrow(a: nat, p: nat)
    requires a <= p
    ensures WalkRounds(a) <= WalkRounds(p)
  {
    hide BlockRounds;
    BlockRoundsGrow(a, p);
  }

  /** Below height 2^b a walk takes at most so many rounds, whatever its ends. */
  lemma {:induction false} RoundsBound(w: nat, g: nat, b: nat)
    requires g <= w < P(b) && b > 0
    ensures Rounds(w, g) <= WalkRounds(b - 1)
    ensures 4 * Rounds(w, g) <= b * b + 8 * b + 3
  {
    hide P, Mid, Rounds, BlockRounds;
    WalkQuadratic(b);
    if g == w {
      RoundsStop(g);
    } else {
      var p, r := Differ(w, g);
      FromAbove(p, r, w, g);
      MidFacts(p, r);
      if p >= b { PLe(b, p); }
      WalkRoundsGrow(p, b - 1);
    }
  }

  // ---- The bound is reached ----

  lemma {:induction false} SkipsOfPower(p: nat)
    requires p > 0
    ensures GetSkipHeight(P(p)) == 0 && GetSkipHeight(P(p) + 1) == 1
  {
    hide GetSkipHeight;
    SkipsEven(p, 0);
    SkipsPower(p);
  }

  lemma {:induction false} DescentExact(p: nat, a: nat)
    requires a % 2 == 1 && a + 1 <= p && p >= 4
    ensures P(a) < P(p) && Rounds(P(p) - P(a) + 1, 2) + (a - 1) / 2 == BlockRounds(p)
    decreases p, 1 + p - a
  {
    hide P, GetSkipHeight, Rounds;
    POne();
    PLe(a + 1, p);
    PStep(a);
    var n := P(p) * 1;
    if a + 1 == p {
      SkipsOfPower(a);
      PLe(3, a);
      Steps(P(a) + 1, 2);
      Steps(P(a), 2);
      BlockExact(a);
    } else if a + 2 == p {
      SkipAbove(p, 1, a);
      SkipBelow(p, 1, a);
      SkipsOfPower(a + 1);
      PStep(a + 1);
      PLe(3, a);
      Steps(n - P(a) + 1, 2);
      var v := SubBlock(p, 1, a);
      SkipAbove(a, v, 1);
      Follows(n - P(a), 2);
      Steps(P(a + 1), 2);
      BlockExact(a + 1);
    } else {
      SkipAbove(p, 1, a);
      SkipBelow(p, 1, a);
      PLe(a + 3, p);
      PStep(a + 1);
      PStep(a + 2);
      Follows(n - P(a) + 1, 2);
      DescentExact(p, a + 2);
    }
  }

  /** Back to height 2 from the last height of a block the bound is the exact number of rounds. */
  lemma {:induction false} BlockExact(p: nat)
    requires p >= 3
    ensures P(p) >= 8 && Rounds(P(p) - 1, 2) == BlockRounds(p)
    decreases p, 2 + p
  {
    hide P, Rounds;
    POne();
    PLe(3, p);
    if p == 3 {
      Seven();
    } else {
      DescentExact(p, 1);
    }
  }

  lemma {:induction false} Seven()
    ensures Rounds(7, 2) == 4
  {
    hide P, GetSkipHeight, Rounds;
    POne();
    SkipAbove(3, 1, 1);
    SkipBelow(3, 1, 1);
    SkipsOfPower(1);
    SkipsOfPower(2);
    Steps(7, 2);
    Follows(6, 2);
    Steps(4, 2);
    Steps(3, 2);
    RoundsStop(2);
  }

  lemma {:induction false} ClimbExact(p: nat, a: nat)
    requires 3 <= a <= p
    ensures P(a) + 2 <= P(p + 1) && Rounds(P(p + 1) - P(a), 2) == p - a + 1 + BlockRounds(p)
    decreases p - a
  {
    hide P, GetSkipHeight, Rounds, BlockRounds;
    POne();
    PStep(p);
    PLe(3, a);
    PLe(a, p);
    var n := P(p + 1) * 1;
    if a == p {
      SkipsOfPower(p);
      Steps(P(p), 2);
      BlockExact(p);
    } else {
      SkipBelow(p + 1, 1, a);
      PLe(a + 1, p);
      PStep(a);
      var v := SubBlock(p + 1, 1, a);
      SkipAbove(a, v, 1);
      Follows(n - P(a), 2);
      ClimbExact(p, a + 1);
    }
  }

  /** From eight below a power of two back to height 2: the bound is reached for every number of bits from 12 on. */
  lemma {:induction false} BoundReached(b: nat)
    requires b >= 12
    ensures P(b) > 8 && Rounds(P(b) - 8, 2) == WalkRounds(b - 1)
  {
    hide P, Rounds, BlockRounds;
    POne();
    PLe(4, b);
    PStep(3);
    ClimbExact(b - 1, 3);
  }

  /** The number that the skip heights were chosen for: below 2^18 blocks at most 110 rounds, and 110 in one case. */
  lemma {:induction false} At18Bits()
    ensures forall w: nat, g: nat :: g <= w < P(18) ==> Rounds(w, g) <= 110
    ensures Rounds(P(18) - 8, 2) == 110
  {
    hide P, Rounds;
    assert WalkRounds(17) == 110 by { SeventeenBits(); }
    forall w: nat, g: nat | g <= w < P(18) ensures Rounds(w, g) <= 110 { RoundsBound(w, g, 18); }
    BoundReached(18);
  }

  lemma SeventeenBits()
    ensures BlockRounds(17) == 95
  {
    assert BlockRounds(6) == 15;
    assert BlockRounds(9) == 31;
    assert BlockRounds(12) == 51;
    assert BlockRounds(15) == 76;
  }

  lemma {:induction false} WalkQuadratic(b: nat)
    requires b > 0
    ensures 4 * WalkRounds(b - 1) <= b * b + 8 * b + 3
  {
    if b <= 3 {
      assert WalkRounds(0) == 3 && WalkRounds(1) == 5 && WalkRounds(2) == 6;
    } else {
      hide BlockRounds;
      QuadraticBlock(b - 1);
      SquareBefore(b);
    }
  }

  /** The number of rounds is quadratic in the number of bits: no multiple of it is enough. */
  lemma {:induction false} Quadratic(p: nat)
    requires p >= 3
    ensures p * p <= 4 * BlockRounds(p) <= p * p + 6 * p
    ensures P(p) >= 8 && p * p <= 4 * Rounds(P(p) - 1, 2)
  {
    hide P, Rounds;
    QuadraticBlock(p);
    BlockExact(p);
  }

  lemma SquareBefore(p: nat)
    requires p > 0
    ensures (p - 1) * (p - 1) == p * p - 2 * p + 1
  {
  }

  lemma {:induction false} QuadraticBlock(p: nat)
    requires p >= 3
    ensures if p % 2 == 0 then 4 * BlockRounds(p) == p * p + 6 * p - 12 else 4 * BlockRounds(p) == p * p + 6 * p - 11
    decreases p
  {
    if p > 3 {
      var q := BlockRounds(p - 1);
      assert BlockRounds(p) == q + if p % 2 == 0 then p / 2 + 1 else (p + 3) / 2;
      hide BlockRounds;
      QuadraticBlock(p - 1);
      SquareBefore(p);
    }
  }
}
