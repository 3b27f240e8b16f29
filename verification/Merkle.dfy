/**
 Partial Merkle trees: the ragged hash tree over a list of transaction ids, the depth-first
 encoding of the part of it above the matched ids, and the decoder. Recursion follows the tree;
 a node is a height and a position, and stands for the leaves from Lo up to Hi.
 */
module Merkle {
  import opened Powers

  type Digest = nat

  const ZERO: Digest := 0
  const MAX_BLOCK_WEIGHT := 8000000
  const MIN_TRANSACTION_WEIGHT := 4 * 60

  // ---- Shape of the tree ----

  function Pow2(h: nat): (r: nat)
    ensures r > 0
  {
    PowPositive(2, h);
    Pow(2, h)
  }

  function Width(n: nat, h: nat): nat { (n + Pow2(h) - 1) / Pow2(h) }

  function Lo(h: nat, pos: nat): nat { pos * Pow2(h) }

  function Hi(n: nat, h: nat, pos: nat): nat {
    if Lo(h, pos + 1) < n then Lo(h, pos + 1) else n
  }

  /** A position exists at a height exactly when its first leaf does. */
  lemma {:induction false} WidthIff(n: nat, h: nat, p: nat)
    ensures p < Width(n, h) <==> Lo(h, p) < n
  {
    hide Pow2;
    var d, w := Pow2(h), Width(n, h);
    assert w * d <= n + d - 1 < w * d + d;
    if p < w { MulLe(p + 1, w, d); } else { MulLe(w, p, d); }
  }

  /** The two halves of a node; the right one may be missing. */
  lemma {:induction false} Halves(n: nat, h: nat, pos: nat)
    requires h > 0 && pos < Width(n, h)
    ensures 2 * pos < Width(n, h - 1)
    ensures Lo(h - 1, 2 * pos) == Lo(h, pos) < Hi(n, h - 1, 2 * pos) <= Hi(n, h, pos) <= n
    ensures 2 * pos + 1 < Width(n, h - 1) ==>
      Lo(h - 1, 2 * pos + 1) == Hi(n, h - 1, 2 * pos) < Hi(n, h, pos) && Hi(n, h - 1, 2 * pos + 1) == Hi(n, h, pos)
    ensures !(2 * pos + 1 < Width(n, h - 1)) ==> Hi(n, h - 1, 2 * pos) == Hi(n, h, pos)
  {
    hide Width;
    WidthIff(n, h, pos);
    WidthIff(n, h - 1, 2 * pos);
    WidthIff(n, h - 1, 2 * pos + 1);
    var d := Pow2(h - 1);
    Doubles(pos, d);
    Doubles(pos + 1, d);
    assert (2 * pos + 1) * d == 2 * pos * d + d;
  }

  lemma Doubles(pos: nat, d: nat)
    ensures pos * (2 * d) == (2 * pos) * d
  {
  }

  lemma {:induction false} LeafRange(n: nat, pos: nat)
    requires pos < Width(n, 0)
    ensures Lo(0, pos) == pos < n && Hi(n, 0, pos) == pos + 1
  {
  }

  /** The least height whose level has at most one node. */
  function HeightFrom(n: nat, h: nat): (r: nat)
    ensures r >= h && Width(n, r) <= 1
    decreases Width(n, h)
  {
    if Width(n, h) <= 1 then h else Narrower(n, h); HeightFrom(n, h + 1)
  }

  function Height(n: nat): nat { HeightFrom(n, 0) }

  lemma {:induction false} Narrower(n: nat, h: nat)
    requires Width(n, h) > 1
    ensures Width(n, h + 1) < Width(n, h)
  {
    hide Width, Pow2;
    var w := Width(n, h) - 1;
    WidthIff(n, h, w + 1);
    WidthIff(n, h + 1, w);
    Wider(h, w);
  }

  lemma {:induction false} Wider(h: nat, w: nat)
    requires w >= 1
    ensures Lo(h + 1, w) >= Lo(h, w + 1)
  {
    Doubles(w, Pow2(h));
    MulLe(w + 1, 2 * w, Pow2(h));
  }

  lemma {:induction false} RootCovers(n: nat)
    requires n > 0
    ensures 0 < Width(n, Height(n)) && Lo(Height(n), 0) == 0 && Hi(n, Height(n), 0) == n
  {
    hide Width;
    WidthIff(n, Height(n), 0);
    WidthIff(n, Height(n), 1);
  }

  // ---- The hash tree ----

  function CalcHash(combine: (Digest, Digest) -> Digest, txids: seq<Digest>, h: nat, pos: nat): Digest
    requires pos < Width(|txids|, h)
  {
    if h == 0 then
      LeafRange(|txids|, pos);
      txids[pos]
    else
      Halves(|txids|, h, pos);
      var left := CalcHash(combine, txids, h - 1, 2 * pos);
      var right := if 2 * pos + 1 < Width(|txids|, h - 1) then CalcHash(combine, txids, h - 1, 2 * pos + 1) else left;
      combine(left, right)
  }

  function Root(combine: (Digest, Digest) -> Digest, txids: seq<Digest>): Digest
    requires txids != []
  {
    RootCovers(|txids|);
    CalcHash(combine, txids, Height(|txids|), 0)
  }

  /** The two values that are hashed into an inner node. */
  function Children(combine: (Digest, Digest) -> Digest, txids: seq<Digest>, h: nat, pos: nat): (r: (Digest, Digest))
    requires h > 0 && pos < Width(|txids|, h)
    ensures combine(r.0, r.1) == CalcHash(combine, txids, h, pos)
  {
    Halves(|txids|, h, pos);
    var left := CalcHash(combine, txids, h - 1, 2 * pos);
    (left, if 2 * pos + 1 < Width(|txids|, h - 1) then CalcHash(combine, txids, h - 1, 2 * pos + 1) else left)
  }

  /** Two different inputs of the hash function, in hand, with the same output. */
  predicate Collide(combine: (Digest, Digest) -> Digest, x: (Digest, Digest), y: (Digest, Digest)) {
    x != y && combine(x.0, x.1) == combine(y.0, y.1)
  }

  // ---- Which leaves are matched ----

  function MatchesIn(match_: seq<bool>, lo: nat, hi: nat): (r: seq<nat>)
    requires lo <= hi <= |match_|
    decreases hi - lo
  {
    if lo == hi then [] else (if match_[lo] then [lo] else []) + MatchesIn(match_, lo + 1, hi)
  }

  lemma {:induction false} MatchesSplit(match_: seq<bool>, lo: nat, mid: nat, hi: nat)
    requires lo <= mid <= hi <= |match_|
    ensures MatchesIn(match_, lo, hi) == MatchesIn(match_, lo, mid) + MatchesIn(match_, mid, hi)
    decreases mid - lo
  {
    if lo < mid {
      MatchesSplit(match_, lo + 1, mid, hi);
    }
  }

  /** The list holds each matched leaf of the range once, in order. */
  lemma {:induction false} MatchesExact(match_: seq<bool>, lo: nat, hi: nat)
    requires lo <= hi <= |match_|
    ensures forall i :: i in MatchesIn(match_, lo, hi) <==> lo <= i < hi && match_[i]
    ensures Ascending(MatchesIn(match_, lo, hi))
    decreases hi - lo
  {
    if lo < hi {
      MatchesExact(match_, lo + 1, hi);
      var rest := MatchesIn(match_, lo + 1, hi);
      forall j | 0 <= j < |rest| ensures lo < rest[j] { assert rest[j] in rest; }
    }
  }

  ghost predicate Ascending(s: seq<nat>) { forall i, j :: 0 <= i < j < |s| ==> s[i] < s[j] }

  function At(txids: seq<Digest>, idx: seq<nat>): seq<Digest>
    requires forall i :: 0 <= i < |idx| ==> idx[i] < |txids|
  {
    seq(|idx|, i requires 0 <= i < |idx| => txids[idx[i]])
  }

  function Picked(txids: seq<Digest>, match_: seq<bool>, lo: nat, hi: nat): seq<Digest>
    requires lo <= hi <= |match_| == |txids|
  {
    MatchesExact(match_, lo, hi);
    var idx := MatchesIn(match_, lo, hi);
    assert forall i :: 0 <= i < |idx| ==> idx[i] in idx;
    At(txids, idx)
  }

  lemma {:induction false} PickedSplit(txids: seq<Digest>, match_: seq<bool>, lo: nat, mid: nat, hi: nat)
    requires lo <= mid <= hi <= |match_| == |txids|
    ensures Picked(txids, match_, lo, hi) == Picked(txids, match_, lo, mid) + Picked(txids, match_, mid, hi)
  {
    MatchesSplit(match_, lo, mid, hi);
  }

  // ---- Encoding ----

  datatype Bundle = Bundle(bits: seq<bool>, hashes: seq<Digest>)

  /** Whether a node is the parent of a matched id. */
  predicate Above(match_: seq<bool>, h: nat, pos: nat)
    requires pos < Width(|match_|, h)
  {
    WidthIff(|match_|, h, pos);
    WidthIff(|match_|, h, pos + 1);
    RangeOk(|match_|, h, pos);
    MatchesIn(match_, Lo(h, pos), Hi(|match_|, h, pos)) != []
  }

  lemma {:induction false} RangeOk(n: nat, h: nat, pos: nat)
    requires pos < Width(n, h)
    ensures Lo(h, pos) < Hi(n, h, pos) <= n
  {
    hide Width;
    WidthIff(n, h, pos);
    assert Lo(h, pos + 1) == Lo(h, pos) + Pow2(h);
  }

  function Build(combine: (Digest, Digest) -> Digest, txids: seq<Digest>, match_: seq<bool>, h: nat, pos: nat): Bundle
    requires |match_| == |txids| && pos < Width(|txids|, h)
  {
    var above := Above(match_, h, pos);
    if h == 0 || !above then Bundle([above], [CalcHash(combine, txids, h, pos)])
    else
      Halves(|txids|, h, pos);
      var l := Build(combine, txids, match_, h - 1, 2 * pos);
      if 2 * pos + 1 < Width(|txids|, h - 1) then
        var r := Build(combine, txids, match_, h - 1, 2 * pos + 1);
        Bundle([above] + l.bits + r.bits, l.hashes + r.hashes)
      else Bundle([above] + l.bits, l.hashes)
  }

  /** The whole tree. */
  function Encode(combine: (Digest, Digest) -> Digest, txids: seq<Digest>, match_: seq<bool>): Bundle
    requires |match_| == |txids| > 0
  {
    RootCovers(|txids|);
    Build(combine, txids, match_, Height(|txids|), 0)
  }

  // ---- Decoding ----

  /** What the traversal has consumed and produced so far. */
  datatype Cursor = Cursor(bitsUsed: nat, hashUsed: nat, matches: seq<Digest>, indexes: seq<nat>, bad: bool)

  function Extract(combine: (Digest, Digest) -> Digest, n: nat, b: Bundle, h: nat, pos: nat, c: Cursor): (Cursor, Digest)
  {
    if c.bitsUsed >= |b.bits| then (c.(bad := true), ZERO)
    else
      var flag := b.bits[c.bitsUsed];
      var c1 := c.(bitsUsed := c.bitsUsed + 1);
      if h == 0 || !flag then
        if c1.hashUsed >= |b.hashes| then (c1.(bad := true), ZERO)
        else
          var x := b.hashes[c1.hashUsed];
          var c2 := c1.(hashUsed := c1.hashUsed + 1);
          (if h == 0 && flag then c2.(matches := c2.matches + [x], indexes := c2.indexes + [pos]) else c2, x)
      else
        var (c2, l) := Extract(combine, n, b, h - 1, 2 * pos, c1);
        if 2 * pos + 1 < Width(n, h - 1) then
          var (c3, r) := Extract(combine, n, b, h - 1, 2 * pos + 1, c2);
          (if r == l then c3.(bad := true) else c3, combine(l, r))
        else (c2, combine(l, l))
  }

  datatype Extracted = Extracted(root: Digest, matches: seq<Digest>, indexes: seq<nat>, bad: bool)

  /** The size checks made before the traversal. */
  predicate Plausible(n: nat, b: Bundle) {
    && n != 0
    && n <= MAX_BLOCK_WEIGHT / MIN_TRANSACTION_WEIGHT
    && |b.hashes| <= n
    && |b.bits| >= |b.hashes|
  }

  function ExtractMatches(combine: (Digest, Digest) -> Digest, n: nat, b: Bundle, indexes: seq<nat>, bad: bool): Extracted
  {
    if !Plausible(n, b) then Extracted(ZERO, [], indexes, bad)
    else
      var (c, root) := Extract(combine, n, b, Height(n), 0, Cursor(0, 0, [], indexes, bad));
      var good := !c.bad && (c.bitsUsed + 7) / 8 == (|b.bits| + 7) / 8 && c.hashUsed == |b.hashes|;
      Extracted(if good then root else ZERO, c.matches, c.indexes, c.bad)
  }

  // ---- Soundness ----

  /** Shape of what a traversal adds, whatever it is fed. */
  ghost predicate Grows(c: Cursor, c': Cursor, lo: nat, hi: nat) {
    && |c.matches| <= |c'.matches| && c'.matches[..|c.matches|] == c.matches
    && |c.indexes| <= |c'.indexes| && c'.indexes[..|c.indexes|] == c.indexes
    && |c'.matches| - |c.matches| == |c'.indexes| - |c.indexes|
    && (forall k {:trigger c'.indexes[k]} :: |c.indexes| <= k < |c'.indexes| ==> lo <= c'.indexes[k] < hi)
    && (forall j, k {:trigger c'.indexes[j], c'.indexes[k]} :: |c.indexes| <= j < k < |c'.indexes| ==> c'.indexes[j] < c'.indexes[k])
  }

  /** The added ids are those listed at the added positions. */
  ghost predicate Listed(txids: seq<Digest>, c: Cursor, c': Cursor) {
    forall k {:trigger c'.indexes[k]} :: |c.indexes| <= k < |c'.indexes| && c'.indexes[k] < |txids| ==>
      0 <= k - |c.indexes| + |c.matches| < |c'.matches| ==> c'.matches[k - |c.indexes| + |c.matches|] == txids[c'.indexes[k]]
  }

  lemma {:induction false} GrowsTrans(c: Cursor, c1: Cursor, c2: Cursor, lo: nat, mid: nat, hi: nat)
    requires Grows(c, c1, lo, mid) && Grows(c1, c2, mid, hi) && lo <= mid <= hi
    ensures Grows(c, c2, lo, hi)
  {
    forall k | |c.indexes| <= k < |c2.indexes| ensures lo <= c2.indexes[k] < hi {
      if k < |c1.indexes| { assert c2.indexes[k] == c1.indexes[k]; }
    }
    forall j, k | |c.indexes| <= j < k < |c2.indexes| ensures c2.indexes[j] < c2.indexes[k] {
      if k < |c1.indexes| {
        assert c2.indexes[j] == c1.indexes[j] && c2.indexes[k] == c1.indexes[k];
      } else if j < |c1.indexes| {
        assert c2.indexes[j] == c1.indexes[j];
      }
    }
    assert c2.matches[..|c.matches|] == c1.matches[..|c.matches|];
    assert c2.indexes[..|c.indexes|] == c1.indexes[..|c.indexes|];
  }

  lemma {:induction false} ListedTrans(txids: seq<Digest>, c: Cursor, c1: Cursor, c2: Cursor, lo: nat, mid: nat, hi: nat)
    requires Grows(c, c1, lo, mid) && Grows(c1, c2, mid, hi)
    requires Listed(txids, c, c1) && Listed(txids, c1, c2)
    ensures Listed(txids, c, c2)
  {
    forall k | |c.indexes| <= k < |c2.indexes| && c2.indexes[k] < |txids|
      ensures 0 <= k - |c.indexes| + |c.matches| < |c2.matches| ==> c2.matches[k - |c.indexes| + |c.matches|] == txids[c2.indexes[k]]
    {
      if k < |c1.indexes| {
        assert c2.indexes[k] == c1.indexes[k];
        assert c2.matches[k - |c.indexes| + |c.matches|] == c1.matches[k - |c.indexes| + |c.matches|];
      }
    }
  }

  /** Positions come out inside the node and strictly growing, for every input. */
  lemma {:induction false} ExtractGrows(combine: (Digest, Digest) -> Digest, n: nat, b: Bundle, h: nat, pos: nat, c: Cursor)
    requires pos < Width(n, h)
    ensures Grows(c, Extract(combine, n, b, h, pos, c).0, Lo(h, pos), Hi(n, h, pos))
    decreases h
  {
    hide Width, Lo, Hi, Grows;
    if c.bitsUsed >= |b.bits| || h == 0 || !b.bits[c.bitsUsed] {
      StopGrows(combine, n, b, h, pos, c);
    } else {
      var c1 := c.(bitsUsed := c.bitsUsed + 1);
      Halves(n, h, pos);
      ExtractGrows(combine, n, b, h - 1, 2 * pos, c1);
      var c2 := Extract(combine, n, b, h - 1, 2 * pos, c1).0;
      if 2 * pos + 1 < Width(n, h - 1) {
        ExtractGrows(combine, n, b, h - 1, 2 * pos + 1, c2);
        var c3 := Extract(combine, n, b, h - 1, 2 * pos + 1, c2).0;
        GrowsTrans(c1, c2, c3, Lo(h, pos), Hi(n, h - 1, 2 * pos), Hi(n, h, pos));
        SameGrowth(c, c1, c3, c3.(bad := true), Lo(h, pos), Hi(n, h, pos));
      } else {
        SameGrowth(c, c1, c2, c2, Lo(h, pos), Hi(n, h, pos));
      }
    }
  }

  lemma {:induction false} StopGrows(combine: (Digest, Digest) -> Digest, n: nat, b: Bundle, h: nat, pos: nat, c: Cursor)
    requires pos < Width(n, h)
    requires c.bitsUsed >= |b.bits| || h == 0 || !b.bits[c.bitsUsed]
    ensures Grows(c, Extract(combine, n, b, h, pos, c).0, Lo(h, pos), Hi(n, h, pos))
  {
    hide Width, Lo, Hi;
    if h == 0 { LeafRange(n, pos); }
  }

  lemma {:induction false} SameGrowth(c: Cursor, c1: Cursor, d: Cursor, d1: Cursor, lo: nat, hi: nat)
    requires c.matches == c1.matches && c.indexes == c1.indexes && d.matches == d1.matches && d.indexes == d1.indexes
    ensures Grows(c1, d, lo, hi) ==> Grows(c, d, lo, hi) && Grows(c, d1, lo, hi)
  {
  }

  /** The traversal goes below the node. */
  predicate Descending(b: Bundle, h: nat, c: Cursor) { h > 0 && c.bitsUsed < |b.bits| && b.bits[c.bitsUsed] }

  /** The cursors with which the traversal enters the two halves of a node, and the two values it then hashes. */
  function Halfway(combine: (Digest, Digest) -> Digest, n: nat, b: Bundle, h: nat, pos: nat, c: Cursor): (Cursor, Cursor)
    requires h > 0
  {
    var c1 := c.(bitsUsed := c.bitsUsed + 1);
    (c1, Extract(combine, n, b, h - 1, 2 * pos, c1).0)
  }

  function Hashed(combine: (Digest, Digest) -> Digest, n: nat, b: Bundle, h: nat, pos: nat, c: Cursor): (Digest, Digest)
    requires h > 0
  {
    var (c1, c2) := Halfway(combine, n, b, h, pos, c);
    var l := Extract(combine, n, b, h - 1, 2 * pos, c1).1;
    (l, if 2 * pos + 1 < Width(n, h - 1) then Extract(combine, n, b, h - 1, 2 * pos + 1, c2).1 else l)
  }

  /**
   At this node or below, along nodes where it agrees with the tree, the traversal hashes two values
   other than the node's children into the node's own hash.
   */
  predicate Clash(combine: (Digest, Digest) -> Digest, txids: seq<Digest>, b: Bundle, h: nat, pos: nat, c: Cursor)
    requires pos < Width(|txids|, h)
  {
    Descending(b, h, c) &&
    (Halves(|txids|, h, pos);
     var (c1, c2) := Halfway(combine, |txids|, b, h, pos, c);
     var hashed, own := Hashed(combine, |txids|, b, h, pos, c), Children(combine, txids, h, pos);
     || Collide(combine, hashed, own)
     || (hashed == own && Clash(combine, txids, b, h - 1, 2 * pos, c1))
     || (hashed == own && 2 * pos + 1 < Width(|txids|, h - 1) && Clash(combine, txids, b, h - 1, 2 * pos + 1, c2)))
  }

  /** A traversal that ends in the node's own hash adds only listed ids, or hashes a colliding pair. */
  lemma {:induction false} ExtractSound(combine: (Digest, Digest) -> Digest, txids: seq<Digest>, b: Bundle, h: nat, pos: nat, c: Cursor)
    requires pos < Width(|txids|, h)
    requires Extract(combine, |txids|, b, h, pos, c).1 == CalcHash(combine, txids, h, pos)
    ensures Listed(txids, c, Extract(combine, |txids|, b, h, pos, c).0) || Clash(combine, txids, b, h, pos, c)
    decreases h
  {
    hide Width, Lo, Hi, Grows, Listed;
    var n := |txids|;
    if !Descending(b, h, c) {
      StopSound(combine, txids, b, h, pos, c);
    } else {
      Halves(n, h, pos);
      var (c1, c2) := Halfway(combine, n, b, h, pos, c);
      if Hashed(combine, n, b, h, pos, c) == Children(combine, txids, h, pos) {
        ExtractSound(combine, txids, b, h - 1, 2 * pos, c1);
        if 2 * pos + 1 < Width(n, h - 1) {
          ExtractSound(combine, txids, b, h - 1, 2 * pos + 1, c2);
          BothListed(combine, txids, b, h, pos, c);
        } else {
          SameLists(txids, c, c1, c2, c2);
        }
      }
    }
  }

  /** What both halves add is listed. */
  lemma {:induction false} BothListed(combine: (Digest, Digest) -> Digest, txids: seq<Digest>, b: Bundle, h: nat, pos: nat, c: Cursor)
    requires pos < Width(|txids|, h) && Descending(b, h, c) && 2 * pos + 1 < Width(|txids|, h - 1)
    ensures var (c1, c2) := Halfway(combine, |txids|, b, h, pos, c);
            var c3 := Extract(combine, |txids|, b, h - 1, 2 * pos + 1, c2).0;
            Listed(txids, c1, c2) && Listed(txids, c2, c3) ==> Listed(txids, c, Extract(combine, |txids|, b, h, pos, c).0)
  {
    hide Width, Lo, Hi, Grows, Listed;
    var n := |txids|;
    Halves(n, h, pos);
    var (c1, c2) := Halfway(combine, n, b, h, pos, c);
    var c3 := Extract(combine, n, b, h - 1, 2 * pos + 1, c2).0;
    ExtractGrows(combine, n, b, h - 1, 2 * pos, c1);
    ExtractGrows(combine, n, b, h - 1, 2 * pos + 1, c2);
    if Listed(txids, c1, c2) && Listed(txids, c2, c3) {
      ListedTrans(txids, c1, c2, c3, Lo(h, pos), Hi(n, h - 1, 2 * pos), Hi(n, h, pos));
      SameLists(txids, c, c1, c3, c3.(bad := true));
    }
  }

  /** A traversal that does not descend. */
  lemma {:induction false} StopSound(combine: (Digest, Digest) -> Digest, txids: seq<Digest>, b: Bundle, h: nat, pos: nat, c: Cursor)
    requires pos < Width(|txids|, h)
    requires Extract(combine, |txids|, b, h, pos, c).1 == CalcHash(combine, txids, h, pos)
    requires c.bitsUsed >= |b.bits| || h == 0 || !b.bits[c.bitsUsed]
    ensures Listed(txids, c, Extract(combine, |txids|, b, h, pos, c).0)
  {
    hide Width;
    if h == 0 { LeafRange(|txids|, pos); }
  }

  /** Being listed depends on the two lists alone. */
  lemma {:induction false} SameLists(txids: seq<Digest>, c: Cursor, c1: Cursor, d: Cursor, d1: Cursor)
    requires c.matches == c1.matches && c.indexes == c1.indexes && d.matches == d1.matches && d.indexes == d1.indexes
    ensures Listed(txids, c1, d) ==> Listed(txids, c, d) && Listed(txids, c, d1)
  {
  }

  /**
   If extraction with no indices yet returns the non-zero root of a list of that length, every
   extracted id is the listed one at its extracted index, and the indices are strictly growing;
   or the traversal from the root hashed a pair that collides with the children of a node.
   */
  lemma {:induction false} Soundness(combine: (Digest, Digest) -> Digest, txids: seq<Digest>, b: Bundle, bad: bool)
    requires txids != []
    requires var r := ExtractMatches(combine, |txids|, b, [], bad); r.root == Root(combine, txids) != ZERO
    ensures var r := ExtractMatches(combine, |txids|, b, [], bad);
            || (RootCovers(|txids|); Clash(combine, txids, b, Height(|txids|), 0, Cursor(0, 0, [], [], bad)))
            || (|r.matches| == |r.indexes| && Ascending(r.indexes)
                && forall k :: 0 <= k < |r.indexes| ==> r.indexes[k] < |txids| && r.matches[k] == txids[r.indexes[k]])
  {
    hide Extract, Clash, Lo, Hi, Width, CalcHash;
    var n, c := |txids|, Cursor(0, 0, [], [], bad);
    RootCovers(n);
    ExtractGrows(combine, n, b, Height(n), 0, c);
    ExtractSound(combine, txids, b, Height(n), 0, c);
  }

  // ---- What is refused ----

  lemma {:induction false} BadSticks(combine: (Digest, Digest) -> Digest, n: nat, b: Bundle, h: nat, pos: nat, c: Cursor)
    requires c.bad
    ensures Extract(combine, n, b, h, pos, c).0.bad
    decreases h
  {
    hide Width;
    if Descending(b, h, c) {
      var (c1, c2) := Halfway(combine, n, b, h, pos, c);
      BadSticks(combine, n, b, h - 1, 2 * pos, c1);
      BadSticks(combine, n, b, h - 1, 2 * pos + 1, c2);
    }
  }

  function Cut(b: Bundle, k: nat, m: nat): Bundle
    requires k <= |b.bits| && m <= |b.hashes|
  {
    Bundle(b.bits[..k], b.hashes[..m])
  }

  /** A traversal only looks at what it uses: on a shorter bundle it does the same, or runs off its end. */
  lemma {:induction false} ExtractCut(combine: (Digest, Digest) -> Digest, n: nat, b: Bundle, k: nat, m: nat, h: nat, pos: nat, c: Cursor)
    requires k <= |b.bits| && m <= |b.hashes| && c.bitsUsed <= k && c.hashUsed <= m
    ensures var (whole, part) := (Extract(combine, n, b, h, pos, c), Extract(combine, n, Cut(b, k, m), h, pos, c));
            && c.bitsUsed <= whole.0.bitsUsed && c.hashUsed <= whole.0.hashUsed
            && (if whole.0.bitsUsed <= k && whole.0.hashUsed <= m then part == whole else part.0.bad)
    decreases h
  {
    hide Width, Extract, Halfway;
    UsesMore(combine, n, b, h, pos, c);
    if !Descending(b, h, c) {
      StopCut(combine, n, b, k, m, h, pos, c);
    } else if c.bitsUsed == k {
      UsesFlag(combine, n, b, h, pos, c);
      Exhausted(combine, n, Cut(b, k, m), h, pos, c);
    } else {
      var b' := Cut(b, k, m);
      Goes(combine, n, b, h, pos, c);
      Goes(combine, n, b', h, pos, c);
      var (c1, c2) := Halfway(combine, n, b, h, pos, c);
      var (_, c2') := Halfway(combine, n, b', h, pos, c);
      ExtractCut(combine, n, b, k, m, h - 1, 2 * pos, c1);
      if c2.bitsUsed <= k && c2.hashUsed <= m {
        ExtractCut(combine, n, b, k, m, h - 1, 2 * pos + 1, c2);
      } else {
        BadSticks(combine, n, b', h - 1, 2 * pos + 1, c2');
        UsesMore(combine, n, b, h - 1, 2 * pos + 1, c2);
      }
    }
  }

  /** A traversal that goes below the node. */
  lemma {:induction false} Goes(combine: (Digest, Digest) -> Digest, n: nat, b: Bundle, h: nat, pos: nat, c: Cursor)
    requires Descending(b, h, c)
    ensures var (c1, c2) := Halfway(combine, n, b, h, pos, c);
            var l := Extract(combine, n, b, h - 1, 2 * pos, c1);
            && c1 == c.(bitsUsed := c.bitsUsed + 1) && c2 == l.0
            && if 2 * pos + 1 < Width(n, h - 1) then
                 var r := Extract(combine, n, b, h - 1, 2 * pos + 1, c2);
                 Extract(combine, n, b, h, pos, c) == (if r.1 == l.1 then r.0.(bad := true) else r.0, combine(l.1, r.1))
               else Extract(combine, n, b, h, pos, c) == (c2, combine(l.1, l.1))
  {
    hide Width;
  }

  lemma {:induction false} StopCut(combine: (Digest, Digest) -> Digest, n: nat, b: Bundle, k: nat, m: nat, h: nat, pos: nat, c: Cursor)
    requires k <= |b.bits| && m <= |b.hashes| && c.bitsUsed <= k && c.hashUsed <= m && !Descending(b, h, c)
    ensures var whole, part := Extract(combine, n, b, h, pos, c), Extract(combine, n, Cut(b, k, m), h, pos, c);
            if whole.0.bitsUsed <= k && whole.0.hashUsed <= m then part == whole else part.0.bad
  {
  }

  lemma Exhausted(combine: (Digest, Digest) -> Digest, n: nat, b: Bundle, h: nat, pos: nat, c: Cursor)
    requires c.bitsUsed >= |b.bits|
    ensures Extract(combine, n, b, h, pos, c).0.bad
  {
  }

  lemma {:induction false} UsesMore(combine: (Digest, Digest) -> Digest, n: nat, b: Bundle, h: nat, pos: nat, c: Cursor)
    ensures var d := Extract(combine, n, b, h, pos, c).0; c.bitsUsed <= d.bitsUsed && c.hashUsed <= d.hashUsed
    decreases h
  {
    hide Width;
    if Descending(b, h, c) {
      var (c1, c2) := Halfway(combine, n, b, h, pos, c);
      UsesMore(combine, n, b, h - 1, 2 * pos, c1);
      UsesMore(combine, n, b, h - 1, 2 * pos + 1, c2);
    }
  }

  lemma {:induction false} UsesFlag(combine: (Digest, Digest) -> Digest, n: nat, b: Bundle, h: nat, pos: nat, c: Cursor)
    requires Descending(b, h, c)
    ensures c.bitsUsed < Extract(combine, n, b, h, pos, c).0.bitsUsed
  {
    hide Width;
    var (c1, c2) := Halfway(combine, n, b, h, pos, c);
    UsesMore(combine, n, b, h - 1, 2 * pos, c1);
    UsesMore(combine, n, b, h - 1, 2 * pos + 1, c2);
  }

  /**
   A bundle and a shorter one, by at least one hash or by flag bits that change their number of bytes,
   are not both accepted: whatever is appended to an accepted bundle, or left off it, is noticed.
   */
  lemma {:induction false} CutRefused(combine: (Digest, Digest) -> Digest, n: nat, b: Bundle, k: nat, m: nat, indexes: seq<nat>, bad: bool)
    requires k <= |b.bits| && m <= |b.hashes| && (m < |b.hashes| || (k + 7) / 8 < (|b.bits| + 7) / 8)
    ensures || ExtractMatches(combine, n, b, indexes, bad).root == ZERO
            || ExtractMatches(combine, n, Cut(b, k, m), indexes, bad).root == ZERO
  {
    hide Extract;
    ExtractCut(combine, n, b, k, m, Height(n), 0, Cursor(0, 0, [], indexes, bad));
  }

  /** Neither a further hash nor eight further flag bits are accepted at the end of an accepted bundle. */
  lemma {:induction false} NothingAppended(combine: (Digest, Digest) -> Digest, n: nat, b: Bundle, indexes: seq<nat>, bad: bool, x: Digest, more: seq<bool>)
    requires ExtractMatches(combine, n, b, indexes, bad).root != ZERO && |more| >= 8
    ensures ExtractMatches(combine, n, b.(hashes := b.hashes + [x]), indexes, bad).root == ZERO
    ensures ExtractMatches(combine, n, b.(bits := b.bits + more), indexes, bad).root == ZERO
    ensures b.hashes != [] && ExtractMatches(combine, n, b.(hashes := b.hashes[..|b.hashes| - 1]), indexes, bad).root == ZERO
  {
    hide ExtractMatches;
    var k, m := |b.bits|, |b.hashes|;
    var longer, wider := b.(hashes := b.hashes + [x]), b.(bits := b.bits + more);
    assert Cut(longer, k, m) == b && Cut(wider, k, m) == b;
    CutRefused(combine, n, longer, k, m, indexes, bad);
    CutRefused(combine, n, wider, k, m, indexes, bad);
    AcceptedFits(combine, n, b, indexes, bad);
    assert b.bits[..k] == b.bits;
    CutRefused(combine, n, b, k, m - 1, indexes, bad);
  }

  /** What is accepted has a sensible size; what has not leaves the lists as they were. */
  lemma {:induction false} AcceptedFits(combine: (Digest, Digest) -> Digest, n: nat, b: Bundle, indexes: seq<nat>, bad: bool)
    ensures var r := ExtractMatches(combine, n, b, indexes, bad);
            && (r.root != ZERO ==> 0 < n <= 33333 && 0 < |b.hashes| <= n && |b.hashes| <= |b.bits|)
            && (!(0 < n <= 33333 && |b.hashes| <= n && |b.hashes| <= |b.bits|) ==> r.matches == [] && r.indexes == indexes && r.bad == bad)
  {
    if Plausible(n, b) {
      UsesHash(combine, n, b, Height(n), 0, Cursor(0, 0, [], indexes, bad));
      hide Extract;
    }
  }

  lemma {:induction false} UsesHash(combine: (Digest, Digest) -> Digest, n: nat, b: Bundle, h: nat, pos: nat, c: Cursor)
    ensures var d := Extract(combine, n, b, h, pos, c).0; d.bad || c.hashUsed < d.hashUsed
    decreases h
  {
    hide Width;
    if Descending(b, h, c) {
      var (c1, c2) := Halfway(combine, n, b, h, pos, c);
      UsesHash(combine, n, b, h - 1, 2 * pos, c1);
      UsesMore(combine, n, b, h - 1, 2 * pos + 1, c2);
      if c2.bad { BadSticks(combine, n, b, h - 1, 2 * pos + 1, c2); }
    }
  }
}
