/** Building a partial tree, sending it as bytes and extracting it again; how large it can be. */
module MerkleRoundTrip {
  import opened Merkle

  // ---- When the decoder accepts what the encoder made ----

  /** No two sibling nodes that the traversal visits have the same hash. */
  ghost predicate Clean(combine: (Digest, Digest) -> Digest, txids: seq<Digest>, match_: seq<bool>, h: nat, pos: nat)
    requires |match_| == |txids| && pos < Width(|txids|, h)
  {
    if h == 0 || !Above(match_, h, pos) then true
    else
      Halves(|txids|, h, pos);
      && Clean(combine, txids, match_, h - 1, 2 * pos)
      && (2 * pos + 1 < Width(|txids|, h - 1) ==>
            && Clean(combine, txids, match_, h - 1, 2 * pos + 1)
            && CalcHash(combine, txids, h - 1, 2 * pos) != CalcHash(combine, txids, h - 1, 2 * pos + 1))
  }

  ghost predicate CleanTree(combine: (Digest, Digest) -> Digest, txids: seq<Digest>, match_: seq<bool>)
    requires |match_| == |txids| > 0
  {
    RootCovers(|txids|);
    Clean(combine, txids, match_, Height(|txids|), 0)
  }

  /** The bundle's parts lie in the stream from the two given places on. */
  ghost predicate Ahead(b: Bundle, u: nat, v: nat, part: Bundle) {
    && u + |part.bits| <= |b.bits| && b.bits[u..u + |part.bits|] == part.bits
    && v + |part.hashes| <= |b.hashes| && b.hashes[v..v + |part.hashes|] == part.hashes
  }

  function Past(c: Cursor, part: Bundle, matches: seq<Digest>, indexes: seq<nat>, bad: bool): Cursor {
    Cursor(c.bitsUsed + |part.bits|, c.hashUsed + |part.hashes|, c.matches + matches, c.indexes + indexes, c.bad || bad)
  }

  lemma {:induction false} SliceSplit<T>(s: seq<T>, u: nat, x: seq<T>, y: seq<T>)
    requires u + |x| + |y| <= |s| && s[u..u + |x| + |y|] == x + y
    ensures s[u..u + |x|] == x && s[u + |x|..u + |x| + |y|] == y
  {
    var z := s[u..u + |x| + |y|];
    assert s[u..u + |x|] == z[..|x|];
    assert s[u + |x|..u + |x| + |y|] == z[|x|..];
  }

  lemma {:induction false} AheadSplit(b: Bundle, u: nat, v: nat, bit: bool, l: Bundle, r: Bundle)
    requires Ahead(b, u, v, Bundle([bit] + l.bits + r.bits, l.hashes + r.hashes))
    ensures u < |b.bits| && b.bits[u] == bit
    ensures Ahead(b, u + 1, v, l)
    ensures Ahead(b, u + 1 + |l.bits|, v + |l.hashes|, r)
  {
    SliceSplit(b.bits, u, [bit] + l.bits, r.bits);
    SliceSplit(b.bits, u, [bit], l.bits);
    SliceSplit(b.hashes, v, l.hashes, r.hashes);
    assert b.bits[u] == b.bits[u..u + 1][0];
  }

  /** Passing a node is passing its flag, its left half and its right half. */
  lemma {:induction false} PastHalves(c: Cursor, l: Bundle, r: Bundle, ml: seq<Digest>, mr: seq<Digest>, il: seq<nat>, ir: seq<nat>, bl: bool, br: bool)
    ensures Past(Past(c.(bitsUsed := c.bitsUsed + 1), l, ml, il, bl), r, mr, ir, br)
         == Past(c, Bundle([true] + l.bits + r.bits, l.hashes + r.hashes), ml + mr, il + ir, bl || br)
  {
    assert (c.matches + ml) + mr == c.matches + (ml + mr);
    assert (c.indexes + il) + ir == c.indexes + (il + ir);
  }

  /** The node's own matched leaves and their ids. */
  function Idx(match_: seq<bool>, h: nat, pos: nat): seq<nat>
    requires pos < Width(|match_|, h)
  {
    RangeOk(|match_|, h, pos);
    MatchesIn(match_, Lo(h, pos), Hi(|match_|, h, pos))
  }

  function Ids(txids: seq<Digest>, match_: seq<bool>, h: nat, pos: nat): seq<Digest>
    requires |match_| == |txids| && pos < Width(|match_|, h)
  {
    RangeOk(|match_|, h, pos);
    Picked(txids, match_, Lo(h, pos), Hi(|match_|, h, pos))
  }

  lemma {:induction false} IdxHalves(txids: seq<Digest>, match_: seq<bool>, h: nat, pos: nat)
    requires |match_| == |txids| && h > 0 && pos < Width(|match_|, h)
    ensures 2 * pos < Width(|match_|, h - 1)
    ensures 2 * pos + 1 < Width(|match_|, h - 1) ==>
      && Idx(match_, h, pos) == Idx(match_, h - 1, 2 * pos) + Idx(match_, h - 1, 2 * pos + 1)
      && Ids(txids, match_, h, pos) == Ids(txids, match_, h - 1, 2 * pos) + Ids(txids, match_, h - 1, 2 * pos + 1)
    ensures !(2 * pos + 1 < Width(|match_|, h - 1)) ==>
      Idx(match_, h, pos) == Idx(match_, h - 1, 2 * pos) && Ids(txids, match_, h, pos) == Ids(txids, match_, h - 1, 2 * pos)
  {
    hide Width, Lo, Hi, Picked, MatchesIn;
    var n := |match_|;
    Halves(n, h, pos);
    if 2 * pos + 1 < Width(n, h - 1) {
      MatchesSplit(match_, Lo(h, pos), Hi(n, h - 1, 2 * pos), Hi(n, h, pos));
      PickedSplit(txids, match_, Lo(h, pos), Hi(n, h - 1, 2 * pos), Hi(n, h, pos));
    }
  }

  lemma {:induction false} Descends(combine: (Digest, Digest) -> Digest, n: nat, b: Bundle, h: nat, pos: nat, c: Cursor)
    requires h > 0 && c.bitsUsed < |b.bits| && b.bits[c.bitsUsed]
    ensures var (c2, l) := Extract(combine, n, b, h - 1, 2 * pos, c.(bitsUsed := c.bitsUsed + 1));
            if 2 * pos + 1 < Width(n, h - 1) then
              var (c3, r) := Extract(combine, n, b, h - 1, 2 * pos + 1, c2);
              Extract(combine, n, b, h, pos, c) == (if r == l then c3.(bad := true) else c3, combine(l, r))
            else Extract(combine, n, b, h, pos, c) == (c2, combine(l, l))
  {
    hide Width;
  }

  lemma {:induction false} BuildsLeaf(combine: (Digest, Digest) -> Digest, txids: seq<Digest>, match_: seq<bool>, h: nat, pos: nat)
    requires |match_| == |txids| && pos < Width(|txids|, h)
    requires h == 0 || !Above(match_, h, pos)
    ensures Build(combine, txids, match_, h, pos) == Bundle([Above(match_, h, pos)], [CalcHash(combine, txids, h, pos)])
  {
  }

  lemma {:induction false} Builds(combine: (Digest, Digest) -> Digest, txids: seq<Digest>, match_: seq<bool>, h: nat, pos: nat)
    requires |match_| == |txids| && h > 0 && pos < Width(|txids|, h) && Above(match_, h, pos)
    ensures 2 * pos < Width(|txids|, h - 1)
    ensures var l := Build(combine, txids, match_, h - 1, 2 * pos);
            if 2 * pos + 1 < Width(|txids|, h - 1) then
              var r := Build(combine, txids, match_, h - 1, 2 * pos + 1);
              Build(combine, txids, match_, h, pos) == Bundle([true] + l.bits + r.bits, l.hashes + r.hashes)
            else Build(combine, txids, match_, h, pos) == Bundle([true] + l.bits, l.hashes)
  {
    hide Width, Above;
    Halves(|txids|, h, pos);
  }

  /** Reading a node back gives its hash and its matches, and marks the tree bad unless it is clean. */
  lemma {:induction false} ReadsBack(combine: (Digest, Digest) -> Digest, txids: seq<Digest>, match_: seq<bool>, b: Bundle, h: nat, pos: nat, c: Cursor)
    requires |match_| == |txids| && pos < Width(|txids|, h)
    requires Ahead(b, c.bitsUsed, c.hashUsed, Build(combine, txids, match_, h, pos))
    ensures Extract(combine, |txids|, b, h, pos, c) ==
      (Past(c, Build(combine, txids, match_, h, pos), Ids(txids, match_, h, pos), Idx(match_, h, pos), !Clean(combine, txids, match_, h, pos)),
       CalcHash(combine, txids, h, pos))
    decreases h
  {
    hide Width, Ids, Idx, Ahead, Past, Above, Extract, Build;
    var n := |txids|;
    if h == 0 || !Above(match_, h, pos) {
      StopReads(combine, txids, match_, b, h, pos, c);
    } else {
      Builds(combine, txids, match_, h, pos);
      IdxHalves(txids, match_, h, pos);
      var l := Build(combine, txids, match_, h - 1, 2 * pos);
      var c1 := c.(bitsUsed := c.bitsUsed + 1);
      var ml, il := Ids(txids, match_, h - 1, 2 * pos), Idx(match_, h - 1, 2 * pos);
      var cl := Clean(combine, txids, match_, h - 1, 2 * pos);
      var left := CalcHash(combine, txids, h - 1, 2 * pos);
      if 2 * pos + 1 < Width(n, h - 1) {
        var r := Build(combine, txids, match_, h - 1, 2 * pos + 1);
        AheadSplit(b, c.bitsUsed, c.hashUsed, true, l, r);
        Descends(combine, n, b, h, pos, c);
        ReadsBack(combine, txids, match_, b, h - 1, 2 * pos, c1);
        PastUsed(c1, l, ml, il, !cl);
        ReadsBack(combine, txids, match_, b, h - 1, 2 * pos + 1, Past(c1, l, ml, il, !cl));
        var cr := Clean(combine, txids, match_, h - 1, 2 * pos + 1);
        var same := left == CalcHash(combine, txids, h - 1, 2 * pos + 1);
        PastHalves(c, l, r, ml, Ids(txids, match_, h - 1, 2 * pos + 1), il, Idx(match_, h - 1, 2 * pos + 1), !cl, !cr);
        PastBad(c, Build(combine, txids, match_, h, pos), Ids(txids, match_, h, pos), Idx(match_, h, pos), !cl || !cr);
      } else {
        var none := Bundle([], []);
        assert [true] + l.bits + none.bits == [true] + l.bits && l.hashes + none.hashes == l.hashes;
        AheadSplit(b, c.bitsUsed, c.hashUsed, true, l, none);
        Descends(combine, n, b, h, pos, c);
        ReadsBack(combine, txids, match_, b, h - 1, 2 * pos, c1);
        PastFlag(c, l, ml, il, !cl);
      }
    }
  }

  lemma PastUsed(c: Cursor, l: Bundle, ml: seq<Digest>, il: seq<nat>, bad: bool)
    ensures Past(c, l, ml, il, bad).bitsUsed == c.bitsUsed + |l.bits| && Past(c, l, ml, il, bad).hashUsed == c.hashUsed + |l.hashes|
  {
  }

  lemma PastBad(c: Cursor, l: Bundle, ml: seq<Digest>, il: seq<nat>, bad: bool)
    ensures Past(c, l, ml, il, bad).(bad := true) == Past(c, l, ml, il, true)
  {
  }

  lemma PastFlag(c: Cursor, l: Bundle, ml: seq<Digest>, il: seq<nat>, bad: bool)
    ensures Past(c.(bitsUsed := c.bitsUsed + 1), l, ml, il, bad) == Past(c, Bundle([true] + l.bits, l.hashes), ml, il, bad)
  {
  }

  lemma {:induction false} StopReads(combine: (Digest, Digest) -> Digest, txids: seq<Digest>, match_: seq<bool>, b: Bundle, h: nat, pos: nat, c: Cursor)
    requires |match_| == |txids| && pos < Width(|txids|, h)
    requires Ahead(b, c.bitsUsed, c.hashUsed, Build(combine, txids, match_, h, pos))
    requires h == 0 || !Above(match_, h, pos)
    ensures Extract(combine, |txids|, b, h, pos, c) ==
      (Past(c, Build(combine, txids, match_, h, pos), Ids(txids, match_, h, pos), Idx(match_, h, pos), false), CalcHash(combine, txids, h, pos))
  {
    hide Width;
    var part := Build(combine, txids, match_, h, pos);
    assert b.bits[c.bitsUsed] == part.bits[0] && b.hashes[c.hashUsed] == part.hashes[0] by {
      assert b.bits[c.bitsUsed] == b.bits[c.bitsUsed..c.bitsUsed + |part.bits|][0];
      assert b.hashes[c.hashUsed] == b.hashes[c.hashUsed..c.hashUsed + |part.hashes|][0];
    }
    assert c.matches + [] == c.matches && c.indexes + [] == c.indexes;
    if h == 0 { LeafMatch(txids, match_, pos); } else { NoMatch(txids, match_, h, pos); }
  }

  lemma {:induction false} NoMatch(txids: seq<Digest>, match_: seq<bool>, h: nat, pos: nat)
    requires |match_| == |txids| && pos < Width(|match_|, h) && !Above(match_, h, pos)
    ensures Idx(match_, h, pos) == [] && Ids(txids, match_, h, pos) == []
  {
    hide Width, Lo, Hi;
    RangeOk(|match_|, h, pos);
  }

  lemma {:induction false} LeafMatch(txids: seq<Digest>, match_: seq<bool>, pos: nat)
    requires |match_| == |txids| && pos < Width(|match_|, 0)
    ensures pos < |match_| && Above(match_, 0, pos) == match_[pos]
    ensures Idx(match_, 0, pos) == if match_[pos] then [pos] else []
    ensures Ids(txids, match_, 0, pos) == if match_[pos] then [txids[pos]] else []
  {
    LeafRange(|match_|, pos);
    assert MatchesIn(match_, pos, pos + 1) == if match_[pos] then [pos] else [];
  }

  // ---- Sizes ----

  /** Descended nodes with one child only; they exist where the tree is ragged. */
  ghost function Singles(match_: seq<bool>, h: nat, pos: nat): nat
    requires pos < Width(|match_|, h)
  {
    if h == 0 || !Above(match_, h, pos) then 0
    else
      Halves(|match_|, h, pos);
      Singles(match_, h - 1, 2 * pos) +
      if 2 * pos + 1 < Width(|match_|, h - 1) then Singles(match_, h - 1, 2 * pos + 1) else 1
  }

  ghost function AllSingles(match_: seq<bool>): nat
    requires match_ != []
  {
    RootCovers(|match_|);
    Singles(match_, Height(|match_|), 0)
  }

  /** The exact number of flag bits, and both bounds on the number of stored hashes. */
  lemma {:induction false} Sizes(combine: (Digest, Digest) -> Digest, txids: seq<Digest>, match_: seq<bool>, h: nat, pos: nat)
    requires |match_| == |txids| && pos < Width(|txids|, h)
    ensures var b := Build(combine, txids, match_, h, pos);
            && 1 <= |b.hashes| <= Hi(|txids|, h, pos) - Lo(h, pos)
            && |b.hashes| <= 1 + |Idx(match_, h, pos)| * h
            && |b.bits| == 2 * |b.hashes| - 1 + Singles(match_, h, pos)
    decreases h
  {
    hide Width, Lo, Hi, Idx, CalcHash, Above, Build;
    var n := |txids|;
    RangeOk(n, h, pos);
    if h == 0 || !Above(match_, h, pos) {
      BuildsLeaf(combine, txids, match_, h, pos);
      AtLeastOne(|Idx(match_, h, pos)|, h);
    } else {
      Halves(n, h, pos);
      Builds(combine, txids, match_, h, pos);
      IdxHalves(txids, match_, h, pos);
      assert |Idx(match_, h, pos)| > 0 by { AboveIdx(match_, h, pos); }
      Sizes(combine, txids, match_, h - 1, 2 * pos);
      if 2 * pos + 1 < Width(n, h - 1) {
        Sizes(combine, txids, match_, h - 1, 2 * pos + 1);
        Spread(|Idx(match_, h - 1, 2 * pos)|, |Idx(match_, h - 1, 2 * pos + 1)|, h);
      } else {
        Spread(|Idx(match_, h, pos)|, 0, h);
      }
    }
  }

  lemma AtLeastOne(a: nat, h: nat)
    ensures 1 <= 1 + a * h
  {
  }

  lemma Spread(a: nat, b: nat, h: nat)
    requires h > 0 && a + b > 0
    ensures (1 + a * (h - 1)) + (1 + b * (h - 1)) <= 1 + (a + b) * h
  {
    assert a * (h - 1) == a * h - a && b * (h - 1) == b * h - b && (a + b) * h == a * h + b * h;
  }

  lemma AboveIdx(match_: seq<bool>, h: nat, pos: nat)
    requires pos < Width(|match_|, h)
    ensures Above(match_, h, pos) <==> Idx(match_, h, pos) != []
  {
  }

  /** The documented bound of 2N-1 flag bits holds exactly when no descended node has a single child. */
  lemma {:induction false} FlagBitsBound(combine: (Digest, Digest) -> Digest, txids: seq<Digest>, match_: seq<bool>)
    requires |match_| == |txids| > 0
    ensures var b := Encode(combine, txids, match_);
            |b.bits| <= 2 * |b.hashes| - 1 <==> AllSingles(match_) == 0
  {
    RootCovers(|txids|);
    Sizes(combine, txids, match_, Height(|txids|), 0);
  }

  /** Three ids with the last one matched need four flag bits for two hashes. */
  lemma {:induction false} FlagBitsExceed(combine: (Digest, Digest) -> Digest, txids: seq<Digest>)
    requires |txids| == 3
    ensures Height(3) == 2 && 0 < Width(3, 2)
    ensures var b := Build(combine, txids, [false, false, true], 2, 0);
            |b.hashes| == 2 && |b.bits| == 4
  {
    hide Pow2, Lo, Hi, Width, MatchesIn;
    var m := [false, false, true];
    ThreeLeaves(m);
    LeafMatch(txids, m, 2);
    var leaf := Build(combine, txids, m, 0, 2);
    assert Build(combine, txids, m, 1, 0).bits == [false];
    assert Build(combine, txids, m, 1, 1) == Bundle([true] + leaf.bits, leaf.hashes);
  }

  lemma {:induction false} ThreeLeaves(m: seq<bool>)
    requires m == [false, false, true]
    ensures Width(3, 0) == 3 && Width(3, 1) == 2 && Width(3, 2) == 1 && Height(3) == 2
    ensures !Above(m, 1, 0) && Above(m, 1, 1) && Above(m, 2, 0)
  {
    assert Pow2(0) == 1 && Pow2(1) == 2 && Pow2(2) == 4;
    assert HeightFrom(3, 1) == HeightFrom(3, 2) == 2;
    assert MatchesIn(m, 2, 3) == [2] && MatchesIn(m, 1, 3) == [2] && MatchesIn(m, 0, 3) == [2];
    assert MatchesIn(m, 1, 2) == [] && MatchesIn(m, 0, 2) == [];
  }

  // ---- Flag bits as bytes ----

  function Mask(j: nat): bv8
    requires j < 8
  {
    1 << j
  }

  predicate Bit(b: bv8, j: nat)
    requires j < 8
  {
    b & Mask(j) != 0
  }

  /** Each bit in its place, least significant first, and the spare bits of the last byte clear. */
  ghost predicate Packs(bits: seq<bool>, bytes: seq<bv8>) {
    && |bytes| == (|bits| + 7) / 8
    && forall i, m {:trigger Bit(bytes[i], m)} :: 0 <= i < |bytes| && 0 <= m < 8 ==>
         Bit(bytes[i], m) == (8 * i + m < |bits| && bits[8 * i + m])
  }

  function Unpack(bytes: seq<bv8>): seq<bool> {
    seq(8 * |bytes|, p requires 0 <= p < 8 * |bytes| => Bit(bytes[p / 8], p % 8))
  }

  /** Unpacking gives the bits back, followed by cleared padding. */
  lemma {:induction false} UnpackPacked(bits: seq<bool>, bytes: seq<bv8>)
    requires Packs(bits, bytes)
    ensures |Unpack(bytes)| >= |bits| && Unpack(bytes)[..|bits|] == bits
    ensures (|Unpack(bytes)| + 7) / 8 == (|bits| + 7) / 8
    ensures forall p :: |bits| <= p < |Unpack(bytes)| ==> !Unpack(bytes)[p]
  {
    forall p | 0 <= p < 8 * |bytes| ensures Unpack(bytes)[p] == (p < |bits| && bits[p]) {
      assert Bit(bytes[p / 8], p % 8) == (p < |bits| && bits[p]);
    }
  }

  // ---- The round trip ----

  /**
   What was built, packed and unpacked extracts to the root and to exactly the matched ids with
   their indices in order, if and only if the list is short enough and no two visited siblings
   have equal hashes; otherwise the failure value is returned.
   */
  lemma {:induction false} RoundTrip(combine: (Digest, Digest) -> Digest, txids: seq<Digest>, match_: seq<bool>, bytes: seq<bv8>)
    requires |match_| == |txids| > 0
    requires Packs(Encode(combine, txids, match_).bits, bytes)
    ensures var n, b := |txids|, Encode(combine, txids, match_);
            var r := ExtractMatches(combine, n, b.(bits := Unpack(bytes)), [], false);
            var clean := CleanTree(combine, txids, match_);
            var short := n <= MAX_BLOCK_WEIGHT / MIN_TRANSACTION_WEIGHT;
            && r.root == (if short && clean then Root(combine, txids) else ZERO)
            && (short ==> r.matches == Picked(txids, match_, 0, n) && r.indexes == MatchesIn(match_, 0, n) && r.bad == !clean)
  {
    hide Width, Lo, Hi, Build, Extract, Clean, CalcHash, Packs, Unpack, MatchesIn, Picked;
    var n := |txids|;
    RootCovers(n);
    var b := Encode(combine, txids, match_);
    UnpackPacked(b.bits, bytes);
    Sizes(combine, txids, match_, Height(n), 0);
    var c := Cursor(0, 0, [], [], false);
    assert b.hashes[0..|b.hashes|] == b.hashes;
    ReadsBack(combine, txids, match_, b.(bits := Unpack(bytes)), Height(n), 0, c);
  }

  // ---- Distinct ids ----

  /**
   Two nodes of one height with equal hashes, and going down their left edges the children of one
   collide with the children of the other.
   */
  predicate Twins(combine: (Digest, Digest) -> Digest, txids: seq<Digest>, h: nat, p: nat, q: nat)
    requires p < Width(|txids|, h) && q < Width(|txids|, h)
  {
    h > 0 &&
    (Halves(|txids|, h, p);
     Halves(|txids|, h, q);
     var x, y := Children(combine, txids, h, p), Children(combine, txids, h, q);
     Collide(combine, x, y) || (x == y && Twins(combine, txids, h - 1, 2 * p, 2 * q)))
  }

  /** Two nodes of one height with equal hashes have equal first leaves, or a colliding pair of children lies on their left edges. */
  lemma {:induction false} EqualHashes(combine: (Digest, Digest) -> Digest, txids: seq<Digest>, h: nat, p: nat, q: nat)
    requires p < Width(|txids|, h) && q < Width(|txids|, h)
    requires CalcHash(combine, txids, h, p) == CalcHash(combine, txids, h, q)
    ensures Lo(h, p) < |txids| && Lo(h, q) < |txids|
    ensures txids[Lo(h, p)] == txids[Lo(h, q)] || Twins(combine, txids, h, p, q)
    decreases h
  {
    hide Width, Lo, Hi;
    var n := |txids|;
    WidthIff(n, h, p);
    WidthIff(n, h, q);
    if h == 0 {
      LeafRange(n, p);
      LeafRange(n, q);
    } else {
      Halves(n, h, p);
      Halves(n, h, q);
      if Children(combine, txids, h, p) == Children(combine, txids, h, q) {
        EqualHashes(combine, txids, h - 1, 2 * p, 2 * q);
      }
    }
  }

  ghost predicate Distinct(txids: seq<Digest>) { forall i, j :: 0 <= i < j < |txids| ==> txids[i] != txids[j] }

  /** Somewhere below the node two visited siblings are twins. */
  predicate TwinsBelow(combine: (Digest, Digest) -> Digest, txids: seq<Digest>, match_: seq<bool>, h: nat, pos: nat)
    requires |match_| == |txids| && pos < Width(|txids|, h)
  {
    h > 0 && Above(match_, h, pos) &&
    (Halves(|txids|, h, pos);
     || TwinsBelow(combine, txids, match_, h - 1, 2 * pos)
     || (2 * pos + 1 < Width(|txids|, h - 1) &&
         (|| TwinsBelow(combine, txids, match_, h - 1, 2 * pos + 1)
          || Twins(combine, txids, h - 1, 2 * pos, 2 * pos + 1))))
  }

  /** For distinct ids the tree is clean exactly when no two visited siblings show a colliding pair. */
  lemma {:induction false} DistinctClean(combine: (Digest, Digest) -> Digest, txids: seq<Digest>, match_: seq<bool>, h: nat, pos: nat)
    requires |match_| == |txids| && pos < Width(|txids|, h) && Distinct(txids)
    ensures Clean(combine, txids, match_, h, pos) <==> !TwinsBelow(combine, txids, match_, h, pos)
    decreases h
  {
    hide Width, Lo, Hi, Distinct, CalcHash, Above, Twins;
    var n := |txids|;
    if h > 0 && Above(match_, h, pos) {
      Halves(n, h, pos);
      DistinctClean(combine, txids, match_, h - 1, 2 * pos);
      if 2 * pos + 1 < Width(n, h - 1) {
        DistinctClean(combine, txids, match_, h - 1, 2 * pos + 1);
        SiblingsDiffer(combine, txids, h - 1, pos);
      }
    }
  }

  lemma {:induction false} SiblingsDiffer(combine: (Digest, Digest) -> Digest, txids: seq<Digest>, h: nat, pos: nat)
    requires 2 * pos + 1 < Width(|txids|, h) && Distinct(txids)
    ensures CalcHash(combine, txids, h, 2 * pos) == CalcHash(combine, txids, h, 2 * pos + 1) <==> Twins(combine, txids, h, 2 * pos, 2 * pos + 1)
  {
    hide Width, CalcHash;
    if CalcHash(combine, txids, h, 2 * pos) == CalcHash(combine, txids, h, 2 * pos + 1) {
      EqualHashes(combine, txids, h, 2 * pos, 2 * pos + 1);
      assert Lo(h, 2 * pos + 1) == Lo(h, 2 * pos) + Pow2(h);
    }
  }

  /** Reading the encoder's own bundle, the traversal hashes the nodes' own children throughout. */
  lemma {:induction false} HonestNoClash(combine: (Digest, Digest) -> Digest, txids: seq<Digest>, match_: seq<bool>, b: Bundle, h: nat, pos: nat, c: Cursor)
    requires |match_| == |txids| && pos < Width(|txids|, h)
    requires Ahead(b, c.bitsUsed, c.hashUsed, Build(combine, txids, match_, h, pos))
    ensures !Clash(combine, txids, b, h, pos, c)
    decreases h
  {
    hide Width, Ids, Idx, Ahead, Past, Above, Extract, Build, CalcHash, Clean;
    var n := |txids|;
    if h == 0 {
    } else if !Above(match_, h, pos) {
      BuildsLeaf(combine, txids, match_, h, pos);
      FirstBit(b, c.bitsUsed, c.hashUsed, Build(combine, txids, match_, h, pos));
    } else {
      Builds(combine, txids, match_, h, pos);
      var l := Build(combine, txids, match_, h - 1, 2 * pos);
      var r := if 2 * pos + 1 < Width(n, h - 1) then Build(combine, txids, match_, h - 1, 2 * pos + 1) else Bundle([], []);
      assert [true] + l.bits + [] == [true] + l.bits && l.hashes + [] == l.hashes;
      AheadSplit(b, c.bitsUsed, c.hashUsed, true, l, r);
      var (c1, c2) := Halfway(combine, n, b, h, pos, c);
      ReadsBack(combine, txids, match_, b, h - 1, 2 * pos, c1);
      HonestNoClash(combine, txids, match_, b, h - 1, 2 * pos, c1);
      PastUsed(c1, l, Ids(txids, match_, h - 1, 2 * pos), Idx(match_, h - 1, 2 * pos), !Clean(combine, txids, match_, h - 1, 2 * pos));
      if 2 * pos + 1 < Width(n, h - 1) {
        ReadsBack(combine, txids, match_, b, h - 1, 2 * pos + 1, c2);
        HonestNoClash(combine, txids, match_, b, h - 1, 2 * pos + 1, c2);
      }
    }
  }

  lemma FirstBit(b: Bundle, u: nat, v: nat, part: Bundle)
    requires Ahead(b, u, v, part) && part.bits != []
    ensures u < |b.bits| && b.bits[u] == part.bits[0]
  {
    assert b.bits[u] == b.bits[u..u + |part.bits|][0];
  }
}
