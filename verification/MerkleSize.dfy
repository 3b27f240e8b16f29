/** How many bytes a partial tree takes on the wire, against the documented guarantee. */
module MerkleSize {
  import opened Powers
  import opened Merkle
  import opened MerkleRoundTrip

  /** Bytes of a length prefix. */
  function CompactSize(n: nat): nat {
    if n < 253 then 1 else if n <= 0xFFFF then 3 else if n <= 0xFFFFFFFF then 5 else 9
  }

  function FlagBytes(b: Bundle): nat { (|b.bits| + 7) / 8 }

  /** The transaction count, the hashes and the packed flag bits. */
  function WireSize(b: Bundle): nat {
    4 + CompactSize(|b.hashes|) + 32 * |b.hashes| + CompactSize(FlagBytes(b)) + FlagBytes(b)
  }

  /** Ten bytes and 32.25 for each stored hash, rounded up. */
  function Guarantee(hashes: nat): nat { 10 + 32 * hashes + (hashes + 3) / 4 }

  /** Flag bits left over in the last byte when no visited node has a single child. */
  function Spare(hashes: nat): nat { 1 + 2 * ((4 - hashes % 4) % 4) }

  /** Single-child nodes for which there is room: the spare bits, and the bytes that short length prefixes save. */
  function Room(hashes: nat, flagBytes: nat): nat {
    Spare(hashes) + 8 * ((if hashes <= 252 then 2 else 0) + (if flagBytes <= 252 then 2 else 0))
  }

  // ---- How much is stored, from the mask alone ----

  /** One hash for every leaf or unmatched node that the traversal meets. */
  function Stored(match_: seq<bool>, h: nat, pos: nat): nat
    requires pos < Width(|match_|, h)
  {
    if h == 0 || !Above(match_, h, pos) then 1
    else
      Halves(|match_|, h, pos);
      Stored(match_, h - 1, 2 * pos) +
      if 2 * pos + 1 < Width(|match_|, h - 1) then Stored(match_, h - 1, 2 * pos + 1) else 0
  }

  function AllStored(match_: seq<bool>): nat
    requires match_ != []
  {
    RootCovers(|match_|);
    Stored(match_, Height(|match_|), 0)
  }

  lemma {:induction false} StoredHashes(combine: (Digest, Digest) -> Digest, txids: seq<Digest>, match_: seq<bool>, h: nat, pos: nat)
    requires |match_| == |txids| && pos < Width(|txids|, h)
    ensures |Build(combine, txids, match_, h, pos).hashes| == Stored(match_, h, pos)
    decreases h
  {
    hide Width, Above, Build, CalcHash;
    if h == 0 || !Above(match_, h, pos) {
      BuildsLeaf(combine, txids, match_, h, pos);
    } else {
      Builds(combine, txids, match_, h, pos);
      Halves(|txids|, h, pos);
      StoredHashes(combine, txids, match_, h - 1, 2 * pos);
      if 2 * pos + 1 < Width(|txids|, h - 1) { StoredHashes(combine, txids, match_, h - 1, 2 * pos + 1); }
    }
  }

  /** Bytes of flag bits for so many hashes and single-child nodes. */
  function FlagBytesOf(hashes: nat, singles: nat): nat { (2 * hashes + 6 + singles) / 8 }

  /** The numbers of hashes and of flag bytes of an encoding follow from the mask. */
  lemma {:induction false} EncodedSizes(combine: (Digest, Digest) -> Digest, txids: seq<Digest>, match_: seq<bool>)
    requires |match_| == |txids| > 0
    ensures var b := Encode(combine, txids, match_);
            |b.hashes| == AllStored(match_) > 0 && FlagBytes(b) == FlagBytesOf(AllStored(match_), AllSingles(match_))
  {
    hide Build, Singles, Stored;
    RootCovers(|txids|);
    Sizes(combine, txids, match_, Height(|txids|), 0);
    StoredHashes(combine, txids, match_, Height(|txids|), 0);
  }

  /** The guarantee holds exactly when the hashes are few enough and there is room for the single-child nodes. */
  lemma {:induction false} SizeBound(combine: (Digest, Digest) -> Digest, txids: seq<Digest>, match_: seq<bool>)
    requires |match_| == |txids| > 0
    ensures var n, singles := AllStored(match_), AllSingles(match_);
            WireSize(Encode(combine, txids, match_)) <= Guarantee(n) <==> n <= 0xFFFF && singles <= Room(n, FlagBytesOf(n, singles))
  {
    hide Encode, AllStored, AllSingles;
    EncodedSizes(combine, txids, match_);
    Bytes(AllStored(match_), AllSingles(match_));
  }

  lemma {:induction false} Bytes(hashes: nat, singles: nat)
    requires hashes > 0
    ensures var f := FlagBytesOf(hashes, singles);
            CompactSize(hashes) + CompactSize(f) + f <= 6 + (hashes + 3) / 4 <==> hashes <= 0xFFFF && singles <= Room(hashes, f)
  {
  }

  // ---- Lists that fit a block ----

  /** A node whose leaves are all there has no single-child node below it. */
  lemma {:induction false} FullNoSingles(match_: seq<bool>, h: nat, pos: nat)
    requires Lo(h, pos + 1) <= |match_| && pos < Width(|match_|, h)
    ensures Singles(match_, h, pos) == 0
    decreases h
  {
    hide Width, Pow2, Above;
    if h > 0 && Above(match_, h, pos) {
      Halves(|match_|, h, pos);
      LoHalf(h, pos + 1);
      LoGrows(h - 1, 2 * pos + 1);
      WidthIff(|match_|, h - 1, 2 * pos + 1);
      FullNoSingles(match_, h - 1, 2 * pos);
      FullNoSingles(match_, h - 1, 2 * pos + 1);
    }
  }

  lemma {:induction false} LoHalf(h: nat, pos: nat)
    requires h > 0
    ensures Lo(h, pos) == Lo(h - 1, 2 * pos)
  {
    Doubles(pos, Pow2(h - 1));
  }

  lemma LoGrows(h: nat, pos: nat)
    ensures Lo(h, pos) < Lo(h, pos + 1) == Lo(h, pos) + Pow2(h)
  {
    hide Pow2;
  }

  /** Single-child nodes lie on the right edge of the tree: at most one at each height. */
  lemma {:induction false} SinglesFew(match_: seq<bool>, h: nat, pos: nat)
    requires pos < Width(|match_|, h)
    ensures Singles(match_, h, pos) <= h
    decreases h
  {
    hide Width, Pow2, Above, Lo;
    if h > 0 && Above(match_, h, pos) {
      Halves(|match_|, h, pos);
      SinglesFew(match_, h - 1, 2 * pos);
      if 2 * pos + 1 < Width(|match_|, h - 1) {
        WidthIff(|match_|, h - 1, 2 * pos + 1);
        FullNoSingles(match_, h - 1, 2 * pos);
        SinglesFew(match_, h - 1, 2 * pos + 1);
      }
    }
  }

  lemma {:induction false} HeightAtMost(n: nat, h: nat, top: nat)
    requires h <= top && Width(n, top) <= 1
    ensures HeightFrom(n, h) <= top
    decreases top - h
  {
    hide Width;
    if Width(n, h) > 1 {
      Narrower(n, h);
      HeightAtMost(n, h + 1, top);
    }
  }

  /** Below 2^16 ids the guarantee fails exactly when the flag bits need a long length prefix and the singles overflow the last byte. */
  lemma {:induction false} SizeBoundShort(combine: (Digest, Digest) -> Digest, txids: seq<Digest>, match_: seq<bool>)
    requires 0 < |match_| == |txids| <= 0xFFFF
    ensures var n, singles := AllStored(match_), AllSingles(match_);
            WireSize(Encode(combine, txids, match_)) <= Guarantee(n) <==> FlagBytesOf(n, singles) <= 252 || singles <= Spare(n)
  {
    hide Build, Singles, Stored;
    var n := |txids|;
    RootCovers(n);
    assert Width(n, 16) <= 1 by { WidthIff(n, 16, 1); PowSixteen(); }
    HeightAtMost(n, 0, 16);
    SinglesFew(match_, Height(n), 0);
    Sizes(combine, txids, match_, Height(n), 0);
    EncodedSizes(combine, txids, match_);
    SizeBound(combine, txids, match_);
  }

  lemma PowSixteen()
    ensures Pow2(16) == 0x10000
  {
    PowAdd(2, 8, 8);
    PowAdd(2, 4, 4);
    assert Pow(2, 4) == 16;
  }

  // ---- Where the guarantee fails ----

  ghost predicate AllTrue(match_: seq<bool>) { forall i :: 0 <= i < |match_| ==> match_[i] }

  lemma {:induction false} AllAbove(match_: seq<bool>, h: nat, pos: nat)
    requires AllTrue(match_) && pos < Width(|match_|, h)
    ensures Above(match_, h, pos)
  {
    hide Width;
    RangeOk(|match_|, h, pos);
  }

  /** With every id matched, every id is stored. */
  lemma {:induction false} StoresAll(combine: (Digest, Digest) -> Digest, txids: seq<Digest>, match_: seq<bool>, h: nat, pos: nat)
    requires |match_| == |txids| && AllTrue(match_) && pos < Width(|txids|, h)
    ensures |Build(combine, txids, match_, h, pos).hashes| == Hi(|txids|, h, pos) - Lo(h, pos)
    decreases h
  {
    hide Width, Lo, Hi, Above, Build, AllTrue;
    AllAbove(match_, h, pos);
    if h == 0 {
      BuildsLeaf(combine, txids, match_, h, pos);
      LeafRange(|txids|, pos);
    } else {
      Builds(combine, txids, match_, h, pos);
      Halves(|txids|, h, pos);
      StoresAll(combine, txids, match_, h - 1, 2 * pos);
      if 2 * pos + 1 < Width(|txids|, h - 1) { StoresAll(combine, txids, match_, h - 1, 2 * pos + 1); }
    }
  }

  /** One id more than a power of two: the extra one hangs from a chain of single-child nodes. */
  lemma {:induction false} EdgeSingles(match_: seq<bool>, k: nat, h: nat)
    requires AllTrue(match_) && |match_| == Pow2(k) + 1 && h <= k
    ensures Pow2(k - h) < Width(|match_|, h) && Singles(match_, h, Pow2(k - h)) == h
    decreases h
  {
    hide Width, Pow2, Above, AllTrue, Lo;
    var n, pos := |match_|, Pow2(k - h);
    LoOfPower(k - h, h);
    WidthIff(n, h, pos);
    if h > 0 {
      AllAbove(match_, h, pos);
      EdgeSingles(match_, k, h - 1);
      PowerDoubles(k - h);
      LoGrows(h - 1, 2 * pos);
      LoOfPower(k - h + 1, h - 1);
      WidthIff(n, h - 1, 2 * pos + 1);
    }
  }

  lemma {:induction false} LoOfPower(a: nat, h: nat)
    ensures Lo(h, Pow2(a)) == Pow2(a + h)
  {
    PowAdd(2, a, h);
  }

  lemma PowerDoubles(a: nat)
    ensures Pow2(a + 1) == 2 * Pow2(a)
  {
  }

  lemma {:induction false} HeightAtLeast(n: nat, h: nat, k: nat)
    requires h <= k && Pow2(k) < n
    ensures HeightFrom(n, h) == HeightFrom(n, k)
    decreases k - h
  {
    hide Width, Pow2;
    if h < k {
      WidthIff(n, h, 1);
      PowersGrow(h, k);
      Narrower(n, h);
      HeightAtLeast(n, h + 1, k);
    }
  }

  lemma PowersGrow(h: nat, k: nat)
    requires h <= k
    ensures Pow2(h) <= Pow2(k)
  {
    PowLe(2, h, k);
  }

  /** The tree over one more than 2^k ids: the root joins a full tree and the chain. */
  lemma {:induction false} PlusOne(match_: seq<bool>, k: nat)
    requires AllTrue(match_) && |match_| == Pow2(k) + 1
    ensures Height(|match_|) == k + 1 && AllSingles(match_) == k
  {
    hide Width, Pow2, Above, AllTrue, Lo;
    var n := |match_|;
    RootCovers(n);
    LoOfPower(0, k);
    LoOfPower(0, k + 1);
    PowerZero();
    PowerDoubles(k);
    PowersGrow(0, k);
    WidthIff(n, k, 1);
    WidthIff(n, k + 1, 1);
    WidthIff(n, k + 1, 0);
    WidthIff(n, k, 0);
    LoGrows(k, 0);
    LoGrows(k + 1, 0);
    HeightAtLeast(n, 0, k);
    assert HeightFrom(n, k) == k + 1;
    AllAbove(match_, k + 1, 0);
    FullNoSingles(match_, k, 0);
    EdgeSingles(match_, k, k);
  }

  lemma PowerZero()
    ensures Pow2(0) == 1
  {
  }

  /** With all of 2^k + 1 ids matched, k at least 10, the guarantee fails; 1025 ids take 33068 bytes where 33067 are promised. */
  lemma {:induction false} SizeExceeds(combine: (Digest, Digest) -> Digest, txids: seq<Digest>, match_: seq<bool>, k: nat)
    requires |match_| == |txids| == Pow2(k) + 1 && AllTrue(match_) && k >= 10
    ensures var b := Encode(combine, txids, match_);
            && WireSize(b) > Guarantee(|b.hashes|)
            && (k == 10 ==> WireSize(b) == 33068 && Guarantee(|b.hashes|) == 33067)
  {
    hide Build, Singles, Stored, Width, Pow2, Lo, Hi;
    var n := |txids|;
    RootCovers(n);
    PlusOne(match_, k);
    StoresAll(combine, txids, match_, Height(n), 0);
    EncodedSizes(combine, txids, match_);
    SizeBound(combine, txids, match_);
    PowTen();
    PowersGrow(10, k);
    MultipleOfFour(k);
  }

  lemma PowTen()
    ensures Pow2(10) == 1024
  {
    PowAdd(2, 5, 5);
    assert Pow(2, 5) == 32;
  }

  lemma MultipleOfFour(k: nat)
    requires k >= 2
    ensures Pow2(k) % 4 == 0
  {
    PowAdd(2, 2, k - 2);
    assert Pow(2, 2) == 4;
  }
}
