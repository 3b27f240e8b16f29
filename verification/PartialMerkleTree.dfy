/** The partial Merkle tree object: its vectors grow, and its cursors advance, during the traversals. */
module PartialMerkleTrees {
  import opened Merkle
  import opened MerkleRoundTrip

  /** The loop that finds the height of the tree. */
  method TreeHeight(n: nat) returns (nHeight: nat)
    ensures nHeight == Height(n)
  {
    nHeight := 0;
    while Width(n, nHeight) > 1
      invariant HeightFrom(n, nHeight) == Height(n)
      decreases Width(n, nHeight)
    {
      Narrower(n, nHeight);
      nHeight := nHeight + 1;
    }
  }

  /** Whether any id under a node is matched. */
  method ParentOfMatch(vMatch: seq<bool>, height: nat, pos: nat) returns (found: bool)
    requires pos < Width(|vMatch|, height)
    ensures found == Above(vMatch, height, pos)
  {
    hide Width;
    RangeOk(|vMatch|, height, pos);
    var p, hi := Lo(height, pos), Hi(|vMatch|, height, pos);
    found := false;
    while p < hi
      invariant Lo(height, pos) <= p <= hi
      invariant found == (MatchesIn(vMatch, Lo(height, pos), p) != [])
    {
      MatchesSplit(vMatch, Lo(height, pos), p, p + 1);
      found := found || vMatch[p];
      p := p + 1;
    }
  }

  /** Flag bits to bytes: each bit is or-ed into a cleared buffer. */
  method PackBits(vBits: seq<bool>) returns (vBytes: array<bv8>)
    ensures fresh(vBytes) && Packs(vBits, vBytes[..])
  {
    hide Mask, Bit;
    vBytes := new bv8[(|vBits| + 7) / 8](i => 0);
    AllClear();
    for p := 0 to |vBits|
      invariant PacksUpTo(vBits, vBytes[..], p)
    {
      ghost var before := vBytes[..];
      vBytes[p / 8] := vBytes[p / 8] | (if vBits[p] then Mask(p % 8) else 0);
      assert vBytes[..] == before[p / 8 := before[p / 8] | (if vBits[p] then Mask(p % 8) else 0)];
      PacksNext(vBits, before, p);
    }
  }

  ghost predicate PacksUpTo(bits: seq<bool>, bytes: seq<bv8>, p: nat)
    requires p <= |bits|
  {
    forall i, m {:trigger Bit(bytes[i], m)} :: 0 <= i < |bytes| && 0 <= m < 8 ==>
      Bit(bytes[i], m) == (8 * i + m < p && bits[8 * i + m])
  }

  lemma AllClear()
    ensures forall j :: 0 <= j < 8 ==> !Bit(0, j)
  {
  }

  lemma {:induction false} PacksNext(bits: seq<bool>, bytes: seq<bv8>, p: nat)
    requires p < |bits| <= 8 * |bytes| && PacksUpTo(bits, bytes, p)
    ensures PacksUpTo(bits, bytes[p / 8 := bytes[p / 8] | (if bits[p] then Mask(p % 8) else 0)], p + 1)
  {
    hide Mask, Bit;
    var k, j := p / 8, p % 8;
    var after := bytes[k := bytes[k] | (if bits[p] then Mask(j) else 0)];
    forall i, m | 0 <= i < |after| && 0 <= m < 8 ensures Bit(after[i], m) == (8 * i + m < p + 1 && bits[8 * i + m]) {
      BitAfter(bits, bytes, p, i, m);
    }
  }

  lemma {:induction false} BitAfter(bits: seq<bool>, bytes: seq<bv8>, p: nat, i: nat, m: nat)
    requires p < |bits| <= 8 * |bytes| && PacksUpTo(bits, bytes, p) && i < |bytes| && m < 8
    ensures var after := bytes[p / 8 := bytes[p / 8] | (if bits[p] then Mask(p % 8) else 0)];
            Bit(after[i], m) == (8 * i + m < p + 1 && bits[8 * i + m])
  {
    hide Mask, Bit, PacksUpTo;
    ByteAt(bytes, p / 8, p % 8, i, m, bits[p]);
    SamePlace(i, m, p);
    BitBefore(bits, bytes, p, i, m);
  }

  lemma BitBefore(bits: seq<bool>, bytes: seq<bv8>, p: nat, i: nat, m: nat)
    requires p <= |bits| && PacksUpTo(bits, bytes, p) && i < |bytes| && m < 8
    ensures Bit(bytes[i], m) == (8 * i + m < p && bits[8 * i + m])
  {
    hide Mask, Bit;
  }

  lemma SamePlace(i: nat, m: nat, p: nat)
    requires m < 8
    ensures i == p / 8 && m == p % 8 <==> 8 * i + m == p
  {
  }

  lemma {:induction false} ByteAt(bytes: seq<bv8>, k: nat, j: nat, i: nat, m: nat, on: bool)
    requires k < |bytes| && i < |bytes| && j < 8 && m < 8
    ensures Bit(bytes[k := bytes[k] | (if on then Mask(j) else 0)][i], m) == ((i == k && m == j && on) || Bit(bytes[i], m))
  {
    hide Mask, Bit;
    SetBit(bytes[k], j, m, on);
  }

  lemma SetBit(b: bv8, j: nat, k: nat, on: bool)
    requires j < 8 && k < 8
    ensures Bit(b | (if on then Mask(j) else 0), k) == ((j == k && on) || Bit(b, k))
  {
    hide Mask, Bit;
    OrBit(b, j, k);
  }

  lemma OrBit(b: bv8, j: nat, k: nat)
    requires j < 8 && k < 8
    ensures Bit(b | Mask(j), k) == (j == k || Bit(b, k))
    ensures Bit(b | 0, k) == Bit(b, k)
  {
    MaskIs(j);
    MaskIs(k);
  }

  lemma MaskIs(j: nat)
    requires j < 8
    ensures Mask(j) == if j == 0 then 1 else if j == 1 then 2 else if j == 2 then 4 else if j == 3 then 8
                       else if j == 4 then 16 else if j == 5 then 32 else if j == 6 then 64 else 128
  {
  }

  method UnpackBits(vBytes: seq<bv8>) returns (vBits: seq<bool>)
    ensures vBits == Unpack(vBytes)
  {
    vBits := [];
    for p := 0 to 8 * |vBytes|
      invariant vBits == Unpack(vBytes)[..p]
    {
      vBits := vBits + [vBytes[p / 8] & Mask(p % 8) != 0];
      assert Unpack(vBytes)[..p + 1] == Unpack(vBytes)[..p] + [Unpack(vBytes)[p]];
    }
    assert Unpack(vBytes)[..8 * |vBytes|] == Unpack(vBytes);
  }

  class PartialMerkleTree {
    var nTransactions: nat
    var vBits: seq<bool>
    var vHash: seq<Digest>
    var fBad: bool

    /** An empty tree, good for nothing but to be read into. */
    constructor ()
      ensures nTransactions == 0 && vBits == [] && vHash == [] && fBad
    {
      nTransactions, vBits, vHash, fBad := 0, [], [], true;
    }

    constructor Of(combine: (Digest, Digest) -> Digest, vTxid: seq<Digest>, vMatch: seq<bool>)
      requires |vMatch| == |vTxid| > 0
      ensures nTransactions == |vTxid| && Bundle(vBits, vHash) == Encode(combine, vTxid, vMatch) && !fBad
    {
      nTransactions, vBits, vHash, fBad := |vTxid|, [], [], false;
      new;
      var nHeight := TreeHeight(nTransactions);
      RootCovers(nTransactions);
      TraverseAndBuild(combine, nHeight, 0, vTxid, vMatch);
    }

    method TraverseAndBuild(combine: (Digest, Digest) -> Digest, height: nat, pos: nat, vTxid: seq<Digest>, vMatch: seq<bool>)
      requires |vMatch| == |vTxid| == nTransactions && pos < Width(nTransactions, height)
      modifies this`vBits, this`vHash
      ensures vBits == old(vBits) + Build(combine, vTxid, vMatch, height, pos).bits
      ensures vHash == old(vHash) + Build(combine, vTxid, vMatch, height, pos).hashes
      decreases height
    {
      hide Width, Above, CalcHash, Build;
      var fParentOfMatch := ParentOfMatch(vMatch, height, pos);
      vBits := vBits + [fParentOfMatch];
      if height == 0 || !fParentOfMatch {
        BuildsLeaf(combine, vTxid, vMatch, height, pos);
        vHash := vHash + [CalcHash(combine, vTxid, height, pos)];
      } else {
        Builds(combine, vTxid, vMatch, height, pos);
        TraverseAndBuild(combine, height - 1, 2 * pos, vTxid, vMatch);
        if 2 * pos + 1 < Width(nTransactions, height - 1) {
          TraverseAndBuild(combine, height - 1, 2 * pos + 1, vTxid, vMatch);
        }
      }
    }

    method TraverseAndExtract(combine: (Digest, Digest) -> Digest, height: nat, pos: nat,
                              bitsUsed: nat, hashUsed: nat, matches: seq<Digest>, indexes: seq<nat>)
      returns (nBitsUsed: nat, nHashUsed: nat, vMatch: seq<Digest>, vnIndex: seq<nat>, hash: Digest)
      modifies this`fBad
      ensures (Cursor(nBitsUsed, nHashUsed, vMatch, vnIndex, fBad), hash)
           == Extract(combine, nTransactions, Bundle(vBits, vHash), height, pos, Cursor(bitsUsed, hashUsed, matches, indexes, old(fBad)))
      decreases height
    {
      hide Width;
      nBitsUsed, nHashUsed, vMatch, vnIndex := bitsUsed, hashUsed, matches, indexes;
      if nBitsUsed >= |vBits| {
        fBad := true;
        return nBitsUsed, nHashUsed, vMatch, vnIndex, ZERO;
      }
      var fParentOfMatch := vBits[nBitsUsed];
      nBitsUsed := nBitsUsed + 1;
      if height == 0 || !fParentOfMatch {
        if nHashUsed >= |vHash| {
          fBad := true;
          return nBitsUsed, nHashUsed, vMatch, vnIndex, ZERO;
        }
        hash := vHash[nHashUsed];
        nHashUsed := nHashUsed + 1;
        if height == 0 && fParentOfMatch {
          vMatch, vnIndex := vMatch + [hash], vnIndex + [pos];
        }
      } else {
        var left, right;
        nBitsUsed, nHashUsed, vMatch, vnIndex, left :=
          TraverseAndExtract(combine, height - 1, 2 * pos, nBitsUsed, nHashUsed, vMatch, vnIndex);
        if 2 * pos + 1 < Width(nTransactions, height - 1) {
          nBitsUsed, nHashUsed, vMatch, vnIndex, right :=
            TraverseAndExtract(combine, height - 1, 2 * pos + 1, nBitsUsed, nHashUsed, vMatch, vnIndex);
          if right == left {
            fBad := true;
          }
        } else {
          right := left;
        }
        hash := combine(left, right);
      }
    }

    /** The matches are new; the indices are appended to those handed in. */
    method ExtractMatches(combine: (Digest, Digest) -> Digest, indexes: seq<nat>) returns (root: Digest, vMatch: seq<Digest>, vnIndex: seq<nat>)
      modifies this`fBad
      ensures Extracted(root, vMatch, vnIndex, fBad) == Merkle.ExtractMatches(combine, nTransactions, Bundle(vBits, vHash), indexes, old(fBad))
    {
      vMatch, vnIndex := [], indexes;
      if nTransactions == 0 {
        return ZERO, vMatch, vnIndex;
      }
      if nTransactions > MAX_BLOCK_WEIGHT / MIN_TRANSACTION_WEIGHT {
        return ZERO, vMatch, vnIndex;
      }
      if |vHash| > nTransactions {
        return ZERO, vMatch, vnIndex;
      }
      if |vBits| < |vHash| {
        return ZERO, vMatch, vnIndex;
      }
      var nHeight := TreeHeight(nTransactions);
      var nBitsUsed, nHashUsed, hashMerkleRoot;
      nBitsUsed, nHashUsed, vMatch, vnIndex, hashMerkleRoot := TraverseAndExtract(combine, nHeight, 0, 0, 0, vMatch, vnIndex);
      if fBad {
        return ZERO, vMatch, vnIndex;
      }
      if (nBitsUsed + 7) / 8 != (|vBits| + 7) / 8 {
        return ZERO, vMatch, vnIndex;
      }
      if nHashUsed != |vHash| {
        return ZERO, vMatch, vnIndex;
      }
      root := hashMerkleRoot;
    }

    method Serialize() returns (n: nat, hashes: seq<Digest>, vBytes: array<bv8>)
      ensures n == nTransactions && hashes == vHash && fresh(vBytes) && Packs(vBits, vBytes[..])
    {
      n, hashes := nTransactions, vHash;
      vBytes := PackBits(vBits);
    }

    method Unserialize(n: nat, hashes: seq<Digest>, vBytes: seq<bv8>)
      modifies this
      ensures nTransactions == n && vHash == hashes && vBits == Unpack(vBytes) && !fBad
    {
      nTransactions, vHash := n, hashes;
      vBits := UnpackBits(vBytes);
      fBad := false;
    }
  }

  /** Build, send, read, extract, on the objects themselves. */
  method Relay(combine: (Digest, Digest) -> Digest, vTxid: seq<Digest>, vMatch: seq<bool>)
    returns (root: Digest, matches: seq<Digest>, indexes: seq<nat>)
    requires |vMatch| == |vTxid| > 0
    ensures var clean := |vTxid| <= MAX_BLOCK_WEIGHT / MIN_TRANSACTION_WEIGHT && CleanTree(combine, vTxid, vMatch);
            && root == (if clean then Root(combine, vTxid) else ZERO)
            && (clean ==> matches == Picked(vTxid, vMatch, 0, |vTxid|) && indexes == MatchesIn(vMatch, 0, |vTxid|))
  {
    hide Packs, Unpack, Encode, Root, CleanTree, Merkle.ExtractMatches;
    var sender := new PartialMerkleTree.Of(combine, vTxid, vMatch);
    var n, hashes, vBytes := sender.Serialize();
    var receiver := new PartialMerkleTree();
    receiver.Unserialize(n, hashes, vBytes[..]);
    root, matches, indexes := receiver.ExtractMatches(combine, []);
    RoundTrip(combine, vTxid, vMatch, vBytes[..]);
  }
}
