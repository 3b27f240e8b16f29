/**
 The Merkle root of a block, computed level by level, against the tree that partial trees are cut from.
 A level of odd length counts its last hash twice.
 */
module MerkleLevels {
  import opened Merkle
  import opened MerkleRoundTrip

  /** The next level: neighbours hashed together, the last one with itself if it has no neighbour. */
  function Level(combine: (Digest, Digest) -> Digest, xs: seq<Digest>): (r: seq<Digest>)
    ensures |r| == (|xs| + 1) / 2
    ensures forall i :: 0 <= i < |r| ==> r[i] == combine(xs[2 * i], if 2 * i + 1 < |xs| then xs[2 * i + 1] else xs[2 * i])
  {
    seq((|xs| + 1) / 2, i requires 0 <= i < (|xs| + 1) / 2 => combine(xs[2 * i], if 2 * i + 1 < |xs| then xs[2 * i + 1] else xs[2 * i]))
  }

  function LevelAt(combine: (Digest, Digest) -> Digest, txids: seq<Digest>, h: nat): seq<Digest> {
    if h == 0 then txids else Level(combine, LevelAt(combine, txids, h - 1))
  }

  lemma {:induction false} WidthNext(n: nat, h: nat)
    ensures Width(n, h + 1) == (Width(n, h) + 1) / 2
  {
    hide Width, Pow2, Lo;
    var w := Width(n, h + 1);
    WidthIff(n, h + 1, w);
    WidthIff(n, h, 2 * w);
    LoTwice(h, w);
    if w > 0 {
      WidthIff(n, h + 1, w - 1);
      WidthIff(n, h, 2 * (w - 1));
      LoTwice(h, w - 1);
    }
  }

  lemma {:induction false} LoTwice(h: nat, p: nat)
    ensures Lo(h + 1, p) == Lo(h, 2 * p)
  {
    Doubles(p, Pow2(h));
  }

  /** The levels are the tree. */
  lemma {:induction false} LevelIs(combine: (Digest, Digest) -> Digest, txids: seq<Digest>, h: nat)
    ensures |LevelAt(combine, txids, h)| == Width(|txids|, h)
    ensures forall pos {:trigger LevelAt(combine, txids, h)[pos]} :: 0 <= pos < Width(|txids|, h) ==>
              LevelAt(combine, txids, h)[pos] == CalcHash(combine, txids, h, pos)
    decreases h
  {
    hide Width, Level, CalcHash;
    var n := |txids|;
    if h == 0 {
      LeafLevel(combine, txids);
    } else {
      LevelIs(combine, txids, h - 1);
      WidthNext(n, h - 1);
      forall pos | 0 <= pos < Width(n, h) ensures LevelAt(combine, txids, h)[pos] == CalcHash(combine, txids, h, pos) {
        LevelNext(combine, txids, h, pos);
      }
    }
  }

  lemma {:induction false} LeafLevel(combine: (Digest, Digest) -> Digest, txids: seq<Digest>)
    ensures Width(|txids|, 0) == |txids|
    ensures forall pos :: 0 <= pos < |txids| ==> CalcHash(combine, txids, 0, pos) == txids[pos]
  {
    assert Pow2(0) == 1;
  }

  lemma {:induction false} LevelNext(combine: (Digest, Digest) -> Digest, txids: seq<Digest>, h: nat, pos: nat)
    requires h > 0 && pos < Width(|txids|, h) && |LevelAt(combine, txids, h - 1)| == Width(|txids|, h - 1)
    requires forall q {:trigger LevelAt(combine, txids, h - 1)[q]} :: 0 <= q < Width(|txids|, h - 1) ==>
               LevelAt(combine, txids, h - 1)[q] == CalcHash(combine, txids, h - 1, q)
    ensures pos < |LevelAt(combine, txids, h)| && LevelAt(combine, txids, h)[pos] == CalcHash(combine, txids, h, pos)
  {
    hide Width, Level;
    WidthNext(|txids|, h - 1);
    Halves(|txids|, h, pos);
    var xs := LevelAt(combine, txids, h - 1);
    assert LevelAt(combine, txids, h) == Level(combine, xs);
    hide LevelAt;
    assert xs[2 * pos] == CalcHash(combine, txids, h - 1, 2 * pos);
    if 2 * pos + 1 < |xs| { assert xs[2 * pos + 1] == CalcHash(combine, txids, h - 1, 2 * pos + 1); }
  }

  // ---- Equal neighbours ----

  /** Two neighbours of one level are equal. */
  ghost predicate TwinAt(combine: (Digest, Digest) -> Digest, txids: seq<Digest>, h: nat, pos: nat) {
    2 * pos + 1 < Width(|txids|, h) && CalcHash(combine, txids, h, 2 * pos) == CalcHash(combine, txids, h, 2 * pos + 1)
  }

  ghost predicate SomeTwin(combine: (Digest, Digest) -> Digest, txids: seq<Digest>, top: nat) {
    exists h, pos {:trigger TwinAt(combine, txids, h, pos)} :: 0 <= h < top && 0 <= pos && TwinAt(combine, txids, h, pos)
  }

  /**
   The root of a list, hashed up level by level in place; `mutated` when on some level two neighbours are
   equal. The empty list has the zero root.
   */
  method ComputeMerkleRoot(combine: (Digest, Digest) -> Digest, txids: seq<Digest>) returns (root: Digest, mutated: bool)
    ensures root == if txids == [] then ZERO else Root(combine, txids)
    ensures mutated <==> SomeTwin(combine, txids, Height(|txids|))
  {
    hide Width, CalcHash, Level, TwinAt, SomeTwin;
    var hashes := txids;
    mutated := false;
    ghost var h := 0;
    NoTwinYet(combine, txids);
    LevelIs(combine, txids, 0);
    while |hashes| > 1
      invariant hashes == LevelAt(combine, txids, h) && |hashes| == Width(|txids|, h)
      invariant HeightFrom(|txids|, h) == Height(|txids|)
      invariant mutated <==> SomeTwin(combine, txids, h)
      decreases |hashes|
    {
      var found := EqualNeighbours(hashes);
      TwinNext(combine, txids, h, found);
      mutated := mutated || found;
      Narrower(|txids|, h);
      hashes := HashUp(combine, hashes);
      h := h + 1;
      LevelIs(combine, txids, h);
    }
    if |hashes| == 0 {
      EmptyWidth(|txids|, h);
      return ZERO, mutated;
    }
    root := hashes[0];
    RootAt(combine, txids, h);
  }

  lemma {:induction false} RootAt(combine: (Digest, Digest) -> Digest, txids: seq<Digest>, h: nat)
    requires Width(|txids|, h) == 1 && HeightFrom(|txids|, h) == Height(|txids|)
    ensures txids != [] && |LevelAt(combine, txids, h)| == 1 && LevelAt(combine, txids, h)[0] == Root(combine, txids)
  {
    hide Width, CalcHash;
    WidthIff(|txids|, h, 0);
    LevelIs(combine, txids, h);
  }

  lemma {:induction false} EmptyWidth(n: nat, h: nat)
    requires Width(n, h) == 0
    ensures n == 0
  {
    WidthIff(n, h, 0);
  }

  method EqualNeighbours(hashes: seq<Digest>) returns (found: bool)
    ensures found <==> exists pos {:trigger hashes[2 * pos]} :: 0 <= pos && 2 * pos + 1 < |hashes| && hashes[2 * pos] == hashes[2 * pos + 1]
  {
    found := false;
    var pos, i := 0, 0;
    while pos + 1 < |hashes|
      invariant pos == 2 * i
      invariant found <==> exists k {:trigger hashes[2 * k]} :: 0 <= k < i && 2 * k + 1 < |hashes| && hashes[2 * k] == hashes[2 * k + 1]
    {
      if hashes[pos] == hashes[pos + 1] {
        assert hashes[2 * i] == hashes[2 * i + 1];
        found := true;
      }
      pos := pos + 2;
      i := i + 1;
    }
  }

  /** A level of odd length is made even by repeating its last hash; then the pairs are hashed. */
  method HashUp(combine: (Digest, Digest) -> Digest, level: seq<Digest>) returns (next: seq<Digest>)
    requires level != []
    ensures next == Level(combine, level)
  {
    var hashes := if |level| % 2 == 1 then level + [level[|level| - 1]] else level;
    next := [];
    for i := 0 to |hashes| / 2
      invariant |next| == i && forall k :: 0 <= k < i ==> next[k] == combine(hashes[2 * k], hashes[2 * k + 1])
    {
      next := next + [combine(hashes[2 * i], hashes[2 * i + 1])];
    }
    assert |next| == |Level(combine, level)|;
  }

  lemma {:induction false} NoTwinYet(combine: (Digest, Digest) -> Digest, txids: seq<Digest>)
    ensures !SomeTwin(combine, txids, 0)
  {
  }

  lemma {:induction false} TwinNext(combine: (Digest, Digest) -> Digest, txids: seq<Digest>, h: nat, found: bool)
    requires var hashes := LevelAt(combine, txids, h);
             found <==> exists pos {:trigger hashes[2 * pos]} :: 0 <= pos && 2 * pos + 1 < |hashes| && hashes[2 * pos] == hashes[2 * pos + 1]
    ensures SomeTwin(combine, txids, h + 1) <==> SomeTwin(combine, txids, h) || found
  {
    hide Width, CalcHash, LevelAt;
    var hashes := LevelAt(combine, txids, h);
    LevelIs(combine, txids, h);
    if found {
      var pos :| 0 <= pos && 2 * pos + 1 < |hashes| && hashes[2 * pos] == hashes[2 * pos + 1];
      assert TwinAt(combine, txids, h, pos);
    }
    if SomeTwin(combine, txids, h) {
      var j, pos :| 0 <= j < h && 0 <= pos && TwinAt(combine, txids, j, pos);
      assert TwinAt(combine, txids, j, pos);
    }
    if SomeTwin(combine, txids, h + 1) {
      var j, pos :| 0 <= j < h + 1 && 0 <= pos && TwinAt(combine, txids, j, pos);
      if j == h { assert hashes[2 * pos] == hashes[2 * pos + 1]; }
    }
  }

  // ---- What the flag says of partial trees ----

  /** Without equal neighbours on any level, every partial tree of the list is clean. */
  lemma {:induction false} NoTwinClean(combine: (Digest, Digest) -> Digest, txids: seq<Digest>, match_: seq<bool>, h: nat, pos: nat)
    requires |match_| == |txids| && pos < Width(|txids|, h) && !SomeTwin(combine, txids, h)
    ensures Clean(combine, txids, match_, h, pos)
    decreases h
  {
    hide Width, CalcHash, Above;
    if h > 0 && Above(match_, h, pos) {
      Halves(|txids|, h, pos);
      assert !TwinAt(combine, txids, h - 1, pos);
      FewerTwins(combine, txids, h);
      NoTwinClean(combine, txids, match_, h - 1, 2 * pos);
      if 2 * pos + 1 < Width(|txids|, h - 1) { NoTwinClean(combine, txids, match_, h - 1, 2 * pos + 1); }
    }
  }

  lemma {:induction false} FewerTwins(combine: (Digest, Digest) -> Digest, txids: seq<Digest>, h: nat)
    requires h > 0 && !SomeTwin(combine, txids, h)
    ensures !SomeTwin(combine, txids, h - 1)
  {
    hide TwinAt;
  }

  /** Equal neighbours below a node of which every id is matched make it unclean. */
  lemma {:induction false} TwinUnclean(combine: (Digest, Digest) -> Digest, txids: seq<Digest>, match_: seq<bool>, j: nat, q: nat, h: nat) returns (pos: nat)
    requires |match_| == |txids| && (forall i :: 0 <= i < |match_| ==> match_[i]) && j < h && TwinAt(combine, txids, j, q)
    ensures pos < Width(|txids|, h) && !Clean(combine, txids, match_, h, pos)
    decreases h
  {
    hide Width, CalcHash;
    var n := |txids|;
    if h == j + 1 {
      pos := q;
      WidthNext(n, j);
      AllMatchedAbove(match_, h, pos);
    } else {
      var r := TwinUnclean(combine, txids, match_, j, q, h - 1);
      pos := r / 2;
      WidthNext(n, h - 1);
      AllMatchedAbove(match_, h, pos);
      Halves(n, h, pos);
    }
  }

  lemma {:induction false} AllMatchedAbove(match_: seq<bool>, h: nat, pos: nat)
    requires (forall i :: 0 <= i < |match_| ==> match_[i]) && pos < Width(|match_|, h)
    ensures Above(match_, h, pos)
  {
    hide Width;
    RangeOk(|match_|, h, pos);
  }

  /**
   The block's check and the partial tree's agree: the root computation calls the list mutated exactly when
   the partial tree of all its ids is refused, and if it does not, no partial tree of the list is.
   */
  lemma {:induction false} MutatedIff(combine: (Digest, Digest) -> Digest, txids: seq<Digest>, match_: seq<bool>)
    requires |match_| == |txids| > 0
    ensures !SomeTwin(combine, txids, Height(|txids|)) ==> CleanTree(combine, txids, match_)
    ensures (forall i :: 0 <= i < |match_| ==> match_[i]) ==>
              (SomeTwin(combine, txids, Height(|txids|)) <==> !CleanTree(combine, txids, match_))
  {
    hide Width, CalcHash, Clean, TwinAt;
    var n := |txids|;
    RootCovers(n);
    if !SomeTwin(combine, txids, Height(n)) {
      NoTwinClean(combine, txids, match_, Height(n), 0);
    } else if forall i :: 0 <= i < |match_| ==> match_[i] {
      var j, q :| 0 <= j < Height(n) && 0 <= q && TwinAt(combine, txids, j, q);
      var pos := TwinUnclean(combine, txids, match_, j, q, Height(n));
      assert pos == 0;
    }
  }
}
