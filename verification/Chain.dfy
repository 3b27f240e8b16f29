/**
 The block index: blocks point to their parent and to one earlier ancestor. A walk to an ancestor
 over skip pointers is proved to be the plain walk over parents.
 */
module Chain {
  import opened Powers

  // ---- Skip heights ----

  /** Bitwise and. */
  function And(a: nat, b: nat): nat
    decreases a
  {
    if a == 0 || b == 0 then 0 else (if a % 2 == 1 && b % 2 == 1 then 1 else 0) + 2 * And(a / 2, b / 2)
  }

  /** Clears the lowest set bit; zero stays zero. */
  function InvertLowestOne(n: nat): nat { if n == 0 then 0 else And(n, n - 1) }

  function GetSkipHeight(height: nat): nat {
    if height < 2 then 0
    else if height % 2 == 1 then InvertLowestOne(InvertLowestOne(height - 1)) + 1
    else InvertLowestOne(height)
  }

  lemma {:induction false} AndLe(a: nat, b: nat)
    ensures And(a, b) <= a && And(a, b) <= b
    decreases a
  {
    if a > 0 && b > 0 { AndLe(a / 2, b / 2); }
  }

  /** An odd number loses its last bit; an even one is treated like its half. */
  lemma {:induction false} InvertsLowest(n: nat)
    requires n > 0
    ensures InvertLowestOne(n) == if n % 2 == 1 then n - 1 else 2 * InvertLowestOne(n / 2)
  {
    if n % 2 == 1 {
      AndSelf(n / 2);
    }
  }

  /** The lowest one of 2^k * (2m + 1) is that of 2^k. */
  lemma {:induction false} InvertAt(k: nat, m: nat)
    ensures InvertLowestOne(Pow(2, k) * (2 * m + 1)) == Pow(2, k) * (2 * m)
    decreases k
  {
    hide InvertLowestOne;
    var n: nat := Pow(2, k) * (2 * m + 1);
    PowPositive(2, k);
    MulPositive(Pow(2, k), 2 * m + 1);
    InvertsLowest(n);
    if k == 0 {
      assert Pow(2, 0) == 1;
    } else {
      var h := Pow(2, k - 1);
      assert n == 2 * (h * (2 * m + 1)) by { Assoc(2, h, 2 * m + 1); }
      assert Pow(2, k) * (2 * m) == 2 * (h * (2 * m)) by { Assoc(2, h, 2 * m); }
      InvertAt(k - 1, m);
    }
  }

  /** An even height skips to itself without its lowest one. */
  lemma {:induction false} SkipsEven(k: nat, m: nat)
    requires k > 0
    ensures GetSkipHeight(Pow(2, k) * (2 * m + 1)) == Pow(2, k) * (2 * m)
  {
    hide InvertLowestOne, Pow;
    InvertAt(k, m);
    EvenPower(k, 2 * m + 1);
  }

  lemma {:induction false} EvenPower(k: nat, x: nat)
    requires k > 0 && x > 0
    ensures Pow(2, k) * x >= 2 && Pow(2, k) * x % 2 == 0
  {
    var h := Pow(2, k - 1);
    PowPositive(2, k - 1);
    Assoc(2, h, x);
    MulPositive(h, x);
    EvenDouble(h * x);
  }

  lemma {:induction false} SkipsAfterEven(n: nat)
    requires n >= 2 && n % 2 == 0
    ensures GetSkipHeight(n + 1) == InvertLowestOne(InvertLowestOne(n)) + 1
  {
    hide InvertLowestOne;
  }

  /** An odd height skips to one more than the even height below it without its two lowest ones. */
  lemma {:induction false} SkipsOdd(k: nat, j: nat, m: nat)
    requires k > 0 && j > 0
    ensures GetSkipHeight(Pow(2, k) * (Pow(2, j) * (2 * m + 1) + 1) + 1) == Pow(2, k + j) * (2 * m) + 1
  {
    hide InvertLowestOne, GetSkipHeight, Pow;
    var p, q, x := Pow(2, k), Pow(2, j), Pow(2, j - 1) * (2 * m + 1);
    PowStep(2, j - 1);
    Assoc(2, Pow(2, j - 1), 2 * m + 1);
    assert q * (2 * m + 1) == 2 * x;
    EvenPower(k, 2 * x + 1);
    SkipsAfterEven(p * (2 * x + 1));
    InvertAt(k, x);
    PowAdd(2, k, j);
    Assoc(p, q, 2 * m + 1);
    InvertAt(k + j, m);
  }

  /** One more than a power of two skips to height 1. */
  lemma {:induction false} SkipsPower(k: nat)
    requires k > 0
    ensures GetSkipHeight(Pow(2, k) + 1) == 1
  {
    hide InvertLowestOne, GetSkipHeight, Pow;
    EvenPower(k, 1);
    SkipsAfterEven(Pow(2, k));
    InvertAt(k, 0);
    ZeroStays();
  }

  lemma ZeroStays()
    ensures InvertLowestOne(0) == 0
  {
  }

  lemma {:induction false} AndSelf(n: nat)
    ensures And(n, n) == n
    decreases n
  {
    if n > 0 { AndSelf(n / 2); }
  }

  /** Clearing the lowest one of an even number leaves an even, smaller number. */
  lemma {:induction false} InvertEven(n: nat)
    requires n % 2 == 0
    ensures InvertLowestOne(n) % 2 == 0 && (n > 0 ==> InvertLowestOne(n) + 2 <= n)
  {
    if n > 0 {
      hide And;
      AndLe(n, n - 1);
      AndEven(n, n - 1);
    }
  }

  lemma {:induction false} AndEven(a: nat, b: nat)
    requires a % 2 == 0
    ensures And(a, b) % 2 == 0
  {
    if a > 0 && b > 0 {
      var q := And(a / 2, b / 2);
      assert And(a, b) == 2 * q;
      EvenDouble(q);
    }
  }

  lemma EvenDouble(q: nat)
    ensures (2 * q) % 2 == 0
  {
  }

  /** A skip always goes strictly back. */
  lemma {:induction false} SkipsBack(height: nat)
    requires height > 0
    ensures GetSkipHeight(height) < height
  {
    if height >= 2 && height % 2 == 1 {
      InvertEven(height - 1);
      InvertEven(InvertLowestOne(height - 1));
    } else if height >= 2 {
      InvertEven(height);
    }
  }

  // ---- The walk, as heights ----

  /** From a height towards a lower one, the skip pointer is followed: it does not pass the target, and the parent's is not better. */
  predicate FollowsSkip(walk: nat, height: nat)
    requires height < walk
  {
    var heightSkip, heightSkipPrev := GetSkipHeight(walk), GetSkipHeight(walk - 1);
    heightSkip == height || (heightSkip > height && !(heightSkipPrev < heightSkip - 2 && heightSkipPrev >= height))
  }

  function Onward(walk: nat, height: nat): (r: nat)
    requires height < walk
    ensures height <= r < walk
  {
    SkipsBack(walk);
    if FollowsSkip(walk, height) then GetSkipHeight(walk) else walk - 1
  }

  /** How many rounds the walk takes. */
  function Rounds(walk: nat, height: nat): nat
    requires height <= walk
    decreases walk
  {
    if walk == height then 0 else 1 + Rounds(Onward(walk, height), height)
  }

  // ---- Blocks ----

  const MAX_HEADERS_RESULTS := 2000

  class BlockIndex {
    const pprev: BlockIndex?
    const nHeight: nat
    var pskip: BlockIndex?

    constructor (prev: BlockIndex?)
      ensures pprev == prev && pskip == null && nHeight == if prev == null then 0 else prev.nHeight + 1
    {
      pprev := prev;
      nHeight := if prev == null then 0 else prev.nHeight + 1;
      pskip := null;
    }

    /** The ancestor at a height, or null when there is none; skip pointers are followed where they help. */
    method GetAncestor(height: int, ghost tree: set<BlockIndex>) returns (r: BlockIndex?, ghost rounds: nat)
      requires Sound(tree) && this in tree
      ensures Linked(this)
      ensures Skipping(tree) && 0 <= height <= nHeight ==> rounds == Rounds(nHeight, height)
      ensures height < 0 || height > nHeight ==> r == null
      ensures 0 <= height <= nHeight ==> r != null && r in tree && r == Ancestor(this, height)
    {
      assert LinkOk(this, tree);
      rounds := 0;
      if height > nHeight || height < 0 {
        return null, 0;
      }
      var walk, heightWalk := this, nHeight;
      while heightWalk > height
        invariant walk in tree && walk.nHeight == heightWalk >= height && Linked(walk) && Linked(this)
        invariant Ancestor(walk, height) == Ancestor(this, height)
        invariant Skipping(tree) ==> rounds + Rounds(heightWalk, height) == Rounds(nHeight, height)
        decreases heightWalk
      {
        var heightSkip := GetSkipHeight(heightWalk);
        var heightSkipPrev := GetSkipHeight(heightWalk - 1);
        SkipsBack(heightWalk);
        assert LinkOk(walk, tree) && Linked(walk);
        assert Skipping(tree) ==> walk.pskip != null;
        rounds := rounds + 1;
        if walk.pskip != null
          && (heightSkip == height || (heightSkip > height && !(heightSkipPrev < heightSkip - 2 && heightSkipPrev >= height))) {
          AncestorIn(tree, walk.pprev, heightSkip);
          AncestorTwice(walk, heightSkip, height);
          walk := walk.pskip;
          heightWalk := heightSkip;
        } else {
          walk := walk.pprev;
          heightWalk := heightWalk - 1;
        }
      }
      r := walk;
    }

    method BuildSkip(ghost tree: set<BlockIndex>)
      requires Sound(tree) && this !in tree && Linked(this) && (pprev != null ==> pprev in tree) && pskip == null
      modifies this
      ensures Sound(tree + {this})
      ensures pprev != null ==> GetSkipHeight(nHeight) <= pprev.nHeight && pskip == Ancestor(pprev, GetSkipHeight(nHeight))
      ensures old(Skipping(tree)) ==> Skipping(tree + {this})
    {
      if pprev != null {
        SkipsBack(nHeight);
        ghost var rounds;
        pskip, rounds := pprev.GetAncestor(GetSkipHeight(nHeight), tree);
      }
      forall b | b in tree + {this} ensures LinkOk(b, tree + {this}) {
        if b in tree { assert LinkOk(b, tree); }
      }
    }
  }

  /** Heights count the parents: the walk over parents ends at a block of height 0. */
  ghost predicate Linked(b: BlockIndex)
    decreases b.nHeight
  {
    if b.pprev == null then b.nHeight == 0 else b.nHeight == b.pprev.nHeight + 1 && Linked(b.pprev)
  }

  /** The plain walk over parents. */
  ghost function Ancestor(b: BlockIndex, h: nat): (r: BlockIndex)
    requires Linked(b) && h <= b.nHeight
    ensures Linked(r) && r.nHeight == h
    decreases b.nHeight
  {
    if b.nHeight == h then b else Ancestor(b.pprev, h)
  }

  /** The links of one block of a tree. */
  ghost predicate LinkOk(b: BlockIndex, tree: set<BlockIndex>)
    reads b
  {
    && Linked(b)
    && (b.pprev != null ==> b.pprev in tree)
    && (b.pskip != null ==> b.pprev != null && GetSkipHeight(b.nHeight) <= b.pprev.nHeight && b.pskip == Ancestor(b.pprev, GetSkipHeight(b.nHeight)))
  }

  ghost predicate Sound(tree: set<BlockIndex>)
    reads tree
  {
    forall b {:trigger LinkOk(b, tree)} :: b in tree ==> LinkOk(b, tree)
  }

  /** Every block above a genesis block has its skip pointer. */
  ghost predicate Skipping(tree: set<BlockIndex>)
    reads tree
  {
    forall b {:trigger b.pskip} :: b in tree && b.pprev != null ==> b.pskip != null
  }

  /** The ancestor of an ancestor. */
  lemma {:induction false} AncestorTwice(b: BlockIndex, h: nat, g: nat)
    requires Linked(b) && g <= h <= b.nHeight
    ensures Ancestor(Ancestor(b, h), g) == Ancestor(b, g)
    decreases b.nHeight
  {
    if b.nHeight > h { AncestorTwice(b.pprev, h, g); }
  }

  lemma {:induction false} AncestorIn(tree: set<BlockIndex>, b: BlockIndex, h: nat)
    requires Sound(tree) && b in tree && Linked(b) && h <= b.nHeight
    ensures Ancestor(b, h) in tree
    decreases b.nHeight
  {
    assert LinkOk(b, tree);
    if b.nHeight > h { AncestorIn(tree, b.pprev, h); }
  }

  lemma {:induction false} LinkedIn(b: BlockIndex, tree: set<BlockIndex>)
    requires Sound(tree) && b in tree
    ensures Linked(b)
  {
    assert LinkOk(b, tree);
  }

  /** A new block on top of a block of the tree, or a new genesis block. */
  method Extend(prev: BlockIndex?, ghost tree: set<BlockIndex>) returns (b: BlockIndex, ghost tree': set<BlockIndex>)
    requires Sound(tree) && (prev != null ==> prev in tree)
    ensures fresh(b) && b.pprev == prev && tree' == tree + {b} && Sound(tree') && (Skipping(tree) ==> Skipping(tree'))
    ensures prev != null ==> Linked(prev) && GetSkipHeight(b.nHeight) <= prev.nHeight && b.pskip == Ancestor(prev, GetSkipHeight(b.nHeight))
  {
    b := new BlockIndex(prev);
    if prev != null { assert LinkOk(prev, tree); }
    b.BuildSkip(tree);
    tree' := tree + {b};
  }

  // ---- The active chain ----

  /** Consecutive ancestors of the last entry, from the genesis block on. */
  ghost predicate IsChain(c: seq<BlockIndex?>, tree: set<BlockIndex>) {
    forall i {:trigger c[i]} :: 0 <= i < |c| ==>
      c[i] != null && c[i] in tree && Linked(c[i]) && c[i].nHeight == i && (i > 0 ==> c[i].pprev == c[i - 1])
  }

  lemma {:induction false} ChainAncestor(c: seq<BlockIndex?>, tree: set<BlockIndex>, i: nat, h: nat)
    requires IsChain(c, tree) && h <= i < |c|
    ensures c[i] != null && Linked(c[i]) && c[i].nHeight == i && c[h] == Ancestor(c[i], h)
    decreases i
  {
    if h < i { ChainAncestor(c, tree, i - 1, h); }
  }

  /** The chain that ends in a given block. */
  ghost predicate PathOf(c: seq<BlockIndex?>, tip: BlockIndex)
    requires Linked(tip)
  {
    |c| == tip.nHeight + 1 && forall i {:trigger c[i]} :: 0 <= i < |c| ==> c[i] == Ancestor(tip, i)
  }

  /** A block and a chain share the blocks up to some height, and no others. */
  ghost predicate ForksAt(c: seq<BlockIndex?>, b: BlockIndex, h: int)
    requires Linked(b)
  {
    && -1 <= h <= b.nHeight && h < |c|
    && (forall i {:trigger c[i]} :: 0 <= i <= h ==> c[i] == Ancestor(b, i))
    && (forall i {:trigger c[i]} :: h < i <= b.nHeight && i < |c| ==> c[i] != Ancestor(b, i))
  }

  /** A chain that shares a block with another block's path shares all below it. */
  lemma {:induction false} SharedBelow(c: seq<BlockIndex?>, tree: set<BlockIndex>, b: BlockIndex, h: nat)
    requires IsChain(c, tree) && Linked(b) && h <= b.nHeight && h < |c| && c[h] == Ancestor(b, h)
    ensures forall i {:trigger c[i]} :: 0 <= i <= h ==> c[i] == Ancestor(b, i)
  {
    hide IsChain;
    forall i {:trigger c[i]} | 0 <= i <= h ensures c[i] == Ancestor(b, i) {
      ChainAncestor(c, tree, h, i);
      AncestorTwice(b, h, i);
    }
  }

  class ActiveChain {
    var vChain: seq<BlockIndex?>

    constructor ()
      ensures vChain == []
    {
      vChain := [];
    }

    function Height(): int
      reads this
    {
      |vChain| - 1
    }

    function At(h: int): BlockIndex?
      reads this
    {
      if h < 0 || h >= |vChain| then null else vChain[h]
    }

    predicate Contains(b: BlockIndex)
      reads this
    {
      At(b.nHeight) == b
    }

    /** Stops as soon as it meets the old chain; the result is still the whole path to the tip. */
    method SetTip(tip: BlockIndex?, ghost tree: set<BlockIndex>)
      requires Sound(tree) && IsChain(vChain, tree) && (tip != null ==> tip in tree)
      modifies this
      ensures IsChain(vChain, tree)
      ensures tip == null ==> vChain == []
      ensures tip != null ==> Linked(tip) && PathOf(vChain, tip)
    {
      if tip == null {
        vChain := [];
        return;
      }
      assert LinkOk(tip, tree);
      ghost var before := vChain;
      var n := tip.nHeight + 1;
      vChain := if n <= |vChain| then vChain[..n] else vChain + seq(n - |vChain|, i => null);
      var p: BlockIndex? := tip;
      while p != null && vChain[p.nHeight] != p
        invariant |vChain| == n
        invariant p != null ==> p in tree && p.nHeight < n && p == Ancestor(tip, p.nHeight)
        invariant forall i :: (if p == null then 0 else p.nHeight + 1) <= i < n ==> vChain[i] == Ancestor(tip, i)
        invariant forall i :: 0 <= i < n && p != null && i <= p.nHeight ==> vChain[i] == if i < |before| then before[i] else null
        decreases if p == null then 0 else p.nHeight + 1
      {
        assert LinkOk(p, tree) && Linked(p);
        vChain := vChain[p.nHeight := p];
        if p.pprev != null { AncestorTwice(tip, p.nHeight, p.nHeight - 1); }
        p := p.pprev;
      }
      forall i | 0 <= i < n ensures vChain[i] == Ancestor(tip, i) {
        if p != null && i <= p.nHeight {
          ChainAncestor(before, tree, p.nHeight, i);
          AncestorTwice(tip, p.nHeight, i);
        }
      }
      PathIsChain(vChain, tip, tree);
    }

    /** The highest block of the chain that is an ancestor of the given one. */
    method FindFork(b: BlockIndex?, ghost tree: set<BlockIndex>) returns (r: BlockIndex?)
      requires Sound(tree) && IsChain(vChain, tree) && (b != null ==> b in tree)
      ensures b == null ==> r == null
      ensures b != null ==> Linked(b) && ForksAt(vChain, b, if r == null then -1 else r.nHeight)
      ensures b != null && r != null ==> r == Ancestor(b, r.nHeight) && Contains(r)
    {
      if b == null {
        return null;
      }
      assert LinkOk(b, tree);
      r := b;
      if b.nHeight > Height() {
        ghost var rounds;
        r, rounds := b.GetAncestor(Height(), tree);
      }
      while r != null && !Contains(r)
        invariant r != null ==> r in tree && r.nHeight <= b.nHeight && r.nHeight < |vChain| && r == Ancestor(b, r.nHeight)
        invariant forall i {:trigger vChain[i]} :: (if r == null then 0 else r.nHeight + 1) <= i <= b.nHeight && i < |vChain| ==> vChain[i] != Ancestor(b, i)
        decreases if r == null then 0 else r.nHeight + 1
      {
        assert LinkOk(r, tree) && Linked(r);
        if r.pprev != null { AncestorTwice(b, r.nHeight, r.nHeight - 1); }
        r := r.pprev;
      }
      if r != null { SharedBelow(vChain, tree, b, r.nHeight); }
    }

    /** The block one step further back, from the index or over skip pointers. */
    method Back(b: BlockIndex, h: nat, ghost tree: set<BlockIndex>) returns (r: BlockIndex)
      requires Sound(tree) && IsChain(vChain, tree) && b in tree && h <= b.nHeight
      ensures Linked(b) && r in tree && r == Ancestor(b, h)
    {
      assert LinkOk(b, tree);
      var p: BlockIndex?;
      if Contains(b) {
        ChainAncestor(vChain, tree, b.nHeight, h);
        p := At(h);
      } else {
        ghost var rounds;
        p, rounds := b.GetAncestor(h, tree);
      }
      r := p;
    }

    /**
     The locator of a block, or of the tip: ancestors at exactly the heights that the steps give,
     down to genesis. Well below the last checkpoint, heights are counted in batches of headers.
     */
    method GetLocator(start: BlockIndex?, lastCheckpointHeight: int, ghost tree: set<BlockIndex>) returns (have: seq<BlockIndex>)
      requires Sound(tree) && IsChain(vChain, tree) && (start != null ==> start in tree)
      ensures start == null && vChain == [] ==> have == []
      ensures start != null || vChain != [] ==>
        var b: BlockIndex? := if start == null then At(Height()) else start;
        b != null && Linked(b) && Locates(have, b, if lastCheckpointHeight > b.nHeight + MAX_HEADERS_RESULTS then MAX_HEADERS_RESULTS else 1)
    {
      have := [];
      var p: BlockIndex? := start;
      if p == null {
        p := At(Height());
      }
      if p == null {
        return;
      }
      hide Locates, Sound, IsChain;
      LinkedIn(p, tree);
      if lastCheckpointHeight > p.nHeight + MAX_HEADERS_RESULTS {
        WholeUnits(p.nHeight, MAX_HEADERS_RESULTS);
        var first := Back(p, MAX_HEADERS_RESULTS * (p.nHeight / MAX_HEADERS_RESULTS), tree);
        have := Descend(first, MAX_HEADERS_RESULTS, tree);
        LocatesFrom(have, p, first, MAX_HEADERS_RESULTS);
      } else {
        have := Descend(p, 1, tree);
      }
    }

    /** The walk back from a block whose height is a multiple of the unit, in steps of multiples of it. */
    method Descend(b: BlockIndex, unit: nat, ghost tree: set<BlockIndex>) returns (have: seq<BlockIndex>)
      requires Sound(tree) && IsChain(vChain, tree) && b in tree && unit > 0 && b.nHeight % unit == 0
      ensures Linked(b) && Locates(have, b, unit)
    {
      hide StepAt, Lower, Pow, IsChain, Locates, Listing, Sound;
      LinkedIn(b, tree);
      ghost var h := b.nHeight / unit;
      have := [];
      var p, nStep := b, unit;
      LocatorStart(b, h, unit);
      assert unit * h == b.nHeight;
      while true
        invariant p in tree && p.nHeight <= b.nHeight && p == Ancestor(b, p.nHeight)
        invariant nStep == unit * StepAt(|have|) && p.nHeight == unit * Lower(h, |have|)
        invariant Listing(have, b, unit, h)
        invariant |have| > 0 ==> Lower(h, |have| - 1) > 0
        decreases p.nHeight
      {
        ListingNext(have, b, unit, h, p);
        have := have + [p];
        if p.nHeight == 0 {
          break;
        }
        // Division truncates; a negative quotient ends at genesis like zero.
        var nHeight := if p.nHeight > nStep then unit * ((p.nHeight - nStep) / unit) else 0;
        UnitStep(h, |have| - 1, unit);
        LinkedIn(p, tree);
        AncestorTwice(b, p.nHeight, nHeight);
        p := Back(p, nHeight, tree);
        if |have| > 10 {
          nStep := nStep * 2;
        }
      }
      ListingEnd(have, b, unit);
    }
  }

  /** A block is the ancestor at a height. */
  ghost predicate Sits(x: BlockIndex, b: BlockIndex, h: nat)
    requires Linked(b)
  {
    x.nHeight == h <= b.nHeight && x == Ancestor(b, h)
  }

  /** The listed blocks so far, h being the height in units. */
  ghost predicate Listing(have: seq<BlockIndex>, b: BlockIndex, unit: nat, h: nat)
    requires Linked(b)
  {
    forall k {:trigger have[k]} :: 0 <= k < |have| ==> Sits(have[k], b, unit * Lower(h, k))
  }

  /**
   A locator: the ancestors at the heights that the steps give, in multiples of the unit, the last of
   them and no other genesis; heights fall, and their number grows with the bits of the height.
   */
  ghost predicate Locates(have: seq<BlockIndex>, b: BlockIndex, unit: nat)
    requires Linked(b) && unit > 0
  {
    && Listing(have, b, unit, b.nHeight / unit) && have != []
    && (forall k {:trigger have[k]} :: 0 <= k < |have| ==> (have[k].nHeight == 0 <==> k == |have| - 1))
    && (forall j, k {:trigger have[j], have[k]} :: 0 <= j < k < |have| ==> have[k].nHeight < have[j].nHeight)
    && (forall bits: nat {:trigger Pow(2, bits)} :: b.nHeight / unit < Pow(2, bits) ==> |have| <= 11 + bits)
  }

  lemma {:induction false} ListingNext(have: seq<BlockIndex>, b: BlockIndex, unit: nat, h: nat, p: BlockIndex)
    requires Linked(b) && Listing(have, b, unit, h) && Sits(p, b, unit * Lower(h, |have|))
    ensures Listing(have + [p], b, unit, h)
  {
    hide Lower, Sits;
  }

  lemma {:induction false} ListingEnd(have: seq<BlockIndex>, b: BlockIndex, unit: nat)
    requires Linked(b) && unit > 0 && Listing(have, b, unit, b.nHeight / unit) && have != [] && have[|have| - 1].nHeight == 0
    requires |have| > 1 ==> Lower(b.nHeight / unit, |have| - 2) > 0
    ensures Locates(have, b, unit)
  {
    hide Lower, Pow, Ancestor, Linked;
    var h, n := b.nHeight / unit, |have|;
    forall j, k | 0 <= j < k < n ensures 0 <= have[k].nHeight < have[j].nHeight {
      FallsAt(have, b, unit, h, j, k);
    }
    forall k | 0 <= k < n ensures have[k].nHeight == 0 <==> k == n - 1 {
      if k < n - 1 { FallsAt(have, b, unit, h, k, n - 1); }
    }
    forall bits: nat {:trigger Pow(2, bits)} | h < Pow(2, bits) ensures |have| <= 11 + bits {
      LocatorLength(h, |have|, bits);
    }
  }

  lemma {:induction false} FallsAt(have: seq<BlockIndex>, b: BlockIndex, unit: nat, h: nat, j: nat, k: nat)
    requires Linked(b) && unit > 0 && Listing(have, b, unit, h) && j < k < |have| && Lower(h, |have| - 2) > 0
    ensures have[k].nHeight < have[j].nHeight
  {
    hide Lower, Ancestor, Linked;
    assert Sits(have[j], b, unit * Lower(h, j)) && Sits(have[k], b, unit * Lower(h, k));
    LowerFalls(h, k - 1, |have| - 2);
    LowerBelow(h, j, k);
    MulLess(unit, Lower(h, k), Lower(h, j));
  }

  lemma {:induction false} LowerBelow(h: nat, j: nat, k: nat)
    requires j < k && Lower(h, k - 1) > 0
    ensures Lower(h, k) < Lower(h, j)
    decreases k
  {
    hide Lower;
    LowerStep(h, k - 1);
    if j < k - 1 {
      LowerFalls(h, k - 2, k - 1);
      LowerBelow(h, j, k - 1);
    }
  }

  lemma MulLess(c: nat, a: nat, b: nat)
    requires c > 0 && a < b
    ensures c * a < c * b
  {
    MulLe(a + 1, b, c);
  }

  /** Earlier entries are higher. */
  lemma {:induction false} LowerFalls(h: nat, j: nat, k: nat)
    requires j <= k && Lower(h, k) > 0
    ensures Lower(h, j) > 0
    decreases k
  {
    if j < k {
      DepthStep(k - 1);
      LowerFalls(h, j, k - 1);
    }
  }

  /** One step in multiples of the unit. */
  lemma {:induction false} UnitStep(h: nat, k: nat, unit: nat)
    requires unit > 0 && unit * Lower(h, k) > 0
    ensures Lower(h, k) > 0
    ensures var at, step := unit * Lower(h, k), unit * StepAt(k);
            && (if at > step then unit * ((at - step) / unit) else 0) == unit * Lower(h, k + 1) < at
            && unit * StepAt(k + 1) == if k + 1 > 10 then 2 * step else step
  {
    hide Lower, StepAt;
    var a, s := Lower(h, k), StepAt(k);
    LowerStep(h, k);
    MulLess(unit, Lower(h, k + 1), a);
    UnitLess(unit, a, s);
    Doubled(unit, s);
  }

  lemma {:induction false} UnitLess(unit: nat, a: nat, s: nat)
    requires unit > 0
    ensures (if unit * a > unit * s then unit * ((unit * a - unit * s) / unit) else 0) == unit * if a > s then a - s else 0
  {
    if a > s {
      MulLess(unit, s, a);
      Difference(unit, a, s);
      DivMod(a - s, 0, unit);
    } else {
      MulLe(a, s, unit);
    }
  }

  lemma Difference(unit: nat, a: nat, s: nat)
    requires a > s
    ensures unit * a - unit * s == (a - s) * unit
  {
  }

  lemma Doubled(unit: nat, s: nat)
    ensures unit * (2 * s) == 2 * (unit * s)
  {
  }

  /** The locator of the ancestor at the greatest multiple of the unit is the block's own. */
  lemma {:induction false} LocatesFrom(have: seq<BlockIndex>, b: BlockIndex, c: BlockIndex, unit: nat)
    requires Linked(b) && unit > 0 && c.nHeight <= b.nHeight && c == Ancestor(b, c.nHeight) && Linked(c)
    requires c.nHeight / unit == b.nHeight / unit && Locates(have, c, unit)
    ensures Locates(have, b, unit)
  {
    hide Lower, Pow, Linked, Sits, Listing, Ancestor;
    ListingFrom(have, b, unit, b.nHeight / unit, c.nHeight);
  }

  lemma {:induction false} WholeUnits(n: nat, unit: nat)
    requires unit > 0
    ensures var m := unit * (n / unit); m <= n && m % unit == 0 && m / unit == n / unit
  {
    var q := n / unit;
    assert n == q * unit + n % unit;
    DivMod(q, 0, unit);
  }

  lemma {:induction false} ListingFrom(have: seq<BlockIndex>, b: BlockIndex, unit: nat, h: nat, top: nat)
    requires Linked(b) && top <= b.nHeight && Listing(have, Ancestor(b, top), unit, h)
    ensures Listing(have, b, unit, h)
  {
    hide Lower, Linked, Sits;
    forall k {:trigger have[k]} | 0 <= k < |have| ensures Sits(have[k], b, unit * Lower(h, k)) {
      SitsBelow(have[k], b, top, unit * Lower(h, k));
    }
  }

  lemma {:induction false} SitsBelow(x: BlockIndex, b: BlockIndex, h: nat, g: nat)
    requires Linked(b) && h <= b.nHeight && Sits(x, Ancestor(b, h), g)
    ensures Sits(x, b, g)
  {
    AncestorTwice(b, h, g);
  }

  lemma {:induction false} PathIsChain(c: seq<BlockIndex?>, tip: BlockIndex, tree: set<BlockIndex>)
    requires Sound(tree) && tip in tree && Linked(tip) && PathOf(c, tip)
    ensures IsChain(c, tree)
  {
    forall i | 0 <= i < |c|
      ensures c[i] != null && c[i] in tree && Linked(c[i]) && c[i].nHeight == i && (i > 0 ==> c[i].pprev == c[i - 1])
    {
      AncestorIn(tree, tip, i);
      if i > 0 { AncestorTwice(tip, i, i - 1); }
    }
  }

  // ---- Steps of the locator ----

  /** The step taken after k blocks have been listed. */
  function StepAt(k: nat): nat { if k <= 10 then 1 else Pow(2, k - 10) }

  /** How far down the list has gone after k steps. */
  function Depth(k: nat): nat { if k <= 10 then k else 9 + Pow(2, k - 10) }

  function Lower(height: nat, k: nat): nat { if height <= Depth(k) then 0 else height - Depth(k) }

  lemma LocatorStart(b: BlockIndex, h: nat, unit: nat)
    requires Linked(b)
    ensures unit * StepAt(0) == unit && Lower(h, 0) == h && Listing([], b, unit, h)
  {
  }

  lemma {:induction false} StepPositive(k: nat)
    ensures StepAt(k) > 0
  {
    if k > 10 { PowPositive(2, k - 10); }
  }

  /** One more step down. */
  lemma {:induction false} LowerStep(height: nat, k: nat)
    requires Lower(height, k) > 0
    ensures Lower(height, k + 1) == (if Lower(height, k) > StepAt(k) then Lower(height, k) - StepAt(k) else 0) < Lower(height, k)
    ensures StepAt(k + 1) == if k + 1 > 10 then 2 * StepAt(k) else StepAt(k)
  {
    DepthStep(k);
    StepPositive(k);
  }

  lemma {:induction false} DepthStep(k: nat)
    ensures Depth(k + 1) == Depth(k) + StepAt(k) && StepAt(k + 1) == if k + 1 > 10 then 2 * StepAt(k) else StepAt(k)
  {
    if k >= 10 {
      assert Pow(2, k + 1 - 10) == 2 * Pow(2, k - 10);
      assert Pow(2, 0) == 1;
    }
  }

  /** The heights listed: the first eleven one by one, and from there each step twice the one before, starting with one, down to genesis. */
  lemma {:induction false} LocatorHeights(height: nat, k: nat)
    ensures k <= 10 ==> Lower(height, k) == if k < height then height - k else 0
    ensures k >= 10 ==> Lower(height, k + 1) == if Lower(height, k) > Pow(2, k - 10) then Lower(height, k) - Pow(2, k - 10) else 0
  {
    PowPositive(2, if k >= 10 then k - 10 else 0);
    DepthStep(k);
    if k == 10 { assert Pow(2, 0) == 1; }
  }

  /** Doubling a step that has not yet led to genesis stays within 32-bit integers for heights below 2^30, in any unit. */
  lemma {:induction false} StepFits(height: nat, unit: nat, k: nat)
    requires height < 0x4000_0000 && unit > 0 && unit * Lower(height / unit, k) > 0
    ensures 2 * (unit * StepAt(k)) < 0x8000_0000
  {
    var q := height / unit;
    assert StepAt(k) <= q;
    WholeUnits(height, unit);
    MulLe(StepAt(k), q, unit);
  }

  lemma {:induction false} LocatorLength(height: nat, n: nat, bits: nat)
    requires n > 0 && height < Pow(2, bits) && (n > 1 ==> Lower(height, n - 2) > 0)
    ensures n <= 11 + bits
  {
    if n > 11 + bits {
      PowLe(2, bits, n - 12);
    }
  }

  // ---- Two branches ----

  /** The highest common ancestor, or null when the two blocks have different genesis blocks. */
  method LastCommonAncestor(a: BlockIndex, b: BlockIndex, ghost tree: set<BlockIndex>) returns (r: BlockIndex?)
    requires Sound(tree) && a in tree && b in tree
    ensures Linked(a) && Linked(b)
    ensures r == null <==> Ancestor(a, 0) != Ancestor(b, 0)
    ensures r != null ==> r.nHeight <= a.nHeight && r.nHeight <= b.nHeight && r == Ancestor(a, r.nHeight) == Ancestor(b, r.nHeight)
    ensures r != null ==> forall h :: r.nHeight < h <= a.nHeight && h <= b.nHeight ==> Ancestor(a, h) != Ancestor(b, h)
  {
    assert LinkOk(a, tree) && LinkOk(b, tree);
    var pa: BlockIndex?, pb: BlockIndex? := a, b;
    ghost var rounds;
    if a.nHeight > b.nHeight {
      pa, rounds := a.GetAncestor(b.nHeight, tree);
    } else if b.nHeight > a.nHeight {
      pb, rounds := b.GetAncestor(a.nHeight, tree);
    }
    while pa != pb && pa != null && pb != null
      invariant pa == null <==> pb == null
      invariant pa != null ==> pa in tree && pb in tree && pa.nHeight == pb.nHeight <= a.nHeight && pb.nHeight <= b.nHeight
      invariant pa != null ==> pa == Ancestor(a, pa.nHeight) && pb == Ancestor(b, pb.nHeight)
      invariant forall h :: (if pa == null then 0 else pa.nHeight + 1) <= h <= a.nHeight && h <= b.nHeight ==> Ancestor(a, h) != Ancestor(b, h)
      decreases if pa == null then 0 else pa.nHeight + 1
    {
      assert LinkOk(pa, tree) && LinkOk(pb, tree) && Linked(pa) && Linked(pb);
      if pa.pprev != null {
        AncestorTwice(a, pa.nHeight, pa.nHeight - 1);
        AncestorTwice(b, pb.nHeight, pb.nHeight - 1);
      }
      pa, pb := pa.pprev, pb.pprev;
    }
    assert pa == pb;
    if pa != null {
      AncestorTwice(a, pa.nHeight, 0);
      AncestorTwice(b, pa.nHeight, 0);
    }
    r := pa;
  }
}
