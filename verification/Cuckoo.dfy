/**
 The cuckoo cache: eight locations an element, a discard flag and an epoch flag a slot. Slots are
 read together as cells; an element is live when its slot may not be discarded.
 */
module Cuckoo {
  import opened FastRange
  import opened Powers
  import opened Wrappers

  const INVALID: nat := 0xFFFF_FFFF

  datatype Cell<E> = Cell(e: E, garbage: bool, epoch: bool)

  datatype State<E> = State(cells: seq<Cell<E>>, counter: nat, epochSize: nat, depth: nat)

  // ---- Locations ----

  function Locs<E>(hash: (nat, E) -> Word, size: nat, e: E): seq<nat> {
    [Scale(hash(0, e), size), Scale(hash(1, e), size), Scale(hash(2, e), size), Scale(hash(3, e), size),
     Scale(hash(4, e), size), Scale(hash(5, e), size), Scale(hash(6, e), size), Scale(hash(7, e), size)]
  }

  lemma {:induction false} LocsOk<E>(hash: (nat, E) -> Word, size: nat, e: E)
    requires size > 0
    ensures |Locs(hash, size, e)| == 8
    ensures forall i :: 0 <= i < 8 ==> Locs(hash, size, e)[i] < size
  {
    forall i | 0 <= i < 8 ensures Locs(hash, size, e)[i] < size { ScaleOk(hash(i, e), size); }
  }

  /** The eight locations come from the eight hashes, scaled to the size of the table. */
  lemma {:induction false} LocsShare<E>(hash: (nat, E) -> Word, size: nat, e: E, i: nat)
    requires i < 8
    ensures Locs(hash, size, e)[i] * 0x1_0000_0000 <= hash(i, e) * size < (Locs(hash, size, e)[i] + 1) * 0x1_0000_0000
  {
    hide Scale;
    ScaleShare(hash(i, e), size);
  }

  /** First position from i on at which p holds, or 8. */
  function First(locs: seq<nat>, p: nat -> bool, i: nat): (r: nat)
    requires |locs| == 8 && i <= 8
    ensures i <= r <= 8
    ensures r < 8 ==> p(locs[r])
    ensures forall k :: i <= k < r ==> !p(locs[k])
    decreases 8 - i
  {
    if i == 8 || p(locs[i]) then i else First(locs, p, i + 1)
  }

  /** The location after the one last written, in cyclic order. */
  function NextLoc(locs: seq<nat>, last: nat): nat
    requires |locs| == 8
  {
    locs[(1 + First(locs, l => l == last, 0)) % 8]
  }

  // ---- Insertion ----

  function IsElement<E(==)>(cells: seq<Cell<E>>, e: E): nat -> bool { (l: nat) => l < |cells| && cells[l].e == e }

  function IsGarbage<E>(cells: seq<Cell<E>>): nat -> bool { (l: nat) => l < |cells| && cells[l].garbage }

  /**
   Places the element, moving others along, for at most `depth` rounds. The second result is the
   cell that made way: a discardable one, or the element left over when the rounds ran out.
   */
  function Chain<E>(hash: (nat, E) -> Word, cells: seq<Cell<E>>, e: E, epoch: bool, last: nat, depth: nat): (seq<Cell<E>>, Cell<E>)
    requires |cells| > 0
    decreases depth
  {
    if depth == 0 then (cells, Cell(e, false, epoch))
    else
      LocsOk(hash, |cells|, e);
      var locs := Locs(hash, |cells|, e);
      var j := First(locs, IsGarbage(cells), 0);
      if j < 8 then (cells[locs[j] := Cell(e, false, epoch)], cells[locs[j]])
      else
        var loc := NextLoc(locs, last);
        Chain(hash, cells[loc := Cell(e, false, epoch)], cells[loc].e, cells[loc].epoch, loc, depth - 1)
  }

  /** Insertion once the epochs have been looked after. */
  function Place<E(==)>(hash: (nat, E) -> Word, cells: seq<Cell<E>>, e: E, depth: nat): (seq<Cell<E>>, Cell<E>)
    requires |cells| > 0
  {
    LocsOk(hash, |cells|, e);
    var locs := Locs(hash, |cells|, e);
    var j := First(locs, IsElement(cells, e), 0);
    if j < 8 then (cells[locs[j] := Cell(e, false, true)], cells[locs[j]])
    else Chain(hash, cells, e, true, INVALID, depth)
  }

  // ---- Epochs ----

  ghost function Sum<E>(cells: seq<Cell<E>>, f: Cell<E> -> multiset<(E, bool)>): multiset<(E, bool)> {
    if cells == [] then multiset{} else Sum(cells[..|cells| - 1], f) + f(cells[|cells| - 1])
  }

  ghost function Any<E>(c: Cell<E>): multiset<(E, bool)> { multiset{(c.e, c.epoch)} }

  ghost function Live<E>(c: Cell<E>): multiset<(E, bool)> { if c.garbage then multiset{} else multiset{(c.e, c.epoch)} }

  ghost function Current<E>(c: Cell<E>): multiset<(E, bool)> {
    if !c.garbage && c.epoch then multiset{(c.e, true)} else multiset{}
  }

  ghost function InUse<E>(cells: seq<Cell<E>>): nat { |Sum(cells, Current)| }

  function Aged<E>(c: Cell<E>): Cell<E> { if c.epoch then c.(epoch := false) else c.(garbage := true) }

  function Age<E>(cells: seq<Cell<E>>): seq<Cell<E>> { seq(|cells|, i requires 0 <= i < |cells| => Aged(cells[i])) }

  ghost function EpochCheck<E>(s: State<E>): State<E> {
    if s.counter != 0 then s.(counter := s.counter - 1)
    else if InUse(s.cells) >= s.epochSize then s.(cells := Age(s.cells), counter := s.epochSize)
    else s.(counter := Max(1, Max(s.epochSize / 16, s.epochSize - InUse(s.cells))))
  }

  ghost function Insert<E>(hash: (nat, E) -> Word, s: State<E>, e: E): (State<E>, Cell<E>)
    requires |s.cells| > 0
  {
    var s1 := EpochCheck(s);
    var (cells, out) := Place(hash, s1.cells, e, s.depth);
    (s1.(cells := cells), out)
  }

  function Contains<E(==)>(hash: (nat, E) -> Word, cells: seq<Cell<E>>, e: E): bool
    requires |cells| > 0
  {
    LocsOk(hash, |cells|, e);
    First(Locs(hash, |cells|, e), IsElement(cells, e), 0) < 8
  }

  /** A lookup that also allows the element found to be discarded. */
  function Erase<E(==)>(hash: (nat, E) -> Word, cells: seq<Cell<E>>, e: E): seq<Cell<E>>
    requires |cells| > 0
  {
    LocsOk(hash, |cells|, e);
    var locs := Locs(hash, |cells|, e);
    var j := First(locs, IsElement(cells, e), 0);
    if j < 8 then cells[locs[j] := cells[locs[j]].(garbage := true)] else cells
  }

  // ---- Conservation ----

  lemma {:induction false} SumStep<E>(cells: seq<Cell<E>>, f: Cell<E> -> multiset<(E, bool)>)
    requires cells != []
    ensures Sum(cells, f) == Sum(cells[..|cells| - 1], f) + f(cells[|cells| - 1])
  {
  }

  lemma {:induction false} SumPut<E>(cells: seq<Cell<E>>, f: Cell<E> -> multiset<(E, bool)>, i: nat, c: Cell<E>)
    requires i < |cells|
    ensures Sum(cells[i := c], f) + f(cells[i]) == Sum(cells, f) + f(c)
    decreases |cells|
  {
    hide Sum;
    var n := |cells| - 1;
    SumStep(cells, f);
    SumStep(cells[i := c], f);
    if i == n {
      assert cells[i := c][..n] == cells[..n];
      Swap(Sum(cells[..n], f), f(c), f(cells[i]));
    } else {
      assert cells[i := c][..n] == cells[..n][i := c];
      SumPut(cells[..n], f, i, c);
      Shuffle(Sum(cells[..n][i := c], f), f(cells[i]), Sum(cells[..n], f), f(c), f(cells[n]));
    }
  }

  /**
   Whatever is counted per cell, the table after the chain plus the cell that made way is the table
   before plus the new element. Every cell moved on the way was live.
   */
  lemma {:induction false} ChainConserves<E>(hash: (nat, E) -> Word, f: Cell<E> -> multiset<(E, bool)>, cells: seq<Cell<E>>, e: E, epoch: bool, last: nat, depth: nat)
    requires |cells| > 0
    ensures var (after, out) := Chain(hash, cells, e, epoch, last, depth);
            |after| == |cells| && Sum(after, f) + f(out) == Sum(cells, f) + f(Cell(e, false, epoch))
    decreases depth
  {
    hide Sum, Locs, First;
    if depth > 0 {
      LocsOk(hash, |cells|, e);
      var locs := Locs(hash, |cells|, e);
      var j := First(locs, IsGarbage(cells), 0);
      if j < 8 {
        SumPut(cells, f, locs[j], Cell(e, false, epoch));
      } else {
        var loc := NextLoc(locs, last);
        assert cells[loc] == Cell(cells[loc].e, false, cells[loc].epoch) by { assert !IsGarbage(cells)(loc); }
        SumPut(cells, f, loc, Cell(e, false, epoch));
        ChainConserves(hash, f, cells[loc := Cell(e, false, epoch)], cells[loc].e, cells[loc].epoch, loc, depth - 1);
      }
    }
  }

  lemma {:induction false} PlaceConserves<E>(hash: (nat, E) -> Word, f: Cell<E> -> multiset<(E, bool)>, cells: seq<Cell<E>>, e: E, depth: nat)
    requires |cells| > 0
    ensures var (after, out) := Place(hash, cells, e, depth);
            |after| == |cells| && Sum(after, f) + f(out) == Sum(cells, f) + f(Cell(e, false, true))
  {
    hide Sum, Locs, First, Chain;
    LocsOk(hash, |cells|, e);
    var locs := Locs(hash, |cells|, e);
    var j := First(locs, IsElement(cells, e), 0);
    if j < 8 {
      SumPut(cells, f, locs[j], Cell(e, false, true));
    } else {
      ChainConserves(hash, f, cells, e, true, INVALID, depth);
    }
  }

  /** The pairs in the table with the pair that made way are the old pairs with the new one. */
  lemma {:induction false} InsertConserves<E>(hash: (nat, E) -> Word, cells: seq<Cell<E>>, e: E, depth: nat)
    requires |cells| > 0
    ensures var (after, out) := Place(hash, cells, e, depth);
            && Sum(after, Any) + multiset{(out.e, out.epoch)} == Sum(cells, Any) + multiset{(e, true)}
            && Sum(after, Live) + (if out.garbage then multiset{} else multiset{(out.e, out.epoch)}) == Sum(cells, Live) + multiset{(e, true)}
  {
    hide Sum, Place;
    PlaceConserves(hash, Any, cells, e, depth);
    PlaceConserves(hash, Live, cells, e, depth);
  }

  // ---- Every live element can be found ----

  ghost predicate Located<E(!new)>(hash: (nat, E) -> Word, cells: seq<Cell<E>>) {
    forall i {:trigger cells[i]} :: 0 <= i < |cells| && !cells[i].garbage ==> i in Locs(hash, |cells|, cells[i].e)
  }

  lemma {:induction false} PutLocated<E(!new)>(hash: (nat, E) -> Word, cells: seq<Cell<E>>, i: nat, c: Cell<E>)
    requires Located(hash, cells) && i < |cells| && (c.garbage || i in Locs(hash, |cells|, c.e))
    ensures Located(hash, cells[i := c])
  {
  }

  lemma {:induction false} ChainLocated<E(!new)>(hash: (nat, E) -> Word, cells: seq<Cell<E>>, e: E, epoch: bool, last: nat, depth: nat)
    requires |cells| > 0 && Located(hash, cells)
    ensures Located(hash, Chain(hash, cells, e, epoch, last, depth).0)
    decreases depth
  {
    hide Located, Locs, First;
    if depth > 0 {
      LocsOk(hash, |cells|, e);
      var locs := Locs(hash, |cells|, e);
      var j := First(locs, IsGarbage(cells), 0);
      if j < 8 {
        PutLocated(hash, cells, locs[j], Cell(e, false, epoch));
      } else {
        var loc := NextLoc(locs, last);
        PutLocated(hash, cells, loc, Cell(e, false, epoch));
        ChainLocated(hash, cells[loc := Cell(e, false, epoch)], cells[loc].e, cells[loc].epoch, loc, depth - 1);
      }
    }
  }

  lemma {:induction false} PlaceLocated<E(!new)>(hash: (nat, E) -> Word, cells: seq<Cell<E>>, e: E, depth: nat)
    requires |cells| > 0 && Located(hash, cells)
    ensures Located(hash, Place(hash, cells, e, depth).0)
  {
    hide Located, Locs, First, Chain;
    LocsOk(hash, |cells|, e);
    var locs := Locs(hash, |cells|, e);
    var j := First(locs, IsElement(cells, e), 0);
    if j < 8 {
      PutLocated(hash, cells, locs[j], Cell(e, false, true));
    } else {
      ChainLocated(hash, cells, e, true, INVALID, depth);
    }
  }

  // ---- Whether the element just put in is moved again ----

  /** The swaps of a chain in order: the slot written and the element moved out of it. */
  function Swaps<E>(hash: (nat, E) -> Word, cells: seq<Cell<E>>, e: E, epoch: bool, last: nat, depth: nat): seq<(nat, E)>
    requires |cells| > 0
    decreases depth
  {
    LocsOk(hash, |cells|, e);
    var locs := Locs(hash, |cells|, e);
    if depth == 0 || First(locs, IsGarbage(cells), 0) < 8 then []
    else
      var loc := NextLoc(locs, last);
      [(loc, cells[loc].e)] + Swaps(hash, cells[loc := Cell(e, false, epoch)], cells[loc].e, cells[loc].epoch, loc, depth - 1)
  }

  /** The k-th location is the first that is the slot, and the one after it is the slot again. */
  predicate Repeats(locs: seq<nat>, slot: nat, k: int)
    requires |locs| == 8
  {
    0 <= k < 8 && locs[k] == slot && (forall i :: 0 <= i < k ==> locs[i] != slot) && locs[if k == 7 then 0 else k + 1] == slot
  }

  predicate Sticks<E>(hash: (nat, E) -> Word, size: nat, e: E, slot: nat) {
    exists k :: 0 <= k < 8 && Repeats(Locs(hash, size, e), slot, k)
  }

  lemma {:induction false} StaysIff<E>(hash: (nat, E) -> Word, size: nat, e: E, slot: nat)
    requires slot in Locs(hash, size, e)
    ensures NextLoc(Locs(hash, size, e), slot) == slot <==> Sticks(hash, size, e, slot)
  {
    hide Scale;
    var locs := Locs(hash, size, e);
    var k := First(locs, l => l == slot, 0);
    assert k < 8 && locs[k] == slot && forall i :: 0 <= i < k ==> locs[i] != slot by {
      var j :| 0 <= j < 8 && locs[j] == slot;
    }
    assert NextLoc(locs, slot) == slot <==> Repeats(locs, slot, k);
  }

  /**
   In every chain, a swap moves the element that the swap before it put in exactly when the element
   moved out then sticks to that slot.
   */
  lemma {:induction false} SwapsMoveOn<E(!new)>(hash: (nat, E) -> Word, cells: seq<Cell<E>>, e: E, epoch: bool, last: nat, depth: nat)
    requires |cells| > 0 && Located(hash, cells)
    ensures var t := Swaps(hash, cells, e, epoch, last, depth);
            && (t != [] && last in Locs(hash, |cells|, e) ==> (t[0].0 == last <==> Sticks(hash, |cells|, e, last)))
            && forall i {:trigger t[i]} :: 0 < i < |t| ==> (t[i].0 == t[i - 1].0 <==> Sticks(hash, |cells|, t[i - 1].1, t[i - 1].0))
    decreases depth
  {
    hide Located, Locs, First, Sticks, NextLoc;
    LocsOk(hash, |cells|, e);
    var locs := Locs(hash, |cells|, e);
    if depth > 0 && First(locs, IsGarbage(cells), 0) == 8 {
      NextIn(locs, last);
      var loc := NextLoc(locs, last);
      if last in locs { StaysIff(hash, |cells|, e, last); }
      assert !IsGarbage(cells)(loc);
      LocatedAt(hash, cells, loc);
      PutLocated(hash, cells, loc, Cell(e, false, epoch));
      SwapsMoveOn(hash, cells[loc := Cell(e, false, epoch)], cells[loc].e, cells[loc].epoch, loc, depth - 1);
      Prepended((loc, cells[loc].e), Swaps(hash, cells[loc := Cell(e, false, epoch)], cells[loc].e, cells[loc].epoch, loc, depth - 1), hash, |cells|);
    }
  }

  lemma {:induction false} NextIn(locs: seq<nat>, last: nat)
    requires |locs| == 8
    ensures NextLoc(locs, last) in locs
  {
  }

  lemma {:induction false} LocatedAt<E(!new)>(hash: (nat, E) -> Word, cells: seq<Cell<E>>, i: nat)
    requires Located(hash, cells) && i < |cells| && !cells[i].garbage
    ensures i in Locs(hash, |cells|, cells[i].e)
  {
  }

  lemma {:induction false} Prepended<E(!new)>(x: (nat, E), t: seq<(nat, E)>, hash: (nat, E) -> Word, size: nat)
    requires t != [] ==> (t[0].0 == x.0 <==> Sticks(hash, size, x.1, x.0))
    requires forall i {:trigger t[i]} :: 0 < i < |t| ==> (t[i].0 == t[i - 1].0 <==> Sticks(hash, size, t[i - 1].1, t[i - 1].0))
    ensures var u := [x] + t;
            forall i {:trigger u[i]} :: 0 < i < |u| ==> (u[i].0 == u[i - 1].0 <==> Sticks(hash, size, u[i - 1].1, u[i - 1].0))
  {
    hide Sticks;
    var u := [x] + t;
    forall i | 0 < i < |u| ensures u[i].0 == u[i - 1].0 <==> Sticks(hash, size, u[i - 1].1, u[i - 1].0) {
      assert u[i] == t[i - 1];
      if i > 1 { assert u[i - 1] == t[i - 2]; }
    }
  }

  /** An element with eight different locations sticks nowhere. */
  lemma {:induction false} SpreadNeverSticks<E>(hash: (nat, E) -> Word, size: nat, e: E, slot: nat)
    requires forall i, j :: 0 <= i < j < 8 ==> Locs(hash, size, e)[i] != Locs(hash, size, e)[j]
    ensures !Sticks(hash, size, e, slot)
  {
    hide Scale;
  }

  /** Carries out swaps: each puts the element in hand into its slot and takes up what was there. */
  function Replay<E>(cells: seq<Cell<E>>, inHand: Cell<E>, t: seq<(nat, E)>): (seq<Cell<E>>, Cell<E>)
    requires forall i :: 0 <= i < |t| ==> t[i].0 < |cells|
    decreases |t|
  {
    if t == [] then (cells, inHand)
    else Replay(cells[t[0].0 := inHand], cells[t[0].0], t[1..])
  }

  /** Puts the element into its first discardable location, if it has one. */
  function TakeFree<E>(hash: (nat, E) -> Word, cells: seq<Cell<E>>, x: Cell<E>): Option<(seq<Cell<E>>, Cell<E>)>
    requires |cells| > 0
  {
    LocsOk(hash, |cells|, x.e);
    var locs := Locs(hash, |cells|, x.e);
    var j := First(locs, IsGarbage(cells), 0);
    if j < 8 then Some((cells[locs[j] := x], cells[locs[j]])) else None
  }

  /**
   A chain is its swaps, carried out in order: either they use up the rounds and the element in hand is
   left over, or the element in hand then has a discardable location and takes the first such.
   */
  lemma {:induction false} ChainIsSwaps<E(!new)>(hash: (nat, E) -> Word, cells: seq<Cell<E>>, e: E, epoch: bool, last: nat, depth: nat)
    requires |cells| > 0
    ensures var t := Swaps(hash, cells, e, epoch, last, depth);
            && |t| <= depth && (forall i :: 0 <= i < |t| ==> t[i].0 < |cells|)
            && var (after, x) := Replay(cells, Cell(e, false, epoch), t);
               && |after| == |cells| && (t != [] ==> x.e == t[|t| - 1].1)
               && if |t| == depth then Chain(hash, cells, e, epoch, last, depth) == (after, x)
                  else TakeFree(hash, after, x) == Some(Chain(hash, cells, e, epoch, last, depth))
    decreases depth
  {
    hide Locs, First, NextLoc;
    LocsOk(hash, |cells|, e);
    var locs := Locs(hash, |cells|, e);
    if depth > 0 && First(locs, IsGarbage(cells), 0) == 8 {
      NextIn(locs, last);
      var loc := NextLoc(locs, last);
      assert !IsGarbage(cells)(loc);
      var next := cells[loc := Cell(e, false, epoch)];
      ChainIsSwaps(hash, next, cells[loc].e, cells[loc].epoch, loc, depth - 1);
      var rest := Swaps(hash, next, cells[loc].e, cells[loc].epoch, loc, depth - 1);
      assert ([(loc, cells[loc].e)] + rest)[1..] == rest;
    }
  }

  /** On the first round nothing has been written, and the second location is taken. */
  lemma {:induction false} FirstVictim<E>(hash: (nat, E) -> Word, cells: seq<Cell<E>>, e: E, epoch: bool, depth: nat)
    requires 0 < |cells| <= INVALID
    ensures var t, locs := Swaps(hash, cells, e, epoch, INVALID, depth), Locs(hash, |cells|, e);
            && locs[1] < |cells|
            && (if depth > 0 && forall i :: 0 <= i < 8 ==> locs[i] < |cells| && !cells[locs[i]].garbage
                then t != [] && t[0] == (locs[1], cells[locs[1]].e) else t == [])
  {
    hide Locs, First, NextLoc;
    LocsOk(hash, |cells|, e);
    var locs := Locs(hash, |cells|, e);
    var j := First(locs, IsGarbage(cells), 0);
    if j < 8 {
      assert IsGarbage(cells)(locs[j]);
    } else {
      forall i | 0 <= i < 8 ensures !cells[locs[i]].garbage { assert !IsGarbage(cells)(locs[i]); }
    }
    NextAtStart(locs);
  }

  lemma NextAtStart(locs: seq<nat>)
    requires |locs| == 8 && forall i :: 0 <= i < 8 ==> locs[i] < INVALID
    ensures NextLoc(locs, INVALID) == locs[1]
  {
  }

  /** A lookup answers whether the element is in the table, discardable or not, at a place of its own. */
  lemma {:induction false} ContainsIff<E>(hash: (nat, E) -> Word, cells: seq<Cell<E>>, e: E)
    requires |cells| > 0
    ensures Contains(hash, cells, e) <==> exists i :: 0 <= i < |cells| && cells[i].e == e && i in Locs(hash, |cells|, e)
  {
    LocsOk(hash, |cells|, e);
    var locs := Locs(hash, |cells|, e);
    var j := First(locs, IsElement(cells, e), 0);
    if j < 8 {
      assert cells[locs[j]].e == e && locs[j] in locs;
    } else {
      forall i | 0 <= i < |cells| && i in locs ensures cells[i].e != e {
        var k :| 0 <= k < 8 && locs[k] == i;
        assert !IsElement(cells, e)(locs[k]);
      }
    }
  }

  /** Something counted is counted for some cell. */
  lemma {:induction false} Counted<E>(cells: seq<Cell<E>>, f: Cell<E> -> multiset<(E, bool)>, x: (E, bool)) returns (i: nat)
    requires x in Sum(cells, f)
    ensures i < |cells| && x in f(cells[i])
    decreases |cells|
  {
    var n := |cells| - 1;
    if x in f(cells[n]) {
      i := n;
    } else {
      i := Counted(cells[..n], f, x);
    }
  }

  lemma {:induction false} LiveFound<E(!new)>(hash: (nat, E) -> Word, cells: seq<Cell<E>>, x: (E, bool))
    requires |cells| > 0 && Located(hash, cells) && x in Sum(cells, Live)
    ensures Contains(hash, cells, x.0)
  {
    hide Contains, Sum;
    var i := Counted(cells, Live, x);
    ContainsIff(hash, cells, x.0);
    assert !cells[i].garbage && cells[i].e == x.0;
  }

  /** An inserted element is found unless it is itself the one left over. */
  lemma {:induction false} InsertFound<E(!new)>(hash: (nat, E) -> Word, cells: seq<Cell<E>>, e: E, depth: nat)
    requires |cells| > 0 && Located(hash, cells)
    ensures var (after, out) := Place(hash, cells, e, depth);
            |after| == |cells| && (out.garbage || out.e != e ==> Contains(hash, after, e))
  {
    hide Sum, Place, Located, Contains;
    PlaceConserves(hash, Live, cells, e, depth);
    PlaceLocated(hash, cells, e, depth);
    var (after, out) := Place(hash, cells, e, depth);
    if out.garbage || out.e != e {
      assert (e, true) in Sum(cells, Live) + Live(Cell(e, false, true));
      assert (e, true) in Sum(after, Live);
      LiveFound(hash, after, (e, true));
    }
  }

  /** An element that was live stays live unless it is the one left over. */
  lemma {:induction false} OthersStay<E(!new)>(hash: (nat, E) -> Word, cells: seq<Cell<E>>, e: E, depth: nat, x: (E, bool))
    requires |cells| > 0 && Located(hash, cells) && x in Sum(cells, Live)
    ensures var (after, out) := Place(hash, cells, e, depth);
            |after| == |cells| && (out.garbage || out.e != x.0 ==> x in Sum(after, Live) && Contains(hash, after, x.0))
  {
    hide Sum, Place, Located, Contains;
    PlaceConserves(hash, Live, cells, e, depth);
    PlaceLocated(hash, cells, e, depth);
    var (after, out) := Place(hash, cells, e, depth);
    if out.garbage || out.e != x.0 {
      assert x in Sum(cells, Live) + Live(Cell(e, false, true));
      assert x in Sum(after, Live);
      LiveFound(hash, after, x);
    }
  }

  /** Inserting an element that is there already moves nothing: its first slot is kept and counts for the current epoch. */
  lemma {:induction false} InsertAgain<E(!new)>(hash: (nat, E) -> Word, cells: seq<Cell<E>>, e: E, depth: nat) returns (slot: nat)
    requires |cells| > 0 && Contains(hash, cells, e)
    ensures slot < |cells| && cells[slot].e == e && FirstHolds(cells, Locs(hash, |cells|, e), e, slot)
    ensures Place(hash, cells, e, depth) == (cells[slot := Cell(e, false, true)], cells[slot])
  {
    hide Locs;
    LocsOk(hash, |cells|, e);
    var locs := Locs(hash, |cells|, e);
    var j := First(locs, IsElement(cells, e), 0);
    slot := locs[j];
    forall k | 0 <= k < j ensures cells[locs[k]].e != e { assert !IsElement(cells, e)(locs[k]); }
  }

  // ---- Ageing ----

  /** Ageing discards exactly the old epoch: what stays live is the current one, now old. */
  lemma {:induction false} AgeLive<E>(cells: seq<Cell<E>>)
    ensures Sum(Age(cells), Current) == multiset{}
    ensures forall x: E :: Sum(Age(cells), Live)[(x, true)] == 0
    ensures forall x: E :: Sum(Age(cells), Live)[(x, false)] == Sum(cells, Current)[(x, true)]
    decreases |cells|
  {
    if cells != [] {
      hide Sum;
      var n := |cells| - 1;
      assert Age(cells)[..n] == Age(cells[..n]);
      AgeLive(cells[..n]);
      SumStep(cells, Current);
      SumStep(Age(cells), Current);
      SumStep(Age(cells), Live);
    }
  }

  lemma {:induction false} AgeLocated<E(!new)>(hash: (nat, E) -> Word, cells: seq<Cell<E>>)
    requires Located(hash, cells)
    ensures Located(hash, Age(cells))
  {
    hide Locs;
    forall i | 0 <= i < |cells| && !Age(cells)[i].garbage ensures i in Locs(hash, |cells|, Age(cells)[i].e) {
      assert !cells[i].garbage;
    }
  }

  // ---- The cheap counter ----

  ghost predicate Bounded<E>(s: State<E>) {
    s.epochSize >= 1 && InUse(s.cells) + s.counter <= s.epochSize + Max(1, s.epochSize / 16)
  }

  ghost predicate Valid<E(!new)>(hash: (nat, E) -> Word, s: State<E>) {
    |s.cells| > 0 && Located(hash, s.cells) && Bounded(s)
  }

  /** An insertion adds at most one element to the current epoch. */
  lemma {:induction false} PlaceGrows<E>(hash: (nat, E) -> Word, cells: seq<Cell<E>>, e: E, depth: nat)
    requires |cells| > 0
    ensures InUse(Place(hash, cells, e, depth).0) <= InUse(cells) + 1
  {
    hide Sum, Place;
    PlaceConserves(hash, Current, cells, e, depth);
    var (after, out) := Place(hash, cells, e, depth);
    assert |Sum(after, Current) + Current(out)| == |Sum(cells, Current) + Current(Cell(e, false, true))|;
  }

  /**
   When the epochs are looked at: only once the counter has run down. If a whole epoch is in use, everything
   of the old epoch becomes discardable and the new one starts; else the counter is what is missing to a
   whole epoch, but no less than a sixteenth of it and at least one.
   */
  lemma {:induction false} EpochOutcome<E>(s: State<E>)
    ensures s.counter > 0 ==> EpochCheck(s) == s.(counter := s.counter - 1)
    ensures s.counter == 0 && InUse(s.cells) >= s.epochSize ==>
              var t := EpochCheck(s);
              && t == State(t.cells, s.epochSize, s.epochSize, s.depth) && |t.cells| == |s.cells|
              && forall i :: 0 <= i < |s.cells| ==> t.cells[i] == Cell(s.cells[i].e, s.cells[i].garbage || !s.cells[i].epoch, false)
    ensures s.counter == 0 && InUse(s.cells) < s.epochSize ==>
              var t := EpochCheck(s);
              && t == s.(counter := t.counter)
              && t.counter >= 1 && t.counter >= s.epochSize / 16 && t.counter >= s.epochSize - InUse(s.cells)
              && (t.counter == 1 || t.counter == s.epochSize / 16 || t.counter == s.epochSize - InUse(s.cells))
  {
    hide InUse;
  }

  /** Right after the epochs have been looked after there is room for one more. */
  lemma {:induction false} EpochRoom<E(!new)>(hash: (nat, E) -> Word, s: State<E>)
    requires Valid(hash, s)
    ensures var s1 := EpochCheck(s);
            && |s1.cells| == |s.cells| && Located(hash, s1.cells) && s1.epochSize == s.epochSize && s1.depth == s.depth
            && InUse(s1.cells) + 1 + s1.counter <= s.epochSize + Max(1, s.epochSize / 16)
  {
    hide Sum, Located;
    AgeLive(s.cells);
    AgeLocated(hash, s.cells);
  }

  lemma {:induction false} InsertKeeps<E(!new)>(hash: (nat, E) -> Word, s: State<E>, e: E)
    requires Valid(hash, s)
    ensures Valid(hash, Insert(hash, s, e).0)
  {
    hide Sum, Located, InUse, EpochCheck, Place;
    EpochRoom(hash, s);
    var s1 := EpochCheck(s);
    PlaceGrows(hash, s1.cells, e, s.depth);
    PlaceLocated(hash, s1.cells, e, s.depth);
    PlaceConserves(hash, Live, s1.cells, e, s.depth);
  }

  lemma {:induction false} EraseKeeps<E(!new)>(hash: (nat, E) -> Word, s: State<E>, e: E)
    requires Valid(hash, s)
    ensures |Erase(hash, s.cells, e)| == |s.cells| && Valid(hash, s.(cells := Erase(hash, s.cells, e)))
  {
    hide Sum, Located, Locs, First;
    LocsOk(hash, |s.cells|, e);
    var locs := Locs(hash, |s.cells|, e);
    var j := First(locs, IsElement(s.cells, e), 0);
    if j < 8 {
      var c := s.cells[locs[j]].(garbage := true);
      SumPut(s.cells, Current, locs[j], c);
      assert |Sum(s.cells[locs[j] := c], Current) + Current(s.cells[locs[j]])| == |Sum(s.cells, Current) + Current(c)|;
      PutLocated(hash, s.cells, locs[j], c);
    }
  }

  /**
   Erasing an element that is found makes the first of its slots that holds it discardable, and changes
   nothing else; an element that is not found is left alone. A live element so marked no longer counts,
   and whoever has that slot among its locations can be inserted without moving any element.
   */
  lemma {:induction false} EraseMarks<E(!new)>(hash: (nat, E) -> Word, cells: seq<Cell<E>>, e: E) returns (slot: nat)
    requires |cells| > 0
    ensures !Contains(hash, cells, e) ==> Erase(hash, cells, e) == cells
    ensures Contains(hash, cells, e) ==>
              && slot < |cells| && slot in Locs(hash, |cells|, e) && cells[slot].e == e
              && Erase(hash, cells, e) == cells[slot := Cell(e, true, cells[slot].epoch)]
              && Sum(Erase(hash, cells, e), Live) + Live(cells[slot]) == Sum(cells, Live)
              && FirstHolds(cells, Locs(hash, |cells|, e), e, slot)
              && forall x, epoch, last, depth :: slot in Locs(hash, |cells|, x) ==>
                   Swaps(hash, Erase(hash, cells, e), x, epoch, last, depth) == []
  {
    hide Locs, Sum;
    LocsOk(hash, |cells|, e);
    var locs := Locs(hash, |cells|, e);
    var j := First(locs, IsElement(cells, e), 0);
    slot := 0;
    if j < 8 {
      slot := locs[j];
      var after := Erase(hash, cells, e);
      forall k | 0 <= k < j ensures cells[locs[k]].e != e { assert !IsElement(cells, e)(locs[k]); }
      SumPut(cells, Live, slot, cells[slot].(garbage := true));
      forall x, epoch, last, depth | slot in Locs(hash, |cells|, x) ensures Swaps(hash, after, x, epoch, last, depth) == [] {
        NoSwapNeeded(hash, after, x, epoch, last, depth, slot);
      }
    }
  }

  /** None of the locations before the first that is the slot holds the element. */
  ghost predicate FirstHolds<E>(cells: seq<Cell<E>>, locs: seq<nat>, e: E, slot: nat) {
    exists j :: 0 <= j < |locs| && locs[j] == slot && forall k :: 0 <= k < j ==> locs[k] < |cells| && cells[locs[k]].e != e
  }

  lemma {:induction false} NoSwapNeeded<E>(hash: (nat, E) -> Word, cells: seq<Cell<E>>, x: E, epoch: bool, last: nat, depth: nat, slot: nat)
    requires slot < |cells| && cells[slot].garbage && slot in Locs(hash, |cells|, x)
    ensures Swaps(hash, cells, x, epoch, last, depth) == []
  {
    hide Locs;
    LocsOk(hash, |cells|, x);
    var locs := Locs(hash, |cells|, x);
    var k :| 0 <= k < 8 && locs[k] == slot;
    assert IsGarbage(cells)(locs[k]);
  }

  /** Erasing only marks: the element is still found until its slot is needed. */
  lemma {:induction false} EraseStillFound<E>(hash: (nat, E) -> Word, cells: seq<Cell<E>>, e: E, x: E)
    requires |cells| > 0
    ensures |Erase(hash, cells, e)| == |cells| && Contains(hash, Erase(hash, cells, e), x) == Contains(hash, cells, x)
  {
    LocsOk(hash, |cells|, e);
    ContainsIff(hash, cells, x);
    ContainsIff(hash, Erase(hash, cells, e), x);
    var after := Erase(hash, cells, e);
    assert forall i :: 0 <= i < |cells| ==> after[i].e == cells[i].e;
  }

  // ---- Runs ----

  datatype Op<E> = Add(e: E) | Look(e: E, erase: bool)

  ghost function Do<E>(hash: (nat, E) -> Word, s: State<E>, op: Op<E>): State<E>
    requires |s.cells| > 0
  {
    match op
    case Add(e) => Insert(hash, s, e).0
    case Look(e, erase) => if erase then s.(cells := Erase(hash, s.cells, e)) else s
  }

  /** The state after setup: everything may be overwritten, and a whole epoch is awaited. */
  function Setup<E>(fill: E, size: nat, depth: nat): State<E> {
    var n := Max(2, size);
    var epochSize := Max(1, (45 * n) % 0x1_0000_0000 / 100);
    State(seq(n, i => Cell(fill, true, false)), epochSize, epochSize, depth)
  }

  /** Setup makes at least two slots, all discardable, and an epoch of 45% of them, where that product fits in 32 bits. */
  lemma SetupSizes<E>(fill: E, size: nat, depth: nat)
    ensures var s := Setup(fill, size, depth);
            && |s.cells| == (if size < 2 then 2 else size) && s.depth == depth && s.counter == s.epochSize >= 1
            && (forall i :: 0 <= i < |s.cells| ==> s.cells[i].garbage && !s.cells[i].epoch)
            && (size <= 95443717 && size > 2 ==> 100 * s.epochSize <= 45 * size < 100 * (s.epochSize + 1))
  {
  }

  lemma {:induction false} NoneInUse<E>(cells: seq<Cell<E>>)
    requires forall i :: 0 <= i < |cells| ==> cells[i].garbage
    ensures Sum(cells, Current) == multiset{} && Sum(cells, Live) == multiset{}
    decreases |cells|
  {
    if cells != [] { NoneInUse(cells[..|cells| - 1]); }
  }

  lemma {:induction false} SetupValid<E(!new)>(hash: (nat, E) -> Word, fill: E, size: nat, depth: nat)
    ensures Valid(hash, Setup(fill, size, depth))
  {
    NoneInUse(Setup(fill, size, depth).cells);
  }

  lemma {:induction false} DoKeeps<E(!new)>(hash: (nat, E) -> Word, s: State<E>, op: Op<E>)
    requires Valid(hash, s)
    ensures Valid(hash, Do(hash, s, op))
  {
    match op
    case Add(e) => InsertKeeps(hash, s, e);
    case Look(e, erase) => EraseKeeps(hash, s, e);
  }

  ghost predicate Reaches<E(!new)>(hash: (nat, E) -> Word, s: State<E>, ops: seq<Op<E>>, t: State<E>)
    decreases |ops|
  {
    if ops == [] then t == s else |s.cells| > 0 && Reaches(hash, Do(hash, s, ops[0]), ops[1..], t)
  }

  /** In every run after setup the counter never postpones the scan beyond the bound, and all live elements are found. */
  lemma {:induction false} EveryRun<E(!new)>(hash: (nat, E) -> Word, fill: E, size: nat, depth: nat, ops: seq<Op<E>>, t: State<E>)
    requires Reaches(hash, Setup(fill, size, depth), ops, t)
    ensures Bounded(t) && |t.cells| > 0
    ensures forall x :: x in Sum(t.cells, Live) ==> Contains(hash, t.cells, x.0)
  {
    hide Setup;
    SetupValid(hash, fill, size, depth);
    RunKeeps(hash, Setup(fill, size, depth), ops, t);
    forall x | x in Sum(t.cells, Live) ensures Contains(hash, t.cells, x.0) { LiveFound(hash, t.cells, x); }
  }

  lemma {:induction false} RunKeeps<E(!new)>(hash: (nat, E) -> Word, s: State<E>, ops: seq<Op<E>>, t: State<E>)
    requires Valid(hash, s) && Reaches(hash, s, ops, t)
    ensures Valid(hash, t)
    decreases |ops|
  {
    hide Valid, Do;
    if ops != [] {
      DoKeeps(hash, s, ops[0]);
      RunKeeps(hash, Do(hash, s, ops[0]), ops[1..], t);
    }
  }

  // ---- A run in which the element just put in is put out ----

  /** Every hash of the element is zero, so that all its locations are the first slot. */
  ghost predicate AllZero<E(!new)>(hash: (nat, E) -> Word, e: E) { forall i :: 0 <= i < 8 ==> hash(i, e) == 0 }

  lemma {:induction false} ZeroLocs<E(!new)>(hash: (nat, E) -> Word, size: nat, e: E)
    requires AllZero(hash, e) && size > 0
    ensures |Locs(hash, size, e)| == 8 && forall i :: 0 <= i < 8 ==> Locs(hash, size, e)[i] == 0
  {
    assert Scale(0, size) == 0;
    forall i | 0 <= i < 8 ensures Locs(hash, size, e)[i] == 0 { assert hash(i, e) == 0; }
  }

  /** Two such elements change places in every round. */
  lemma {:induction false} ZeroRounds<E(!new)>(hash: (nat, E) -> Word, cells: seq<Cell<E>>, e: E, epoch: bool, last: nat, depth: nat)
    requires |cells| > 0 && !cells[0].garbage && AllZero(hash, e) && AllZero(hash, cells[0].e)
    ensures var after := Chain(hash, cells, e, epoch, last, depth).0;
            |after| == |cells| && after[0].e == (if depth % 2 == 0 then cells[0].e else e)
    decreases depth
  {
    hide Locs, First, NextLoc, AllZero;
    if depth > 0 {
      LocsOk(hash, |cells|, e);
      ZeroLocs(hash, |cells|, e);
      var locs := Locs(hash, |cells|, e);
      var j := First(locs, IsGarbage(cells), 0);
      assert j == 8;
      NextIn(locs, last);
      assert NextLoc(locs, last) == 0;
      ZeroRounds(hash, cells[0 := Cell(e, false, epoch)], cells[0].e, cells[0].epoch, 0, depth - 1);
    }
  }

  lemma {:induction false} ZeroContains<E(!new)>(hash: (nat, E) -> Word, cells: seq<Cell<E>>, e: E)
    requires |cells| > 0 && AllZero(hash, e)
    ensures Contains(hash, cells, e) <==> cells[0].e == e
  {
    hide Locs, AllZero, Contains;
    ZeroLocs(hash, |cells|, e);
    ContainsIff(hash, cells, e);
    assert Locs(hash, |cells|, e)[0] == 0;
  }

  /** Into a table in which everything may be discarded, the element goes to the first slot. */
  lemma {:induction false} ZeroFirst<E(!new)>(hash: (nat, E) -> Word, cells: seq<Cell<E>>, e: E, depth: nat)
    requires |cells| > 0 && cells[0].garbage && AllZero(hash, e) && depth > 0
    ensures Place(hash, cells, e, depth).0 == cells[0 := Cell(e, false, true)]
  {
    hide Locs, AllZero, First;
    LocsOk(hash, |cells|, e);
    ZeroLocs(hash, |cells|, e);
    var locs := Locs(hash, |cells|, e);
    assert IsGarbage(cells)(locs[0]);
    var j := First(locs, IsGarbage(cells), 0);
    assert j < 8;
  }

  lemma {:induction false} ZeroSecond<E(!new)>(hash: (nat, E) -> Word, cells: seq<Cell<E>>, e: E, depth: nat)
    requires |cells| > 0 && !cells[0].garbage && cells[0].e != e && AllZero(hash, e) && AllZero(hash, cells[0].e)
    ensures var after := Place(hash, cells, e, depth).0;
            |after| == |cells| && after[0].e == (if depth % 2 == 0 then cells[0].e else e)
  {
    hide Locs, AllZero, First, Chain;
    LocsOk(hash, |cells|, e);
    ZeroLocs(hash, |cells|, e);
    var j := First(Locs(hash, |cells|, e), IsElement(cells, e), 0);
    assert j == 8;
    ZeroRounds(hash, cells, e, true, INVALID, depth);
  }

  /** The epochs are looked after without touching a live element of the current epoch. */
  lemma {:induction false} EpochSpares<E>(s: State<E>)
    requires |s.cells| > 0 && !s.cells[0].garbage && s.cells[0].epoch
    ensures var t := EpochCheck(s); |t.cells| == |s.cells| && t.depth == s.depth && !t.cells[0].garbage && t.cells[0].e == s.cells[0].e
  {
    hide InUse;
  }

  /**
   A table as setup builds it takes in one element and then another, all of whose hashes agree. Each
   round of the second insertion swaps the two: with an even number of rounds the element just put in
   is put out again and not found, with an odd number it drives out the one that was there.
   */
  lemma {:induction false} StuckInsert<E(!new)>(hash: (nat, E) -> Word, fill: E, size: nat, depth: nat, held: E, e: E) returns (t: State<E>)
    requires held != e && AllZero(hash, held) && AllZero(hash, e)
    requires depth > 0 && Pow(2, depth) <= size < Pow(2, depth + 1)
    ensures Reaches(hash, Setup(fill, size, depth), [Add(held), Add(e)], t) && |t.cells| == size
    ensures Contains(hash, t.cells, e) <==> depth % 2 == 1
    ensures Contains(hash, t.cells, held) <==> depth % 2 == 0
  {
    hide Place, EpochCheck, Contains, AllZero;
    var s := Setup(fill, size, depth);
    assert |s.cells| == size by { PowStep(2, depth - 1); PowPositive(2, depth - 1); }
    FirstCheck(s);
    ZeroFirst(hash, s.cells, held, depth);
    var s1 := Do(hash, s, Add(held));
    EpochSpares(s1);
    ZeroSecond(hash, EpochCheck(s1).cells, e, depth);
    t := Do(hash, s1, Add(e));
    Reached(hash, s, Add(held), Add(e), t);
    ZeroContains(hash, t.cells, e);
    ZeroContains(hash, t.cells, held);
  }

  lemma FirstCheck<E>(s: State<E>)
    requires s.counter > 0
    ensures EpochCheck(s) == s.(counter := s.counter - 1)
  {
  }

  lemma {:induction false} Reached<E(!new)>(hash: (nat, E) -> Word, s: State<E>, a: Op<E>, b: Op<E>, t: State<E>)
    requires |s.cells| > 0 && |Do(hash, s, a).cells| > 0 && t == Do(hash, Do(hash, s, a), b)
    ensures Reaches(hash, s, [a, b], t)
  {
    hide Do;
    assert [a, b][1..] == [b] && [b][1..] == [];
    assert Reaches(hash, Do(hash, s, a), [b], t);
  }
}
