/** The cache object: parallel arrays of elements, discard flags and epoch flags, changed in place. */
module CuckooCache {
  import opened Cuckoo
  import opened FastRange
  import opened Wrappers

  /** Position of a location in the list, or its length. */
  method Find(locs: seq<nat>, last: nat) returns (k: nat)
    requires |locs| == 8
    ensures k == First(locs, l => l == last, 0)
  {
    k := 0;
    while k < 8 && locs[k] != last
      invariant k <= 8 && First(locs, l => l == last, k) == First(locs, l => l == last, 0)
    {
      k := k + 1;
    }
  }

  lemma {:induction false} ChainStep<E>(hash: (nat, E) -> Word, cells: seq<Cell<E>>, e: E, epoch: bool, last: nat, depth: nat)
    requires |cells| > 0 && depth > 0
    ensures |Locs(hash, |cells|, e)| == 8
    ensures var locs := Locs(hash, |cells|, e);
            var j := First(locs, IsGarbage(cells), 0);
            && (j < 8 ==> locs[j] < |cells| && Chain(hash, cells, e, epoch, last, depth) == (cells[locs[j] := Cell(e, false, epoch)], cells[locs[j]]))
            && (j == 8 ==>
                  var loc := NextLoc(locs, last);
                  && loc < |cells| && !cells[loc].garbage
                  && Chain(hash, cells, e, epoch, last, depth)
                     == Chain(hash, cells[loc := Cell(e, false, epoch)], cells[loc].e, cells[loc].epoch, loc, depth - 1))
  {
    hide Locs, First;
    LocsOk(hash, |cells|, e);
    var locs := Locs(hash, |cells|, e);
    if First(locs, IsGarbage(cells), 0) == 8 {
      assert !IsGarbage(cells)(NextLoc(locs, last));
    }
  }

  lemma {:induction false} ChainEnd<E>(hash: (nat, E) -> Word, cells: seq<Cell<E>>, e: E, epoch: bool, last: nat)
    requires |cells| > 0
    ensures Chain(hash, cells, e, epoch, last, 0).0 == cells
  {
  }

  class Cache<E(==)> {
    const table: array<E>
    const collectionFlags: array<bool>
    const epochFlags: array<bool>
    var epochHeuristicCounter: nat
    var epochSize: nat
    var depthLimit: nat
    const hash: (nat, E) -> Word

    ghost predicate Shape() {
      && collectionFlags != epochFlags && (table as object) != collectionFlags && (table as object) != epochFlags
      && 0 < table.Length == collectionFlags.Length == epochFlags.Length
    }

    function At(i: nat): Cell<E>
      requires Shape() && i < table.Length
      reads table, collectionFlags, epochFlags
    {
      Cell(table[i], collectionFlags[i], epochFlags[i])
    }

    ghost function Cells(): (cells: seq<Cell<E>>)
      requires Shape()
      reads table, collectionFlags, epochFlags
      ensures |cells| == table.Length && forall i :: 0 <= i < |cells| ==> cells[i] == At(i)
    {
      seq(table.Length, i requires 0 <= i < table.Length reads table, collectionFlags, epochFlags => At(i))
    }

    ghost function Now(): State<E>
      requires Shape()
      reads this, table, collectionFlags, epochFlags
    {
      State(Cells(), epochHeuristicCounter, epochSize, depthLimit)
    }

    /** Construction and setup in one; a fresh slot holds the default element. */
    constructor (hashFunction: (nat, E) -> Word, fill: E, newSize: nat, depth: nat)
      ensures Shape() && fresh(table) && fresh(collectionFlags) && fresh(epochFlags) && hash == hashFunction
      ensures Now() == Setup(fill, newSize, depth)
    {
      var size := if newSize < 2 then 2 else newSize;
      table := new E[size](i => fill);
      collectionFlags := new bool[size](i => true);
      epochFlags := new bool[size](i => false);
      epochSize := if (45 * size) % 0x1_0000_0000 / 100 < 1 then 1 else (45 * size) % 0x1_0000_0000 / 100;
      epochHeuristicCounter := if (45 * size) % 0x1_0000_0000 / 100 < 1 then 1 else (45 * size) % 0x1_0000_0000 / 100;
      depthLimit := depth;
      hash := hashFunction;
      new;
      assert Cells() == Setup(fill, newSize, depth).cells;
    }

    /** Writes a slot and keeps it from being discarded. */
    method Put(loc: nat, e: E, epoch: bool)
      requires Shape() && loc < table.Length
      modifies table, collectionFlags, epochFlags
      ensures Cells() == old(Cells())[loc := Cell(e, false, epoch)]
    {
      ghost var before := Cells();
      table[loc] := e;
      collectionFlags[loc] := false;
      epochFlags[loc] := epoch;
      assert forall k :: 0 <= k < table.Length ==> Cells()[k] == before[loc := Cell(e, false, epoch)][k];
    }

    method AllowErase(loc: nat)
      requires Shape() && loc < table.Length
      modifies collectionFlags
      ensures Cells() == old(Cells())[loc := old(Cells())[loc].(garbage := true)]
    {
      ghost var before := Cells();
      collectionFlags[loc] := true;
      assert forall k :: 0 <= k < table.Length ==> Cells()[k] == before[loc := before[loc].(garbage := true)][k];
    }

    method CountInUse() returns (n: nat)
      requires Shape()
      ensures n == InUse(Cells())
    {
      n := 0;
      for i := 0 to table.Length
        invariant n == InUse(Cells()[..i])
      {
        SumStep(Cells()[..i + 1], Current);
        assert Cells()[..i + 1][..i] == Cells()[..i];
        if epochFlags[i] && !collectionFlags[i] {
          n := n + 1;
        }
      }
      assert Cells()[..table.Length] == Cells();
    }

    method AgeAll()
      requires Shape()
      modifies collectionFlags, epochFlags
      ensures Cells() == Age(old(Cells()))
    {
      ghost var before := Cells();
      for i := 0 to table.Length
        invariant forall k :: 0 <= k < table.Length ==> Cells()[k] == if k < i then Aged(before[k]) else before[k]
      {
        assert Cells()[i] == before[i];
        if epochFlags[i] {
          epochFlags[i] := false;
        } else {
          collectionFlags[i] := true;
        }
      }
    }

    method EpochCheck()
      requires Shape()
      modifies this`epochHeuristicCounter, collectionFlags, epochFlags
      ensures Now() == Cuckoo.EpochCheck(old(Now()))
    {
      hide InUse, Age;
      if epochHeuristicCounter != 0 {
        epochHeuristicCounter := epochHeuristicCounter - 1;
        return;
      }
      var epochUnusedCount := CountInUse();
      if epochUnusedCount >= epochSize {
        AgeAll();
        epochHeuristicCounter := epochSize;
      } else {
        epochHeuristicCounter := Max(1, Max(epochSize / 16, epochSize - epochUnusedCount));
      }
    }

    method Insert(element: E)
      requires Shape()
      modifies this`epochHeuristicCounter, table, collectionFlags, epochFlags
      ensures Now() == Cuckoo.Insert(hash, old(Now()), element).0
    {
      hide InUse, Cuckoo.EpochCheck, Locs, First, Chain;
      EpochCheck();
      ghost var cells := Cells();
      LocsOk(hash, table.Length, element);
      var locs := Locs(hash, table.Length, element);
      var j := FindElement(locs, element);
      if j < 8 {
        Put(locs[j], element, true);
        return;
      }
      Evict(element);
    }

    method FindElement(locs: seq<nat>, e: E) returns (j: nat)
      requires Shape() && |locs| == 8 && forall i :: 0 <= i < 8 ==> locs[i] < table.Length
      ensures j == First(locs, IsElement(Cells(), e), 0)
    {
      j := 0;
      while j < 8 && table[locs[j]] != e
        invariant j <= 8 && First(locs, IsElement(Cells(), e), j) == First(locs, IsElement(Cells(), e), 0)
      {
        j := j + 1;
      }
    }

    method FindFree(locs: seq<nat>) returns (j: nat)
      requires Shape() && |locs| == 8 && forall i :: 0 <= i < 8 ==> locs[i] < table.Length
      ensures j == First(locs, IsGarbage(Cells()), 0)
    {
      j := 0;
      while j < 8 && !collectionFlags[locs[j]]
        invariant j <= 8 && First(locs, IsGarbage(Cells()), j) == First(locs, IsGarbage(Cells()), 0)
      {
        j := j + 1;
      }
    }

    /** The loop that moves elements along until one lands in a discardable slot or the depth is used up. */
    method Evict(element: E)
      requires Shape()
      modifies table, collectionFlags, epochFlags
      ensures Cells() == Chain(hash, old(Cells()), element, true, INVALID, depthLimit).0
    {
      hide Locs, First, NextLoc, Chain;
      var e, lastLoc, lastEpoch, depth := element, INVALID, true, 0;
      LocsOk(hash, table.Length, e);
      var locs := Locs(hash, table.Length, e);
      while depth < depthLimit
        invariant depth <= depthLimit
        invariant locs == Locs(hash, table.Length, e) && |locs| == 8 && forall i :: 0 <= i < 8 ==> locs[i] < table.Length
        invariant Chain(hash, Cells(), e, lastEpoch, lastLoc, depthLimit - depth)
               == Chain(hash, old(Cells()), element, true, INVALID, depthLimit)
      {
        var j := FindFree(locs);
        ChainStep(hash, Cells(), e, lastEpoch, lastLoc, depthLimit - depth);
        if j < 8 {
          Put(locs[j], e, lastEpoch);
          return;
        }
        lastLoc := Next(locs, lastLoc);
        var e', epoch' := table[lastLoc], epochFlags[lastLoc];
        Swap(lastLoc, e, lastEpoch);
        e, lastEpoch := e', epoch';
        LocsOk(hash, table.Length, e);
        locs := Locs(hash, table.Length, e);
        depth := depth + 1;
      }
      ChainEnd(hash, Cells(), e, lastEpoch, lastLoc);
    }

    method Next(locs: seq<nat>, last: nat) returns (loc: nat)
      requires |locs| == 8
      ensures loc == NextLoc(locs, last) && loc in locs
    {
      var k := Find(locs, last);
      loc := locs[(1 + k) % 8];
    }

    /** Exchanges the element in hand with the one in a slot that may not be discarded. */
    method Swap(loc: nat, e: E, epoch: bool)
      requires Shape() && loc < table.Length && !collectionFlags[loc]
      modifies table, epochFlags
      ensures Cells() == old(Cells())[loc := Cell(e, false, epoch)]
    {
      ghost var before := Cells();
      table[loc] := e;
      epochFlags[loc] := epoch;
      assert forall k :: 0 <= k < table.Length ==> Cells()[k] == before[loc := Cell(e, false, epoch)][k];
    }

    method Contains(e: E, erase: bool) returns (found: bool)
      requires Shape()
      modifies collectionFlags
      ensures found == Cuckoo.Contains(hash, old(Cells()), e)
      ensures Cells() == if erase then Erase(hash, old(Cells()), e) else old(Cells())
    {
      hide Locs, First;
      LocsOk(hash, table.Length, e);
      var locs := Locs(hash, table.Length, e);
      var j := FindElement(locs, e);
      if j < 8 {
        if erase {
          AllowErase(locs[j]);
        }
        return true;
      }
      return false;
    }
  }
}
