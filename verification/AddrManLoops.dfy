/** The tables as arrays, and facts that the loops of the address manager need. */
module AddrManLoops {
  import opened Wrappers
  import opened AddrManModel
  import opened AddrManInvariant
  import opened AddrManCalls
  import opened AddrManRuns

  /** The array holds the table, with -1 in every free place. */
  ghost predicate Mirrors(a: array2<int>, t: Table)
    reads a
  {
    && (forall b, p :: 0 <= b < a.Length0 && 0 <= p < a.Length1 ==> a[b, p] == if Slot(b, p) in t then t[Slot(b, p)] else -1)
    && (forall sl :: sl in t ==> 0 <= sl.bucket < a.Length0 && 0 <= sl.pos < a.Length1 && t[sl] != -1)
  }

  method SetCell(a: array2<int>, b: int, p: int, x: int, ghost t: Table)
    requires 0 <= b < a.Length0 && 0 <= p < a.Length1 && Mirrors(a, t)
    modifies a
    ensures Mirrors(a, SetOrErase(t, Slot(b, p), if x == -1 then None else Some(x)))
  {
    a[b, p] := x;
  }

  lemma StartsConsistent(e: Env, s: State)
    requires s.idCount == 0 && s.infos == map[] && s.ids == map[] && s.random == [] && s.nTried == 0 && s.nNew == 0
    requires s.tried == map[] && s.news == map[] && s.collisions == {}
    ensures Consistent(e, s) && CollisionsOk(e, s)
  {
  }

  lemma {:induction false} ForgetNone(e: Env, s: State, id: int)
    requires id in s.infos
    ensures Forget(e, s, id, 0) == s
  {
    assert BucketsBelow(e, s.news, s.infos[id].addr, id, 0) == {};
    MapEqual(Without(e, s.news, s.infos[id].addr, id, 0), s.news);
    assert s.infos[id := s.infos[id]] == s.infos;
  }

  lemma {:induction false} WithoutNext(e: Env, news: Table, a: Service, id: int, b: int)
    requires 0 <= b < NEW_BUCKETS
    ensures var w, sl := Without(e, news, a, id, b), SlotIn(e, a, b);
            Without(e, news, a, id, b + 1) == if Get(w, sl) == Some(id) then w - {sl} else w
    ensures var sl := SlotIn(e, a, b);
            BucketsBelow(e, news, a, id, b + 1) == BucketsBelow(e, news, a, id, b) + if Get(Without(e, news, a, id, b), sl) == Some(id) then {b} else {}
  {
    var w, w', sl := Without(e, news, a, id, b), Without(e, news, a, id, b + 1), SlotIn(e, a, b);
    forall k ensures Get(w', k) == if k == sl && Get(w, sl) == Some(id) then None else Get(w, k) { }
    MapEqual(w', if Get(w, sl) == Some(id) then w - {sl} else w);
    forall i: int ensures i in BucketsBelow(e, news, a, id, b + 1) <==>
      i in BucketsBelow(e, news, a, id, b) || (i == b && Get(w, sl) == Some(id)) { }
  }

  lemma {:induction false} UnlinkEntry(e: Env, s: State, sl: Slot, limbo: set<int>, owed: int)
    requires Inv(e, s, limbo, owed)
    ensures sl !in s.news ==> Unlink(s, sl) == s
    ensures sl in s.news ==>
            var y := s.news[sl];
            && y in s.infos && s.infos[y].refCount > 0 && y in Unlink(s, sl).infos && !Unlink(s, sl).infos[y].inTried
            && Unlink(s, sl).infos[y].refCount == s.infos[y].refCount - 1
  {
    if sl in s.news {
      assert HoldsNew(e, s.infos, sl, s.news[sl]);
      UnlinkKeeps(e, s, sl, limbo, owed);
    }
  }

  lemma {:induction false} UntryFields(e: Env, s: State, sl: Slot)
    ensures sl in s.tried ==>
      var y, t := s.tried[sl], Untry(s, sl);
      && y in t.infos && t.infos[y].addr == At(s, y).addr && t.infos[y].source == At(s, y).source
      && t.tried == s.tried - {sl} && t.news == s.news && (y in s.infos ==> t.infos.Keys == s.infos.Keys)
  {
  }

  /** One turn of the loop: the entry leaves the bucket if it is there. */
  lemma {:induction false} ForgetNext(e: Env, s: State, id: int, b: int)
    requires id in s.infos && 0 <= b < NEW_BUCKETS
    ensures var t, sl := Forget(e, s, id, b), SlotIn(e, s.infos[id].addr, b);
            Forget(e, s, id, b + 1) ==
            if Get(t.news, sl) == Some(id)
            then Set(t.(news := t.news - {sl}), id, t.infos[id].(refCount := t.infos[id].refCount - 1))
            else t
  {
    var a := s.infos[id].addr;
    hide Without, BucketsBelow, SlotIn;
    WithoutNext(e, s.news, a, id, b);
    BelowSmall(e, s.news, a, id, b);
    var i := s.infos[id];
    var n := |BucketsBelow(e, s.news, a, id, b)|;
    SetTwice(s.infos, id, i.(refCount := i.refCount - n), i.(refCount := i.refCount - n - 1));
  }

  lemma SetTwice(infos: Infos, id: int, i: Info, j: Info)
    ensures infos[id := i][id := j] == infos[id := j]
  {
  }

  lemma BelowSmall(e: Env, news: Table, a: Service, id: int, b: int)
    ensures b !in BucketsBelow(e, news, a, id, b)
  {
  }

  function Turn(start: int, n: int): int { (n + start) % NEW_BUCKETS }

  /** Every bucket gets its turn, wherever the search starts. */
  lemma TurnsCover(start: int, b: int)
    requires 0 <= b < NEW_BUCKETS && 0 <= start < NEW_BUCKETS
    ensures exists n :: 0 <= n < NEW_BUCKETS && Turn(start, n) == b
  {
    assert Turn(start, if start <= b then b - start else b - start + NEW_BUCKETS) == b;
  }

  lemma {:induction false} PlaceKnown(e: Env, s: State, id: int, sl: Slot, limbo: set<int>)
    requires Inv(e, s, limbo, 0) && id in s.infos
    ensures id >= 0 && IndexOk(s)
    ensures sl in s.news ==> s.news[sl] in s.infos
    ensures Get(s.news, sl) != Some(id) ==> Stays(s, ClearNew(s, sl), id)
  {
    IdBelow(s, id);
    assert sl in s.news ==> HoldsNew(e, s.infos, sl, s.news[sl]);
    if Get(s.news, sl) != Some(id) { ClearNewStays(e, s, sl, limbo, 0, id); }
  }

  lemma {:induction false} RenewInv(e: Env, s: State, id: int, i: Info)
    requires Consistent(e, s) && id in s.infos && i == s.infos[id].(services := i.services, time := i.time)
    ensures Inv(e, Set(s, id, i), {}, 0)
    ensures !i.inTried ==> i.refCount <= NEW_BUCKETS_PER_ADDRESS
  {
    TouchKeeps(e, s, id, i);
    assert Referenced(e, s.news, {}, id, s.infos[id]);
  }

  lemma {:induction false} TriedKnown(e: Env, s: State, sl: Slot)
    requires Consistent(e, s) && sl in s.tried
    ensures s.tried[sl] in s.infos && s.infos[s.tried[sl]].inTried && TriedSlot(e, s.infos[s.tried[sl]].addr) == sl
  {
    assert HoldsTried(e, s.infos, sl, s.tried[sl]);
  }

  lemma {:induction false} AtKnown(e: Env, s: State, n: int)
    requires Inv(e, s, {}, 0)
    ensures IndexOk(s)
    ensures 0 <= n < |s.random| ==> s.random[n] in s.infos
  {
    assert 0 <= n < |s.random| ==> AtPos(s.infos, n, s.random[n]);
  }

  lemma {:induction false} AsConsistent(e: Env, s: State)
    requires Inv(e, s, {}, 0)
    ensures Consistent(e, s)
  {
  }

  // ---- The random sample ----

  function AddrLimit(n: int): int {
    var k := 23 * n / 100;
    if k > 2500 then 2500 else k
  }

  /** Same entries and tables; only the random order and the positions in it differ. */
  ghost predicate OnlyShuffled(s: State, t: State) {
    && t == s.(infos := t.infos, random := t.random)
    && t.infos.Keys == s.infos.Keys
    && (forall id :: id in s.infos ==> t.infos[id] == s.infos[id].(randomPos := t.infos[id].randomPos))
    && |t.random| == |s.random|
  }

  lemma {:induction false} ShuffledEntry(s: State, t: State, id: int, now: int)
    requires OnlyShuffled(s, t) && id in t.infos
    ensures id in s.infos && t.infos[id].addr == s.infos[id].addr && Terrible(t.infos[id], now) == Terrible(s.infos[id], now)
  {
    assert id in s.infos.Keys;
  }

  lemma ShuffledSame(s: State)
    ensures OnlyShuffled(s, s)
  {
  }

  lemma {:induction false} ShuffledSwap(s: State, t: State, i: int, j: int)
    requires OnlyShuffled(s, t) && IndexOk(t)
    ensures OnlyShuffled(s, SwapRandom(t, i, j))
  {
    SwapIndexed(t, i, j);
  }

  ghost function Filtered(infos: Infos, ids: seq<int>, now: int): seq<int> {
    if ids == [] then []
    else
      var last := ids[|ids| - 1];
      Filtered(infos, ids[..|ids| - 1], now) + if last in infos && !Terrible(infos[last], now) then [last] else []
  }

  lemma {:induction false} FilteredNone(infos: Infos, ids: seq<int>, now: int)
    ensures Filtered(infos, ids[..0], now) == []
  {
  }

  lemma {:induction false} FilteredStep(infos: Infos, ids: seq<int>, n: nat, now: int)
    requires n < |ids|
    ensures Filtered(infos, ids[..n + 1], now) ==
            Filtered(infos, ids[..n], now) + if ids[n] in infos && !Terrible(infos[ids[n]], now) then [ids[n]] else []
    ensures Filtered(infos, ids[..n], now) + [] == Filtered(infos, ids[..n], now)
  {
    assert ids[..n + 1][..n] == ids[..n];
  }

  ghost predicate AddressesOf(infos: Infos, ids: seq<int>, addrs: seq<Service>) {
    |ids| == |addrs| && forall i :: 0 <= i < |ids| ==> ids[i] in infos && addrs[i] == infos[ids[i]].addr
  }

  /** Different entries, none of them terrible. */
  ghost predicate GoodPicks(infos: Infos, ids: seq<int>, now: int) {
    && (forall i :: 0 <= i < |ids| ==> ids[i] in infos && !Terrible(infos[ids[i]], now))
    && (forall i, j :: 0 <= i < j < |ids| ==> ids[i] != ids[j])
  }

  lemma {:induction false} FilteredPicks(infos: Infos, ids: seq<int>, now: int)
    requires forall i, j :: 0 <= i < j < |ids| ==> ids[i] != ids[j]
    ensures GoodPicks(infos, Filtered(infos, ids, now), now)
    ensures forall id :: id in Filtered(infos, ids, now) <==> id in ids && id in infos && !Terrible(infos[id], now)
    decreases |ids|
  {
    if ids != [] {
      var pre, last := ids[..|ids| - 1], ids[|ids| - 1];
      FilteredPicks(infos, pre, now);
      assert ids == pre + [last];
      assert last !in pre;
    }
  }

  lemma {:induction false} FilteredGood(e: Env, s: State, t: State, n: nat, now: int)
    requires Inv(e, t, {}, 0) && OnlyShuffled(s, t) && n <= |t.random|
    ensures GoodPicks(s.infos, Filtered(s.infos, t.random[..n], now), now)
    ensures n == |t.random| ==> forall id :: id in s.infos && !Terrible(s.infos[id], now) ==> id in Filtered(s.infos, t.random[..n], now)
  {
    forall i, j | 0 <= i < j < n ensures t.random[i] != t.random[j] {
      assert AtPos(t.infos, i, t.random[i]) && AtPos(t.infos, j, t.random[j]);
    }
    FilteredPicks(s.infos, t.random[..n], now);
    if n == |t.random| {
      forall id | id in s.infos && !Terrible(s.infos[id], now) ensures id in Filtered(s.infos, t.random[..n], now) {
        assert id in t.infos.Keys;
        assert EntryIndexed(t.idCount, t.ids, t.random, id, t.infos[id]);
        assert t.random[..n] == t.random;
        assert id in t.random[..n];
      }
    }
  }

  // ---- Collisions in order ----

  ghost predicate Ascending(order: seq<int>) {
    forall i, j :: 0 <= i < j < |order| ==> order[i] < order[j]
  }

  lemma NonEmpty(s: set<int>)
    requires s != {}
    ensures exists x: int :: x in s
  {
    var x := Pick(s);
  }

  lemma {:induction false} HasLeast(s: set<int>)
    requires s != {}
    ensures exists m: int :: m in s && forall x: int :: x in s ==> m <= x
    decreases |s|
  {
    var m := LeastOf(s);
  }

  lemma {:induction false} LeastOf(s: set<int>) returns (m: int)
    requires s != {}
    ensures m in s && forall x: int :: x in s ==> m <= x
    decreases |s|
  {
    var y := Pick(s);
    m := y;
    var rest := s - {y};
    if rest != {} {
      var k := LeastOf(rest);
      if k < y { m := k; }
    }
    forall x: int | x in s && x != y ensures m <= x { assert x in rest; }
  }

  lemma {:induction false} ResolveAllNext(e: Env, s: State, order: seq<int>, id: int, now: int)
    ensures ResolveAll(e, s, order + [id], now) == ResolveOne(e, ResolveAll(e, s, order, now), id, now)
    decreases |order|
  {
    hide ResolveOne;
    if order == [] {
      assert [id][1..] == [];
    } else {
      assert (order + [id])[1..] == order[1..] + [id];
      ResolveAllNext(e, ResolveOne(e, s, order[0], now), order[1..], id, now);
    }
  }
}
