/** What the two main calls do, beyond keeping the manager consistent. */
module AddrManEffects {
  import opened Wrappers
  import opened AddrManModel
  import opened AddrManInvariant
  import opened AddrManCalls
  import opened AddrManRuns

  lemma {:induction false} EvictMoves(e: Env, s: State, sl: Slot, id: int, owed: int)
    requires Inv(e, s, {id}, owed) && sl in s.tried
    ensures s.tried[sl] in s.infos
    ensures var y, t := s.tried[sl], Evict(e, s, sl);
            var target := NewSlot(e, s.infos[y].addr, s.infos[y].source);
            && t.news == s.news[target := y] && t.lastGood == s.lastGood && t.collisions == s.collisions && t.idCount == s.idCount
            && y in t.infos && t.infos[y] == s.infos[y].(inTried := false, refCount := 1, randomPos := t.infos[y].randomPos)
            && (target in s.news ==> s.news[target] != id && s.news[target] != y && LosesPlace(s, t, s.news[target]))
            && forall i {:trigger Stays(s, t, i)} :: i in s.infos && i != y && Get(s.news, target) != Some(i) ==> Stays(s, t, i)
  {
    hide ClearNew, IndexOk, TablesOk;
    var y, t := s.tried[sl], Untry(s, sl);
    UntryKeeps(e, s, sl, {id}, owed);
    var target := NewSlot(e, s.infos[y].addr, s.infos[y].source);
    ClearNewKeeps(e, t, target, {id} + {y}, owed + 1);
    ClearNewHolds(e, t, target, {id} + {y}, owed + 1, y);
    ClearNewEffect(e, t, target, {id} + {y}, owed + 1);
    ClearNewPersists(e, t, target, {id} + {y}, owed + 1);
    if target in s.news {
      LimboNoSlot(e, t, {id} + {y}, owed + 1, id, target);
      LimboNoSlot(e, t, {id} + {y}, owed + 1, y, target);
    }
    forall i | i in s.infos && i != y && Get(s.news, target) != Some(i) ensures Stays(s, Evict(e, s, sl), i) {
      ClearNewStays(e, t, target, {id} + {y}, owed + 1, i);
    }
  }

  /** The times and attempts of an entry marked good. */
  function Marked(i: Info, time: int): Info { i.(lastSuccess := time, lastTry := time, attempts := 0) }

  /**
   Marking a new entry good, without testing first or with its tried slot free, moves it to that slot and
   out of every new slot. The entry that was there returns to the new slot of its own source, where the
   holder makes way. Nothing else is affected.
   */
  lemma {:induction false} GoodMoves(e: Env, s: State, id: int, test: bool, time: int)
    requires Consistent(e, s) && id in s.infos && !s.infos[id].inTried
    requires test ==> TriedSlot(e, s.infos[id].addr) !in s.tried
    ensures var a := s.infos[id].addr;
            var sl, t := TriedSlot(e, a), Good(e, s, a, test, time);
            var left := Without(e, s.news, a, id, NEW_BUCKETS);
            && t.lastGood == time && t.collisions == s.collisions && t.idCount == s.idCount && t.tried == s.tried[sl := id]
            && id in t.infos && t.infos[id] == Marked(s.infos[id], time).(inTried := true, refCount := 0, randomPos := t.infos[id].randomPos)
            && if sl !in s.tried then
                 t.news == left && forall i {:trigger Stays(s, t, i)} :: i in s.infos && i != id ==> Stays(s, t, i)
               else
                 var y := s.tried[sl];
                 y in s.infos &&
                 var target := NewSlot(e, s.infos[y].addr, s.infos[y].source);
                 && t.news == left[target := y]
                 && y in t.infos && t.infos[y] == s.infos[y].(inTried := false, refCount := 1, randomPos := t.infos[y].randomPos)
                 && (target in left ==> LosesPlace(s, t, left[target]))
                 && forall i {:trigger Stays(s, t, i)} :: i in s.infos && i != id && i != y && Get(left, target) != Some(i) ==> Stays(s, t, i)
  {
    hide Evict, IndexOk, TablesOk, Forget, Without, Try, TriedSlot, NewSlot;
    var a := s.infos[id].addr;
    GoodIsMakeTried(e, s, id, test, time);
    var s1 := Set(s.(lastGood := time), id, Marked(s.infos[id], time));
    LastGoodKeeps(e, s, time);
    TouchKeeps(e, s.(lastGood := time), id, s1.infos[id]);
    var t := Forget(e, s1, id, NEW_BUCKETS);
    ForgetKeeps(e, s1, id, 0);
    ForgetFields(e, s1, id);
    CountShift(e, t, {id}, 0, -1);
    var u, sl := t.(nNew := t.nNew - 1), TriedSlot(e, a);
    var g := Try(e, Evict(e, u, sl), id);
    InLimbo(e, u, id);
    TakesSlot(e, u, id);
    if sl in s.tried { UntriedOther(e, s, sl, id); }
    forall i | i in s.infos && i != id ensures Stays(u, g, i) ==> Stays(s, g, i) { }
  }

  /**
   Marking a new entry good with a test, its tried slot taken: the entry waits as a pending collision if
   there is room for one, and nothing else changes but its times.
   */
  lemma {:induction false} GoodWaits(e: Env, s: State, id: int, time: int)
    requires Consistent(e, s) && id in s.infos && !s.infos[id].inTried && TriedSlot(e, s.infos[id].addr) in s.tried
    ensures Good(e, s, s.infos[id].addr, true, time) ==
            s.(lastGood := time, infos := s.infos[id := Marked(s.infos[id], time)],
               collisions := if |s.collisions| < 10 then s.collisions + {id} else s.collisions)
  {
    hide MakeTried;
    assert EntryIndexed(s.idCount, s.ids, s.random, id, s.infos[id]);
    assert Referenced(e, s.news, {}, id, s.infos[id]);
  }

  /** Marking a tried entry good notes the times; an unknown address or another port changes only the time of the last call. */
  lemma {:induction false} GoodNotes(e: Env, s: State, a: Service, test: bool, time: int)
    requires Consistent(e, s)
    ensures a.ip !in s.ids ==> Good(e, s, a, test, time) == s.(lastGood := time)
    ensures forall id :: id in s.infos && s.infos[id].addr.ip == a.ip && s.infos[id].addr != a ==>
              Good(e, s, a, test, time) == s.(lastGood := time)
    ensures forall id :: id in s.infos && s.infos[id].addr == a && s.infos[id].inTried ==>
              Good(e, s, a, test, time) == s.(lastGood := time, infos := s.infos[id := Marked(s.infos[id], time)])
  {
    hide MakeTried;
    forall id | id in s.infos ensures EntryIndexed(s.idCount, s.ids, s.random, id, s.infos[id]) { }
  }

  /** An entry in no table has no references. */
  lemma {:induction false} InLimbo(e: Env, u: State, id: int)
    requires Inv(e, u, {id}, 1) && id in u.infos
    ensures u.infos[id].refCount == 0 && !u.infos[id].inTried
  {
    assert Referenced(e, u.news, {id}, id, u.infos[id]);
  }

  /** Forgetting changes the new table and this entry alone. */
  lemma {:induction false} ForgetFields(e: Env, s: State, id: int)
    requires id in s.infos
    ensures var t := Forget(e, s, id, NEW_BUCKETS);
            && t.news == Without(e, s.news, s.infos[id].addr, id, NEW_BUCKETS) && t.tried == s.tried && t.infos.Keys == s.infos.Keys
            && t.infos[id] == s.infos[id].(refCount := t.infos[id].refCount) && (forall i :: i in s.infos && i != id ==> t.infos[i] == s.infos[i])
            && t.lastGood == s.lastGood && t.collisions == s.collisions && t.idCount == s.idCount
  {
    hide Without;
  }

  /** An entry in no table takes its tried slot, and the holder returns to the new slot of its own source. */
  lemma {:induction false} TakesSlot(e: Env, u: State, id: int)
    requires Inv(e, u, {id}, 1) && id in u.infos
    ensures var sl := TriedSlot(e, u.infos[id].addr);
            var g := Try(e, Evict(e, u, sl), id);
            && g.lastGood == u.lastGood && g.collisions == u.collisions && g.idCount == u.idCount && g.tried == u.tried[sl := id]
            && id in g.infos && g.infos[id] == u.infos[id].(inTried := true, randomPos := g.infos[id].randomPos)
            && if sl !in u.tried then
                 g.news == u.news && forall i {:trigger Stays(u, g, i)} :: i in u.infos && i != id ==> Stays(u, g, i)
               else
                 var y := u.tried[sl];
                 y in u.infos &&
                 var target := NewSlot(e, u.infos[y].addr, u.infos[y].source);
                 && g.news == u.news[target := y] && (y != id ==> y in g.infos && g.infos[y] == u.infos[y].(inTried := false, refCount := 1, randomPos := g.infos[y].randomPos))
                 && (target in u.news ==> LosesPlace(u, g, u.news[target]))
                 && forall i {:trigger Stays(u, g, i)} :: i in u.infos && i != id && i != y && Get(u.news, target) != Some(i) ==> Stays(u, g, i)
  {
    hide Evict, IndexOk, TablesOk, NewSlot;
    var sl := TriedSlot(e, u.infos[id].addr);
    EvictKeeps(e, u, sl, id, 1);
    var v := Evict(e, u, sl);
    var g := Try(e, v, id);
    if sl in u.tried {
      EvictMoves(e, u, sl, id, 1);
      var y := u.tried[sl];
      var target := NewSlot(e, u.infos[y].addr, u.infos[y].source);
      forall i | i in u.infos && i != id && i != y && Get(u.news, target) != Some(i) ensures Stays(u, g, i) {
        assert Stays(u, v, i);
      }
    } else {
      NothingEvicted(e, u, sl);
    }
  }

  lemma {:induction false} UntriedOther(e: Env, s: State, sl: Slot, id: int)
    requires Consistent(e, s) && sl in s.tried && id in s.infos && !s.infos[id].inTried
    ensures s.tried[sl] in s.infos && s.tried[sl] != id
  {
    assert HoldsTried(e, s.infos, sl, s.tried[sl]);
  }

  lemma {:induction false} NothingEvicted(e: Env, s: State, sl: Slot)
    requires sl !in s.tried
    ensures Evict(e, s, sl) == s
  {
  }

  lemma {:induction false} GoodIsMakeTried(e: Env, s: State, id: int, test: bool, time: int)
    requires Consistent(e, s) && id in s.infos && !s.infos[id].inTried && (test ==> TriedSlot(e, s.infos[id].addr) !in s.tried)
    ensures Good(e, s, s.infos[id].addr, test, time) == MakeTried(e, Set(s.(lastGood := time), id, Marked(s.infos[id], time)), id)
  {
    hide MakeTried;
    assert EntryIndexed(s.idCount, s.ids, s.random, id, s.infos[id]);
    assert Referenced(e, s.news, {}, id, s.infos[id]);
  }

  /**
   Adding an unknown address gives it one reference in the bucket of its source, unless the place
   is held by an entry that is not terrible and has no other place: then nothing is kept. No
   entry but the holder of the place is affected; a holder with no other place is dropped.
   */
  lemma {:induction false} AddPlaces(e: Env, s: State, a: Service, services: Flags, time: int, source: NetAddr, penalty: int, now: int, lucky: bool)
    requires Consistent(e, s) && e.routable(a.ip) && a.ip !in s.ids
    ensures var sl, id, t := NewSlot(e, a, source), s.idCount, Add(e, s, a, services, time, source, penalty, now, lucky);
            && (sl in s.news ==> s.news[sl] in s.infos)
            && (if sl !in s.news || Terrible(s.infos[s.news[sl]], now) || s.infos[s.news[sl]].refCount > 1 then
                  && t.news == s.news[sl := id] && Get(t.ids, a.ip) == Some(id)
                  && id in t.infos && t.infos[id] == Info(a, services, source, Max(0, time - if a.ip == source then 0 else penalty), 0, 0, 0, 0, 1, false, t.infos[id].randomPos)
                  && (sl in s.news ==> LosesPlace(s, t, s.news[sl]))
                else t.news == s.news && a.ip !in t.ids && id !in t.infos && Stays(s, t, s.news[sl]))
            && t.tried == s.tried && t.collisions == s.collisions && t.lastGood == s.lastGood && t.idCount == s.idCount + 1
            && forall i {:trigger Stays(s, t, i)} :: i in s.infos && Get(s.news, sl) != Some(i) ==> Stays(s, t, i)
  {
    hide Consistent, Place, Inv;
    var sl, id, pen := NewSlot(e, a, source), s.idCount, if a.ip == source then 0 else penalty;
    FindKnown(e, s, a.ip);
    EnterInv(e, s, a, services, Max(0, time - pen), source);
    var c := Create(s, a, services, Max(0, time - pen), source);
    var u := c.(nNew := c.nNew + 1);
    HolderKnown(e, s, sl);
    var t := Place(e, u, id, source, now);
    assert Add(e, s, a, services, time, source, penalty, now, lucky) == t;
    PlaceEffect(e, u, id, source, now);
    forall i | i in s.infos && Get(s.news, sl) != Some(i) ensures Stays(s, t, i) { assert Stays(u, t, i); }
  }

  /** Placing an entry that has no place yet. */
  lemma {:induction false} PlaceEffect(e: Env, u: State, id: int, source: NetAddr, now: int)
    requires Inv(e, u, {id}, 0) && id in u.infos
    ensures var sl, t := NewSlot(e, u.infos[id].addr, source), Place(e, u, id, source, now);
            && (sl in u.news ==> u.news[sl] in u.infos && u.news[sl] != id)
            && (if sl !in u.news || Terrible(u.infos[u.news[sl]], now) || u.infos[u.news[sl]].refCount > 1 then
                  && t.news == u.news[sl := id] && Get(t.ids, u.infos[id].addr.ip) == Get(u.ids, u.infos[id].addr.ip)
                  && id in t.infos && t.infos[id] == u.infos[id].(refCount := 1, randomPos := t.infos[id].randomPos)
                  && (sl in u.news ==> LosesPlace(u, t, u.news[sl]))
                else t.news == u.news && u.infos[id].addr.ip !in t.ids && id !in t.infos && Stays(u, t, u.news[sl]))
            && t.tried == u.tried && t.collisions == u.collisions && t.lastGood == u.lastGood && t.idCount == u.idCount
            && forall i {:trigger Stays(u, t, i)} :: i in u.infos && i != id && Get(u.news, sl) != Some(i) ==> Stays(u, t, i)
  {
    hide ClearNew, Delete, TablesOk;
    var sl := NewSlot(e, u.infos[id].addr, source);
    LimboNoSlot(e, u, {id}, 0, id, sl);
    ClearNewEffect(e, u, sl, {id}, 0);
    ClearNewPersists(e, u, sl, {id}, 0);
    DeleteEffect(e, u, id);
    var t := Place(e, u, id, source, now);
    forall i | i in u.infos && i != id ensures Stays(u, Delete(u, id), i) { DeleteStays(u, id, i); }
    forall i | i in u.infos && Get(u.news, sl) != Some(i) ensures Stays(u, ClearNew(u, sl), i) { ClearNewStays(e, u, sl, {id}, 0, i); }
    if sl in u.news { OtherIp(u, id, u.news[sl]); }
    forall i | i in u.infos && i != id && Get(u.news, sl) != Some(i) ensures Stays(u, t, i) { }
  }

  lemma {:induction false} OtherIp(s: State, id: int, y: int)
    requires IndexOk(s) && id in s.infos && y in s.infos && id != y
    ensures s.infos[id].addr.ip != s.infos[y].addr.ip
  {
    assert EntryIndexed(s.idCount, s.ids, s.random, id, s.infos[id]) && EntryIndexed(s.idCount, s.ids, s.random, y, s.infos[y]);
  }

  lemma {:induction false} HolderKnown(e: Env, s: State, sl: Slot)
    requires Consistent(e, s)
    ensures sl in s.news ==> s.news[sl] in s.infos && s.infos[s.news[sl]].refCount >= 1 && s.news[sl] < s.idCount
  {
    if sl in s.news {
      UnlinkKeeps(e, s, sl, {}, 0);
      IdBelow(s, s.news[sl]);
    }
  }

  lemma {:induction false} DeleteEffect(e: Env, s: State, id: int)
    requires Inv(e, s, {id}, 0)
    ensures id in s.infos && id !in Delete(s, id).infos && s.infos[id].addr.ip !in Delete(s, id).ids && Delete(s, id).news == s.news
    ensures var t := Delete(s, id); t.tried == s.tried && t.collisions == s.collisions && t.lastGood == s.lastGood && t.idCount == s.idCount
  {
    SwapToLast(s, id);
  }

  lemma {:induction false} ClearNewEffect(e: Env, s: State, sl: Slot, limbo: set<int>, owed: int)
    requires Inv(e, s, limbo, owed)
    ensures var t := ClearNew(s, sl);
            && t.news == s.news - {sl} && t.lastGood == s.lastGood
            && (sl in s.news ==>
                 var y := s.news[sl];
                 && y in s.infos
                 && (forall n :: n != s.infos[y].addr.ip ==> Get(t.ids, n) == Get(s.ids, n))
                 && LosesPlace(s, t, y))
            && (sl !in s.news ==> t == s)
  {
    if sl in s.news {
      UnlinkKeeps(e, s, sl, limbo, owed);
      SwapToLast(Unlink(s, sl), s.news[sl]);
    }
  }

  /** A further sighting of a known address gives it another place. */
  ghost predicate Gains(e: Env, s: State, id: int, time: int, source: NetAddr, penalty: int, now: int, lucky: bool)
    requires id in s.infos
  {
    var i := s.infos[id];
    var r := Refreshed(i, {}, time, if i.addr.ip == source then 0 else penalty, now);
    var sl := NewSlot(e, i.addr, source);
    && time != 0 && (r.time == 0 || r.time < time) && !i.inTried && i.refCount < NEW_BUCKETS_PER_ADDRESS && lucky
    && Get(s.news, sl) != Some(id) && (sl !in s.news || Terrible(At(s, s.news[sl]), now))
  }

  /** An announced time replaces the entry's own when that is missing, or older by more than the update interval and the penalty. */
  function SeenTime(i: Info, time: int, source: NetAddr, penalty: int, now: int): int {
    var pen := if i.addr.ip == source then 0 else penalty;
    var interval := if now - time < DAY then HOUR else DAY;
    if time != 0 && (i.time == 0 || i.time < time - interval - pen) then Max(0, time - pen) else i.time
  }

  /** An entry gives up one reference, and is gone if it was the last. */
  ghost predicate LosesPlace(s: State, t: State, y: int) {
    y in s.infos &&
    if s.infos[y].refCount == 1 then y !in t.infos
    else y in t.infos && t.infos[y] == s.infos[y].(refCount := s.infos[y].refCount - 1, randomPos := t.infos[y].randomPos)
  }

  /**
   Adding a known address adds the services and renews the time, unless it also gains a place: then it has one more
   reference, in the bucket of this source, and only a terrible holder of that place is affected.
   */
  lemma {:induction false} AddRenews(e: Env, s: State, id: int, a: Service, services: Flags, time: int, source: NetAddr, penalty: int, now: int, lucky: bool)
    requires Consistent(e, s) && e.routable(a.ip) && Get(s.ids, a.ip) == Some(id)
    ensures id in s.infos && s.infos[id].addr.ip == a.ip
    ensures var t, i, sl := Add(e, s, a, services, time, source, penalty, now, lucky), s.infos[id], NewSlot(e, s.infos[id].addr, source);
            var gains := Gains(e, s, id, time, source, penalty, now, lucky);
            && id in t.infos && t.infos[id] == i.(services := i.services + services, time := SeenTime(i, time, source, penalty, now), randomPos := t.infos[id].randomPos, refCount := if gains then i.refCount + 1 else i.refCount)
            && t.tried == s.tried && t.collisions == s.collisions && t.lastGood == s.lastGood && t.idCount == s.idCount && t.news == (if gains then s.news[sl := id] else s.news)
            && (gains && sl in s.news ==> LosesPlace(s, t, s.news[sl]))
            && forall j {:trigger Stays(s, t, j)} :: j in s.infos && j != id && !(gains && Get(s.news, sl) == Some(j)) ==> Stays(s, t, j)
  {
    hide ClearNew, Delete, TablesOk, NewSlot, Place, Terrible;
    FindKnown(e, s, a.ip);
    KnownName(e, s, a.ip);
    var i, sl := s.infos[id], NewSlot(e, s.infos[id].addr, source);
    var r := Refreshed(i, services, time, if i.addr.ip == source then 0 else penalty, now);
    if !i.inTried { CountPositive(e, s, id); }
    TouchKeeps(e, s, id, r);
    var u := Set(s, id, r);
    HolderKnown(e, s, sl);
    var t := Add(e, s, a, services, time, source, penalty, now, lucky);
    if !i.inTried { SecondPlace(e, u, id, source, now); }
    forall j | j in s.infos && j != id && !(Gains(e, s, id, time, source, penalty, now, lucky) && Get(s.news, sl) == Some(j)) ensures Stays(s, t, j) {
      assert Stays(u, Place(e, u, id, source, now), j) ==> Stays(s, Place(e, u, id, source, now), j);
    }
  }

  /** Placing an entry that has a place already: it takes a free place or that of a terrible holder. */
  lemma {:induction false} SecondPlace(e: Env, u: State, id: int, source: NetAddr, now: int)
    requires Consistent(e, u) && id in u.infos && u.infos[id].refCount > 0
    ensures var t, sl := Place(e, u, id, source, now), NewSlot(e, u.infos[id].addr, source);
            var takes := Get(u.news, sl) != Some(id) && (sl !in u.news || Terrible(At(u, u.news[sl]), now));
            && id in t.infos && t.infos[id] == u.infos[id].(randomPos := t.infos[id].randomPos, refCount := u.infos[id].refCount + if takes then 1 else 0)
            && t.tried == u.tried && t.collisions == u.collisions && t.lastGood == u.lastGood && t.idCount == u.idCount && t.news == (if takes then u.news[sl := id] else u.news)
            && (takes && sl in u.news ==> LosesPlace(u, t, u.news[sl]))
            && forall j {:trigger Stays(u, t, j)} :: j in u.infos && j != id && !(takes && Get(u.news, sl) == Some(j)) ==> Stays(u, t, j)
  {
    hide ClearNew, Delete, TablesOk, NewSlot, Terrible;
    var sl := NewSlot(e, u.infos[id].addr, source);
    HolderKnown(e, u, sl);
    ClearNewEffect(e, u, sl, {}, 0);
    forall j | j in u.infos && Get(u.news, sl) != Some(j) ensures Stays(u, ClearNew(u, sl), j) { ClearNewStays(e, u, sl, {}, 0, j); }
    ClearNewPersists(e, u, sl, {}, 0);
  }

  /**
   When an entry is terrible: never within a minute of the last attempt; else when its time is more than ten
   minutes ahead, missing or more than thirty days old, after three failures without any success, or after
   ten failures and no success in a week.
   */
  lemma TerribleIff(i: Info, now: int)
    ensures i.lastTry != 0 && now - i.lastTry <= 60 ==> !Terrible(i, now)
    ensures (i.lastTry == 0 || now - i.lastTry > 60) ==>
              (Terrible(i, now) <==>
               || i.time - now > 600 || i.time == 0 || now - i.time > 2592000
               || (i.lastSuccess == 0 && i.attempts > 2) || (now - i.lastSuccess > 604800 && i.attempts > 9))
  {
  }

  /** The places of an address: a tried slot by its own hashes, and in each new bucket one position. */
  lemma PlacesOf(e: Env, a: Service, source: NetAddr, bucket: int)
    ensures TriedSlot(e, a) == Slot(e.triedHash(a) % 256, e.positionHash(a, false, e.triedHash(a) % 256) % 64)
    ensures SlotIn(e, a, bucket) == Slot(bucket, e.positionHash(a, true, bucket) % 64)
    ensures NewSlot(e, a, source) == Slot(e.newHash(a, source) % 1024, e.positionHash(a, true, e.newHash(a, source) % 1024) % 64)
  {
  }

  /**
   What the noting calls change, in the entry of exactly the service alone: an attempt its time, and with a
   counted failure that is the first since the last success anywhere also the count; a connection the
   entry's time when more than twenty minutes later; services the services.
   */
  lemma {:induction false} NoteLeaves(e: Env, s: State, a: Service, r: Remark)
    requires Consistent(e, s)
    ensures (forall id :: id in s.infos ==> s.infos[id].addr != a) ==> Note(s, a, r) == s
    ensures forall id :: id in s.infos && s.infos[id].addr == a ==>
              var i := s.infos[id];
              Note(s, a, r) == s.(infos := s.infos[id :=
                match r
                case Attempted(countFailure, time) =>
                  i.(lastTry := time,
                     lastCount := if countFailure && i.lastCount < s.lastGood then time else i.lastCount,
                     attempts := i.attempts + if countFailure && i.lastCount < s.lastGood then 1 else 0)
                case ConnectedAt(time) => i.(time := if time - i.time > 1200 then time else i.time)
                case Serves(services) => i.(services := services)])
  {
    forall id | id in s.infos ensures EntryIndexed(s.idCount, s.ids, s.random, id, s.infos[id]) { }
  }

  /** An entry is in at most eight new buckets, and in the tried table or in at least one of them. */
  lemma {:induction false} AtMostEight(e: Env, s: State, id: int)
    requires Consistent(e, s) && id in s.infos
    ensures |Buckets(e, s.news, s.infos[id].addr, id)| <= 8
    ensures s.infos[id].inTried <==> Buckets(e, s.news, s.infos[id].addr, id) == {}
  {
    if s.infos[id].inTried {
      forall sl | sl in s.news ensures s.news[sl] != id { assert HoldsNew(e, s.infos, sl, s.news[sl]); }
      NoBuckets(e, s.news, s.infos[id].addr, id);
    } else {
      assert Referenced(e, s.news, {}, id, s.infos[id]);
    }
  }

  /** An address that is not routable is refused. */
  lemma AddRefuses(e: Env, s: State, a: Service, services: Flags, time: int, source: NetAddr, penalty: int, now: int, lucky: bool)
    requires !e.routable(a.ip)
    ensures Add(e, s, a, services, time, source, penalty, now, lucky) == s
  {
  }

  lemma {:induction false} KnownName(e: Env, s: State, ip: NetAddr)
    requires Consistent(e, s) && ip in s.ids
    ensures s.ids[ip] in s.infos && s.infos[s.ids[ip]].addr.ip == ip
  {
    assert Named(s.infos, ip, s.ids[ip]);
  }

  lemma {:induction false} CountPositive(e: Env, s: State, id: int)
    requires Consistent(e, s) && id in s.infos && !s.infos[id].inTried
    ensures 0 < s.infos[id].refCount <= NEW_BUCKETS_PER_ADDRESS
  {
    assert Referenced(e, s.news, {}, id, s.infos[id]);
  }

  // ---- Resolving one collision ----

  /** The holder of the wanted slot has not connected lately. */
  ghost predicate Stale(e: Env, s: State, id: int, now: int)
    requires id in s.infos
  {
    var sl := TriedSlot(e, s.infos[id].addr);
    sl in s.tried ==> now - At(s, s.tried[sl]).lastSuccess >= 4 * HOUR
  }

  /** The wanted slot is free, or its holder failed its test, or could not be tested in time. */
  ghost predicate Wins(e: Env, s: State, id: int, now: int)
    requires id in s.infos
  {
    var sl := TriedSlot(e, s.infos[id].addr);
    sl in s.tried ==>
      var old_ := At(s, s.tried[sl]);
      Stale(e, s, id, now) && if now - old_.lastTry < 4 * HOUR then now - old_.lastTry > 60 else now - s.infos[id].lastSuccess > 2400
  }

  /**
   A pending id that is gone, invalid, or faces a holder that connected lately is dropped and
   nothing else changes. One that wins takes its tried slot. Any other waits, and nothing changes.
   */
  lemma {:induction false} ResolveOutcome(e: Env, s: State, id: int, now: int)
    requires Consistent(e, s)
    ensures var t := ResolveOne(e, s, id, now);
            if id !in s.infos || !e.valid(s.infos[id].addr) || !Stale(e, s, id, now) then t == s.(collisions := s.collisions - {id})
            else if !Wins(e, s, id, now) then t == s
            else
              && id !in t.collisions && id in t.infos && t.infos[id].inTried && t.infos[id].lastSuccess == now
              && t.tried == s.tried[TriedSlot(e, s.infos[id].addr) := id]
  {
    hide MakeTried, TablesOk, TriedSlot;
    if id in s.infos && e.valid(s.infos[id].addr) && Stale(e, s, id, now) && Wins(e, s, id, now) {
      WinnerMoves(e, s, id, now);
    }
  }

  lemma {:induction false} WinnerMoves(e: Env, s: State, id: int, now: int)
    requires Consistent(e, s) && id in s.infos
    ensures var t := Good(e, s, s.infos[id].addr, false, now);
            && id in t.infos && t.infos[id].inTried && t.infos[id].lastSuccess == now
            && t.tried == s.tried[TriedSlot(e, s.infos[id].addr) := id]
  {
    hide MakeTried, TablesOk, TriedSlot;
    if s.infos[id].inTried {
      SitsInSlot(e, s, id);
    } else {
      GoodMoves(e, s, id, false, now);
    }
  }

  lemma {:induction false} SitsInSlot(e: Env, s: State, id: int)
    requires Consistent(e, s) && id in s.infos && s.infos[id].inTried
    ensures Get(s.tried, TriedSlot(e, s.infos[id].addr)) == Some(id) && Find(s, s.infos[id].addr.ip) == Some(id)
    ensures s.tried == s.tried[TriedSlot(e, s.infos[id].addr) := id]
  {
    assert InTriedTable(e, s.tried, id, s.infos[id]);
    assert EntryIndexed(s.idCount, s.ids, s.random, id, s.infos[id]);
  }
}
