/** Every call of the address manager keeps it consistent. */
module AddrManCalls {
  import opened Wrappers
  import opened AddrManModel
  import opened AddrManInvariant

  /** Entry i of s is still there in t, unchanged but for its position in the random order. */
  ghost predicate Stays(s: State, t: State, i: int) {
    i in s.infos && i in t.infos && t.infos[i] == s.infos[i].(randomPos := t.infos[i].randomPos)
  }

  lemma {:induction false} DeleteStays(s: State, id: int, i: int)
    requires IndexOk(s) && id in s.infos && i in s.infos && i != id
    ensures Stays(s, Delete(s, id), i)
  {
    SwapToLast(s, id);
    assert EntryIndexed(s.idCount, s.ids, s.random, id, s.infos[id]);
    assert AtPos(s.infos, |s.random| - 1, s.random[|s.random| - 1]);
  }

  lemma {:induction false} ClearNewKeeps(e: Env, s: State, sl: Slot, limbo: set<int>, owed: int)
    requires Inv(e, s, limbo, owed)
    ensures Inv(e, ClearNew(s, sl), limbo, owed)
    ensures ClearNew(s, sl).news == s.news - {sl} && ClearNew(s, sl).tried == s.tried
  {
    if sl in s.news {
      UnlinkKeeps(e, s, sl, limbo, owed);
      var y := s.news[sl];
      if s.infos[y].refCount == 1 {
        DeleteKeeps(e, Unlink(s, sl), y, limbo + {y}, owed);
        assert limbo + {y} - {y} == limbo;
      }
    }
  }

  lemma {:induction false} ClearNewStays(e: Env, s: State, sl: Slot, limbo: set<int>, owed: int, i: int)
    requires Inv(e, s, limbo, owed) && i in s.infos && Get(s.news, sl) != Some(i)
    ensures Stays(s, ClearNew(s, sl), i)
  {
    if sl in s.news {
      UnlinkKeeps(e, s, sl, limbo, owed);
      if s.infos[s.news[sl]].refCount == 1 { DeleteStays(Unlink(s, sl), s.news[sl], i); }
    }
  }

  /** Limbo entries hold no slot. */
  lemma {:induction false} LimboNoSlot(e: Env, s: State, limbo: set<int>, owed: int, i: int, sl: Slot)
    requires Inv(e, s, limbo, owed) && i in limbo
    ensures i in s.infos && s.infos[i].refCount == 0 && Get(s.news, sl) != Some(i)
  {
    assert Referenced(e, s.news, limbo, i, s.infos[i]);
    NoSlot(e, s.infos, s.news, i);
  }

  lemma {:induction false} EvictKeeps(e: Env, s: State, sl: Slot, id: int, owed: int)
    requires Inv(e, s, {id}, owed)
    ensures Inv(e, Evict(e, s, sl), {id}, owed)
    ensures Stays(s, Evict(e, s, sl), id) && Evict(e, s, sl).tried == s.tried - {sl}
  {
    if sl !in s.tried { return; }
    var y, t := s.tried[sl], Untry(s, sl);
    UntryKeeps(e, s, sl, {id}, owed);
    var target := NewSlot(e, t.infos[y].addr, t.infos[y].source);
    var u := ClearNew(t, target);
    ClearNewKeeps(e, t, target, {id} + {y}, owed + 1);
    LimboNoSlot(e, t, {id} + {y}, owed + 1, y, target);
    LimboNoSlot(e, t, {id} + {y}, owed + 1, id, target);
    ClearNewStays(e, t, target, {id} + {y}, owed + 1, y);
    ClearNewStays(e, t, target, {id} + {y}, owed + 1, id);
    LinkKeeps(e, u, y, target, {id} + {y}, owed + 1);
    assert {id} + {y} - {y} == {id};
    CountShift(e, Link(u, y, target), {id}, owed + 1, 1);
  }

  lemma {:induction false} CountShift(e: Env, s: State, limbo: set<int>, owed: int, d: int)
    requires Inv(e, s, limbo, owed)
    ensures Inv(e, s.(nNew := s.nNew + d), limbo, owed - d)
  {
  }

  lemma {:induction false} MakeTriedKeeps(e: Env, s: State, id: int)
    requires Consistent(e, s) && id in s.infos && !s.infos[id].inTried
    ensures Consistent(e, MakeTried(e, s, id))
  {
    hide Try, Evict, IndexOk, TablesOk;
    var sl, t := TriedSlot(e, s.infos[id].addr), Forget(e, s, id, NEW_BUCKETS);
    ForgetKeeps(e, s, id, 0);
    CountShift(e, t, {id}, 0, -1);
    var u := t.(nNew := t.nNew - 1);
    EvictKeeps(e, u, sl, id, 1);
    TryKeeps(e, Evict(e, u, sl), id, {id}, 1);
    assert {id} - {id} == {};
  }

  lemma {:induction false} TouchKeeps(e: Env, s: State, id: int, i: Info)
    requires Consistent(e, s) && id in s.infos
    requires i.addr == s.infos[id].addr && i.inTried == s.infos[id].inTried && i.refCount == s.infos[id].refCount && i.randomPos == s.infos[id].randomPos
    ensures Consistent(e, Set(s, id, i))
  {
    var t := Set(s, id, i);
    assert t.infos.Keys == s.infos.Keys;
    IndexedKept(s.idCount, s.infos, t.infos, s.ids, s.random);
    TablesKept(e, s, t, {}, 0);
  }

  lemma {:induction false} GoodKeeps(e: Env, s: State, a: Service, test: bool, time: int)
    requires Consistent(e, s)
    ensures Consistent(e, Good(e, s, a, test, time))
  {
    hide MakeTried, Buckets;
    var u := s.(lastGood := time);
    assert Consistent(e, u);
    if Find(u, a.ip).Some? {
      var id := u.ids[a.ip];
      if u.infos[id].addr == a {
        var i := u.infos[id].(lastSuccess := time, lastTry := time, attempts := 0);
        TouchKeeps(e, u, id, i);
        if !i.inTried { MakeTriedKeeps(e, Set(u, id, i), id); }
      }
    }
  }

  lemma {:induction false} PlaceKeeps(e: Env, s: State, id: int, source: NetAddr, now: int, limbo: set<int>)
    requires Inv(e, s, limbo, 0) && limbo <= {id} && id in s.infos && !s.infos[id].inTried
    requires s.infos[id].refCount < NEW_BUCKETS_PER_ADDRESS
    ensures Consistent(e, Place(e, s, id, source, now))
  {
    var sl := NewSlot(e, s.infos[id].addr, source);
    assert Referenced(e, s.news, limbo, id, s.infos[id]);
    if sl in s.news && s.news[sl] == id {
      BucketsErase(e, s.news, sl, s.infos[id].addr, id);
      assert limbo == {};
    } else if sl !in s.news || Terrible(At(s, s.news[sl]), now) || (At(s, s.news[sl]).refCount > 1 && s.infos[id].refCount == 0) {
      ClearNewKeeps(e, s, sl, limbo, 0);
      ClearNewStays(e, s, sl, limbo, 0, id);
      LinkKeeps(e, ClearNew(s, sl), id, sl, limbo, 0);
      assert limbo - {id} == {};
    } else if s.infos[id].refCount == 0 {
      DeleteKeeps(e, s, id, limbo, 0);
      assert limbo - {id} == {};
    } else {
      assert limbo == {};
    }
  }

  lemma {:induction false} FindSpec(s: State, ip: NetAddr)
    requires IndexOk(s)
    ensures Find(s, ip) == Get(s.ids, ip)
    ensures ip in s.ids ==> s.ids[ip] in s.infos && s.infos[s.ids[ip]].addr.ip == ip
  {
    assert ip in s.ids ==> Named(s.infos, ip, s.ids[ip]);
  }

  lemma {:induction false} FindKnown(e: Env, s: State, ip: NetAddr)
    requires Consistent(e, s)
    ensures Find(s, ip) == Get(s.ids, ip)
    ensures ip in s.ids ==> s.ids[ip] in s.infos && s.infos[s.ids[ip]].addr.ip == ip
  {
    FindSpec(s, ip);
  }

  lemma {:induction false} AddKeeps(e: Env, s: State, a: Service, services: Flags, time: int, source: NetAddr, penalty: int, now: int, lucky: bool)
    requires Consistent(e, s)
    ensures Consistent(e, Add(e, s, a, services, time, source, penalty, now, lucky))
  {
    hide Place, Consistent, Create;
    var pen := if a.ip == source then 0 else penalty;
    FindKnown(e, s, a.ip);
    if !e.routable(a.ip) {
    } else if a.ip in s.ids {
      var id := s.ids[a.ip];
      var i := Refreshed(s.infos[id], services, time, pen, now);
      RenewKeeps(e, s, id, i, source, now);
      assert Add(e, s, a, services, time, source, penalty, now, lucky) == Set(s, id, i) ||
             Add(e, s, a, services, time, source, penalty, now, lucky) == Place(e, Set(s, id, i), id, source, now);
    } else {
      EnterKeeps(e, s, a, services, Max(0, time - pen), source, now);
    }
  }

  lemma {:induction false} RenewKeeps(e: Env, s: State, id: int, i: Info, source: NetAddr, now: int)
    requires Consistent(e, s) && id in s.infos
    requires i == s.infos[id].(services := i.services, time := i.time)
    ensures Consistent(e, Set(s, id, i))
    ensures !i.inTried && i.refCount != NEW_BUCKETS_PER_ADDRESS ==> Consistent(e, Place(e, Set(s, id, i), id, source, now))
  {
    TouchKeeps(e, s, id, i);
    assert Referenced(e, s.news, {}, id, s.infos[id]);
    if !i.inTried && i.refCount != NEW_BUCKETS_PER_ADDRESS { PlaceKeeps(e, Set(s, id, i), id, source, now, {}); }
  }

  lemma {:induction false} EnterKeeps(e: Env, s: State, a: Service, services: Flags, time: int, source: NetAddr, now: int)
    requires Consistent(e, s) && a.ip !in s.ids
    ensures var t := Create(s, a, services, time, source);
            Consistent(e, Place(e, t.(nNew := t.nNew + 1), s.idCount, source, now))
  {
    var t := Create(s, a, services, time, source);
    CreateKeeps(e, s, a, services, time, source);
    CountShift(e, t, {s.idCount}, 1, 1);
    PlaceKeeps(e, t.(nNew := t.nNew + 1), s.idCount, source, now, {s.idCount});
  }

  lemma {:induction false} ResolveOneKeeps(e: Env, s: State, id: int, now: int)
    requires Consistent(e, s)
    ensures Consistent(e, ResolveOne(e, s, id, now))
  {
    hide Good;
    GoodKeeps(e, s, At(s, id).addr, false, now);
  }

  lemma {:induction false} ResolveAllKeeps(e: Env, s: State, order: seq<int>, now: int)
    requires Consistent(e, s)
    ensures Consistent(e, ResolveAll(e, s, order, now))
    decreases |order|
  {
    if order != [] {
      ResolveOneKeeps(e, s, order[0], now);
      ResolveAllKeeps(e, ResolveOne(e, s, order[0], now), order[1..], now);
    }
  }
}
