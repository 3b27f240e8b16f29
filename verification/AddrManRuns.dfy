/**
 Runs of the address manager after start-up: a filled tried slot stays filled, so a pending
 collision always has an entry to collide with.
 */
module AddrManRuns {
  import opened Wrappers
  import opened AddrManModel
  import opened AddrManInvariant
  import opened AddrManCalls

  /** Pending collisions are known ids; a live one wants a tried slot that is taken. */
  ghost predicate Pending(e: Env, s: State, id: int) {
    0 <= id < s.idCount && (id in s.infos ==> TriedSlot(e, s.infos[id].addr) in s.tried)
  }

  ghost predicate CollisionsOk(e: Env, s: State) {
    forall id {:trigger Pending(e, s, id)} :: id in s.collisions ==> Pending(e, s, id)
  }

  /** From s to t no tried slot empties, and no id changes its address or comes back. */
  ghost predicate Persists(s: State, t: State) {
    && s.idCount <= t.idCount
    && s.tried.Keys <= t.tried.Keys
    && forall id :: id in t.infos && id < s.idCount ==> id in s.infos && s.infos[id].addr == t.infos[id].addr
  }

  lemma {:induction false} PersistsKeeps(e: Env, s: State, t: State)
    requires CollisionsOk(e, s) && Persists(s, t) && t.collisions <= s.collisions
    ensures CollisionsOk(e, t)
  {
    forall id | id in t.collisions ensures Pending(e, t, id) { assert Pending(e, s, id); }
  }

  lemma {:induction false} PersistsTransitive(s: State, t: State, u: State)
    requires Persists(s, t) && Persists(t, u)
    ensures Persists(s, u)
  {
  }

  // ---- Steps ----

  /** Deleting and unlinking leave every remaining entry's address alone. */
  lemma {:induction false} DeletePersists(s: State, id: int)
    requires IndexOk(s) && id in s.infos
    ensures Persists(s, Delete(s, id)) && Delete(s, id).tried == s.tried && Delete(s, id).collisions == s.collisions
    ensures Delete(s, id).infos.Keys == s.infos.Keys - {id} && Delete(s, id).idCount == s.idCount
  {
    SwapToLast(s, id);
  }

  lemma {:induction false} ClearNewPersists(e: Env, s: State, sl: Slot, limbo: set<int>, owed: int)
    requires Inv(e, s, limbo, owed)
    ensures Persists(s, ClearNew(s, sl)) && ClearNew(s, sl).tried == s.tried && ClearNew(s, sl).collisions == s.collisions
    ensures ClearNew(s, sl).idCount == s.idCount && ClearNew(s, sl).infos.Keys <= s.infos.Keys
  {
    if sl in s.news {
      UnlinkKeeps(e, s, sl, limbo, owed);
      if s.infos[s.news[sl]].refCount == 1 { DeletePersists(Unlink(s, sl), s.news[sl]); }
    }
  }

  lemma {:induction false} EvictPersists(e: Env, s: State, sl: Slot, id: int, owed: int)
    requires Inv(e, s, {id}, owed)
    ensures var t := Evict(e, s, sl);
            && t.idCount == s.idCount && t.collisions == s.collisions && t.infos.Keys <= s.infos.Keys
            && forall i :: i in t.infos ==> t.infos[i].addr == s.infos[i].addr
  {
    hide ClearNew, IndexOk, TablesOk;
    if sl !in s.tried { return; }
    var y, t := s.tried[sl], Untry(s, sl);
    UntryKeeps(e, s, sl, {id}, owed);
    var target := NewSlot(e, t.infos[y].addr, t.infos[y].source);
    ClearNewPersists(e, t, target, {id} + {y}, owed + 1);
    ClearNewHolds(e, t, target, {id} + {y}, owed + 1, y);
    KeysBelow(e, t, {id} + {y}, owed + 1);
  }

  lemma {:induction false} KeysBelow(e: Env, s: State, limbo: set<int>, owed: int)
    requires Inv(e, s, limbo, owed)
    ensures forall i :: i in s.infos ==> i < s.idCount
  {
    forall i | i in s.infos ensures i < s.idCount { IdBelow(s, i); }
  }

  lemma {:induction false} ClearNewHolds(e: Env, s: State, sl: Slot, limbo: set<int>, owed: int, y: int)
    requires Inv(e, s, limbo, owed) && y in limbo
    ensures Stays(s, ClearNew(s, sl), y)
  {
    LimboNoSlot(e, s, limbo, owed, y, sl);
    ClearNewStays(e, s, sl, limbo, owed, y);
  }

  lemma {:induction false} MakeTriedPersists(e: Env, s: State, id: int)
    requires Consistent(e, s) && id in s.infos && !s.infos[id].inTried
    ensures Persists(s, MakeTried(e, s, id)) && MakeTried(e, s, id).collisions == s.collisions
    ensures TriedSlot(e, s.infos[id].addr) in MakeTried(e, s, id).tried
  {
    hide Evict, IndexOk, TablesOk;
    var sl, t := TriedSlot(e, s.infos[id].addr), Forget(e, s, id, NEW_BUCKETS);
    ForgetKeeps(e, s, id, 0);
    CountShift(e, t, {id}, 0, -1);
    var u := t.(nNew := t.nNew - 1);
    EvictKeeps(e, u, sl, id, 1);
    EvictPersists(e, u, sl, id, 1);
  }

  lemma {:induction false} GoodPersists(e: Env, s: State, a: Service, test: bool, time: int)
    requires Consistent(e, s) && CollisionsOk(e, s)
    ensures Persists(s, Good(e, s, a, test, time)) && CollisionsOk(e, Good(e, s, a, test, time))
    ensures Good(e, s, a, false, time).collisions == s.collisions
  {
    hide MakeTried, Consistent;
    var u := s.(lastGood := time);
    FindKnown(e, s, a.ip);
    if a.ip in s.ids && s.infos[s.ids[a.ip]].addr == a {
      var id := s.ids[a.ip];
      var i := s.infos[id].(lastSuccess := time, lastTry := time, attempts := 0);
      LastGoodKeeps(e, s, time);
      TouchKeeps(e, u, id, i);
      var t := Set(u, id, i);
      assert Persists(s, t);
      PersistsKeeps(e, s, t);
      if !i.inTried {
        MakeTriedPersists(e, t, id);
        PersistsTransitive(s, t, MakeTried(e, t, id));
        PersistsKeeps(e, t, MakeTried(e, t, id));
      }
      IdKnown(e, s, id);
      AddPending(e, t, id);
    } else {
      PersistsKeeps(e, s, u);
    }
  }

  lemma {:induction false} IdKnown(e: Env, s: State, id: int)
    requires Consistent(e, s) && id in s.infos
    ensures 0 <= id < s.idCount
  {
    IdBelow(s, id);
  }

  lemma {:induction false} LastGoodKeeps(e: Env, s: State, time: int)
    requires Consistent(e, s)
    ensures Consistent(e, s.(lastGood := time))
  {
  }

  lemma {:induction false} AddPending(e: Env, t: State, id: int)
    requires CollisionsOk(e, t)
    ensures Pending(e, t, id) ==> CollisionsOk(e, t.(collisions := t.collisions + {id}))
  {
    var u := t.(collisions := t.collisions + {id});
    if Pending(e, t, id) {
      forall i | i in u.collisions ensures Pending(e, u, i) { assert Pending(e, t, i); }
    }
  }

  lemma {:induction false} PlacePersists(e: Env, s: State, id: int, source: NetAddr, now: int, limbo: set<int>)
    requires Inv(e, s, limbo, 0) && limbo <= {id} && id in s.infos
    ensures Persists(s, Place(e, s, id, source, now)) && Place(e, s, id, source, now).collisions == s.collisions
    ensures Place(e, s, id, source, now).tried == s.tried
  {
    hide ClearNew, Delete, TablesOk;
    var sl := NewSlot(e, s.infos[id].addr, source);
    ClearNewPersists(e, s, sl, limbo, 0);
    if Get(s.news, sl) != Some(id) { ClearNewStays(e, s, sl, limbo, 0, id); }
    DeletePersists(s, id);
  }

  lemma {:induction false} AddPersists(e: Env, s: State, a: Service, services: Flags, time: int, source: NetAddr, penalty: int, now: int, lucky: bool)
    requires Consistent(e, s) && CollisionsOk(e, s)
    ensures var t := Add(e, s, a, services, time, source, penalty, now, lucky);
            Persists(s, t) && CollisionsOk(e, t) && t.tried == s.tried
  {
    hide Place, Consistent, Inv;
    var pen := if a.ip == source then 0 else penalty;
    FindKnown(e, s, a.ip);
    var r := Add(e, s, a, services, time, source, penalty, now, lucky);
    if !e.routable(a.ip) {
    } else if a.ip in s.ids {
      var id := s.ids[a.ip];
      var i := Refreshed(s.infos[id], services, time, pen, now);
      TouchKeeps(e, s, id, i);
      var t := Set(s, id, i);
      assert Persists(s, t);
      AsInv(e, t);
      PlacePersists(e, t, id, source, now, {});
      PersistsTransitive(s, t, Place(e, t, id, source, now));
      assert r == t || r == Place(e, t, id, source, now);
    } else {
      var t := Create(s, a, services, Max(0, time - pen), source);
      EnterInv(e, s, a, services, Max(0, time - pen), source);
      var u := t.(nNew := t.nNew + 1);
      assert Persists(s, u);
      PlacePersists(e, u, s.idCount, source, now, {s.idCount});
      PersistsTransitive(s, u, Place(e, u, s.idCount, source, now));
    }
    PersistsKeeps(e, s, r);
  }

  lemma {:induction false} AsInv(e: Env, s: State)
    requires Consistent(e, s)
    ensures Inv(e, s, {}, 0)
  {
  }

  lemma {:induction false} EnterInv(e: Env, s: State, a: Service, services: Flags, time: int, source: NetAddr)
    requires Consistent(e, s) && a.ip !in s.ids
    ensures var t := Create(s, a, services, time, source); Inv(e, t.(nNew := t.nNew + 1), {s.idCount}, 0)
    ensures s.idCount !in s.infos
  {
    CreateIndexed(s, a, services, time, source);
    CreateKeeps(e, s, a, services, time, source);
    CountShift(e, Create(s, a, services, time, source), {s.idCount}, 1, 1);
  }

  lemma {:induction false} ResolveOnePersists(e: Env, s: State, id: int, now: int)
    requires Consistent(e, s) && CollisionsOk(e, s)
    ensures Persists(s, ResolveOne(e, s, id, now)) && CollisionsOk(e, ResolveOne(e, s, id, now))
    ensures ResolveOne(e, s, id, now).collisions <= s.collisions
  {
    hide Good, Consistent;
    var g := Good(e, s, At(s, id).addr, false, now);
    GoodPersists(e, s, At(s, id).addr, false, now);
    PersistsKeeps(e, s, s.(collisions := s.collisions - {id}));
    assert Persists(g, g.(collisions := g.collisions - {id}));
    PersistsKeeps(e, g, g.(collisions := g.collisions - {id}));
  }

  lemma {:induction false} ResolveAllPersists(e: Env, s: State, order: seq<int>, now: int)
    requires Consistent(e, s) && CollisionsOk(e, s)
    ensures Persists(s, ResolveAll(e, s, order, now)) && CollisionsOk(e, ResolveAll(e, s, order, now))
    decreases |order|
  {
    hide ResolveOne, Consistent;
    if order != [] {
      var t := ResolveOne(e, s, order[0], now);
      ResolveOnePersists(e, s, order[0], now);
      ResolveOneKeeps(e, s, order[0], now);
      ResolveAllPersists(e, t, order[1..], now);
      PersistsTransitive(s, t, ResolveAll(e, t, order[1..], now));
    }
  }

  // ---- Runs ----

  datatype Call =
    | CallAdd(a: Service, services: Flags, time: int, source: NetAddr, penalty: int, now: int, lucky: bool)
    | CallGood(a: Service, test: bool, time: int)
    | CallResolve(order: seq<int>, now: int)
    | CallNote(a: Service, r: Remark) // Attempt_, Connected_, SetServices_
    | CallSwap(i: int, j: int)       // one turn of GetAddr_
    | CallForget(id: int)            // SelectTriedCollision_ dropping a dead id

  function Do(e: Env, s: State, c: Call): State {
    match c
    case CallAdd(a, services, time, source, penalty, now, lucky) => Add(e, s, a, services, time, source, penalty, now, lucky)
    case CallGood(a, test, time) => Good(e, s, a, test, time)
    case CallResolve(order, now) => ResolveAll(e, s, order, now)
    case CallNote(a, r) => Note(s, a, r)
    case CallSwap(i, j) => SwapRandom(s, i, j)
    case CallForget(id) => s.(collisions := s.collisions - {id})
  }

  function DoAll(e: Env, s: State, cs: seq<Call>): State
    decreases |cs|
  {
    if cs == [] then s else DoAll(e, Do(e, s, cs[0]), cs[1..])
  }

  lemma {:induction false} DoKeeps(e: Env, s: State, c: Call)
    requires Consistent(e, s) && CollisionsOk(e, s)
    ensures Consistent(e, Do(e, s, c)) && CollisionsOk(e, Do(e, s, c)) && Persists(s, Do(e, s, c))
  {
    hide Add, Good, ResolveAll, Note, IndexOk, TablesOk;
    match c
    case CallAdd(a, services, time, source, penalty, now, lucky) =>
      AddKeeps(e, s, a, services, time, source, penalty, now, lucky);
      AddPersists(e, s, a, services, time, source, penalty, now, lucky);
    case CallGood(a, test, time) =>
      GoodKeeps(e, s, a, test, time);
      GoodPersists(e, s, a, test, time);
    case CallResolve(order, now) =>
      ResolveAllKeeps(e, s, order, now);
      ResolveAllPersists(e, s, order, now);
    case CallNote(a, r) =>
      NoteKeeps(e, s, a, r);
    case CallSwap(i, j) =>
      SwapKeeps(e, s, i, j, {}, 0);
      SwapPersists(e, s, i, j);
    case CallForget(id) =>
      ForgottenKeeps(e, s, id);
  }

  /** Noting something in an entry changes no structure. */
  lemma {:induction false} NoteKeeps(e: Env, s: State, a: Service, r: Remark)
    requires Consistent(e, s) && CollisionsOk(e, s)
    ensures var t := Note(s, a, r); Consistent(e, t) && CollisionsOk(e, t) && Persists(s, t)
  {
    hide Consistent, CollisionsOk;
    if Find(s, a.ip).Some? {
      var id := s.ids[a.ip];
      TouchKeeps(e, s, id, Noted(s.infos[id], r, s.lastGood));
    }
    PersistsKeeps(e, s, Note(s, a, r));
  }

  lemma {:induction false} SwapPersists(e: Env, s: State, i: int, j: int)
    requires Consistent(e, s) && CollisionsOk(e, s)
    ensures Persists(s, SwapRandom(s, i, j)) && CollisionsOk(e, SwapRandom(s, i, j))
  {
    SwapIndexed(s, i, j);
    PersistsKeeps(e, s, SwapRandom(s, i, j));
  }

  lemma {:induction false} ForgottenKeeps(e: Env, s: State, id: int)
    requires Consistent(e, s) && CollisionsOk(e, s)
    ensures var t := s.(collisions := s.collisions - {id});
            Consistent(e, t) && CollisionsOk(e, t) && Persists(s, t)
  {
    PersistsKeeps(e, s, s.(collisions := s.collisions - {id}));
  }

  /** Through any run: consistent throughout, and every tried slot once filled stays filled. */
  lemma {:induction false} DoAllKeeps(e: Env, s: State, cs: seq<Call>)
    requires Consistent(e, s) && CollisionsOk(e, s)
    ensures Consistent(e, DoAll(e, s, cs)) && CollisionsOk(e, DoAll(e, s, cs)) && Persists(s, DoAll(e, s, cs))
    decreases |cs|
  {
    hide Do, Consistent, CollisionsOk;
    if cs != [] {
      DoKeeps(e, s, cs[0]);
      DoAllKeeps(e, Do(e, s, cs[0]), cs[1..]);
      PersistsTransitive(s, Do(e, s, cs[0]), DoAll(e, s, cs));
    }
  }
}
