/**
 The address manager as an object: its two tables are fixed two-dimensional arrays in which -1
 marks a free place. Each method is proved against the value it stands for.
 */
module AddrManObject {
  import opened Wrappers
  import opened AddrManModel
  import opened AddrManInvariant
  import opened AddrManCalls
  import opened AddrManRuns
  import opened AddrManLoops

  class AddrMan {
    const env: Env
    var nIdCount: int
    var mapInfo: Infos
    var mapAddr: map<NetAddr, int>
    var vRandom: seq<int>
    var nTried: int
    const vvTried: array2<int>
    var nNew: int
    const vvNew: array2<int>
    var nLastGood: int
    var triedCollisions: set<int>
    ghost var tried: Table
    ghost var news: Table

    ghost predicate Valid()
      reads this`tried, this`news, vvTried, vvNew
    {
      && vvNew != vvTried
      && vvTried.Length0 == TRIED_BUCKETS && vvTried.Length1 == BUCKET_SIZE
      && vvNew.Length0 == NEW_BUCKETS && vvNew.Length1 == BUCKET_SIZE
      && Mirrors(vvTried, tried) && Mirrors(vvNew, news)
    }

    ghost function Value(): State
      reads this
    {
      State(nIdCount, mapInfo, mapAddr, vRandom, nTried, tried, nNew, news, nLastGood, triedCollisions)
    }

    constructor (e: Env)
      ensures Valid() && env == e && fresh(vvTried) && fresh(vvNew)
      ensures Consistent(e, Value()) && CollisionsOk(e, Value()) && Value().infos == map[]
    {
      env := e;
      nIdCount, mapInfo, mapAddr, vRandom, nTried, nNew, nLastGood, triedCollisions := 0, map[], map[], [], 0, 0, 1, {};
      vvTried := new int[TRIED_BUCKETS, BUCKET_SIZE]((b, p) => -1);
      vvNew := new int[NEW_BUCKETS, BUCKET_SIZE]((b, p) => -1);
      tried, news := map[], map[];
      new;
      StartsConsistent(env, Value());
    }

    method TriedAt(b: int, p: int) returns (x: int)
      requires Valid() && 0 <= b < TRIED_BUCKETS && 0 <= p < BUCKET_SIZE
      ensures x == if Slot(b, p) in tried then tried[Slot(b, p)] else -1
      ensures x == -1 <==> Slot(b, p) !in tried
    {
      x := vvTried[b, p];
    }

    method NewAt(b: int, p: int) returns (x: int)
      requires Valid() && 0 <= b < NEW_BUCKETS && 0 <= p < BUCKET_SIZE
      ensures x == if Slot(b, p) in news then news[Slot(b, p)] else -1
      ensures x == -1 <==> Slot(b, p) !in news
    {
      x := vvNew[b, p];
    }

    method SetTried(b: int, p: int, x: int)
      requires Valid() && 0 <= b < TRIED_BUCKETS && 0 <= p < BUCKET_SIZE
      modifies this`tried, vvTried
      ensures Valid() && tried == SetOrErase(old(tried), Slot(b, p), if x == -1 then None else Some(x))
    {
      SetCell(vvTried, b, p, x, tried);
      tried := SetOrErase(tried, Slot(b, p), if x == -1 then None else Some(x));
    }

    method SetNew(b: int, p: int, x: int)
      requires Valid() && 0 <= b < NEW_BUCKETS && 0 <= p < BUCKET_SIZE
      modifies this`news, vvNew
      ensures Valid() && news == SetOrErase(old(news), Slot(b, p), if x == -1 then None else Some(x))
    {
      SetCell(vvNew, b, p, x, news);
      news := SetOrErase(news, Slot(b, p), if x == -1 then None else Some(x));
    }

    method SwapRandom(i: int, j: int)
      requires Valid() && IndexOk(Value()) && 0 <= i < |vRandom| && 0 <= j < |vRandom|
      modifies this`mapInfo, this`vRandom
      ensures Valid() && Value() == AddrManModel.SwapRandom(old(Value()), i, j)
    {
      if i == j { return; }
      var a, b := vRandom[i], vRandom[j];
      assert AtPos(mapInfo, i, a) && AtPos(mapInfo, j, b);
      mapInfo := mapInfo[a := mapInfo[a].(randomPos := j)];
      mapInfo := mapInfo[b := mapInfo[b].(randomPos := i)];
      vRandom := vRandom[i := b][j := a];
    }

    method Delete(id: int)
      requires Valid() && IndexOk(Value())
      requires id in mapInfo && !mapInfo[id].inTried && mapInfo[id].refCount == 0
      modifies this`mapInfo, this`vRandom, this`mapAddr, this`nNew
      ensures Valid() && Value() == AddrManModel.Delete(old(Value()), id)
    {
      assert EntryIndexed(nIdCount, mapAddr, vRandom, id, mapInfo[id]);
      hide Valid, IndexOk, AddrManModel.SwapRandom, AddrManModel.DropLast;
      SwapToLast(Value(), id);
      SwapRandom(mapInfo[id].randomPos, |vRandom| - 1);
      DropLast(id);
    }

    method DropLast(id: int)
      requires Valid() && id in mapInfo && vRandom != []
      modifies this`mapInfo, this`vRandom, this`mapAddr, this`nNew
      ensures Valid() && Value() == AddrManModel.DropLast(old(Value()), id)
    {
      vRandom := vRandom[..|vRandom| - 1];
      mapAddr := mapAddr - {mapInfo[id].addr.ip};
      mapInfo := mapInfo - {id};
      nNew := nNew - 1;
    }

    /** The occupant of a new slot loses that reference. */
    method UnlinkAt(b: int, p: int, id: int)
      requires Valid() && 0 <= b < NEW_BUCKETS && 0 <= p < BUCKET_SIZE && Get(news, Slot(b, p)) == Some(id) && id in mapInfo
      modifies this`mapInfo, this`news, vvNew
      ensures Valid() && Value() == Unlink(old(Value()), Slot(b, p))
    {
      hide Valid;
      mapInfo := mapInfo[id := mapInfo[id].(refCount := mapInfo[id].refCount - 1)];
      SetNew(b, p, -1);
    }

    method ClearNew(b: int, p: int, ghost limbo: set<int>, ghost owed: int)
      requires Valid() && Inv(env, Value(), limbo, owed) && 0 <= b < NEW_BUCKETS && 0 <= p < BUCKET_SIZE
      modifies this`mapInfo, this`vRandom, this`mapAddr, this`nNew, this`news, vvNew
      ensures Valid() && Value() == AddrManModel.ClearNew(old(Value()), Slot(b, p))
    {
      hide Valid, Unlink, AddrManModel.Delete;
      UnlinkEntry(env, Value(), Slot(b, p), limbo, owed);
      var id := NewAt(b, p);
      if id != -1 {
        UnlinkKeeps(env, Value(), Slot(b, p), limbo, owed);
        assert mapInfo[id].refCount > 0;
        UnlinkAt(b, p, id);
        if mapInfo[id].refCount == 0 {
          Delete(id);
        }
      }
    }

    /** The entry leaves the new table for its tried slot; whoever is there goes back to new. */
    method MakeTried(id: int)
      requires Valid() && Consistent(env, Value()) && id in mapInfo && !mapInfo[id].inTried
      modifies this`mapInfo, this`vRandom, this`mapAddr, this`nNew, this`nTried, this`news, this`tried, vvNew, vvTried
      ensures Valid() && Value() == AddrManModel.MakeTried(env, old(Value()), id)
    {
      hide Evict, IndexOk, TablesOk, Valid, Try;
      ghost var s := Value();
      var a := mapInfo[id].addr;
      IdKnown(env, s, id);
      ForgetKeeps(env, s, id, 0);
      CountShift(env, Forget(env, s, id, NEW_BUCKETS), {id}, 0, -1);
      LeaveNew(id);
      nNew := nNew - 1;
      assert mapInfo[id].refCount == 0;
      var kb := env.triedHash(a) % TRIED_BUCKETS;
      var kp := env.positionHash(a, false, kb) % BUCKET_SIZE;
      ghost var t := Value();
      EvictKeeps(env, t, Slot(kb, kp), id, 1);
      EvictFrom(kb, kp, id);
      var free := TriedAt(kb, kp);
      assert free == -1;
      TryAt(kb, kp, id);
    }

    /** The entry takes the free tried slot. */
    method TryAt(kb: int, kp: int, id: int)
      requires Valid() && 0 <= kb < TRIED_BUCKETS && 0 <= kp < BUCKET_SIZE && 0 <= id
      requires id in mapInfo && TriedSlot(env, mapInfo[id].addr) == Slot(kb, kp)
      modifies this`mapInfo, this`nTried, this`tried, vvTried
      ensures Valid() && Value() == Try(env, old(Value()), id)
    {
      hide Valid;
      SetTried(kb, kp, id);
      nTried := nTried + 1;
      mapInfo := mapInfo[id := mapInfo[id].(inTried := true)];
    }

    /** The first loop of MakeTried. */
    method LeaveNew(id: int)
      requires Valid() && Consistent(env, Value()) && id in mapInfo
      modifies this`mapInfo, this`news, vvNew
      ensures Valid() && Value() == Forget(env, old(Value()), id, NEW_BUCKETS)
    {
      hide Forget, Consistent, Valid;
      ghost var s := Value();
      var a := mapInfo[id].addr;
      ForgetNone(env, s, id);
      IdKnown(env, s, id);
      for bucket := 0 to NEW_BUCKETS
        invariant Valid() && Value() == Forget(env, s, id, bucket)
        invariant id in mapInfo && mapInfo[id].addr == a
      {
        var pos := env.positionHash(a, true, bucket) % BUCKET_SIZE;
        ForgetNext(env, s, id, bucket);
        var holder := NewAt(bucket, pos);
        if holder == id {
          SetNew(bucket, pos, -1);
          mapInfo := mapInfo[id := mapInfo[id].(refCount := mapInfo[id].refCount - 1)];
        }
      }
    }

    /** The eviction inside MakeTried. */
    method EvictFrom(kb: int, kp: int, ghost id: int)
      requires Valid() && Inv(env, Value(), {id}, 1) && 0 <= kb < TRIED_BUCKETS && 0 <= kp < BUCKET_SIZE
      modifies this`mapInfo, this`vRandom, this`mapAddr, this`nNew, this`nTried, this`news, this`tried, vvNew, vvTried
      ensures Valid() && Value() == Evict(env, old(Value()), Slot(kb, kp))
    {
      hide AddrManModel.ClearNew, IndexOk, TablesOk, Valid, Untry;
      ghost var s := Value();
      UntryFields(env, s, Slot(kb, kp));
      var evict := TriedAt(kb, kp);
      if evict == -1 { return; }
      UntryKeeps(env, s, Slot(kb, kp), {id}, 1);
      assert evict in mapInfo;
      UntryAt(kb, kp, evict);
      ghost var t := Value();
      var ub := env.newHash(mapInfo[evict].addr, mapInfo[evict].source) % NEW_BUCKETS;
      var up := env.positionHash(mapInfo[evict].addr, true, ub) % BUCKET_SIZE;
      ClearNewHolds(env, t, Slot(ub, up), {id} + {evict}, 2, evict);
      ClearNew(ub, up, {id} + {evict}, 2);
      var free := NewAt(ub, up);
      assert free == -1 by { ClearNewKeeps(env, t, Slot(ub, up), {id} + {evict}, 2); }
      mapInfo := mapInfo[evict := mapInfo[evict].(refCount := 1)];
      SetNew(ub, up, evict);
      nNew := nNew + 1;
    }

    method UntryAt(kb: int, kp: int, evict: int)
      requires Valid() && 0 <= kb < TRIED_BUCKETS && 0 <= kp < BUCKET_SIZE && Get(tried, Slot(kb, kp)) == Some(evict) && evict in mapInfo
      modifies this`mapInfo, this`nTried, this`tried, vvTried
      ensures Valid() && Value() == Untry(old(Value()), Slot(kb, kp))
    {
      hide Valid;
      mapInfo := mapInfo[evict := mapInfo[evict].(inTried := false)];
      SetTried(kb, kp, -1);
      nTried := nTried - 1;
    }

    method Find(ip: NetAddr) returns (r: Option<int>)
      ensures r == AddrManModel.Find(Value(), ip)
    {
      r := if ip in mapAddr && mapAddr[ip] in mapInfo then Some(mapAddr[ip]) else None;
    }

    /** A new bucket that holds the entry, searched from a random start; -1 when there is none. */
    method FindBucket(id: int) returns (bucket: int)
      requires Valid() && id in mapInfo && id >= 0
      ensures var bs := Buckets(env, news, mapInfo[id].addr, id); if bucket == -1 then bs == {} else bucket in bs
    {
      var a := mapInfo[id].addr;
      ghost var bs := Buckets(env, news, a, id);
      var start :| 0 <= start < NEW_BUCKETS;
      for n := 0 to NEW_BUCKETS
        invariant forall m :: 0 <= m < n ==> Turn(start, m) !in bs
      {
        var b := Turn(start, n);
        var p := env.positionHash(a, true, b) % BUCKET_SIZE;
        var holder := NewAt(b, p);
        if holder == id { return b; }
      }
      bucket := -1;
      forall b: int ensures b !in bs {
        if 0 <= b < NEW_BUCKETS { TurnsCover(start, b); }
      }
    }

    /** The entry goes to its tried slot, or waits as a collision when the slot must be tested first. */
    method Good(a: Service, test: bool, time: int)
      requires Valid() && Consistent(env, Value())
      modifies this`mapInfo, this`vRandom, this`mapAddr, this`nNew, this`nTried, this`nLastGood, this`triedCollisions, this`news, this`tried, vvNew, vvTried
      ensures Valid() && Value() == AddrManModel.Good(env, old(Value()), a, test, time)
      ensures Consistent(env, Value())
    {
      hide Valid, Consistent, AddrManModel.MakeTried;
      GoodKeeps(env, Value(), a, test, time);
      LastGoodKeeps(env, Value(), time);
      nLastGood := time;
      var r := Find(a.ip);
      if r.None? { return; }
      var id := r.value;
      if mapInfo[id].addr != a { return; }
      var i := mapInfo[id].(lastSuccess := time, lastTry := time, attempts := 0);
      TouchKeeps(env, Value(), id, i);
      IdKnown(env, Value(), id);
      mapInfo := mapInfo[id := i];
      if i.inTried { return; }
      var bucket := FindBucket(id);
      if bucket == -1 { return; }
      var kb := env.triedHash(a) % TRIED_BUCKETS;
      var kp := env.positionHash(a, false, kb) % BUCKET_SIZE;
      var holder := TriedAt(kb, kp);
      if test && holder != -1 {
        if |triedCollisions| < COLLISION_SIZE {
          triedCollisions := triedCollisions + {id};
        }
      } else {
        MakeTried(id);
      }
    }

    /** The tail of Add_: find the entry a place in the bucket its source gives it. */
    method Place(id: int, source: NetAddr, now: int, ghost limbo: set<int>)
      requires Valid() && Inv(env, Value(), limbo, 0) && limbo <= {id} && id in mapInfo && !mapInfo[id].inTried
      requires mapInfo[id].refCount < NEW_BUCKETS_PER_ADDRESS
      modifies this`mapInfo, this`vRandom, this`mapAddr, this`nNew, this`news, vvNew
      ensures Valid() && Value() == AddrManModel.Place(env, old(Value()), id, source, now)
    {
      hide Valid, AddrManModel.ClearNew, AddrManModel.Delete, TablesOk;
      ghost var s := Value();
      var a := mapInfo[id].addr;
      var ub := env.newHash(a, source) % NEW_BUCKETS;
      var up := env.positionHash(a, true, ub) % BUCKET_SIZE;
      var holder := NewAt(ub, up);
      PlaceKnown(env, s, id, Slot(ub, up), limbo);
      if holder != id {
        var insert := holder == -1;
        if !insert {
          insert := Terrible(mapInfo[holder], now) || (mapInfo[holder].refCount > 1 && mapInfo[id].refCount == 0);
        }
        if insert {
          ClearNew(ub, up, limbo, 0);
          mapInfo := mapInfo[id := mapInfo[id].(refCount := mapInfo[id].refCount + 1)];
          SetNew(ub, up, id);
        } else if mapInfo[id].refCount == 0 {
          Delete(id);
        }
      }
    }

    method Create(a: Service, services: Flags, time: int, source: NetAddr) returns (id: int)
      modifies this`nIdCount, this`mapInfo, this`vRandom, this`mapAddr
      ensures Value() == AddrManModel.Create(old(Value()), a, services, time, source) && id == old(nIdCount)
    {
      id := nIdCount;
      nIdCount := nIdCount + 1;
      mapInfo := mapInfo[id := Info(a, services, source, time, 0, 0, 0, 0, 0, false, 0)];
      mapAddr := mapAddr[a.ip := id];
      mapInfo := mapInfo[id := mapInfo[id].(randomPos := |vRandom|)];
      vRandom := vRandom + [id];
    }

    /** True when the address was not known before, whether or not it found a place. */
    method Add(a: Service, services: Flags, time: int, source: NetAddr, penalty: int, now: int, lucky: bool) returns (added: bool)
      requires Valid() && Consistent(env, Value())
      modifies this`nIdCount, this`mapInfo, this`vRandom, this`mapAddr, this`nNew, this`news, vvNew
      ensures Valid() && Value() == AddrManModel.Add(env, old(Value()), a, services, time, source, penalty, now, lucky)
      ensures Consistent(env, Value())
      ensures added <==> env.routable(a.ip) && a.ip !in old(mapAddr)
    {
      hide Valid, Consistent, Inv, AddrManModel.Place;
      ghost var s := Value();
      AddKeeps(env, s, a, services, time, source, penalty, now, lucky);
      FindKnown(env, s, a.ip);
      if !env.routable(a.ip) { return false; }
      var pen := if a.ip == source then 0 else penalty;
      var r := Find(a.ip);
      if r.Some? {
        var id := r.value;
        var i := Refreshed(mapInfo[id], services, time, pen, now);
        RenewInv(env, s, id, i);
        mapInfo := mapInfo[id := i];
        if time == 0 || (i.time != 0 && time <= i.time) { return false; }
        if i.inTried { return false; }
        if i.refCount == NEW_BUCKETS_PER_ADDRESS { return false; }
        if i.refCount > 0 && !lucky { return false; }
        Place(id, source, now, {});
        return false;
      } else {
        EnterInv(env, s, a, services, Max(0, time - pen), source);
        var id := Create(a, services, Max(0, time - pen), source);
        nNew := nNew + 1;
        Place(id, source, now, {id});
        return true;
      }
    }

    /** One draw: a random later entry comes to position n. */
    method DrawInto(n: int, ghost s: State)
      requires Valid() && Inv(env, Value(), {}, 0) && OnlyShuffled(s, Value()) && 0 <= n < |vRandom|
      modifies this`mapInfo, this`vRandom
      ensures Valid() && Inv(env, Value(), {}, 0) && OnlyShuffled(s, Value())
      ensures vRandom[..n] == old(vRandom)[..n] && vRandom[n] in mapInfo
    {
      hide TablesOk, Valid;
      var pos :| n <= pos < |vRandom|;
      SwapKeeps(env, Value(), n, pos, {}, 0);
      ShuffledSwap(s, Value(), n, pos);
      SwapRandom(n, pos);
      AtKnown(env, Value(), n);
    }

    /** Entries in a random order, at most 23% of them and at most 2500, leaving out the terrible ones. */
    method GetAddr(now: int) returns (addrs: seq<Service>, ghost picked: seq<int>)
      requires Valid() && Consistent(env, Value())
      modifies this`mapInfo, this`vRandom
      ensures Valid() && Consistent(env, Value()) && OnlyShuffled(old(Value()), Value())
      ensures |addrs| <= 2500 && 100 * |addrs| <= 23 * |vRandom|
      ensures AddressesOf(old(mapInfo), picked, addrs) && GoodPicks(old(mapInfo), picked, now)
      ensures |addrs| < 2500 && 100 * (|addrs| + 1) <= 23 * |vRandom| ==> forall id :: id in old(mapInfo) && !Terrible(old(mapInfo)[id], now) ==> id in picked
    {
      hide Valid, Consistent, Inv, Filtered, GoodPicks;
      ghost var s := Value();
      var limit := AddrLimit(|vRandom|);
      addrs, picked := [], [];
      AsInv(env, s);
      ShuffledSame(s);
      FilteredNone(s.infos, vRandom, now);
      var n := 0;
      while n < |vRandom| && |addrs| < limit
        invariant Valid() && Inv(env, Value(), {}, 0) && OnlyShuffled(s, Value())
        invariant 0 <= n <= |vRandom| == |s.random| && |addrs| <= limit
        invariant picked == Filtered(s.infos, vRandom[..n], now)
        invariant AddressesOf(s.infos, picked, addrs)
      {
        DrawInto(n, s);
        FilteredStep(s.infos, vRandom, n, now);
        var ai := mapInfo[vRandom[n]];
        ShuffledEntry(s, Value(), vRandom[n], now);
        if !Terrible(ai, now) {
          addrs, picked := addrs + [ai.addr], picked + [vRandom[n]];
        }
        n := n + 1;
      }
      AsConsistent(env, Value());
      FilteredGood(env, s, Value(), n, now);
    }

    /** Notes in the entry of exactly this service; consistency and the pending collisions are kept. */
    method Attempt(a: Service, countFailure: bool, time: int)
      requires Valid() && Consistent(env, Value()) && CollisionsOk(env, Value())
      modifies this`mapInfo
      ensures Valid() && Value() == Note(old(Value()), a, Attempted(countFailure, time))
      ensures Consistent(env, Value()) && CollisionsOk(env, Value())
    {
      hide Valid, Consistent, CollisionsOk;
      NoteKeeps(env, Value(), a, Attempted(countFailure, time));
      if a.ip !in mapAddr || mapAddr[a.ip] !in mapInfo { return; }
      var id := mapAddr[a.ip];
      if mapInfo[id].addr != a { return; }
      mapInfo := mapInfo[id := mapInfo[id].(lastTry := time)];
      if countFailure && mapInfo[id].lastCount < nLastGood {
        mapInfo := mapInfo[id := mapInfo[id].(lastCount := time, attempts := mapInfo[id].attempts + 1)];
      }
    }

    method Connected(a: Service, time: int)
      requires Valid() && Consistent(env, Value()) && CollisionsOk(env, Value())
      modifies this`mapInfo
      ensures Valid() && Value() == Note(old(Value()), a, ConnectedAt(time))
      ensures Consistent(env, Value()) && CollisionsOk(env, Value())
    {
      hide Valid, Consistent, CollisionsOk;
      NoteKeeps(env, Value(), a, ConnectedAt(time));
      if a.ip !in mapAddr || mapAddr[a.ip] !in mapInfo { return; }
      var id := mapAddr[a.ip];
      if mapInfo[id].addr != a { return; }
      var interval := 20 * 60;
      if time - mapInfo[id].time > interval {
        mapInfo := mapInfo[id := mapInfo[id].(time := time)];
      }
    }

    method SetServices(a: Service, services: Flags)
      requires Valid() && Consistent(env, Value()) && CollisionsOk(env, Value())
      modifies this`mapInfo
      ensures Valid() && Value() == Note(old(Value()), a, Serves(services))
      ensures Consistent(env, Value()) && CollisionsOk(env, Value())
    {
      hide Valid, Consistent, CollisionsOk;
      NoteKeeps(env, Value(), a, Serves(services));
      if a.ip !in mapAddr || mapAddr[a.ip] !in mapInfo { return; }
      var id := mapAddr[a.ip];
      if mapInfo[id].addr != a { return; }
      mapInfo := mapInfo[id := mapInfo[id].(services := services)];
    }

    /** Settles the pending collisions, smallest id first. */
    method ResolveCollisions(now: int) returns (ghost order: seq<int>)
      requires Valid() && Consistent(env, Value()) && CollisionsOk(env, Value())
      modifies this`mapInfo, this`vRandom, this`mapAddr, this`nNew, this`nTried, this`nLastGood, this`triedCollisions, this`news, this`tried, vvNew, vvTried
      ensures Valid() && Consistent(env, Value()) && CollisionsOk(env, Value())
      ensures Ascending(order) && (forall id :: id in order <==> id in old(triedCollisions))
      ensures Value() == ResolveAll(env, old(Value()), order, now)
    {
      hide Valid, Consistent, CollisionsOk, ResolveOne;
      ghost var s := Value();
      order := [];
      var todo := triedCollisions;
      while todo != {}
        invariant Valid() && Consistent(env, Value()) && CollisionsOk(env, Value())
        invariant forall id :: id in old(triedCollisions) <==> id in order || id in todo
        invariant forall i, id :: 0 <= i < |order| && id in todo ==> order[i] < id
        invariant Ascending(order)
        invariant Value() == ResolveAll(env, s, order, now)
        decreases |todo|
      {
        HasLeast(todo);
        var id: int :| id in todo && forall x: int :: x in todo ==> id <= x;
        ghost var t := Value();
        ResolveOneKeeps(env, t, id, now);
        ResolveOnePersists(env, t, id, now);
        ResolveAllNext(env, s, order, id, now);
        ResolveStep(id, now);
        order := order + [id];
        todo := todo - {id};
      }
    }

    method ResolveStep(id: int, now: int)
      requires Valid() && Consistent(env, Value())
      modifies this`mapInfo, this`vRandom, this`mapAddr, this`nNew, this`nTried, this`nLastGood, this`triedCollisions, this`news, this`tried, vvNew, vvTried
      ensures Valid() && Value() == ResolveOne(env, old(Value()), id, now)
    {
      hide Valid, Consistent, AddrManModel.Good;
      var erase := false;
      if id !in mapInfo {
        erase := true;
      } else {
        var a := mapInfo[id].addr;
        var kb := env.triedHash(a) % TRIED_BUCKETS;
        var kp := env.positionHash(a, false, kb) % BUCKET_SIZE;
        var idOld := TriedAt(kb, kp);
        if !env.valid(a) {
          erase := true;
        } else if idOld != -1 {
          TriedKnown(env, Value(), Slot(kb, kp));
          var infoOld := mapInfo[idOld];
          if now - infoOld.lastSuccess < 4 * HOUR {
            erase := true;
          } else if now - infoOld.lastTry < 4 * HOUR {
            if now - infoOld.lastTry > 60 {
              Good(a, false, now);
              erase := true;
            }
          } else if now - mapInfo[id].lastSuccess > 2400 {
            Good(a, false, now);
            erase := true;
          }
        } else {
          Good(a, false, now);
          erase := true;
        }
      }
      if erase { triedCollisions := triedCollisions - {id}; }
    }

    /**
     A tried entry that some pending entry wants to replace; the slot it is read from is never free.
     Without pending ids there is none, and a pending id whose entry is gone is dropped.
     */
    method SelectTriedCollision() returns (r: Option<Info>, ghost id: int)
      requires Valid() && Consistent(env, Value()) && CollisionsOk(env, Value())
      modifies this`triedCollisions
      ensures Valid()
      ensures old(triedCollisions) == {} ==> r == None && Value() == old(Value())
      ensures old(triedCollisions) != {} ==> id in old(triedCollisions)
      ensures old(triedCollisions) != {} && id !in mapInfo ==>
                r == None && Value() == old(Value()).(collisions := old(triedCollisions) - {id})
      ensures old(triedCollisions) != {} && id in mapInfo ==>
                && Value() == old(Value()) && TriedSlot(env, mapInfo[id].addr) in tried
                && tried[TriedSlot(env, mapInfo[id].addr)] in mapInfo && r == Some(mapInfo[tried[TriedSlot(env, mapInfo[id].addr)]])
    {
      hide Valid, Consistent;
      id := 0;
      if triedCollisions == {} {
        return None, id;
      }
      NonEmpty(triedCollisions);
      var idNew: int :| idNew in triedCollisions;
      id := idNew;
      if idNew !in mapInfo {
        triedCollisions := triedCollisions - {idNew};
        return None, id;
      }
      assert Pending(env, Value(), id);
      var a := mapInfo[idNew].addr;
      var kb := env.triedHash(a) % TRIED_BUCKETS;
      var kp := env.positionHash(a, false, kb) % BUCKET_SIZE;
      var idOld := TriedAt(kb, kp);
      assert idOld != -1;
      TriedKnown(env, Value(), Slot(kb, kp));
      r := Some(mapInfo[idOld]);
    }
  }
}
