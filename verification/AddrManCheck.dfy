/**
 The self-check of the address manager, scanned as the code scans it. On any state it answers 0
 exactly when every condition it looks at holds, and any other code names a fault that is there.
 Those conditions are the consistency conditions up to what the check does not notice: names of
 addresses that no entry has, a missing name of entry 0, and ids out of range.
 */
module AddrManCheck {
  import opened Wrappers
  import opened AddrManModel
  import opened AddrManInvariant
  import opened AddrManLoops

  /** Looking up a name that is not there gives the id 0. */
  function Lookup(ids: map<NetAddr, int>, ip: NetAddr): int { if ip in ids then ids[ip] else 0 }

  /** The entry's own part of the check (codes -2 to -5 and -14). */
  predicate EntryFits(s: State, id: int, i: Info) {
    && (if i.inTried then i.refCount == 0 else 0 < i.refCount <= NEW_BUCKETS_PER_ADDRESS)
    && Lookup(s.ids, i.addr.ip) == id
    && 0 <= i.randomPos < |s.random| && s.random[i.randomPos] == id
  }

  /** The times of an entry (codes -1, -6 and -8). */
  predicate TimesFit(i: Info) { (i.inTried ==> i.lastSuccess != 0) && 0 <= i.lastTry && 0 <= i.lastSuccess }

  /** What each code of the entry scan says of the entry. */
  predicate EntryFault(s: State, id: int, i: Info, code: int) {
    match code
    case -1 => i.inTried && i.lastSuccess == 0
    case -2 => i.inTried && i.refCount != 0
    case -3 => !i.inTried && (i.refCount < 0 || i.refCount > NEW_BUCKETS_PER_ADDRESS)
    case -4 => !i.inTried && i.refCount == 0
    case -5 => Lookup(s.ids, i.addr.ip) != id
    case -14 => !(0 <= i.randomPos < |s.random|) || s.random[i.randomPos] != id
    case -6 => i.lastTry < 0
    case -8 => i.lastSuccess < 0
    case _ => false
  }

  ghost predicate EntriesFit(s: State) { forall id {:trigger EntryFits(s, id, s.infos[id])} :: id in s.infos ==> EntryFits(s, id, s.infos[id]) }

  ghost predicate AllTimesFit(s: State) { forall id {:trigger TimesFit(s.infos[id])} :: id in s.infos ==> TimesFit(s.infos[id]) }

  ghost predicate SomeFault(s: State, code: int) {
    exists id {:trigger EntryFault(s, id, s.infos[id], code)} :: id in s.infos && EntryFault(s, id, s.infos[id], code)
  }

  /** The index of names after lookups that insert a missing name with the id 0. */
  ghost predicate Inserted(s: State, ids: map<NetAddr, int>) {
    && (forall ip :: ip in s.ids ==> ip in ids && ids[ip] == s.ids[ip])
    && (forall ip :: ip in ids && ip !in s.ids ==> ids[ip] == 0 && NameOfSome(s.infos, ip))
  }

  ghost predicate NameOfSome(infos: Infos, ip: NetAddr) { exists id :: id in infos && infos[id].addr.ip == ip }

  /** The one name that a check without a finding can insert is that of entry 0. */
  function NamesAfter(s: State): map<NetAddr, int> {
    if 0 in s.infos then s.ids[s.infos[0].addr.ip := 0] else s.ids
  }

  lemma {:induction false} OnlyNameOfZero(s: State, ids: map<NetAddr, int>)
    requires Inserted(s, ids) && EntriesFit(s) && forall id :: id in s.infos ==> s.infos[id].addr.ip in ids
    ensures ids == NamesAfter(s)
  {
    forall ip | ip in ids && ip !in s.ids ensures 0 in s.infos && s.infos[0].addr.ip == ip {
      assert NameOfSome(s.infos, ip);
      var id :| id in s.infos && s.infos[id].addr.ip == ip;
      assert EntryFits(s, id, s.infos[id]);
    }
    if 0 in s.infos {
      assert EntryFits(s, 0, s.infos[0]);
      assert s.infos[0].addr.ip in ids;
    }
    assert ids.Keys == NamesAfter(s).Keys;
  }

  /** What the scan has gathered from the entries it has passed. */
  ghost predicate Gathered(infos: Infos, todo: set<int>, setTried: set<int>, mapNew: map<int, int>) {
    && setTried == (set id | id in infos && id !in todo && infos[id].inTried)
    && mapNew.Keys == (set id | id in infos && id !in todo && !infos[id].inTried)
    && forall id :: id in mapNew ==> id in infos && mapNew[id] == infos[id].refCount
  }

  lemma GatherNone(infos: Infos)
    ensures Gathered(infos, infos.Keys, {}, map[])
  {
  }

  lemma GatherNext(infos: Infos, todo: set<int>, setTried: set<int>, mapNew: map<int, int>, n: int)
    requires Gathered(infos, todo, setTried, mapNew) && n in todo && n in infos
    ensures infos[n].inTried ==> Gathered(infos, todo - {n}, setTried + {n}, mapNew)
    ensures !infos[n].inTried ==> Gathered(infos, todo - {n}, setTried, mapNew[n := infos[n].refCount])
  {
    if !infos[n].inTried {
      assert mapNew[n := infos[n].refCount].Keys == set id | id in infos && id !in todo - {n} && !infos[id].inTried;
    }
  }

  lemma GatheredAll(infos: Infos, setTried: set<int>, mapNew: map<int, int>)
    requires Gathered(infos, {}, setTried, mapNew)
    ensures setTried == TriedIds(infos) && mapNew.Keys == NewIds(infos)
    ensures forall id :: id in mapNew ==> mapNew[id] == infos[id].refCount
  {
  }

  method CheckEntries(s: State) returns (code: int, setTried: set<int>, mapNew: map<int, int>, ids: map<NetAddr, int>)
    ensures Inserted(s, ids) && (code == 0 ==> ids == NamesAfter(s))
    ensures code == 0 <==> EntriesFit(s) && AllTimesFit(s)
    ensures code != 0 ==> SomeFault(s, code)
    ensures code == 0 ==> setTried == TriedIds(s.infos) && mapNew.Keys == NewIds(s.infos)
    ensures code == 0 ==> forall id :: id in mapNew ==> mapNew[id] == s.infos[id].refCount
  {
    hide EntryFits, TimesFit, EntryFault, Inserted, Gathered, TriedIds, NewIds, NamesAfter;
    setTried, mapNew, ids := {}, map[], s.ids;
    NoneInserted(s);
    GatherNone(s.infos);
    var todo := s.infos.Keys;
    while todo != {}
      invariant todo <= s.infos.Keys
      invariant Inserted(s, ids) && forall id :: id in s.infos && id !in todo ==> s.infos[id].addr.ip in ids
      invariant forall id :: id in s.infos && id !in todo ==> EntryFits(s, id, s.infos[id]) && TimesFit(s.infos[id])
      invariant Gathered(s.infos, todo, setTried, mapNew)
      decreases |todo|
    {
      HasLeast(todo);
      var n: int :| n in todo && forall m :: m in todo ==> n <= m;
      GatherNext(s.infos, todo, setTried, mapNew, n);
      todo := todo - {n};
      code, ids := CheckEntry(s, n, s.infos[n], ids);
      if code != 0 {
        return;
      }
      if s.infos[n].inTried {
        setTried := setTried + {n};
      } else {
        mapNew := mapNew[n := s.infos[n].refCount];
      }
    }
    code := 0;
    GatheredAll(s.infos, setTried, mapNew);
    OnlyNameOfZero(s, ids);
  }

  lemma NoneInserted(s: State)
    ensures Inserted(s, s.ids)
  {
  }

  lemma {:induction false} OneInserted(s: State, ids: map<NetAddr, int>, n: int)
    requires Inserted(s, ids) && n in s.infos
    ensures var ip := s.infos[n].addr.ip;
            Inserted(s, if ip in ids then ids else ids[ip := 0]) && Lookup(ids, ip) == Lookup(s.ids, ip)
  {
    assert NameOfSome(s.infos, s.infos[n].addr.ip);
  }

  method CheckEntry(s: State, n: int, info: Info, idsIn: map<NetAddr, int>) returns (code: int, ids: map<NetAddr, int>)
    requires n in s.infos && s.infos[n] == info && Inserted(s, idsIn)
    ensures Inserted(s, ids) && (code == 0 ==> info.addr.ip in ids) && forall ip :: ip in idsIn ==> ip in ids
    ensures code == 0 <==> EntryFits(s, n, info) && TimesFit(info)
    ensures code != 0 ==> EntryFault(s, n, info, code)
  {
    hide Inserted;
    OneInserted(s, idsIn, n);
    ids := idsIn;
    if info.inTried {
      if info.lastSuccess == 0 {
        return -1, ids;
      }
      if info.refCount != 0 {
        return -2, ids;
      }
    } else {
      if info.refCount < 0 || info.refCount > NEW_BUCKETS_PER_ADDRESS {
        return -3, ids;
      }
      if info.refCount == 0 {
        return -4, ids;
      }
    }
    if info.addr.ip !in ids {
      ids := ids[info.addr.ip := 0];
    }
    if ids[info.addr.ip] != n {
      return -5, ids;
    }
    if info.randomPos < 0 || info.randomPos >= |s.random| || s.random[info.randomPos] != n {
      return -14, ids;
    }
    if info.lastTry < 0 {
      return -6, ids;
    }
    if info.lastSuccess < 0 {
      return -8, ids;
    }
    code := 0;
  }

  // ---- Scanning the tables ----

  /** The order in which slots are scanned. */
  function Rank(sl: Slot): int { BUCKET_SIZE * sl.bucket + sl.pos }

  predicate Fits(sl: Slot, buckets: int) { 0 <= sl.bucket < buckets && 0 <= sl.pos < BUCKET_SIZE }

  ghost predicate TriedPlaced(e: Env, infos: Infos, tried: Table, id: int) {
    id in infos && Get(tried, TriedSlot(e, infos[id].addr)) == Some(id)
  }

  /** Tried ids whose slot has not been passed yet, or was passed without finding them there. */
  ghost predicate TriedLeft(e: Env, infos: Infos, tried: Table, left: set<int>, k: int) {
    && (forall sl {:trigger HoldsTried(e, infos, sl, tried[sl])} :: sl in tried && Rank(sl) < k ==> HoldsTried(e, infos, sl, tried[sl]))
    && (forall id: int {:trigger id in left} :: id in left <==> id in TriedIds(infos) && !(TriedPlaced(e, infos, tried, id) && Rank(TriedSlot(e, infos[id].addr)) < k))
  }

  /** What each code of the scan of the tried table says of a slot; a tried id may also turn up a second time (-11). */
  ghost predicate TriedFault(e: Env, infos: Infos, tried: Table, sl: Slot, code: int) {
    sl in tried &&
    var id := tried[sl];
    match code
    case -11 => id !in TriedIds(infos) || (TriedPlaced(e, infos, tried, id) && TriedSlot(e, infos[id].addr) != sl)
    case -17 => id in TriedIds(infos) && TriedSlot(e, infos[id].addr).bucket != sl.bucket
    case -18 => id in TriedIds(infos) && TriedSlot(e, infos[id].addr).bucket == sl.bucket && TriedSlot(e, infos[id].addr).pos != sl.pos
    case _ => false
  }

  ghost predicate SomeTriedFault(e: Env, infos: Infos, tried: Table, code: int) {
    exists sl {:trigger TriedFault(e, infos, tried, sl, code)} :: TriedFault(e, infos, tried, sl, code)
  }

  lemma {:induction false} SameRank(a: Slot, b: Slot)
    requires 0 <= a.pos < BUCKET_SIZE && 0 <= b.pos < BUCKET_SIZE && Rank(a) == Rank(b)
    ensures a == b
  {
  }

  lemma {:induction false} TriedLeftNext(e: Env, infos: Infos, tried: Table, left: set<int>, sl: Slot)
    requires TriedLeft(e, infos, tried, left, Rank(sl)) && Fits(sl, TRIED_BUCKETS)
    requires forall x :: x in tried ==> Fits(x, TRIED_BUCKETS)
    requires sl in tried ==> HoldsTried(e, infos, sl, tried[sl])
    ensures TriedLeft(e, infos, tried, if sl in tried then left - {tried[sl]} else left, Rank(sl) + 1)
    ensures sl in tried ==> tried[sl] in left
  {
    var k := Rank(sl);
    forall x | x in tried && Rank(x) < k + 1 ensures HoldsTried(e, infos, x, tried[x]) {
      if Rank(x) == k { SameRank(x, sl); }
    }
    var left' := if sl in tried then left - {tried[sl]} else left;
    forall id: int
      ensures id in left' <==> id in TriedIds(infos) && !(TriedPlaced(e, infos, tried, id) && Rank(TriedSlot(e, infos[id].addr)) < k + 1)
    {
      if id in infos && Rank(TriedSlot(e, infos[id].addr)) == k { SameRank(TriedSlot(e, infos[id].addr), sl); }
    }
  }

  method CheckTried(e: Env, s: State, setTried: set<int>) returns (code: int, left: set<int>)
    requires setTried == TriedIds(s.infos) && forall sl :: sl in s.tried ==> Fits(sl, TRIED_BUCKETS)
    ensures code != 0 ==> SomeTriedFault(e, s.infos, s.tried, code)
    ensures code == 0 <==> forall sl :: sl in s.tried ==> HoldsTried(e, s.infos, sl, s.tried[sl])
    ensures code == 0 ==> (left == {} <==> forall id :: id in TriedIds(s.infos) ==> TriedPlaced(e, s.infos, s.tried, id))
  {
    hide TriedSlot, TriedIds;
    left := setTried;
    for n := 0 to TRIED_BUCKETS
      invariant TriedLeft(e, s.infos, s.tried, left, BUCKET_SIZE * n)
    {
      for i := 0 to BUCKET_SIZE
        invariant TriedLeft(e, s.infos, s.tried, left, BUCKET_SIZE * n + i)
      {
        var sl := Slot(n, i);
        assert Rank(sl) == BUCKET_SIZE * n + i;
        if sl in s.tried {
          var id := s.tried[sl];
          LeftIn(e, s.infos, s.tried, left, sl);
          if id !in left {
            assert TriedFault(e, s.infos, s.tried, sl, -11);
            return -11, left;
          }
          LeftKnown(e, s.infos, s.tried, left, Rank(sl), id);
          if TriedSlot(e, s.infos[id].addr).bucket != n {
            assert TriedFault(e, s.infos, s.tried, sl, -17) && !HoldsTried(e, s.infos, sl, s.tried[sl]);
            return -17, left;
          }
          if TriedSlot(e, s.infos[id].addr).pos != i {
            assert TriedFault(e, s.infos, s.tried, sl, -18) && !HoldsTried(e, s.infos, sl, s.tried[sl]);
            return -18, left;
          }
          TriedLeftNext(e, s.infos, s.tried, left, sl);
          left := left - {id};
        } else {
          TriedLeftNext(e, s.infos, s.tried, left, sl);
        }
      }
    }
    code := 0;
    TriedScanned(e, s.infos, s.tried, left);
  }

  /** A slot's rightful holder has not been crossed off before. */
  lemma {:induction false} LeftIn(e: Env, infos: Infos, tried: Table, left: set<int>, sl: Slot)
    requires TriedLeft(e, infos, tried, left, Rank(sl)) && sl in tried
    ensures HoldsTried(e, infos, sl, tried[sl]) ==> tried[sl] in left
    ensures tried[sl] !in left ==> TriedFault(e, infos, tried, sl, -11)
  {
  }

  lemma {:induction false} LeftKnown(e: Env, infos: Infos, tried: Table, left: set<int>, k: int, id: int)
    requires TriedLeft(e, infos, tried, left, k) && id in left
    ensures id in infos && infos[id].inTried && id in TriedIds(infos)
  {
  }

  lemma {:induction false} TriedScanned(e: Env, infos: Infos, tried: Table, left: set<int>)
    requires TriedLeft(e, infos, tried, left, BUCKET_SIZE * TRIED_BUCKETS) && forall sl :: sl in tried ==> Fits(sl, TRIED_BUCKETS)
    ensures forall sl :: sl in tried ==> HoldsTried(e, infos, sl, tried[sl])
    ensures left == {} <==> forall id :: id in TriedIds(infos) ==> TriedPlaced(e, infos, tried, id)
  {
    if forall id :: id in TriedIds(infos) ==> TriedPlaced(e, infos, tried, id) {
      forall id: int ensures id !in left { }
      assert left == {};
    }
    if left == {} {
      forall id | id in TriedIds(infos) ensures TriedPlaced(e, infos, tried, id) { assert id !in left; }
    }
  }

  // ---- The new table ----

  ghost function Seen(e: Env, news: Table, a: Service, id: int, k: int): set<int> {
    set b | b in Buckets(e, news, a, id) && Rank(SlotIn(e, a, b)) < k
  }

  lemma {:induction false} SeenStep(e: Env, news: Table, a: Service, id: int, sl: Slot)
    requires Fits(sl, NEW_BUCKETS)
    ensures var now, then_ := Seen(e, news, a, id, Rank(sl)), Seen(e, news, a, id, Rank(sl) + 1);
            if Get(news, sl) == Some(id) && SlotIn(e, a, sl.bucket) == sl then then_ == now + {sl.bucket} && sl.bucket !in now
            else then_ == now
  {
    var k := Rank(sl);
    forall b: int | 0 <= b < NEW_BUCKETS && Rank(SlotIn(e, a, b)) == k ensures SlotIn(e, a, b) == sl && b == sl.bucket {
      SameRank(SlotIn(e, a, b), sl);
    }
    var now, then_ := Seen(e, news, a, id, k), Seen(e, news, a, id, k + 1);
    var hit := Get(news, sl) == Some(id) && SlotIn(e, a, sl.bucket) == sl;
    forall b: int ensures b in then_ <==> b in now || (hit && b == sl.bucket) { }
    if !hit { assert then_ == now; }
  }

  /** What is left of a new entry's count after the slots before k. */
  ghost function Owing(e: Env, infos: Infos, news: Table, id: int, k: int): int
    requires id in infos
  {
    infos[id].refCount - |Seen(e, news, infos[id].addr, id, k)|
  }

  ghost predicate Left(e: Env, infos: Infos, news: Table, left: map<int, int>, k: int, id: int) {
    if id in infos && !infos[id].inTried then
      Owing(e, infos, news, id, k) >= 0 && Get(left, id) == if Owing(e, infos, news, id, k) > 0 then Some(Owing(e, infos, news, id, k)) else None
    else id !in left
  }

  ghost predicate NewLeft(e: Env, infos: Infos, news: Table, left: map<int, int>, k: int) {
    && (forall sl {:trigger HoldsNew(e, infos, sl, news[sl])} :: sl in news && Rank(sl) < k ==> HoldsNew(e, infos, sl, news[sl]))
    && (forall id: int {:trigger Left(e, infos, news, left, k, id)} :: Left(e, infos, news, left, k, id))
  }

  function CrossOff(left: map<int, int>, id: int): map<int, int> {
    if id !in left then left else if left[id] == 1 then left - {id} else left[id := left[id] - 1]
  }

  lemma {:induction false} NewLeftNext(e: Env, infos: Infos, news: Table, left: map<int, int>, sl: Slot)
    requires NewLeft(e, infos, news, left, Rank(sl)) && Fits(sl, NEW_BUCKETS)
    requires forall x :: x in news ==> Fits(x, NEW_BUCKETS)
    requires sl in news ==> HoldsNew(e, infos, sl, news[sl]) && news[sl] in left
    ensures NewLeft(e, infos, news, if sl in news then CrossOff(left, news[sl]) else left, Rank(sl) + 1)
  {
    hide Seen, SlotIn;
    var k := Rank(sl);
    forall x | x in news && Rank(x) < k + 1 ensures HoldsNew(e, infos, x, news[x]) {
      if Rank(x) == k { SameRank(x, sl); }
    }
    var left', k' := if sl in news then CrossOff(left, news[sl]) else left, k + 1;
    forall id: int ensures Left(e, infos, news, left', k', id) {
      assert Left(e, infos, news, left, k, id);
      if id in infos { SeenStep(e, news, infos[id].addr, id, sl); }
    }
  }

  /** A slot that holds a new entry in its place, after its count is used up, shows the count to be too small. */
  lemma {:induction false} NoneLeft(e: Env, infos: Infos, news: Table, left: map<int, int>, sl: Slot)
    requires NewLeft(e, infos, news, left, Rank(sl)) && sl in news && Fits(sl, NEW_BUCKETS) && news[sl] !in left
    requires HoldsNew(e, infos, sl, news[sl])
    ensures infos[news[sl]].refCount != |Buckets(e, news, infos[news[sl]].addr, news[sl])|
  {
    hide SlotIn;
    var id := news[sl];
    var a, k := infos[id].addr, Rank(sl);
    assert Left(e, infos, news, left, k, id);
    SeenStep(e, news, a, id, sl);
    SubsetCard(Seen(e, news, a, id, k + 1), Buckets(e, news, a, id));
  }

  /** Every new slot holds a new entry in its place, and every count is exact. */
  ghost predicate NewFine(e: Env, infos: Infos, news: Table) {
    && (forall sl {:trigger HoldsNew(e, infos, sl, news[sl])} :: sl in news ==> HoldsNew(e, infos, sl, news[sl]))
    && (forall id {:trigger infos[id]} :: id in infos && !infos[id].inTried ==> infos[id].refCount == |Buckets(e, news, infos[id].addr, id)|)
  }

  /** What each code of the scan of the new table says of a slot; a new id may also turn up more often than it counts (-12). */
  ghost predicate NewFault(e: Env, infos: Infos, news: Table, sl: Slot, code: int) {
    sl in news &&
    var id := news[sl];
    match code
    case -12 => id !in NewIds(infos) || infos[id].refCount == |Seen(e, news, infos[id].addr, id, Rank(sl))|
    case -19 => id in NewIds(infos) && SlotIn(e, infos[id].addr, sl.bucket).pos != sl.pos
    case _ => false
  }

  ghost predicate SomeNewFault(e: Env, infos: Infos, news: Table, code: int) {
    exists sl {:trigger NewFault(e, infos, news, sl, code)} :: NewFault(e, infos, news, sl, code)
  }

  /** A new entry counts more references than there are slots that hold it (code -15). */
  ghost predicate SomeOvercount(e: Env, infos: Infos, news: Table) {
    exists id {:trigger infos[id]} :: id in infos && !infos[id].inTried && infos[id].refCount > |Buckets(e, news, infos[id].addr, id)|
  }

  method CheckNew(e: Env, s: State, mapNew: map<int, int>) returns (code: int, left: map<int, int>)
    requires mapNew.Keys == NewIds(s.infos) && forall id :: id in mapNew ==> mapNew[id] == s.infos[id].refCount > 0
    requires forall sl :: sl in s.news ==> Fits(sl, NEW_BUCKETS)
    ensures code != 0 ==> SomeNewFault(e, s.infos, s.news, code)
    ensures code == 0 && left != map[] ==> SomeOvercount(e, s.infos, s.news)
    ensures code == 0 && left == map[] <==> NewFine(e, s.infos, s.news)
  {
    hide SlotIn, NewLeft, NewFine, Buckets, SomeNewFault, SomeOvercount;
    left := mapNew;
    NothingSeen(e, s.infos, s.news, left);
    for n := 0 to NEW_BUCKETS
      invariant NewLeft(e, s.infos, s.news, left, BUCKET_SIZE * n)
    {
      for i := 0 to BUCKET_SIZE
        invariant NewLeft(e, s.infos, s.news, left, BUCKET_SIZE * n + i)
      {
        var sl := Slot(n, i);
        assert Rank(sl) == BUCKET_SIZE * n + i;
        if sl in s.news {
          var id := s.news[sl];
          if id !in left {
            NewFaulty(e, s.infos, s.news, left, sl);
            return -12, left;
          }
          LeftIsNew(e, s.infos, s.news, left, Rank(sl), id);
          if SlotIn(e, s.infos[id].addr, n).pos != i {
            Misplaced(e, s.infos, s.news, sl);
            return -19, left;
          }
          PositionOk(e, s.infos[id].addr, n);
          NewLeftNext(e, s.infos, s.news, left, sl);
          left := CrossOff(left, id);
        } else {
          NewLeftNext(e, s.infos, s.news, left, sl);
        }
      }
    }
    code := 0;
    AllSeen(e, s.infos, s.news, left);
  }

  lemma {:induction false} NothingSeen(e: Env, infos: Infos, news: Table, left: map<int, int>)
    requires left.Keys == NewIds(infos) && forall id :: id in left ==> left[id] == infos[id].refCount > 0
    requires forall sl :: sl in news ==> Fits(sl, NEW_BUCKETS)
    ensures NewLeft(e, infos, news, left, 0)
  {
    forall id: int ensures Left(e, infos, news, left, 0, id) {
      assert id in left <==> id in left.Keys;
      if id in infos { assert Seen(e, news, infos[id].addr, id, 0) == {}; }
    }
  }

  lemma {:induction false} NewFaulty(e: Env, infos: Infos, news: Table, left: map<int, int>, sl: Slot)
    requires NewLeft(e, infos, news, left, Rank(sl)) && sl in news && Fits(sl, NEW_BUCKETS) && news[sl] !in left
    ensures !NewFine(e, infos, news) && SomeNewFault(e, infos, news, -12)
  {
    assert Left(e, infos, news, left, Rank(sl), news[sl]);
    assert NewFault(e, infos, news, sl, -12);
    if HoldsNew(e, infos, sl, news[sl]) { NoneLeft(e, infos, news, left, sl); }
  }

  lemma {:induction false} LeftIsNew(e: Env, infos: Infos, news: Table, left: map<int, int>, k: int, id: int)
    requires NewLeft(e, infos, news, left, k) && id in left
    ensures id in infos && !infos[id].inTried
  {
    assert Left(e, infos, news, left, k, id);
  }

  lemma {:induction false} Misplaced(e: Env, infos: Infos, news: Table, sl: Slot)
    requires sl in news && news[sl] in infos && !infos[news[sl]].inTried && SlotIn(e, infos[news[sl]].addr, sl.bucket).pos != sl.pos
    ensures !NewFine(e, infos, news) && SomeNewFault(e, infos, news, -19)
  {
    assert NewFault(e, infos, news, sl, -19);
    assert !HoldsNew(e, infos, sl, news[sl]);
  }

  lemma {:induction false} AllSeen(e: Env, infos: Infos, news: Table, left: map<int, int>)
    requires NewLeft(e, infos, news, left, BUCKET_SIZE * NEW_BUCKETS) && forall sl :: sl in news ==> Fits(sl, NEW_BUCKETS)
    ensures left == map[] <==> NewFine(e, infos, news)
    ensures left != map[] ==> SomeOvercount(e, infos, news)
  {
    hide SlotIn;
    var k := BUCKET_SIZE * NEW_BUCKETS;
    forall id | id in infos ensures Seen(e, news, infos[id].addr, id, k) == Buckets(e, news, infos[id].addr, id) {
      forall b: int | 0 <= b < NEW_BUCKETS ensures Rank(SlotIn(e, infos[id].addr, b)) < k { PositionOk(e, infos[id].addr, b); }
    }
    if left == map[] {
      forall id | id in infos && !infos[id].inTried ensures infos[id].refCount == |Buckets(e, news, infos[id].addr, id)| {
        assert Left(e, infos, news, left, k, id);
      }
    }
    if left != map[] {
      var id: int := Pick(left.Keys);
      assert Left(e, infos, news, left, k, id);
      assert infos[id].refCount > |Buckets(e, news, infos[id].addr, id)|;
    }
    if NewFine(e, infos, news) {
      forall id: int ensures id !in left { assert Left(e, infos, news, left, k, id); }
    }
  }

  lemma PositionOk(e: Env, a: Service, b: int)
    ensures SlotIn(e, a, b).bucket == b && 0 <= SlotIn(e, a, b).pos < BUCKET_SIZE
  {
  }

  // ---- The whole check ----

  ghost predicate InRange(s: State) {
    (forall sl :: sl in s.tried ==> Fits(sl, TRIED_BUCKETS)) && (forall sl :: sl in s.news ==> Fits(sl, NEW_BUCKETS))
  }

  /** What the check does not notice: stale names, a missing name of entry 0, ids out of range. */
  ghost predicate NamesOnly(s: State) {
    && |s.ids| == |s.infos| && (0 in s.infos ==> s.infos[0].addr.ip in s.ids)
    && 0 <= s.idCount && forall id :: id in s.infos ==> 0 <= id < s.idCount
  }

  /** Everything the check looks at in the structures. */
  ghost predicate Passed(e: Env, s: State) {
    && |s.random| == s.nTried + s.nNew && s.nTried == |TriedIds(s.infos)| && s.nNew == |NewIds(s.infos)|
    && EntriesFit(s)
    && (forall sl :: sl in s.tried ==> HoldsTried(e, s.infos, sl, s.tried[sl]))
    && (forall id :: id in TriedIds(s.infos) ==> TriedPlaced(e, s.infos, s.tried, id))
    && NewFine(e, s.infos, s.news)
  }

  /** What each code of the whole check says of the manager. */
  ghost predicate Fault(e: Env, s: State, keyNull: bool, code: int) {
    || SomeFault(s, code)
    || (code == -7 && |s.random| != s.nTried + s.nNew)
    || (code == -9 && s.nTried != |TriedIds(s.infos)|)
    || (code == -10 && s.nNew != |NewIds(s.infos)|)
    || SomeTriedFault(e, s.infos, s.tried, code)
    || SomeNewFault(e, s.infos, s.news, code)
    || (code == -15 && SomeOvercount(e, s.infos, s.news))
    || (code == -13 && exists id :: id in TriedIds(s.infos) && !TriedPlaced(e, s.infos, s.tried, id))
    || (code == -16 && keyNull)
  }

  /** The check, and the manager after it: looking names up may have inserted some. */
  method Check(e: Env, s: State, keyNull: bool) returns (code: int, t: State)
    requires InRange(s)
    ensures t == s.(ids := t.ids) && Inserted(s, t.ids) && (code == 0 ==> t.ids == NamesAfter(s))
    ensures code == 0 <==> Passed(e, s) && AllTimesFit(s) && !keyNull
    ensures code != 0 ==> Fault(e, s, keyNull, code)
    ensures NamesOnly(s) ==> (code == 0 <==> Consistent(e, s) && AllTimesFit(s) && !keyNull)
  {
    hide Consistent, NewFine, TriedIds, NewIds, HoldsTried, TriedPlaced, EntriesFit, AllTimesFit, SomeFault, NamesOnly;
    hide Inserted, SomeTriedFault, SomeNewFault, SomeOvercount, NamesAfter;
    var setTried, mapNew, leftTried, leftNew, ids;
    t := s;
    NoneInserted(s);
    ConsistentIff(e, s);
    if |s.random| != s.nTried + s.nNew {
      return -7, t;
    }
    code, setTried, mapNew, ids := CheckEntries(s);
    t := s.(ids := ids);
    if code != 0 {
      FaultShows(s, code);
      return;
    }
    if |setTried| != s.nTried {
      return -9, t;
    }
    assert |mapNew| == |mapNew.Keys|;
    if |mapNew| != s.nNew {
      return -10, t;
    }
    Positive(s, mapNew);
    code, leftTried := CheckTried(e, s, setTried);
    if code != 0 {
      return;
    }
    code, leftNew := CheckNew(e, s, mapNew);
    if code != 0 {
      return;
    }
    if |leftTried| != 0 {
      return -13, t;
    }
    if |leftNew| != 0 {
      return -15, t;
    }
    if keyNull {
      return -16, t;
    }
    code := 0;
  }

  lemma {:induction false} FaultShows(s: State, code: int)
    requires SomeFault(s, code)
    ensures !EntriesFit(s) || !AllTimesFit(s)
  {
    var id :| id in s.infos && EntryFault(s, id, s.infos[id], code);
    assert !EntryFits(s, id, s.infos[id]) || !TimesFit(s.infos[id]);
  }

  lemma {:induction false} Positive(s: State, mapNew: map<int, int>)
    requires EntriesFit(s)
    requires mapNew.Keys == NewIds(s.infos) && forall id :: id in mapNew ==> mapNew[id] == s.infos[id].refCount
    ensures forall id :: id in mapNew ==> mapNew[id] == s.infos[id].refCount > 0
  {
    forall id | id in mapNew ensures s.infos[id].refCount > 0 {
      assert id in mapNew.Keys;
      assert EntryFits(s, id, s.infos[id]);
    }
  }

  lemma {:induction false} SplitEntries(infos: Infos)
    ensures |TriedIds(infos)| + |NewIds(infos)| == |infos|
  {
    assert infos.Keys == TriedIds(infos) + NewIds(infos);
  }

  /** A consistent state passes every structural step. */
  lemma {:induction false} Expected(e: Env, s: State)
    requires Consistent(e, s)
    ensures Passed(e, s)
  {
    hide TriedSlot, SlotIn, Buckets;
    SplitEntries(s.infos);
    forall id | id in s.infos ensures EntryFits(s, id, s.infos[id]) {
      assert EntryIndexed(s.idCount, s.ids, s.random, id, s.infos[id]);
      assert InTriedTable(e, s.tried, id, s.infos[id]);
      assert Referenced(e, s.news, {}, id, s.infos[id]);
    }
    forall id | id in TriedIds(s.infos) ensures TriedPlaced(e, s.infos, s.tried, id) {
      assert InTriedTable(e, s.tried, id, s.infos[id]);
    }
    forall id | id in s.infos && !s.infos[id].inTried ensures s.infos[id].refCount == |Buckets(e, s.news, s.infos[id].addr, id)| {
      assert Referenced(e, s.news, {}, id, s.infos[id]);
    }
  }

  /** In a consistent state there are as many names as entries. */
  lemma {:induction false} NamesFit(e: Env, s: State)
    requires Consistent(e, s)
    ensures NamesOnly(s)
  {
    hide TablesOk;
    forall id | id in s.infos ensures EntryIndexed(s.idCount, s.ids, s.random, id, s.infos[id]) { }
    var f: int -> NetAddr := (id: int) => if id in s.infos then s.infos[id].addr.ip else 0;
    ImageSize(s.infos.Keys, f);
    var names := set x | x in s.infos.Keys :: f(x);
    assert |s.infos| == |s.infos.Keys| && |s.ids| == |s.ids.Keys|;
    assert names == s.ids.Keys by {
      forall a | a in s.ids ensures a in names { assert Named(s.infos, a, s.ids[a]); assert f(s.ids[a]) == a; }
    }
  }

  /** Consistency is what the check looks at and what it does not notice. */
  lemma {:induction false} ConsistentIff(e: Env, s: State)
    requires InRange(s)
    ensures Consistent(e, s) <==> Passed(e, s) && NamesOnly(s)
  {
    hide Consistent, Passed, NamesOnly;
    if Consistent(e, s) {
      Expected(e, s);
      NamesFit(e, s);
    }
    if Passed(e, s) && NamesOnly(s) { Concluded(e, s); }
  }

  /** As many different places as places there are fill them all. */
  lemma {:induction false} Onto(xs: set<int>, n: nat)
    requires |xs| == n && forall x :: x in xs ==> 0 <= x < n
    ensures forall i :: 0 <= i < n ==> i in xs
    decreases n
  {
    if n > 0 {
      if n - 1 in xs {
        Onto(xs - {n - 1}, n - 1);
        forall i | 0 <= i < n ensures i in xs { if i < n - 1 { assert i in xs - {n - 1}; } }
      } else {
        Bounded(xs, n - 1);
      }
    }
  }

  lemma {:induction false} Bounded(xs: set<int>, n: nat)
    requires forall x :: x in xs ==> 0 <= x < n
    ensures |xs| <= n
    decreases n
  {
    if n == 0 {
      if xs != {} { var x := Pick(xs); }
    } else {
      Bounded(xs - {n - 1}, n - 1);
    }
  }

  /** A one-to-one image has the same size. */
  lemma {:induction false} ImageSize<T>(ids: set<int>, f: int -> T)
    requires forall x, y :: x in ids && y in ids && f(x) == f(y) ==> x == y
    ensures |set x | x in ids :: f(x)| == |ids|
    decreases |ids|
  {
    if ids != {} {
      var x := Pick(ids);
      var rest := ids - {x};
      ImageSize(rest, f);
      assert (set y | y in ids :: f(y)) == (set y | y in rest :: f(y)) + {f(x)};
    }
  }

  /** A state that passes every step is consistent. */
  lemma {:induction false} Concluded(e: Env, s: State)
    requires InRange(s) && NamesOnly(s) && Passed(e, s)
    ensures Consistent(e, s)
  {
    hide IndexOk, TablesOk, EntriesFit, NewFine, HoldsTried, TriedPlaced;
    IndexConcluded(s);
    TablesConcluded(e, s);
  }

  lemma {:induction false} IndexConcluded(s: State)
    requires NamesOnly(s) && EntriesFit(s)
    requires |s.random| == s.nTried + s.nNew && s.nTried == |TriedIds(s.infos)| && s.nNew == |NewIds(s.infos)|
    ensures IndexOk(s)
  {
    hide EntriesFit, Named, AtPos;
    SplitEntries(s.infos);
    forall id | id in s.infos ensures EntryIndexed(s.idCount, s.ids, s.random, id, s.infos[id]) { FitsAt(s, id); }
    forall i | 0 <= i < |s.random| ensures AtPos(s.infos, i, s.random[i]) { PlaceTaken(s, i); }
    forall a | a in s.ids ensures Named(s.infos, a, s.ids[a]) { NameTaken(s, a); }
  }

  lemma FitsAt(s: State, id: int)
    requires EntriesFit(s) && id in s.infos
    ensures EntryFits(s, id, s.infos[id])
  {
  }

  lemma {:induction false} TablesConcluded(e: Env, s: State)
    requires Passed(e, s)
    ensures TablesOk(e, s, {}, 0)
  {
    hide TriedSlot, SlotIn, Buckets, HoldsTried, HoldsNew, EntriesFit;
    forall id | id in s.infos ensures InTriedTable(e, s.tried, id, s.infos[id]) {
      FitsAt(s, id);
      if s.infos[id].inTried { assert id in TriedIds(s.infos); }
    }
    forall id | id in s.infos ensures Referenced(e, s.news, {}, id, s.infos[id]) { FitsAt(s, id); }
  }

  lemma {:induction false} PlaceTaken(s: State, i: nat)
    requires |s.random| == |s.infos| && i < |s.random| && EntriesFit(s)
    ensures AtPos(s.infos, i, s.random[i])
  {
    var f := (id: int) => if id in s.infos then s.infos[id].randomPos else -1;
    forall x, y | x in s.infos.Keys && y in s.infos.Keys && f(x) == f(y) ensures x == y {
      assert EntryFits(s, x, s.infos[x]) && EntryFits(s, y, s.infos[y]);
    }
    ImageSize(s.infos.Keys, f);
    var places := set x | x in s.infos.Keys :: f(x);
    assert |s.infos| == |s.infos.Keys|;
    forall p | p in places ensures 0 <= p < |s.random| {
      var x: int :| x in s.infos.Keys && f(x) == p;
      assert EntryFits(s, x, s.infos[x]);
    }
    Onto(places, |s.random|);
    assert i in places;
    var x: int :| x in s.infos.Keys && f(x) == i;
    assert EntryFits(s, x, s.infos[x]);
  }

  lemma {:induction false} NameTaken(s: State, a: NetAddr)
    requires NamesOnly(s) && a in s.ids && EntriesFit(s)
    ensures Named(s.infos, a, s.ids[a])
  {
    var f: int -> NetAddr := (id: int) => if id in s.infos then s.infos[id].addr.ip else 0;
    forall x, y | x in s.infos.Keys && y in s.infos.Keys && f(x) == f(y) ensures x == y {
      assert EntryFits(s, x, s.infos[x]) && EntryFits(s, y, s.infos[y]);
    }
    ImageSize(s.infos.Keys, f);
    var names := set x | x in s.infos.Keys :: f(x);
    assert |s.infos| == |s.infos.Keys| && |s.ids| == |s.ids.Keys|;
    forall p | p in names ensures p in s.ids.Keys {
      var x: int :| x in s.infos.Keys && f(x) == p;
      assert EntryFits(s, x, s.infos[x]);
    }
    SubsetFull(names, s.ids.Keys);
    assert a in names;
    var x: int :| x in s.infos.Keys && f(x) == a;
    assert EntryFits(s, x, s.infos[x]);
  }

  lemma {:induction false} SubsetFull<T>(a: set<T>, b: set<T>)
    requires a <= b && |a| == |b|
    ensures a == b
  {
    var c := b - a;
    assert b == a + c;
  }

  // ---- What the check does not notice ----

  const SOME_ADDRESS := Service(7, 0)

  /** One tried entry in its place, under an id and with the names and the id count given. */
  function Lone(e: Env, id: int, ids: map<NetAddr, int>, idCount: int): State {
    State(idCount, map[id := Info(SOME_ADDRESS, {}, 0, 1, 1, 1, 1, 0, 0, true, 0)], ids, [id], 1,
          map[TriedSlot(e, SOME_ADDRESS) := id], 0, map[], 1, {})
  }

  lemma {:induction false} LonePasses(e: Env, id: int, ids: map<NetAddr, int>, idCount: int)
    requires Lookup(ids, SOME_ADDRESS.ip) == id
    ensures InRange(Lone(e, id, ids, idCount)) && Passed(e, Lone(e, id, ids, idCount)) && AllTimesFit(Lone(e, id, ids, idCount))
  {
    var s := Lone(e, id, ids, idCount);
    assert TriedIds(s.infos) == {id} && NewIds(s.infos) == {};
  }

  /** An entry 0 without its name passes. */
  lemma {:induction false} MissingNamePasses(e: Env)
    ensures var s := Lone(e, 0, map[], 1); InRange(s) && Passed(e, s) && AllTimesFit(s) && !Consistent(e, s)
  {
    LonePasses(e, 0, map[], 1);
    ConsistentIff(e, Lone(e, 0, map[], 1));
  }

  /** An id that was never handed out passes. */
  lemma {:induction false} UnknownIdPasses(e: Env)
    ensures var s := Lone(e, 5, map[SOME_ADDRESS.ip := 5], 1); InRange(s) && Passed(e, s) && AllTimesFit(s) && !Consistent(e, s)
  {
    var s := Lone(e, 5, map[SOME_ADDRESS.ip := 5], 1);
    LonePasses(e, 5, map[SOME_ADDRESS.ip := 5], 1);
    assert 5 in s.infos;
    ConsistentIff(e, s);
  }

  /** A name left behind in an empty manager passes. */
  lemma {:induction false} StaleNamePasses(e: Env)
    ensures var s := State(0, map[], map[7 := 0], [], 0, map[], 0, map[], 1, {});
            InRange(s) && Passed(e, s) && AllTimesFit(s) && !Consistent(e, s)
  {
    var s := State(0, map[], map[7 := 0], [], 0, map[], 0, map[], 1, {});
    assert TriedIds(s.infos) == {} && NewIds(s.infos) == {};
    assert 7 in s.ids;
    ConsistentIff(e, s);
  }
}
