/**
 The consistency conditions of the address manager, and their preservation by every step.
 The conditions are stated on the structures they speak of, each by a predicate of one entry.
 */
module AddrManInvariant {
  import opened Wrappers
  import opened AddrManModel

  // ---- The conditions ----

  ghost predicate Named(infos: Infos, a: NetAddr, id: int) { id in infos && infos[id].addr.ip == a }

  ghost predicate AtPos(infos: Infos, i: int, id: int) { id in infos && infos[id].randomPos == i }

  ghost predicate EntryIndexed(idCount: int, ids: map<NetAddr, int>, random: seq<int>, id: int, i: Info) {
    && 0 <= id < idCount
    && i.addr.ip in ids && ids[i.addr.ip] == id
    && 0 <= i.randomPos < |random| && random[i.randomPos] == id
  }

  /** infos, ids and random name the same entries (codes -5 and -14). */
  ghost predicate Indexed(idCount: int, infos: Infos, ids: map<NetAddr, int>, random: seq<int>) {
    && |random| == |infos| && 0 <= idCount
    && (forall id {:trigger EntryIndexed(idCount, ids, random, id, infos[id])} :: id in infos ==> EntryIndexed(idCount, ids, random, id, infos[id]))
    && (forall a {:trigger Named(infos, a, ids[a])} :: a in ids ==> Named(infos, a, ids[a]))
    && (forall i {:trigger AtPos(infos, i, random[i])} :: 0 <= i < |random| ==> AtPos(infos, i, random[i]))
  }

  ghost function TriedIds(infos: Infos): set<int> { set id | id in infos && infos[id].inTried }
  ghost function NewIds(infos: Infos): set<int> { set id | id in infos && !infos[id].inTried }

  /** Counters (codes -9, -10), with `owed` new entries not counted yet. */
  ghost predicate Counted(infos: Infos, nTried: int, nNew: int, owed: int) {
    nTried == |TriedIds(infos)| && nNew + owed == |NewIds(infos)|
  }

  ghost predicate HoldsTried(e: Env, infos: Infos, sl: Slot, id: int) {
    id in infos && infos[id].inTried && TriedSlot(e, infos[id].addr) == sl
  }

  ghost predicate InTriedTable(e: Env, tried: Table, id: int, i: Info) {
    i.inTried ==> Get(tried, TriedSlot(e, i.addr)) == Some(id) && i.refCount == 0
  }

  /** Tried entries sit once, in their own slot (codes -2, -11, -13, -17, -18). */
  ghost predicate TriedOk(e: Env, infos: Infos, tried: Table) {
    && (forall sl {:trigger HoldsTried(e, infos, sl, tried[sl])} :: sl in tried ==> HoldsTried(e, infos, sl, tried[sl]))
    && (forall id {:trigger InTriedTable(e, tried, id, infos[id])} :: id in infos ==> InTriedTable(e, tried, id, infos[id]))
  }

  ghost predicate HoldsNew(e: Env, infos: Infos, sl: Slot, id: int) {
    id in infos && !infos[id].inTried && 0 <= sl.bucket < NEW_BUCKETS && SlotIn(e, infos[id].addr, sl.bucket) == sl
  }

  /** New slots hold new entries at the position the bucket gives them (codes -12, -19). */
  ghost predicate NewOk(e: Env, infos: Infos, news: Table) {
    forall sl {:trigger HoldsNew(e, infos, sl, news[sl])} :: sl in news ==> HoldsNew(e, infos, sl, news[sl])
  }

  ghost predicate Referenced(e: Env, news: Table, limbo: set<int>, id: int, i: Info) {
    !i.inTried ==>
      i.refCount == |Buckets(e, news, i.addr, id)| <= NEW_BUCKETS_PER_ADDRESS && (i.refCount == 0 <==> id in limbo)
  }

  /**
   A new entry's reference count is the number of slots that hold it, from 1 to 8 (codes -3, -4,
   -15). Entries in limbo, known but in no table, are those with count 0.
   */
  ghost predicate RefsOk(e: Env, infos: Infos, news: Table, limbo: set<int>) {
    && (forall id :: id in limbo ==> id in infos && !infos[id].inTried)
    && (forall id {:trigger Referenced(e, news, limbo, id, infos[id])} :: id in infos ==> Referenced(e, news, limbo, id, infos[id]))
  }

  ghost predicate IndexOk(s: State) { Indexed(s.idCount, s.infos, s.ids, s.random) }

  ghost predicate TablesOk(e: Env, s: State, limbo: set<int>, owed: int) {
    && Counted(s.infos, s.nTried, s.nNew, owed)
    && TriedOk(e, s.infos, s.tried)
    && NewOk(e, s.infos, s.news)
    && RefsOk(e, s.infos, s.news, limbo)
  }

  ghost predicate Inv(e: Env, s: State, limbo: set<int>, owed: int) {
    IndexOk(s) && TablesOk(e, s, limbo, owed)
  }

  ghost predicate Consistent(e: Env, s: State) {
    Inv(e, s, {}, 0)
  }

  // ---- Changing the entries but not the structures ----

  lemma {:induction false} IndexedKept(idCount: int, infos: Infos, infos': Infos, ids: map<NetAddr, int>, random: seq<int>)
    requires Indexed(idCount, infos, ids, random) && infos'.Keys == infos.Keys
    requires forall id :: id in infos ==> infos'[id].addr == infos[id].addr && infos'[id].randomPos == infos[id].randomPos
    ensures Indexed(idCount, infos', ids, random)
  {
    assert |infos'| == |infos'.Keys| == |infos.Keys| == |infos|;
    forall i | 0 <= i < |random| ensures AtPos(infos', i, random[i]) { assert AtPos(infos, i, random[i]); }
    forall a | a in ids ensures Named(infos', a, ids[a]) { assert Named(infos, a, ids[a]); }
    forall id | id in infos' ensures EntryIndexed(idCount, ids, random, id, infos'[id]) {
      assert EntryIndexed(idCount, ids, random, id, infos[id]);
    }
  }

  /** The tried table does not mind what happens to entries that are not tried. */
  lemma {:induction false} TriedKept(e: Env, infos: Infos, infos': Infos, tried: Table)
    requires TriedOk(e, infos, tried)
    requires forall id :: id in infos && infos[id].inTried ==> id in infos' && infos'[id].inTried && infos'[id].addr == infos[id].addr
    requires forall id :: id in infos' && infos'[id].inTried ==> id in infos && infos[id].inTried && infos'[id].addr == infos[id].addr && infos'[id].refCount == 0
    ensures TriedOk(e, infos', tried)
  {
    forall sl | sl in tried ensures HoldsTried(e, infos', sl, tried[sl]) { assert HoldsTried(e, infos, sl, tried[sl]); }
    forall id | id in infos' ensures InTriedTable(e, tried, id, infos'[id]) {
      if infos'[id].inTried { assert InTriedTable(e, tried, id, infos[id]); }
    }
  }

  lemma {:induction false} CountKept(infos: Infos, infos': Infos)
    requires infos'.Keys == infos.Keys
    requires forall id :: id in infos ==> infos'[id].inTried == infos[id].inTried
    ensures TriedIds(infos') == TriedIds(infos) && NewIds(infos') == NewIds(infos)
  {
    forall id: int ensures id in TriedIds(infos') <==> id in TriedIds(infos) { assert id in infos'.Keys <==> id in infos.Keys; }
    forall id: int ensures id in NewIds(infos') <==> id in NewIds(infos) { assert id in infos'.Keys <==> id in infos.Keys; }
  }

  /** The entries change only in fields that no table depends on. */
  ghost predicate SameForTables(infos: Infos, infos': Infos) {
    infos'.Keys == infos.Keys &&
    forall id :: id in infos ==>
      infos'[id].addr == infos[id].addr && infos'[id].inTried == infos[id].inTried && infos'[id].refCount == infos[id].refCount
  }

  lemma {:induction false} TablesKept(e: Env, s: State, t: State, limbo: set<int>, owed: int)
    requires TablesOk(e, s, limbo, owed) && SameForTables(s.infos, t.infos)
    requires t.tried == s.tried && t.news == s.news && t.nTried == s.nTried && t.nNew == s.nNew
    ensures TablesOk(e, t, limbo, owed)
  {
    CountKept(s.infos, t.infos);
    forall id | id in s.infos && s.infos[id].inTried ensures s.infos[id].refCount == 0 { assert InTriedTable(e, s.tried, id, s.infos[id]); }
    TriedKept(e, s.infos, t.infos, s.tried);
    forall sl | sl in t.news ensures HoldsNew(e, t.infos, sl, t.news[sl]) { assert HoldsNew(e, s.infos, sl, s.news[sl]); }
    forall id | id in t.infos ensures Referenced(e, t.news, limbo, id, t.infos[id]) { assert Referenced(e, s.news, limbo, id, s.infos[id]); }
  }

  lemma {:induction false} SwapIndexed(s: State, i: int, j: int)
    requires IndexOk(s)
    ensures IndexOk(SwapRandom(s, i, j)) && SameForTables(s.infos, SwapRandom(s, i, j).infos)
  {
    var t := SwapRandom(s, i, j);
    if i != j && 0 <= i < |s.random| && 0 <= j < |s.random| {
      hide SwapRandom, EntryIndexed, AtPos, Named;
      SwapShape(s, i, j);
      forall k | k in t.infos ensures EntryIndexed(t.idCount, t.ids, t.random, k, t.infos[k]) { SwapEntry(s, i, j, k); }
      forall k | 0 <= k < |t.random| ensures AtPos(t.infos, k, t.random[k]) { SwapPlace(s, i, j, k); }
      forall n | n in t.ids ensures Named(t.infos, n, t.ids[n]) { SwapName(s, i, j, n); }
    }
  }

  lemma {:induction false} SwapShape(s: State, i: int, j: int)
    requires IndexOk(s) && i != j && 0 <= i < |s.random| && 0 <= j < |s.random|
    ensures var t := SwapRandom(s, i, j);
            && t.infos.Keys == s.infos.Keys && |t.infos| == |s.infos| && SameForTables(s.infos, t.infos)
            && t.idCount == s.idCount && t.ids == s.ids && |t.random| == |s.random|
  {
    var t := SwapRandom(s, i, j);
    assert AtPos(s.infos, i, s.random[i]) && AtPos(s.infos, j, s.random[j]);
    assert t.infos.Keys == s.infos.Keys;
    assert |t.infos| == |t.infos.Keys| == |s.infos|;
  }

  lemma {:induction false} SwapEntry(s: State, i: int, j: int, k: int)
    requires IndexOk(s) && i != j && 0 <= i < |s.random| && 0 <= j < |s.random| && k in s.infos
    ensures var t := SwapRandom(s, i, j); k in t.infos && EntryIndexed(t.idCount, t.ids, t.random, k, t.infos[k])
  {
    assert AtPos(s.infos, i, s.random[i]) && AtPos(s.infos, j, s.random[j]);
    assert EntryIndexed(s.idCount, s.ids, s.random, k, s.infos[k]);
  }

  lemma {:induction false} SwapPlace(s: State, i: int, j: int, k: int)
    requires IndexOk(s) && i != j && 0 <= i < |s.random| && 0 <= j < |s.random| && 0 <= k < |s.random|
    ensures var t := SwapRandom(s, i, j); AtPos(t.infos, k, t.random[k])
  {
    assert AtPos(s.infos, i, s.random[i]) && AtPos(s.infos, j, s.random[j]) && AtPos(s.infos, k, s.random[k]);
  }

  lemma {:induction false} SwapName(s: State, i: int, j: int, n: NetAddr)
    requires IndexOk(s) && i != j && 0 <= i < |s.random| && 0 <= j < |s.random| && n in s.ids
    ensures var t := SwapRandom(s, i, j); Named(t.infos, n, t.ids[n])
  {
    assert AtPos(s.infos, i, s.random[i]) && AtPos(s.infos, j, s.random[j]) && Named(s.infos, n, s.ids[n]);
  }

  // ---- Creating and deleting ----

  lemma {:induction false} IdBelow(s: State, id: int)
    requires IndexOk(s) && id in s.infos
    ensures 0 <= id < s.idCount
  {
    assert EntryIndexed(s.idCount, s.ids, s.random, id, s.infos[id]);
  }

  lemma {:induction false} CreateIndexed(s: State, a: Service, services: Flags, time: int, source: NetAddr)
    requires IndexOk(s) && a.ip !in s.ids
    ensures s.idCount !in s.infos && IndexOk(Create(s, a, services, time, source))
  {
    if s.idCount in s.infos { IdBelow(s, s.idCount); }
    var t, id := Create(s, a, services, time, source), s.idCount;
    forall k | 0 <= k < |t.random| ensures AtPos(t.infos, k, t.random[k]) {
      if k < |s.random| { assert AtPos(s.infos, k, s.random[k]); }
    }
    forall n | n in t.ids ensures Named(t.infos, n, t.ids[n]) {
      if n != a.ip { assert Named(s.infos, n, s.ids[n]); }
    }
    forall i | i in t.infos ensures EntryIndexed(t.idCount, t.ids, t.random, i, t.infos[i]) {
      if i != id { assert EntryIndexed(s.idCount, s.ids, s.random, i, s.infos[i]); }
    }
  }

  lemma {:induction false} NoBuckets(e: Env, news: Table, a: Service, id: int)
    requires forall sl :: sl in news ==> news[sl] != id
    ensures Buckets(e, news, a, id) == {}
  {
    forall b: int ensures b !in Buckets(e, news, a, id) { }
  }

  lemma {:induction false} CreateKeeps(e: Env, s: State, a: Service, services: Flags, time: int, source: NetAddr)
    requires Consistent(e, s) && a.ip !in s.ids
    ensures Inv(e, Create(s, a, services, time, source), {s.idCount}, 1)
  {
    var t, id := Create(s, a, services, time, source), s.idCount;
    CreateIndexed(s, a, services, time, source);
    forall sl | sl in t.news ensures HoldsNew(e, t.infos, sl, t.news[sl]) && t.news[sl] != id { assert HoldsNew(e, s.infos, sl, s.news[sl]); }
    TriedKeptNow(e, s.infos, t.infos, s.tried);
    NoBuckets(e, t.news, a, id);
    forall i | i in t.infos ensures Referenced(e, t.news, {id}, i, t.infos[i]) {
      if i != id { assert Referenced(e, s.news, {}, i, s.infos[i]); }
    }
    CountAdd(s.infos, id, t.infos[id]);
  }

  lemma {:induction false} TriedKeptNow(e: Env, infos: Infos, infos': Infos, tried: Table)
    requires TriedOk(e, infos, tried)
    requires forall id :: id in infos && infos[id].inTried ==> id in infos' && infos'[id] == infos[id]
    requires forall id :: id in infos' && infos'[id].inTried ==> id in infos && infos[id] == infos'[id]
    ensures TriedOk(e, infos', tried)
  {
    forall id | id in infos && infos[id].inTried ensures infos[id].refCount == 0 { assert InTriedTable(e, tried, id, infos[id]); }
    TriedKept(e, infos, infos', tried);
  }

  lemma {:induction false} CountAdd(infos: Infos, id: int, i: Info)
    requires id !in infos && !i.inTried
    ensures TriedIds(infos[id := i]) == TriedIds(infos)
    ensures NewIds(infos[id := i]) == NewIds(infos) + {id} && |NewIds(infos[id := i])| == |NewIds(infos)| + 1
  {
    forall k: int ensures k in TriedIds(infos[id := i]) <==> k in TriedIds(infos) { }
    forall k: int ensures k in NewIds(infos[id := i]) <==> k in NewIds(infos) + {id} { }
    assert NewIds(infos[id := i]) == NewIds(infos) + {id};
  }

  lemma {:induction false} CountDrop(infos: Infos, id: int)
    requires id in infos && !infos[id].inTried
    ensures TriedIds(infos - {id}) == TriedIds(infos)
    ensures NewIds(infos - {id}) == NewIds(infos) - {id} && |NewIds(infos - {id})| == |NewIds(infos)| - 1
  {
    forall k: int ensures k in TriedIds(infos - {id}) <==> k in TriedIds(infos) { }
    forall k: int ensures k in NewIds(infos - {id}) <==> k in NewIds(infos) - {id} { }
    assert NewIds(infos - {id}) == NewIds(infos) - {id};
  }

  /** An entry in no bucket is in no slot. */
  lemma {:induction false} NoSlot(e: Env, infos: Infos, news: Table, id: int)
    requires NewOk(e, infos, news) && id in infos && |Buckets(e, news, infos[id].addr, id)| == 0
    ensures forall sl :: sl in news ==> news[sl] != id
  {
    forall sl | sl in news ensures news[sl] != id {
      assert HoldsNew(e, infos, sl, news[sl]);
      if news[sl] == id { BucketsErase(e, news, sl, infos[id].addr, id); }
    }
  }

  /** Dropping the last position of random. */
  lemma {:induction false} PopIndexed(t: State, id: int)
    requires IndexOk(t) && id in t.infos && t.infos[id].randomPos == |t.random| - 1
    ensures Indexed(t.idCount, t.infos - {id}, t.ids - {t.infos[id].addr.ip}, t.random[..|t.random| - 1])
  {
    var n := |t.random| - 1;
    var infos, ids, random := t.infos - {id}, t.ids - {t.infos[id].addr.ip}, t.random[..n];
    assert EntryIndexed(t.idCount, t.ids, t.random, id, t.infos[id]);
    forall k | 0 <= k < n ensures AtPos(infos, k, random[k]) { assert AtPos(t.infos, k, t.random[k]); }
    forall a | a in ids ensures Named(infos, a, ids[a]) { assert Named(t.infos, a, t.ids[a]); }
    forall i | i in infos ensures EntryIndexed(t.idCount, ids, random, i, infos[i]) {
      assert EntryIndexed(t.idCount, t.ids, t.random, i, t.infos[i]);
    }
    assert |infos| == |t.infos| - 1 by { assert infos.Keys == t.infos.Keys - {id}; }
  }

  lemma {:induction false} SwapToLast(s: State, id: int)
    requires IndexOk(s) && id in s.infos
    ensures var t := SwapRandom(s, s.infos[id].randomPos, |s.random| - 1);
            IndexOk(t) && SameForTables(s.infos, t.infos) && id in t.infos && t.infos[id].randomPos == |t.random| - 1
  {
    assert EntryIndexed(s.idCount, s.ids, s.random, id, s.infos[id]);
    SwapIndexed(s, s.infos[id].randomPos, |s.random| - 1);
    var t := SwapRandom(s, s.infos[id].randomPos, |s.random| - 1);
    assert t.random[|s.random| - 1] == id;
    assert AtPos(t.infos, |t.random| - 1, t.random[|t.random| - 1]);
  }

  lemma {:induction false} SwapKeeps(e: Env, s: State, i: int, j: int, limbo: set<int>, owed: int)
    requires Inv(e, s, limbo, owed)
    ensures Inv(e, SwapRandom(s, i, j), limbo, owed) && SameForTables(s.infos, SwapRandom(s, i, j).infos)
  {
    SwapIndexed(s, i, j);
    TablesKept(e, s, SwapRandom(s, i, j), limbo, owed);
  }

  lemma {:induction false} DeleteKeeps(e: Env, s: State, id: int, limbo: set<int>, owed: int)
    requires Inv(e, s, limbo, owed) && id in limbo
    ensures Inv(e, Delete(s, id), limbo - {id}, owed)
  {
    assert id in s.infos;
    SwapKeeps(e, s, s.infos[id].randomPos, |s.random| - 1, limbo, owed);
    SwapToLast(s, id);
    DeleteLast(e, SwapRandom(s, s.infos[id].randomPos, |s.random| - 1), id, limbo, owed);
  }

  lemma {:induction false} DeleteLast(e: Env, t: State, id: int, limbo: set<int>, owed: int)
    requires Inv(e, t, limbo, owed) && id in limbo && t.infos[id].randomPos == |t.random| - 1
    ensures Inv(e, DropLast(t, id), limbo - {id}, owed)
  {
    PopIndexed(t, id);
    DropKeeps(e, t.infos, t.tried, t.news, limbo, id);
    CountDrop(t.infos, id);
  }

  lemma {:induction false} DropKeeps(e: Env, infos: Infos, tried: Table, news: Table, limbo: set<int>, id: int)
    requires TriedOk(e, infos, tried) && NewOk(e, infos, news) && RefsOk(e, infos, news, limbo) && id in limbo
    ensures TriedOk(e, infos - {id}, tried) && NewOk(e, infos - {id}, news) && RefsOk(e, infos - {id}, news, limbo - {id})
  {
    var infos' := infos - {id};
    assert Referenced(e, news, limbo, id, infos[id]);
    NoSlot(e, infos, news, id);
    TriedKeptNow(e, infos, infos', tried);
    forall sl | sl in news ensures HoldsNew(e, infos', sl, news[sl]) { assert HoldsNew(e, infos, sl, news[sl]); }
    forall i | i in infos' ensures Referenced(e, news, limbo - {id}, i, infos'[i]) { assert Referenced(e, news, limbo, i, infos[i]); }
  }

  // ---- References in the new table ----

  /** Setting or clearing a slot of one entry leaves the buckets of the others alone. */
  lemma {:induction false} BucketsOthers(e: Env, news: Table, sl: Slot, v: Option<int>, a: Service, id: int)
    requires Get(news, sl) != Some(id) && v != Some(id)
    ensures Buckets(e, SetOrErase(news, sl, v), a, id) == Buckets(e, news, a, id)
  {
    forall b: int ensures b in Buckets(e, SetOrErase(news, sl, v), a, id) <==> b in Buckets(e, news, a, id) { }
  }

  lemma {:induction false} BucketsErase(e: Env, news: Table, sl: Slot, a: Service, id: int)
    requires Get(news, sl) == Some(id) && SlotIn(e, a, sl.bucket) == sl && 0 <= sl.bucket < NEW_BUCKETS
    ensures sl.bucket in Buckets(e, news, a, id)
    ensures Buckets(e, news - {sl}, a, id) == Buckets(e, news, a, id) - {sl.bucket}
  {
    forall b: int ensures b in Buckets(e, news - {sl}, a, id) <==> b in Buckets(e, news, a, id) - {sl.bucket} { }
  }

  lemma {:induction false} BucketsAdd(e: Env, news: Table, sl: Slot, a: Service, id: int)
    requires sl !in news && SlotIn(e, a, sl.bucket) == sl && 0 <= sl.bucket < NEW_BUCKETS
    ensures sl.bucket !in Buckets(e, news, a, id)
    ensures Buckets(e, news[sl := id], a, id) == Buckets(e, news, a, id) + {sl.bucket}
  {
    forall b: int ensures b in Buckets(e, news[sl := id], a, id) <==> b in Buckets(e, news, a, id) + {sl.bucket} { }
  }

  /** One new entry's count changes; nothing else about the entries does. */
  lemma {:induction false} RecountKeeps(e: Env, s: State, id: int, n: int, owed: int)
    requires IndexOk(s) && TriedOk(e, s.infos, s.tried) && Counted(s.infos, s.nTried, s.nNew, owed)
    requires id in s.infos && !s.infos[id].inTried
    ensures var infos := s.infos[id := s.infos[id].(refCount := n)];
            Indexed(s.idCount, infos, s.ids, s.random) && TriedOk(e, infos, s.tried) && Counted(infos, s.nTried, s.nNew, owed)
  {
    var infos := s.infos[id := s.infos[id].(refCount := n)];
    assert infos.Keys == s.infos.Keys;
    IndexedKept(s.idCount, s.infos, infos, s.ids, s.random);
    TriedKeptNow(e, s.infos, infos, s.tried);
    CountKept(s.infos, infos);
  }

  lemma {:induction false} UnlinkRefs(e: Env, infos: Infos, news: Table, sl: Slot, limbo: set<int>)
    requires NewOk(e, infos, news) && RefsOk(e, infos, news, limbo) && sl in news
    ensures var y := news[sl];
            && y in infos && !infos[y].inTried && infos[y].refCount >= 1 && y !in limbo
            && var infos' := infos[y := infos[y].(refCount := infos[y].refCount - 1)];
            && NewOk(e, infos', news - {sl})
            && RefsOk(e, infos', news - {sl}, if infos[y].refCount == 1 then limbo + {y} else limbo)
  {
    var y := news[sl];
    assert HoldsNew(e, infos, sl, y);
    assert Referenced(e, news, limbo, y, infos[y]);
    BucketsErase(e, news, sl, infos[y].addr, y);
    var infos', news' := infos[y := infos[y].(refCount := infos[y].refCount - 1)], SetOrErase(news, sl, None);
    forall k | k in news' ensures HoldsNew(e, infos', k, news'[k]) { assert HoldsNew(e, infos, k, news[k]); }
    var limbo' := if infos[y].refCount == 1 then limbo + {y} else limbo;
    forall i | i in infos' ensures Referenced(e, news', limbo', i, infos'[i]) {
      assert Referenced(e, news, limbo, i, infos[i]);
      if i != y { BucketsOthers(e, news, sl, None, infos[i].addr, i); }
    }
  }

  lemma {:induction false} UnlinkKeeps(e: Env, s: State, sl: Slot, limbo: set<int>, owed: int)
    requires Inv(e, s, limbo, owed) && sl in s.news
    ensures var y := s.news[sl];
            && y in s.infos && !s.infos[y].inTried && s.infos[y].refCount >= 1 && y !in limbo
            && Inv(e, Unlink(s, sl), if s.infos[y].refCount == 1 then limbo + {y} else limbo, owed)
  {
    UnlinkRefs(e, s.infos, s.news, sl, limbo);
    RecountKeeps(e, s, s.news[sl], s.infos[s.news[sl]].refCount - 1, owed);
  }

  lemma {:induction false} LinkRefs(e: Env, infos: Infos, news: Table, id: int, sl: Slot, limbo: set<int>)
    requires NewOk(e, infos, news) && RefsOk(e, infos, news, limbo)
    requires id in infos && !infos[id].inTried && infos[id].refCount < NEW_BUCKETS_PER_ADDRESS
    requires sl !in news && 0 <= sl.bucket < NEW_BUCKETS && SlotIn(e, infos[id].addr, sl.bucket) == sl
    ensures var infos' := infos[id := infos[id].(refCount := infos[id].refCount + 1)];
            NewOk(e, infos', news[sl := id]) && RefsOk(e, infos', news[sl := id], limbo - {id})
  {
    BucketsAdd(e, news, sl, infos[id].addr, id);
    var infos', news' := infos[id := infos[id].(refCount := infos[id].refCount + 1)], SetOrErase(news, sl, Some(id));
    forall k | k in news' ensures HoldsNew(e, infos', k, news'[k]) { if k != sl { assert HoldsNew(e, infos, k, news[k]); } }
    forall i | i in infos' ensures Referenced(e, news', limbo - {id}, i, infos'[i]) {
      assert Referenced(e, news, limbo, i, infos[i]);
      if i != id { BucketsOthers(e, news, sl, Some(id), infos[i].addr, i); }
    }
  }

  lemma {:induction false} LinkKeeps(e: Env, s: State, id: int, sl: Slot, limbo: set<int>, owed: int)
    requires Inv(e, s, limbo, owed) && id in s.infos && !s.infos[id].inTried && s.infos[id].refCount < NEW_BUCKETS_PER_ADDRESS
    requires sl !in s.news && 0 <= sl.bucket < NEW_BUCKETS && SlotIn(e, s.infos[id].addr, sl.bucket) == sl
    ensures Inv(e, Link(s, id, sl), limbo - {id}, owed)
  {
    LinkRefs(e, s.infos, s.news, id, sl, limbo);
    RecountKeeps(e, s, id, s.infos[id].refCount + 1, owed);
  }

  lemma {:induction false} WithoutOthers(e: Env, news: Table, a: Service, id: int, upto: int, a': Service, i: int)
    requires i != id
    ensures Buckets(e, Without(e, news, a, id, upto), a', i) == Buckets(e, news, a', i)
  {
    forall b: int ensures b in Buckets(e, Without(e, news, a, id, upto), a', i) <==> b in Buckets(e, news, a', i) { }
  }

  lemma {:induction false} ForgetRefs(e: Env, infos: Infos, news: Table, id: int)
    requires NewOk(e, infos, news) && RefsOk(e, infos, news, {}) && id in infos && !infos[id].inTried
    ensures infos[id].refCount == |BucketsBelow(e, news, infos[id].addr, id, NEW_BUCKETS)|
    ensures var infos', news' := infos[id := infos[id].(refCount := 0)], Without(e, news, infos[id].addr, id, NEW_BUCKETS);
            NewOk(e, infos', news') && RefsOk(e, infos', news', {id})
  {
    var a := infos[id].addr;
    var infos', news' := infos[id := infos[id].(refCount := 0)], Without(e, news, a, id, NEW_BUCKETS);
    assert BucketsBelow(e, news, a, id, NEW_BUCKETS) == Buckets(e, news, a, id);
    assert Referenced(e, news, {}, id, infos[id]);
    forall k | k in news' ensures HoldsNew(e, infos', k, news'[k]) && news'[k] != id { assert HoldsNew(e, infos, k, news[k]); }
    NoBuckets(e, news', a, id);
    forall i | i in infos' ensures Referenced(e, news', {id}, i, infos'[i]) {
      assert Referenced(e, news, {}, i, infos[i]);
      if i != id { WithoutOthers(e, news, a, id, NEW_BUCKETS, infos[i].addr, i); }
    }
  }

  lemma {:induction false} ForgetKeeps(e: Env, s: State, id: int, owed: int)
    requires Inv(e, s, {}, owed) && id in s.infos && !s.infos[id].inTried
    ensures Inv(e, Forget(e, s, id, NEW_BUCKETS), {id}, owed)
    ensures Forget(e, s, id, NEW_BUCKETS).infos[id].refCount == 0
  {
    ForgetRefs(e, s.infos, s.news, id);
    RecountKeeps(e, s, id, 0, owed);
  }

  // ---- Moving in and out of the tried table ----

  lemma {:induction false} CountMove(infos: Infos, id: int, i: Info)
    requires id in infos && i.inTried != infos[id].inTried
    ensures |TriedIds(infos[id := i])| == |TriedIds(infos)| + (if i.inTried then 1 else -1)
    ensures |NewIds(infos[id := i])| == |NewIds(infos)| + (if i.inTried then -1 else 1)
  {
    var infos' := infos[id := i];
    if i.inTried {
      forall k: int ensures k in TriedIds(infos') <==> k in TriedIds(infos) + {id} { }
      forall k: int ensures k in NewIds(infos') <==> k in NewIds(infos) - {id} { }
      assert TriedIds(infos') == TriedIds(infos) + {id} && NewIds(infos') == NewIds(infos) - {id};
    } else {
      forall k: int ensures k in TriedIds(infos') <==> k in TriedIds(infos) - {id} { }
      forall k: int ensures k in NewIds(infos') <==> k in NewIds(infos) + {id} { }
      assert TriedIds(infos') == TriedIds(infos) - {id} && NewIds(infos') == NewIds(infos) + {id};
    }
  }

  lemma {:induction false} UntryTables(e: Env, infos: Infos, tried: Table, news: Table, sl: Slot, limbo: set<int>)
    requires TriedOk(e, infos, tried) && NewOk(e, infos, news) && RefsOk(e, infos, news, limbo) && sl in tried
    ensures var y := tried[sl];
            && y in infos && infos[y].inTried && infos[y].refCount == 0
            && var infos' := infos[y := infos[y].(inTried := false)];
            && TriedOk(e, infos', tried - {sl}) && NewOk(e, infos', news) && RefsOk(e, infos', news, limbo + {y})
  {
    var y := tried[sl];
    assert HoldsTried(e, infos, sl, y);
    assert InTriedTable(e, tried, y, infos[y]);
    var infos', tried' := infos[y := infos[y].(inTried := false)], tried - {sl};
    forall k | k in news ensures HoldsNew(e, infos', k, news[k]) && news[k] != y { assert HoldsNew(e, infos, k, news[k]); }
    forall k | k in tried' ensures HoldsTried(e, infos', k, tried'[k]) { assert HoldsTried(e, infos, k, tried[k]); }
    forall i | i in infos' ensures InTriedTable(e, tried', i, infos'[i]) { assert InTriedTable(e, tried, i, infos[i]); }
    NoBuckets(e, news, infos[y].addr, y);
    forall i | i in infos' ensures Referenced(e, news, limbo + {y}, i, infos'[i]) { assert Referenced(e, news, limbo, i, infos[i]); }
  }

  lemma {:induction false} UntryKeeps(e: Env, s: State, sl: Slot, limbo: set<int>, owed: int)
    requires Inv(e, s, limbo, owed) && sl in s.tried
    ensures s.tried[sl] in s.infos && s.infos[s.tried[sl]].inTried && s.infos[s.tried[sl]].refCount == 0
    ensures Inv(e, Untry(s, sl), limbo + {s.tried[sl]}, owed + 1)
  {
    UntryTables(e, s.infos, s.tried, s.news, sl, limbo);
    RetryKeeps(s, s.tried[sl], false);
  }

  /** Moving one entry between the tables keeps the index and moves one between the counters. */
  lemma {:induction false} RetryKeeps(s: State, id: int, inTried: bool)
    requires IndexOk(s) && id in s.infos && s.infos[id].inTried != inTried
    ensures var infos := s.infos[id := s.infos[id].(inTried := inTried)];
            && Indexed(s.idCount, infos, s.ids, s.random)
            && |TriedIds(infos)| == |TriedIds(s.infos)| + (if inTried then 1 else -1)
            && |NewIds(infos)| == |NewIds(s.infos)| + (if inTried then -1 else 1)
  {
    var infos := s.infos[id := s.infos[id].(inTried := inTried)];
    assert infos.Keys == s.infos.Keys;
    IndexedKept(s.idCount, s.infos, infos, s.ids, s.random);
    CountMove(s.infos, id, infos[id]);
  }

  lemma {:induction false} TryTables(e: Env, infos: Infos, tried: Table, news: Table, id: int, limbo: set<int>)
    requires TriedOk(e, infos, tried) && NewOk(e, infos, news) && RefsOk(e, infos, news, limbo)
    requires id in limbo && TriedSlot(e, infos[id].addr) !in tried
    ensures var infos' := infos[id := infos[id].(inTried := true)];
            && TriedOk(e, infos', tried[TriedSlot(e, infos[id].addr) := id])
            && NewOk(e, infos', news) && RefsOk(e, infos', news, limbo - {id})
  {
    var sl := TriedSlot(e, infos[id].addr);
    var infos', tried' := infos[id := infos[id].(inTried := true)], tried[sl := id];
    assert Referenced(e, news, limbo, id, infos[id]);
    NoSlot(e, infos, news, id);
    forall k | k in news ensures HoldsNew(e, infos', k, news[k]) { assert HoldsNew(e, infos, k, news[k]); }
    forall k | k in tried' ensures HoldsTried(e, infos', k, tried'[k]) { if k != sl { assert HoldsTried(e, infos, k, tried[k]); } }
    forall i | i in infos' ensures InTriedTable(e, tried', i, infos'[i]) { assert InTriedTable(e, tried, i, infos[i]); }
    forall i | i in infos' ensures Referenced(e, news, limbo - {id}, i, infos'[i]) { assert Referenced(e, news, limbo, i, infos[i]); }
  }

  lemma {:induction false} TryKeeps(e: Env, s: State, id: int, limbo: set<int>, owed: int)
    requires Inv(e, s, limbo, owed) && id in limbo && TriedSlot(e, s.infos[id].addr) !in s.tried
    ensures Inv(e, Try(e, s, id), limbo - {id}, owed - 1)
  {
    TryTables(e, s.infos, s.tried, s.news, id, limbo);
    RetryKeeps(s, id, true);
  }
}
