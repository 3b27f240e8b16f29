/**
 Writing the address manager to a stream and reading it back. Ids, the tried table, the address
 index, the random order, the positions in the new buckets and the reference counts are not
 stored: the reader makes them anew.
 */
module AddrManSerialize {
  import opened Wrappers
  import opened AddrManModel
  import opened AddrManInvariant
  import opened AddrManCalls

  /** The stored fields of an entry. */
  datatype Saved = Saved(addr: Service, services: Flags, source: NetAddr, time: int, lastSuccess: int, attempts: int)

  datatype Message = Message(nNew: int, nTried: int, news: seq<Saved>, tried: seq<Saved>, buckets: seq<seq<int>>)

  function Save(i: Info): Saved { Saved(i.addr, i.services, i.source, i.time, i.lastSuccess, i.attempts) }

  function Load(x: Saved, inTried: bool, pos: int): Info {
    Info(x.addr, x.services, x.source, x.time, 0, 0, x.lastSuccess, x.attempts, 0, inTried, pos)
  }

  // ---- Reading ----

  /** Ids are numbered on from the announced count of new entries, which a damaged stream may give as negative. */
  function EmptyState(nNew: int, nTried: int): State {
    State(if nNew < 0 then nNew else 0, map[], map[], [], nTried, map[], nNew, map[], 1, {})
  }

  function Append(u: State, i: Info): State {
    u.(idCount := u.idCount + 1, infos := u.infos[u.idCount := i], ids := u.ids[i.addr.ip := u.idCount], random := u.random + [u.idCount])
  }

  function LoadNew(u: State, x: Saved): State { Append(u, Load(x, false, |u.random|)) }

  function LoadTried(e: Env, u: State, x: Saved): State {
    var sl := TriedSlot(e, x.addr);
    if sl in u.tried then u.(nTried := u.nTried - 1)   // lost
    else Append(u.(tried := u.tried[sl := u.idCount]), Load(x, true, |u.random|))
  }

  function LoadIndex(e: Env, u: State, bucket: int, k: int): State {
    if 0 <= k < u.nNew then
      var sl := SlotIn(e, At(u, k).addr, bucket);
      if sl !in u.news && At(u, k).refCount < NEW_BUCKETS_PER_ADDRESS then Link(u, k, sl) else u
    else u
  }

  function LoadNews(u: State, xs: seq<Saved>): State {
    if xs == [] then u else LoadNew(LoadNews(u, xs[..|xs| - 1]), xs[|xs| - 1])
  }

  function LoadTrieds(e: Env, u: State, xs: seq<Saved>): State {
    if xs == [] then u else LoadTried(e, LoadTrieds(e, u, xs[..|xs| - 1]), xs[|xs| - 1])
  }

  function LoadBucket(e: Env, u: State, bucket: int, ks: seq<int>): State {
    if ks == [] then u else LoadIndex(e, LoadBucket(e, u, bucket, ks[..|ks| - 1]), bucket, ks[|ks| - 1])
  }

  function LoadBuckets(e: Env, u: State, bs: seq<seq<int>>): State {
    if bs == [] then u else LoadBucket(e, LoadBuckets(e, u, bs[..|bs| - 1]), |bs| - 1, bs[|bs| - 1])
  }

  /** Entries that found no place are dropped. */
  function Prune(u: State, n: nat): State {
    if n == 0 then u
    else
      var v := Prune(u, n - 1);
      if n - 1 in v.infos && !v.infos[n - 1].inTried && v.infos[n - 1].refCount == 0 then Delete(v, n - 1) else v
  }

  function Unserialize(e: Env, m: Message): State {
    var u := LoadTrieds(e, LoadNews(EmptyState(m.nNew, m.nTried), m.news), m.tried);
    var v := LoadBuckets(e, u, m.buckets);
    Prune(v, if v.idCount < 0 then 0 else v.idCount)
  }

  /** The stream holds all that it announces; otherwise reading runs off its end and throws. */
  predicate Complete(m: Message) {
    |m.news| == Max(0, m.nNew) && |m.tried| == Max(0, m.nTried) && |m.buckets| == NEW_BUCKETS
  }

  /** The counts exceed the tables, and the reader throws. */
  predicate Oversized(m: Message) {
    m.nNew > NEW_BUCKETS * BUCKET_SIZE || m.nTried > TRIED_BUCKETS * BUCKET_SIZE
  }

  // ---- Writing, for a listing of the ids in some order ----

  function NewIn(s: State, order: seq<int>): seq<int> {
    if order == [] then []
    else NewIn(s, order[..|order| - 1]) + if At(s, order[|order| - 1]).refCount != 0 then [order[|order| - 1]] else []
  }

  function TriedIn(s: State, order: seq<int>): seq<int> {
    if order == [] then []
    else TriedIn(s, order[..|order| - 1]) + if At(s, order[|order| - 1]).inTried then [order[|order| - 1]] else []
  }

  function SaveAll(s: State, ids: seq<int>): seq<Saved> { seq(|ids|, i requires 0 <= i < |ids| => Save(At(s, ids[i]))) }

  /** Who sits at the first `upto` positions of a bucket. */
  function Sitting(s: State, bucket: int, upto: nat): seq<int> {
    if upto == 0 then []
    else Sitting(s, bucket, upto - 1) + if Slot(bucket, upto - 1) in s.news then [s.news[Slot(bucket, upto - 1)]] else []
  }

  function IndexIn(ids: seq<int>, id: int): int {
    if ids == [] then -1 else if ids[|ids| - 1] == id then |ids| - 1 else IndexIn(ids[..|ids| - 1], id)
  }

  function Indexes(ids: seq<int>, sitting: seq<int>): seq<int> {
    seq(|sitting|, i requires 0 <= i < |sitting| => IndexIn(ids, sitting[i]))
  }

  function Serialize(s: State, order: seq<int>): Message {
    var ids := NewIn(s, order);
    Message(s.nNew, s.nTried, SaveAll(s, ids), SaveAll(s, TriedIn(s, order)),
            seq(NEW_BUCKETS, b => Indexes(ids, Sitting(s, b, BUCKET_SIZE))))
  }

  // ---- The copy ----

  ghost predicate Distinct(all: seq<int>) {
    forall i, j :: 0 <= i < j < |all| ==> all[i] != all[j]
  }

  /** A listing of the entries, each once. */
  ghost predicate Lists(s: State, all: seq<int>) {
    Distinct(all) && (forall id: int :: id in all <==> id in s.infos)
  }

  ghost predicate Renames(all: seq<int>, x: Option<int>, y: Option<int>) {
    if y.None? then x.None? else 0 <= y.value < |all| && x == Some(all[y.value])
  }

  ghost predicate Copied(s: State, t: State, all: seq<int>, k: int) {
    && k in t.infos && 0 <= k < |all| && all[k] in s.infos
    && var i, j := t.infos[k], s.infos[all[k]];
       && i.addr == j.addr && i.services == j.services && i.source == j.source && i.time == j.time
       && i.lastSuccess == j.lastSuccess && i.attempts == j.attempts
       && i.lastTry == 0 && i.lastCount == 0
       && i.inTried == j.inTried && i.refCount == j.refCount
  }

  /** t is s with entry all[k] renamed to k; the fields that only live in memory start anew. */
  ghost predicate Copies(s: State, t: State, all: seq<int>) {
    && (forall k: int :: k in t.infos <==> 0 <= k < |all|)
    && (forall k {:trigger Copied(s, t, all, k)} :: 0 <= k < |all| ==> Copied(s, t, all, k))
    && (forall sl {:trigger Get(t.tried, sl)} :: Renames(all, Get(s.tried, sl), Get(t.tried, sl)))
    && (forall sl {:trigger Get(t.news, sl)} :: Renames(all, Get(s.news, sl), Get(t.news, sl)))
    && t.nNew == s.nNew && t.nTried == s.nTried
    && t.idCount == |all| && t.lastGood == 1 && t.collisions == {}
  }

  // ---- Loading the entries ----

  ghost predicate Loaded1(s: State, u: State, all: seq<int>, k: int) {
    && k in u.infos && 0 <= k < |all| && all[k] in s.infos
    && u.infos[k] == Load(Save(s.infos[all[k]]), s.infos[all[k]].inTried, k)
    && Get(u.ids, s.infos[all[k]].addr.ip) == Some(k)
  }

  ghost predicate Listed(s: State, all: seq<int>, n: int, a: NetAddr, k: int) {
    0 <= k < n <= |all| && all[k] in s.infos && s.infos[all[k]].addr.ip == a
  }

  ghost predicate TriedAt(e: Env, s: State, all: seq<int>, n: int, sl: Slot, k: int) {
    0 <= k < n <= |all| && all[k] in s.infos && s.infos[all[k]].inTried && TriedSlot(e, s.infos[all[k]].addr) == sl
  }

  /** The first n entries of the listing are loaded and no bucket is. */
  ghost predicate Loading(e: Env, s: State, u: State, all: seq<int>, n: int) {
    && 0 <= n <= |all| && u.idCount == n && |u.random| == n && u.news == map[]
    && (forall k: int :: k in u.infos <==> 0 <= k < n)
    && (forall k {:trigger Loaded1(s, u, all, k)} :: 0 <= k < n ==> Loaded1(s, u, all, k))
    && (forall k :: 0 <= k < n ==> u.random[k] == k)
    && (forall a {:trigger Listed(s, all, n, a, u.ids[a])} :: a in u.ids ==> Listed(s, all, n, a, u.ids[a]))
    && (forall sl {:trigger TriedAt(e, s, all, n, sl, u.tried[sl])} :: sl in u.tried ==> TriedAt(e, s, all, n, sl, u.tried[sl]))
    && u.nNew == s.nNew && u.nTried == s.nTried && u.lastGood == 1 && u.collisions == {}
  }

  /** Every tried entry among the first n holds its slot. */
  ghost predicate TriedLoaded(e: Env, s: State, u: State, all: seq<int>, n: int) {
    forall k :: 0 <= k < n <= |all| && all[k] in s.infos && s.infos[all[k]].inTried ==> Get(u.tried, TriedSlot(e, s.infos[all[k]].addr)) == Some(k)
  }

  lemma {:induction false} SameIp(e: Env, s: State, all: seq<int>, i: int, j: int)
    requires Consistent(e, s) && Lists(s, all) && 0 <= i < |all| && 0 <= j < |all|
    ensures all[i] in s.infos && all[j] in s.infos
    ensures s.infos[all[i]].addr.ip == s.infos[all[j]].addr.ip ==> i == j
  {
    assert all[i] in all && all[j] in all;
    assert EntryIndexed(s.idCount, s.ids, s.random, all[i], s.infos[all[i]]);
    assert EntryIndexed(s.idCount, s.ids, s.random, all[j], s.infos[all[j]]);
  }

  lemma {:induction false} SameSlot(e: Env, s: State, all: seq<int>, i: int, j: int)
    requires Consistent(e, s) && Lists(s, all) && 0 <= i < |all| && 0 <= j < |all|
    ensures all[i] in s.infos && all[j] in s.infos
    ensures s.infos[all[i]].inTried && s.infos[all[j]].inTried && TriedSlot(e, s.infos[all[i]].addr) == TriedSlot(e, s.infos[all[j]].addr) ==> i == j
  {
    assert all[i] in all && all[j] in all;
    assert InTriedTable(e, s.tried, all[i], s.infos[all[i]]) && InTriedTable(e, s.tried, all[j], s.infos[all[j]]);
  }

  /** The entry read next, with the tried slot it takes. */
  function Next(e: Env, s: State, u: State, i: Info, n: int): State {
    Append(if i.inTried then u.(tried := u.tried[TriedSlot(e, i.addr) := n]) else u, Load(Save(i), i.inTried, n))
  }

  lemma {:induction false} NextEntries(e: Env, s: State, u: State, all: seq<int>, n: int)
    requires Consistent(e, s) && Lists(s, all) && Loading(e, s, u, all, n) && n < |all| && all[n] in s.infos
    ensures var v := Next(e, s, u, s.infos[all[n]], n);
            && (forall k {:trigger Loaded1(s, v, all, k)} :: 0 <= k < n + 1 ==> Loaded1(s, v, all, k))
            && (forall a {:trigger Listed(s, all, n + 1, a, v.ids[a])} :: a in v.ids ==> Listed(s, all, n + 1, a, v.ids[a]))
  {
    hide Consistent, TriedSlot, Lists;
    var i, v := s.infos[all[n]], Next(e, s, u, s.infos[all[n]], n);
    forall k | 0 <= k < n + 1 ensures Loaded1(s, v, all, k) {
      if k < n { assert Loaded1(s, u, all, k); SameIp(e, s, all, k, n); }
    }
    forall a | a in v.ids ensures Listed(s, all, n + 1, a, v.ids[a]) {
      if a != i.addr.ip { assert Listed(s, all, n, a, u.ids[a]); }
    }
  }

  lemma {:induction false} NextTried(e: Env, s: State, u: State, all: seq<int>, n: int)
    requires Consistent(e, s) && Lists(s, all) && Loading(e, s, u, all, n) && TriedLoaded(e, s, u, all, n) && n < |all| && all[n] in s.infos
    ensures var v := Next(e, s, u, s.infos[all[n]], n);
            && (forall sl {:trigger TriedAt(e, s, all, n + 1, sl, v.tried[sl])} :: sl in v.tried ==> TriedAt(e, s, all, n + 1, sl, v.tried[sl]))
            && TriedLoaded(e, s, v, all, n + 1)
            && (s.infos[all[n]].inTried ==> TriedSlot(e, s.infos[all[n]].addr) !in u.tried)
  {
    hide Consistent, TriedSlot, Lists;
    var i, v := s.infos[all[n]], Next(e, s, u, s.infos[all[n]], n);
    if i.inTried && TriedSlot(e, i.addr) in u.tried {
      var k := u.tried[TriedSlot(e, i.addr)];
      assert TriedAt(e, s, all, n, TriedSlot(e, i.addr), k);
      SameSlot(e, s, all, k, n);
    }
    forall sl | sl in v.tried ensures TriedAt(e, s, all, n + 1, sl, v.tried[sl]) {
      if sl in u.tried { assert TriedAt(e, s, all, n, sl, u.tried[sl]); }
    }
  }

  lemma {:induction false} AppendLoads(e: Env, s: State, u: State, all: seq<int>, n: int)
    requires Consistent(e, s) && Lists(s, all) && Loading(e, s, u, all, n) && TriedLoaded(e, s, u, all, n) && n < |all|
    ensures all[n] in s.infos
    ensures var i := s.infos[all[n]];
            var v := if i.inTried then LoadTried(e, u, Save(i)) else LoadNew(u, Save(i));
            Loading(e, s, v, all, n + 1) && TriedLoaded(e, s, v, all, n + 1)
  {
    hide Consistent, TriedSlot, Lists, TriedLoaded, Loaded1, Listed, TriedAt;
    SameIp(e, s, all, n, n);
    NextEntries(e, s, u, all, n);
    NextTried(e, s, u, all, n);
  }

  lemma {:induction false} NewsLoad(e: Env, s: State, all: seq<int>, n: nat)
    requires Consistent(e, s) && Lists(s, all) && n <= |all| && forall k :: 0 <= k < n ==> !At(s, all[k]).inTried
    ensures var u := LoadNews(EmptyState(s.nNew, s.nTried), SaveAll(s, all[..n]));
            Loading(e, s, u, all, n) && TriedLoaded(e, s, u, all, n)
    decreases n
  {
    if n > 0 {
      NewsLoad(e, s, all, n - 1);
      assert SaveAll(s, all[..n])[..n - 1] == SaveAll(s, all[..n - 1]);
      AppendLoads(e, s, LoadNews(EmptyState(s.nNew, s.nTried), SaveAll(s, all[..n - 1])), all, n - 1);
    }
  }

  lemma {:induction false} TriedsLoad(e: Env, s: State, u: State, all: seq<int>, n: nat, m: nat)
    requires Consistent(e, s) && Lists(s, all) && n + m <= |all| && forall k :: n <= k < n + m ==> At(s, all[k]).inTried
    requires Loading(e, s, u, all, n) && TriedLoaded(e, s, u, all, n)
    ensures var v := LoadTrieds(e, u, SaveAll(s, all[n..n + m]));
            Loading(e, s, v, all, n + m) && TriedLoaded(e, s, v, all, n + m)
    decreases m
  {
    hide Consistent, Loading, TriedLoaded, Lists, LoadTried;
    if m > 0 {
      TriedsLoad(e, s, u, all, n, m - 1);
      var xs := SaveAll(s, all[n..n + m]);
      assert xs[..m - 1] == SaveAll(s, all[n..n + m - 1]);
      assert xs[m - 1] == Save(At(s, all[n + m - 1]));
      AppendLoads(e, s, LoadTrieds(e, u, xs[..m - 1]), all, n + m - 1);
    }
  }

  // ---- The listing the writer uses ----

  lemma {:induction false} NewInSpec(s: State, order: seq<int>)
    requires Distinct(order)
    ensures Distinct(NewIn(s, order)) && forall id: int :: id in NewIn(s, order) <==> id in order && At(s, id).refCount != 0
    decreases |order|
  {
    if order != [] {
      var pre, last := order[..|order| - 1], order[|order| - 1];
      NewInSpec(s, pre);
      assert order == pre + [last];
      assert last !in pre;
    }
  }

  lemma {:induction false} TriedInSpec(s: State, order: seq<int>)
    requires Distinct(order)
    ensures Distinct(TriedIn(s, order)) && forall id: int :: id in TriedIn(s, order) <==> id in order && At(s, id).inTried
    decreases |order|
  {
    if order != [] {
      var pre, last := order[..|order| - 1], order[|order| - 1];
      TriedInSpec(s, pre);
      assert order == pre + [last];
      assert last !in pre;
    }
  }

  lemma {:induction false} SeqCard(xs: seq<int>, a: set<int>)
    requires Distinct(xs) && forall x: int :: x in xs <==> x in a
    ensures |xs| == |a|
    decreases |xs|
  {
    if xs == [] {
      forall x: int ensures x !in a { assert x !in xs; }
      if a != {} { var x := Pick(a); }
    } else {
      var pre, last := xs[..|xs| - 1], xs[|xs| - 1];
      assert xs == pre + [last];
      assert last in xs && last !in pre;
      forall x: int ensures x in pre <==> x in a - {last} { assert x in xs <==> x in a; }
      SeqCard(pre, a - {last});
    }
  }

  lemma {:induction false} IndexInSpec(ids: seq<int>, id: int)
    requires id in ids
    ensures 0 <= IndexIn(ids, id) < |ids| && ids[IndexIn(ids, id)] == id
    decreases |ids|
  {
    if ids[|ids| - 1] != id {
      assert ids == ids[..|ids| - 1] + [ids[|ids| - 1]];
      IndexInSpec(ids[..|ids| - 1], id);
    }
  }

  /** New entries first, then tried ones: together they list every entry once. */
  lemma {:induction false} WriterLists(e: Env, s: State, order: seq<int>)
    requires Consistent(e, s) && Lists(s, order)
    ensures var ns, ts := NewIn(s, order), TriedIn(s, order);
            && Lists(s, ns + ts) && |ns| == s.nNew && |ts| == s.nTried
            && (forall k :: 0 <= k < |ns| ==> ns[k] in s.infos && !s.infos[ns[k]].inTried)
            && (forall k :: 0 <= k < |ts| ==> ts[k] in s.infos && s.infos[ts[k]].inTried)
  {
    var ns, ts := NewIn(s, order), TriedIn(s, order);
    NewInSpec(s, order);
    TriedInSpec(s, order);
    forall id | id in s.infos ensures s.infos[id].inTried <==> s.infos[id].refCount == 0 { CountZero(e, s, id); }
    forall k | 0 <= k < |ns| ensures ns[k] in s.infos && !s.infos[ns[k]].inTried { var id := ns[k]; assert id in ns; }
    forall k | 0 <= k < |ts| ensures ts[k] in s.infos && s.infos[ts[k]].inTried { var id := ts[k]; assert id in ts; }
    forall id: int ensures id in ns <==> id in NewIds(s.infos) { assert id in order <==> id in s.infos; }
    forall id: int ensures id in ts <==> id in TriedIds(s.infos) { assert id in order <==> id in s.infos; }
    SeqCard(ns, NewIds(s.infos));
    SeqCard(ts, TriedIds(s.infos));
    forall i, j | 0 <= i < j < |ns + ts| ensures (ns + ts)[i] != (ns + ts)[j] {
      if i < |ns| <= j { assert ns[i] in ns && ts[j - |ns|] in ts; }
    }
    forall id: int ensures id in ns + ts <==> id in s.infos { assert id in order <==> id in s.infos; }
  }

  lemma {:induction false} CountZero(e: Env, s: State, id: int)
    requires Consistent(e, s) && id in s.infos
    ensures s.infos[id].inTried <==> s.infos[id].refCount == 0
  {
    assert InTriedTable(e, s.tried, id, s.infos[id]);
    assert Referenced(e, s.news, {}, id, s.infos[id]);
  }

  // ---- Loading the buckets ----

  function Before(news: Table, b: int, p: int): Table {
    map sl | sl in news && (sl.bucket < b || (sl.bucket == b && sl.pos < p)) :: news[sl]
  }

  /** The original with only the slots before a given place, and counts to match. */
  function Part(e: Env, s: State, b: int, p: int): State {
    s.(news := Before(s.news, b, p),
       infos := map id | id in s.infos :: s.infos[id].(refCount := |Buckets(e, Before(s.news, b, p), s.infos[id].addr, id)|))
  }

  lemma {:induction false} LinkCopies(s: State, u: State, all: seq<int>, k: int, sl: Slot)
    requires Copies(s, u, all) && Distinct(all) && 0 <= k < |all|
    ensures Copies(Link(s, all[k], sl), Link(u, k, sl), all)
  {
    var s', u' := Link(s, all[k], sl), Link(u, k, sl);
    assert Copied(s, u, all, k);
    forall j | 0 <= j < |all| ensures Copied(s', u', all, j) { assert Copied(s, u, all, j); }
    forall x ensures Renames(all, Get(s'.news, x), Get(u'.news, x)) { assert Renames(all, Get(s.news, x), Get(u.news, x)); }
    forall x ensures Renames(all, Get(s'.tried, x), Get(u'.tried, x)) { assert Renames(all, Get(s.tried, x), Get(u.tried, x)); }
  }

  lemma {:induction false} BeforeStep(news: Table, b: int, p: int)
    requires Slot(b, p) in news
    ensures Before(news, b, p + 1) == Before(news, b, p)[Slot(b, p) := news[Slot(b, p)]]
    ensures Slot(b, p) !in Before(news, b, p)
  {
    var w, w' := Before(news, b, p), Before(news, b, p + 1);
    forall k ensures Get(w', k) == if k == Slot(b, p) then Some(news[k]) else Get(w, k) { }
    MapEqual(w', w[Slot(b, p) := news[Slot(b, p)]]);
  }

  lemma {:induction false} PartEntry(e: Env, s: State, b: int, p: int, i: int)
    requires Consistent(e, s) && Slot(b, p) in s.news && i in s.infos
    ensures |Buckets(e, Before(s.news, b, p + 1), s.infos[i].addr, i)|
         == |Buckets(e, Before(s.news, b, p), s.infos[i].addr, i)| + if i == s.news[Slot(b, p)] then 1 else 0
  {
    hide Before, Buckets;
    var sl, id := Slot(b, p), s.news[Slot(b, p)];
    assert HoldsNew(e, s.infos, sl, id);
    BeforeStep(s.news, b, p);
    var w := Before(s.news, b, p);
    if i == id {
      BucketsAdd(e, w, sl, s.infos[id].addr, id);
    } else {
      BucketsOthers(e, w, sl, Some(id), s.infos[i].addr, i);
    }
  }

  lemma {:induction false} PartStep(e: Env, s: State, b: int, p: int)
    requires Consistent(e, s) && Slot(b, p) in s.news
    ensures s.news[Slot(b, p)] in s.infos
    ensures Part(e, s, b, p + 1) == Link(Part(e, s, b, p), s.news[Slot(b, p)], Slot(b, p))
  {
    hide Before, Buckets, Consistent;
    var sl, id := Slot(b, p), s.news[Slot(b, p)];
    HeldById(e, s, sl);
    BeforeStep(s.news, b, p);
    var x, y := Part(e, s, b, p + 1).infos, Link(Part(e, s, b, p), id, sl).infos;
    forall i: int ensures Get(x, i) == Get(y, i) {
      if i in s.infos { PartEntry(e, s, b, p, i); }
    }
    MapEqual(x, y);
  }

  lemma {:induction false} HeldById(e: Env, s: State, sl: Slot)
    requires Consistent(e, s) && sl in s.news
    ensures s.news[sl] in s.infos
  {
    assert HoldsNew(e, s.infos, sl, s.news[sl]);
  }

  lemma {:induction false} PartSkip(e: Env, s: State, b: int, p: int)
    requires Slot(b, p) !in s.news
    ensures Part(e, s, b, p + 1) == Part(e, s, b, p)
  {
    MapEqual(Before(s.news, b, p + 1), Before(s.news, b, p));
  }

  lemma {:induction false} PartNext(e: Env, s: State, b: int)
    requires Consistent(e, s)
    ensures Part(e, s, b, BUCKET_SIZE) == Part(e, s, b + 1, 0)
  {
    forall k ensures Get(Before(s.news, b, BUCKET_SIZE), k) == Get(Before(s.news, b + 1, 0), k) {
      assert k in s.news ==> HoldsNew(e, s.infos, k, s.news[k]);
    }
    MapEqual(Before(s.news, b, BUCKET_SIZE), Before(s.news, b + 1, 0));
  }

  lemma {:induction false} PartWhole(e: Env, s: State)
    requires Consistent(e, s)
    ensures Part(e, s, NEW_BUCKETS, 0) == s
  {
    forall k ensures Get(Before(s.news, NEW_BUCKETS, 0), k) == Get(s.news, k) {
      assert k in s.news ==> HoldsNew(e, s.infos, k, s.news[k]);
    }
    MapEqual(Before(s.news, NEW_BUCKETS, 0), s.news);
    forall i: int ensures Get(Part(e, s, NEW_BUCKETS, 0).infos, i) == Get(s.infos, i) {
      if i in s.infos {
        assert Referenced(e, s.news, {}, i, s.infos[i]);
        assert InTriedTable(e, s.tried, i, s.infos[i]);
        if s.infos[i].inTried { TriedNoBuckets(e, s, i); }
      }
    }
    MapEqual(Part(e, s, NEW_BUCKETS, 0).infos, s.infos);
  }

  lemma {:induction false} TriedNoBuckets(e: Env, s: State, id: int)
    requires Consistent(e, s) && id in s.infos && s.infos[id].inTried
    ensures Buckets(e, s.news, s.infos[id].addr, id) == {}
  {
    forall sl | sl in s.news ensures s.news[sl] != id { assert HoldsNew(e, s.infos, sl, s.news[sl]); }
    NoBuckets(e, s.news, s.infos[id].addr, id);
  }

  /** Before its last slot is loaded an entry has room for it. */
  lemma {:induction false} PartRoom(e: Env, s: State, b: int, p: int)
    requires Consistent(e, s) && Slot(b, p) in s.news
    ensures var id := s.news[Slot(b, p)];
            && id in s.infos && !s.infos[id].inTried && SlotIn(e, s.infos[id].addr, b) == Slot(b, p)
            && |Buckets(e, Before(s.news, b, p), s.infos[id].addr, id)| < NEW_BUCKETS_PER_ADDRESS
  {
    var sl, id := Slot(b, p), s.news[Slot(b, p)];
    assert HoldsNew(e, s.infos, sl, id);
    assert Referenced(e, s.news, {}, id, s.infos[id]);
    BucketsErase(e, s.news, sl, s.infos[id].addr, id);
    var part, whole := Buckets(e, Before(s.news, b, p), s.infos[id].addr, id), Buckets(e, s.news, s.infos[id].addr, id);
    forall x: int | x in part ensures x in whole - {b} { }
    SubsetCard(part, whole - {b});
  }

  ghost predicate Working(e: Env, s: State, u: State, ns: seq<int>, ts: seq<int>, b: int, p: int) {
    Copies(Part(e, s, b, p), u, ns + ts) && IndexOk(u)
  }

  lemma {:induction false} IndexLoads(e: Env, s: State, u: State, ns: seq<int>, ts: seq<int>, b: int, p: int)
    requires Consistent(e, s) && Lists(s, ns + ts) && |ns| == s.nNew && (forall id: int :: id in s.infos && !s.infos[id].inTried ==> id in ns)
    requires Working(e, s, u, ns, ts, b, p) && Slot(b, p) in s.news
    ensures Working(e, s, LoadIndex(e, u, b, IndexIn(ns, s.news[Slot(b, p)])), ns, ts, b, p + 1)
  {
    hide Consistent, Copies, Part;
    var sl, id, all := Slot(b, p), s.news[Slot(b, p)], ns + ts;
    PartRoom(e, s, b, p);
    IndexInSpec(ns, id);
    var k := IndexIn(ns, id);
    assert all[k] == id;
    PartStep(e, s, b, p);
    LinkCopies(Part(e, s, b, p), u, all, k, sl);
    CopiedRoom(e, s, u, all, k, sl);
    LinkIndexed(u, k, sl);
  }

  lemma {:induction false} CopiedRoom(e: Env, s: State, u: State, all: seq<int>, k: int, sl: Slot)
    requires 0 <= k < |all| && all[k] in s.infos && Copies(Part(e, s, sl.bucket, sl.pos), u, all)
    ensures k in u.infos && u.infos[k].addr == s.infos[all[k]].addr && sl !in u.news && u.nNew == s.nNew
    ensures u.infos[k].refCount == |Buckets(e, Before(s.news, sl.bucket, sl.pos), s.infos[all[k]].addr, all[k])|
  {
    assert Copied(Part(e, s, sl.bucket, sl.pos), u, all, k);
    assert Renames(all, Get(Part(e, s, sl.bucket, sl.pos).news, sl), Get(u.news, sl));
  }

  lemma {:induction false} LinkIndexed(u: State, k: int, sl: Slot)
    requires IndexOk(u) && k in u.infos
    ensures IndexOk(Link(u, k, sl))
  {
    IndexedKept(u.idCount, u.infos, Link(u, k, sl).infos, u.ids, u.random);
  }

  lemma {:induction false} BucketLoads(e: Env, s: State, u: State, ns: seq<int>, ts: seq<int>, b: int, p: nat)
    requires Consistent(e, s) && Lists(s, ns + ts) && |ns| == s.nNew && (forall id: int :: id in s.infos && !s.infos[id].inTried ==> id in ns)
    requires Working(e, s, u, ns, ts, b, 0)
    ensures Working(e, s, LoadBucket(e, u, b, Indexes(ns, Sitting(s, b, p))), ns, ts, b, p)
    decreases p
  {
    hide Consistent, Working;
    if p > 0 {
      var pre, ks := Indexes(ns, Sitting(s, b, p - 1)), Indexes(ns, Sitting(s, b, p));
      BucketLoads(e, s, u, ns, ts, b, p - 1);
      if Slot(b, p - 1) in s.news {
        IndexLoads(e, s, LoadBucket(e, u, b, pre), ns, ts, b, p - 1);
        assert ks[..|ks| - 1] == pre;
      } else {
        assert ks == pre;
        WorkingSkip(e, s, LoadBucket(e, u, b, pre), ns, ts, b, p - 1);
      }
    }
  }

  lemma {:induction false} WorkingSkip(e: Env, s: State, u: State, ns: seq<int>, ts: seq<int>, b: int, p: int)
    requires Working(e, s, u, ns, ts, b, p) && Slot(b, p) !in s.news
    ensures Working(e, s, u, ns, ts, b, p + 1)
  {
    PartSkip(e, s, b, p);
  }

  lemma {:induction false} BucketsLoad(e: Env, s: State, u: State, ns: seq<int>, ts: seq<int>, bs: seq<seq<int>>)
    requires Consistent(e, s) && Lists(s, ns + ts) && |ns| == s.nNew && (forall id: int :: id in s.infos && !s.infos[id].inTried ==> id in ns)
    requires Working(e, s, u, ns, ts, 0, 0)
    requires forall b :: 0 <= b < |bs| ==> bs[b] == Indexes(ns, Sitting(s, b, BUCKET_SIZE))
    ensures Working(e, s, LoadBuckets(e, u, bs), ns, ts, |bs|, 0)
    decreases |bs|
  {
    hide Consistent, Copies, Indexes, Sitting;
    if bs != [] {
      var b := |bs| - 1;
      BucketsLoad(e, s, u, ns, ts, bs[..b]);
      BucketLoads(e, s, LoadBuckets(e, u, bs[..b]), ns, ts, b, BUCKET_SIZE);
      PartNext(e, s, b);
    }
  }

  /** All entries loaded, no bucket yet. */
  lemma {:induction false} LoadedWorks(e: Env, s: State, u: State, ns: seq<int>, ts: seq<int>)
    requires Consistent(e, s) && Lists(s, ns + ts) && Loading(e, s, u, ns + ts, |ns + ts|) && TriedLoaded(e, s, u, ns + ts, |ns + ts|)
    ensures Working(e, s, u, ns, ts, 0, 0)
  {
    var all := ns + ts;
    LoadedIndexed(e, s, u, all);
    var w := Before(s.news, 0, 0);
    forall sl ensures Get(w, sl) == None { assert sl in s.news ==> HoldsNew(e, s.infos, sl, s.news[sl]); }
    MapEqual(w, map[]);
    forall k | 0 <= k < |all| ensures Copied(Part(e, s, 0, 0), u, all, k) {
      assert Loaded1(s, u, all, k);
      NoBuckets(e, w, s.infos[all[k]].addr, all[k]);
    }
    forall sl ensures Renames(all, Get(s.tried, sl), Get(u.tried, sl)) { LoadedTried(e, s, u, all, sl); }
  }

  lemma {:induction false} LoadedTried(e: Env, s: State, u: State, all: seq<int>, sl: Slot)
    requires Consistent(e, s) && Lists(s, all) && Loading(e, s, u, all, |all|) && TriedLoaded(e, s, u, all, |all|)
    ensures Renames(all, Get(s.tried, sl), Get(u.tried, sl))
  {
    if sl in u.tried {
      var k := u.tried[sl];
      assert TriedAt(e, s, all, |all|, sl, k);
      assert InTriedTable(e, s.tried, all[k], s.infos[all[k]]);
    }
    if sl in s.tried {
      var id := s.tried[sl];
      assert HoldsTried(e, s.infos, sl, id);
      assert id in all;
      var k :| 0 <= k < |all| && all[k] == id;
      assert Get(u.tried, TriedSlot(e, s.infos[all[k]].addr)) == Some(k);
    }
  }

  lemma {:induction false} LoadedIndexed(e: Env, s: State, u: State, all: seq<int>)
    requires Consistent(e, s) && Lists(s, all) && Loading(e, s, u, all, |all|)
    ensures IndexOk(u)
  {
    forall k | 0 <= k < |u.random| ensures AtPos(u.infos, k, u.random[k]) { assert Loaded1(s, u, all, k); }
    forall k | k in u.infos ensures EntryIndexed(u.idCount, u.ids, u.random, k, u.infos[k]) { assert Loaded1(s, u, all, k); }
    forall a | a in u.ids ensures Named(u.infos, a, u.ids[a]) {
      assert Listed(s, all, |all|, a, u.ids[a]);
      assert Loaded1(s, u, all, u.ids[a]);
    }
    var ks := seq(|all|, k => k);
    forall k: int ensures k in ks <==> k in u.infos.Keys { if 0 <= k < |all| { assert ks[k] == k; } }
    SeqCard(ks, u.infos.Keys);
  }

  // ---- The copy is consistent and nothing is pruned ----

  lemma {:induction false} CopyTables(e: Env, s: State, t: State, all: seq<int>)
    requires Consistent(e, s) && Lists(s, all) && Copies(s, t, all)
    ensures TriedOk(e, t.infos, t.tried) && NewOk(e, t.infos, t.news) && RefsOk(e, t.infos, t.news, {})
  {
    forall sl | sl in t.tried ensures HoldsTried(e, t.infos, sl, t.tried[sl]) {
      assert Renames(all, Get(s.tried, sl), Get(t.tried, sl)) && HoldsTried(e, s.infos, sl, s.tried[sl]) && Copied(s, t, all, t.tried[sl]);
    }
    forall sl | sl in t.news ensures HoldsNew(e, t.infos, sl, t.news[sl]) {
      assert Renames(all, Get(s.news, sl), Get(t.news, sl)) && HoldsNew(e, s.infos, sl, s.news[sl]) && Copied(s, t, all, t.news[sl]);
    }
    forall k | k in t.infos ensures InTriedTable(e, t.tried, k, t.infos[k]) && Referenced(e, t.news, {}, k, t.infos[k]) {
      CopyEntry(e, s, t, all, k);
    }
  }

  lemma {:induction false} CopyEntry(e: Env, s: State, t: State, all: seq<int>, k: int)
    requires Consistent(e, s) && Lists(s, all) && Copies(s, t, all) && 0 <= k < |all|
    ensures k in t.infos && InTriedTable(e, t.tried, k, t.infos[k]) && Referenced(e, t.news, {}, k, t.infos[k])
  {
    assert Copied(s, t, all, k);
    var id, a := all[k], s.infos[all[k]].addr;
    assert InTriedTable(e, s.tried, id, s.infos[id]) && Referenced(e, s.news, {}, id, s.infos[id]);
    assert Renames(all, Get(s.tried, TriedSlot(e, a)), Get(t.tried, TriedSlot(e, a)));
    forall b: int ensures b in Buckets(e, t.news, a, k) <==> b in Buckets(e, s.news, a, id) {
      assert Renames(all, Get(s.news, SlotIn(e, a, b)), Get(t.news, SlotIn(e, a, b)));
    }
    assert Buckets(e, t.news, a, k) == Buckets(e, s.news, a, id);
  }

  /** Renaming does not change how many there are. */
  lemma {:induction false} RenamedCard(all: seq<int>, a: set<int>, b: set<int>)
    requires Distinct(all) && (forall x: int :: x in a ==> x in all)
    requires forall k: int :: k in b <==> 0 <= k < |all| && all[k] in a
    ensures |b| == |a|
    decreases |all|
  {
    if all == [] {
      if a != {} { var x := Pick(a); }
      if b != {} { var x := Pick(b); }
    } else {
      var n := |all| - 1;
      var pre, last := all[..n], all[n];
      assert all == pre + [last];
      assert last !in pre;
      forall x: int | x in a - {last} ensures x in pre { assert x in all; }
      forall k: int ensures k in b - {n} <==> 0 <= k < |pre| && pre[k] in a - {last} {
        if 0 <= k < n { assert all[k] == pre[k]; assert pre[k] in pre; }
      }
      RenamedCard(pre, a - {last}, b - {n});
    }
  }

  lemma {:induction false} CopyConsistent(e: Env, s: State, t: State, all: seq<int>)
    requires Consistent(e, s) && Lists(s, all) && Copies(s, t, all) && IndexOk(t)
    ensures Consistent(e, t)
  {
    CopyTables(e, s, t, all);
    forall k: int ensures k in TriedIds(t.infos) <==> 0 <= k < |all| && all[k] in TriedIds(s.infos) { if 0 <= k < |all| { assert Copied(s, t, all, k); } }
    forall k: int ensures k in NewIds(t.infos) <==> 0 <= k < |all| && all[k] in NewIds(s.infos) { if 0 <= k < |all| { assert Copied(s, t, all, k); } }
    RenamedCard(all, TriedIds(s.infos), TriedIds(t.infos));
    RenamedCard(all, NewIds(s.infos), NewIds(t.infos));
  }

  lemma {:induction false} NothingPruned(e: Env, t: State, n: nat)
    requires Consistent(e, t)
    ensures Prune(t, n) == t
  {
    hide Consistent, Delete;
    if n > 0 {
      NothingPruned(e, t, n - 1);
      if n - 1 in t.infos { CountZero(e, t, n - 1); }
    }
  }

  // ---- The counts fit the tables ----

  lemma {:induction false} InjectiveBound(f: map<int, int>, m: nat)
    requires forall x: int, y: int :: x in f && y in f && f[x] == f[y] ==> x == y
    requires forall x: int :: x in f ==> 0 <= f[x] < m
    ensures |f| <= m
    decreases m
  {
    if f == map[] {
    } else if m == 0 {
      var x := Pick(f.Keys);
    } else if x: int :| x in f && f[x] == m - 1 {
      InjectiveBound(f - {x}, m - 1);
      assert |f| == |f - {x}| + 1 by { assert f.Keys == (f - {x}).Keys + {x}; }
    } else {
      InjectiveBound(f, m - 1);
    }
  }

  /** Slots of different new entries are different, and so are those of different tried entries. */
  lemma {:induction false} FitsTables(e: Env, s: State)
    requires Consistent(e, s)
    ensures s.nNew <= NEW_BUCKETS * BUCKET_SIZE && s.nTried <= TRIED_BUCKETS * BUCKET_SIZE
  {
    FitsNew(e, s);
    FitsTried(e, s);
  }

  lemma {:induction false} FitsNew(e: Env, s: State)
    requires Consistent(e, s)
    ensures |NewIds(s.infos)| <= NEW_BUCKETS * BUCKET_SIZE
  {
    hide Consistent, SomeSlot, NewIds;
    var f := map id | id in NewIds(s.infos) :: Code(SomeSlot(e, s, id));
    forall x: int, y: int | x in f && y in f && f[x] == f[y] ensures x == y { SomeSlotHolds(e, s, x); SomeSlotHolds(e, s, y); }
    forall x: int | x in f ensures 0 <= f[x] < NEW_BUCKETS * BUCKET_SIZE { SomeSlotHolds(e, s, x); }
    InjectiveBound(f, NEW_BUCKETS * BUCKET_SIZE);
    assert f.Keys == NewIds(s.infos);
  }

  lemma {:induction false} FitsTried(e: Env, s: State)
    requires Consistent(e, s)
    ensures |TriedIds(s.infos)| <= TRIED_BUCKETS * BUCKET_SIZE
  {
    var g := map id | id in TriedIds(s.infos) :: Code(TriedSlot(e, s.infos[id].addr));
    forall x: int, y: int | x in g && y in g && g[x] == g[y] ensures x == y {
      assert InTriedTable(e, s.tried, x, s.infos[x]) && InTriedTable(e, s.tried, y, s.infos[y]);
    }
    InjectiveBound(g, TRIED_BUCKETS * BUCKET_SIZE);
    assert g.Keys == TriedIds(s.infos);
  }

  ghost function Code(sl: Slot): int { sl.bucket * BUCKET_SIZE + sl.pos }

  ghost function SomeSlot(e: Env, s: State, id: int): Slot {
    if b: int :| b in Buckets(e, s.news, At(s, id).addr, id) then SlotIn(e, At(s, id).addr, b) else Slot(0, 0)
  }

  lemma {:induction false} SomeSlotHolds(e: Env, s: State, id: int)
    requires Consistent(e, s) && id in NewIds(s.infos)
    ensures Get(s.news, SomeSlot(e, s, id)) == Some(id)
    ensures 0 <= SomeSlot(e, s, id).bucket < NEW_BUCKETS && 0 <= SomeSlot(e, s, id).pos < BUCKET_SIZE
  {
    assert Referenced(e, s.news, {}, id, s.infos[id]);
    var b := Pick(Buckets(e, s.news, s.infos[id].addr, id));
  }

  /**
   Reading back what was written, from any consistent state and in whatever order its entries
   are listed: nothing is lost, the tables are the same up to the new names of the entries, and
   the result is consistent again.
   */
  lemma {:induction false} RoundTrip(e: Env, s: State, order: seq<int>)
    requires Consistent(e, s) && Lists(s, order)
    ensures !Oversized(Serialize(s, order)) && Complete(Serialize(s, order))
    ensures Lists(s, NewIn(s, order) + TriedIn(s, order))
    ensures Copies(s, Unserialize(e, Serialize(s, order)), NewIn(s, order) + TriedIn(s, order))
    ensures Consistent(e, Unserialize(e, Serialize(s, order)))
  {
    hide Consistent, Working, Loading, Unserialize, Serialize;
    FitsTables(e, s);
    WriterLists(e, s, order);
    Reloads(e, s, order);
    SerializeCounts(s, order);
  }

  lemma SerializeCounts(s: State, order: seq<int>)
    ensures var m := Serialize(s, order);
            && m.nNew == s.nNew && m.nTried == s.nTried && |m.buckets| == NEW_BUCKETS
            && |m.news| == |NewIn(s, order)| && |m.tried| == |TriedIn(s, order)|
  {
  }

  lemma {:induction false} Reloads(e: Env, s: State, order: seq<int>)
    requires Consistent(e, s) && Lists(s, order)
    ensures Copies(s, Unserialize(e, Serialize(s, order)), NewIn(s, order) + TriedIn(s, order))
    ensures Consistent(e, Unserialize(e, Serialize(s, order)))
  {
    hide Consistent, Copies, LoadNews, LoadTrieds, LoadBuckets, Prune, IndexOk;
    var ns, ts, m := NewIn(s, order), TriedIn(s, order), Serialize(s, order);
    WriterLists(e, s, order);
    EntriesReload(e, s, ns, ts);
    var v := LoadTrieds(e, LoadNews(EmptyState(s.nNew, s.nTried), m.news), m.tried);
    forall id: int | id in s.infos && !s.infos[id].inTried ensures id in ns {
      assert id in ns + ts;
    }
    BucketsLoad(e, s, v, ns, ts, m.buckets);
    PartWhole(e, s);
    var w := LoadBuckets(e, v, m.buckets);
    CopyConsistent(e, s, w, ns + ts);
    NothingPruned(e, w, if w.idCount < 0 then 0 else w.idCount);
  }

  lemma {:induction false} EntriesReload(e: Env, s: State, ns: seq<int>, ts: seq<int>)
    requires Consistent(e, s) && Lists(s, ns + ts)
    requires forall k :: 0 <= k < |ns| ==> ns[k] in s.infos && !s.infos[ns[k]].inTried
    requires forall k :: 0 <= k < |ts| ==> ts[k] in s.infos && s.infos[ts[k]].inTried
    ensures Working(e, s, LoadTrieds(e, LoadNews(EmptyState(s.nNew, s.nTried), SaveAll(s, ns)), SaveAll(s, ts)), ns, ts, 0, 0)
  {
    hide Consistent, Working, Loading, TriedLoaded, LoadNews, LoadTrieds;
    var all := ns + ts;
    assert all[..|ns|] == ns && all[|ns|..|ns| + |ts|] == ts;
    NewsLoad(e, s, all, |ns|);
    var u := LoadNews(EmptyState(s.nNew, s.nTried), SaveAll(s, ns));
    TriedsLoad(e, s, u, all, |ns|, |ts|);
    LoadedWorks(e, s, LoadTrieds(e, u, SaveAll(s, ts)), ns, ts);
  }

  // ---- The loops ----

  /** Indexes are handed out while the new entries are written. */
  method WriteNews(e: Env, s: State, order: seq<int>) returns (news: seq<Saved>, index: map<int, int>)
    requires Consistent(e, s) && Lists(s, order)
    ensures news == SaveAll(s, NewIn(s, order))
    ensures var ids := NewIn(s, order); forall i :: 0 <= i < |ids| ==> ids[i] in index && index[ids[i]] == i
  {
    hide Consistent, NewIn, SaveAll, Save, Lists;
    WriterLists(e, s, order);
    ghost var ids := NewIn(s, order);
    WriteStart(s, order);
    index, news := map[], [];
    var nIds := 0;
    for k := 0 to |order|
      invariant nIds == |news| == |NewIn(s, order[..k])| && NewIn(s, order[..k]) <= ids
      invariant news == SaveAll(s, NewIn(s, order[..k]))
      invariant forall i :: 0 <= i < nIds ==> ids[i] in index && index[ids[i]] == i
      invariant forall id: int :: id in index ==> id in order[..k]
    {
      NewInStep(s, order, k);
      ListsAt(s, order, k);
      var id := order[k];
      SaveStep(s, NewIn(s, order[..k]), id);
      assert NewIn(s, order[..k]) + [] == NewIn(s, order[..k]);
      assert order[..k + 1] == order[..k] + [id];
      index := index[id := nIds];
      if s.infos[id].refCount != 0 {
        assert nIds != s.nNew;   // else nNew was wrong
        news := news + [Save(s.infos[id])];
        nIds := nIds + 1;
      }
    }
    assert order[..|order|] == order;
  }

  lemma {:induction false} WriteStart(s: State, order: seq<int>)
    ensures NewIn(s, order[..0]) == [] && SaveAll(s, []) == []
  {
  }

  lemma {:induction false} ListsAt(s: State, order: seq<int>, k: nat)
    requires Lists(s, order) && k < |order|
    ensures order[k] in s.infos && order[k] !in order[..k]
  {
    assert order[k] in order;
  }

  lemma {:induction false} SaveStep(s: State, ids: seq<int>, id: int)
    ensures SaveAll(s, ids + [id]) == SaveAll(s, ids) + [Save(At(s, id))]
  {
  }

  method WriteTried(e: Env, s: State, order: seq<int>) returns (tried: seq<Saved>)
    requires Consistent(e, s) && Lists(s, order)
    ensures tried == SaveAll(s, TriedIn(s, order))
  {
    hide Consistent;
    WriterLists(e, s, order);
    var nIds := 0;
    tried := [];
    for k := 0 to |order|
      invariant nIds == |tried| == |TriedIn(s, order[..k])|
      invariant tried == SaveAll(s, TriedIn(s, order[..k]))
    {
      assert order[..k + 1][..k] == order[..k];
      TriedInPrefix(s, order, k + 1);
      assert order[k] in order && order[k] in s.infos;
      if s.infos[order[k]].inTried {
        assert nIds != s.nTried;   // else nTried was wrong
        tried := tried + [Save(s.infos[order[k]])];
        nIds := nIds + 1;
      }
    }
    assert order[..|order|] == order;
  }

  method Write(e: Env, s: State, order: seq<int>) returns (m: Message)
    requires Consistent(e, s) && Lists(s, order)
    ensures m == Serialize(s, order)
  {
    hide Consistent, Indexes, Sitting;
    ghost var ids := NewIn(s, order);
    var news, index := WriteNews(e, s, order);
    var tried := WriteTried(e, s, order);
    var buckets := [];
    for b := 0 to NEW_BUCKETS
      invariant |buckets| == b && forall j :: 0 <= j < b ==> buckets[j] == Indexes(ids, Sitting(s, j, BUCKET_SIZE))
    {
      var row := WriteBucket(e, s, order, ids, index, b);
      buckets := buckets + [row];
    }
    m := Message(s.nNew, s.nTried, news, tried, buckets);
  }

  lemma {:induction false} NewInStep(s: State, order: seq<int>, k: nat)
    requires k < |order|
    ensures NewIn(s, order[..k + 1]) == NewIn(s, order[..k]) + if At(s, order[k]).refCount != 0 then [order[k]] else []
    ensures NewIn(s, order[..k + 1]) <= NewIn(s, order)
  {
    assert order[..k + 1][..k] == order[..k];
    NewInPrefix(s, order, k + 1);
  }

  method WriteBucket(e: Env, s: State, order: seq<int>, ghost ids: seq<int>, index: map<int, int>, b: int) returns (row: seq<int>)
    requires Consistent(e, s) && Lists(s, order) && ids == NewIn(s, order)
    requires forall i :: 0 <= i < |ids| ==> ids[i] in index && index[ids[i]] == i
    ensures row == Indexes(ids, Sitting(s, b, BUCKET_SIZE))
  {
    hide Consistent;
    row := [];
    for i := 0 to BUCKET_SIZE
      invariant row == Indexes(ids, Sitting(s, b, i))
    {
      if Slot(b, i) in s.news {
        var id := s.news[Slot(b, i)];
        SittingListed(e, s, order, Slot(b, i));
        IndexInSpec(ids, id);
        row := row + [index[id]];
      }
    }
  }

  lemma {:induction false} SittingListed(e: Env, s: State, order: seq<int>, sl: Slot)
    requires Consistent(e, s) && Lists(s, order) && sl in s.news
    ensures s.news[sl] in NewIn(s, order)
  {
    var id := s.news[sl];
    assert HoldsNew(e, s.infos, sl, id);
    CountZero(e, s, id);
    NewInSpec(s, order);
    assert id in order;
  }

  lemma {:induction false} NewInPrefix(s: State, order: seq<int>, n: nat)
    requires n <= |order|
    ensures NewIn(s, order[..n]) <= NewIn(s, order)
    decreases |order| - n
  {
    if n < |order| {
      NewInPrefix(s, order, n + 1);
      assert order[..n + 1][..n] == order[..n];
    } else {
      assert order[..n] == order;
    }
  }

  lemma {:induction false} TriedInPrefix(s: State, order: seq<int>, n: nat)
    requires n <= |order|
    ensures TriedIn(s, order[..n]) <= TriedIn(s, order)
    decreases |order| - n
  {
    if n < |order| {
      TriedInPrefix(s, order, n + 1);
      assert order[..n + 1][..n] == order[..n];
    } else {
      assert order[..n] == order;
    }
  }

  /** The reader; not ok when it throws. A stream that was cut off holds less than it announces. */
  method Read(e: Env, m: Message) returns (ok: bool, t: State)
    requires |m.news| <= Max(0, m.nNew) && |m.tried| <= Max(0, m.nTried) && |m.buckets| <= NEW_BUCKETS
    ensures ok <==> !Oversized(m) && Complete(m)
    ensures ok ==> t == Unserialize(e, m)
  {
    hide LoadNew, LoadTried, LoadIndex, Prune;
    t := EmptyState(m.nNew, m.nTried);
    if t.nNew > NEW_BUCKETS * BUCKET_SIZE { return false, t; }
    if t.nTried > TRIED_BUCKETS * BUCKET_SIZE { return false, t; }
    for n := 0 to Max(0, m.nNew)
      invariant n <= |m.news| && t == LoadNews(EmptyState(m.nNew, m.nTried), m.news[..n])
    {
      if n == |m.news| { return false, t; }
      assert m.news[..n + 1][..n] == m.news[..n];
      t := LoadNew(t, m.news[n]);
    }
    assert m.news[..|m.news|] == m.news;
    ghost var u := t;
    for n := 0 to Max(0, m.nTried)
      invariant n <= |m.tried| && t == LoadTrieds(e, u, m.tried[..n])
    {
      if n == |m.tried| { return false, t; }
      assert m.tried[..n + 1][..n] == m.tried[..n];
      t := LoadTried(e, t, m.tried[n]);
    }
    assert m.tried[..|m.tried|] == m.tried;
    ghost var v := t;
    for b := 0 to NEW_BUCKETS
      invariant b <= |m.buckets| && t == LoadBuckets(e, v, m.buckets[..b])
    {
      if b == |m.buckets| { return false, t; }
      assert m.buckets[..b + 1][..b] == m.buckets[..b];
      t := ReadBucket(e, t, b, m.buckets[b]);
    }
    assert m.buckets[..|m.buckets|] == m.buckets;
    t := DropPlaceless(t);
    ok := true;
  }

  method ReadBucket(e: Env, s: State, bucket: int, indexes: seq<int>) returns (t: State)
    ensures t == LoadBucket(e, s, bucket, indexes)
  {
    hide LoadIndex;
    t := s;
    for n := 0 to |indexes|
      invariant t == LoadBucket(e, s, bucket, indexes[..n])
    {
      assert indexes[..n + 1][..n] == indexes[..n];
      t := LoadIndex(e, t, bucket, indexes[n]);
    }
    assert indexes[..|indexes|] == indexes;
  }

  /** New entries that got no reference are deleted. */
  method DropPlaceless(s: State) returns (t: State)
    ensures t == Prune(s, if s.idCount < 0 then 0 else s.idCount)
  {
    hide Delete;
    t := s;
    for id := 0 to if s.idCount < 0 then 0 else s.idCount
      invariant t == Prune(s, id)
    {
      if id in t.infos && !t.infos[id].inTried && t.infos[id].refCount == 0 {
        t := Delete(t, id);
      }
    }
  }
}
