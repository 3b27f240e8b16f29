/**
 Reading a stream that anyone may have written: whatever its entries and indices, as long as no two entries
 have the same address, the manager that comes out is consistent.
 */
module AddrManStream {
  import opened Wrappers
  import opened AddrManModel
  import opened AddrManInvariant
  import opened AddrManCalls
  import opened AddrManSerialize

  ghost predicate DifferentIps(all: seq<Saved>) {
    forall i, j :: 0 <= i < j < |all| ==> all[i].addr.ip != all[j].addr.ip
  }

  /** New entries without a place. */
  ghost function Limbo(infos: Infos): set<int> { set id | id in infos && !infos[id].inTried && infos[id].refCount == 0 }

  /** The counters less what is announced but not read yet. */
  function Settled(u: State, news: int, trieds: int): State { u.(nNew := u.nNew - news, nTried := u.nTried - trieds) }

  /** The name belongs to one of the first n entries of the stream. */
  ghost predicate Read(all: seq<Saved>, n: nat, ip: NetAddr) { exists k :: 0 <= k < n && k < |all| && all[k].addr.ip == ip }

  ghost predicate FromStream(u: State, all: seq<Saved>, n: nat) {
    forall id {:trigger u.infos[id]} :: id in u.infos ==> Read(all, n, u.infos[id].addr.ip)
  }

  lemma {:induction false} Unheard(u: State, all: seq<Saved>, n: nat)
    requires IndexOk(u) && FromStream(u, all, n) && DifferentIps(all) && n < |all|
    ensures all[n].addr.ip !in u.ids
  {
    forall ip | ip in u.ids ensures ip != all[n].addr.ip {
      assert Named(u.infos, ip, u.ids[ip]);
      assert Read(all, n, u.infos[u.ids[ip]].addr.ip);
    }
  }

  // ---- One entry ----

  lemma {:induction false} AppendIndexed(u: State, i: Info)
    requires IndexOk(u) && i.addr.ip !in u.ids && i.randomPos == |u.random|
    ensures u.idCount !in u.infos && IndexOk(Append(u, i))
  {
    if u.idCount in u.infos { IdBelow(u, u.idCount); }
    var t, id := Append(u, i), u.idCount;
    forall k | 0 <= k < |t.random| ensures AtPos(t.infos, k, t.random[k]) {
      if k < |u.random| { assert AtPos(u.infos, k, u.random[k]); }
    }
    forall n | n in t.ids ensures Named(t.infos, n, t.ids[n]) {
      if n != i.addr.ip { assert Named(u.infos, n, u.ids[n]); }
    }
    forall k | k in t.infos ensures EntryIndexed(t.idCount, t.ids, t.random, k, t.infos[k]) {
      if k != id { assert EntryIndexed(u.idCount, u.ids, u.random, k, u.infos[k]); }
    }
  }

  lemma {:induction false} CountMore(infos: Infos, id: int, i: Info)
    requires id !in infos
    ensures |TriedIds(infos[id := i])| == |TriedIds(infos)| + (if i.inTried then 1 else 0)
    ensures |NewIds(infos[id := i])| == |NewIds(infos)| + (if i.inTried then 0 else 1)
  {
    if i.inTried {
      forall k: int ensures k in NewIds(infos[id := i]) <==> k in NewIds(infos) { }
      assert NewIds(infos[id := i]) == NewIds(infos);
      forall k: int ensures k in TriedIds(infos[id := i]) <==> k in TriedIds(infos) + {id} { }
      assert TriedIds(infos[id := i]) == TriedIds(infos) + {id};
    } else {
      CountAdd(infos, id, i);
    }
  }

  lemma {:induction false} AppendNew(e: Env, u: State, x: Saved)
    requires Inv(e, u, Limbo(u.infos), 0) && x.addr.ip !in u.ids
    ensures var t := LoadNew(u, x); Inv(e, t.(nNew := t.nNew + 1), Limbo(t.infos), 0)
  {
    var i, id := Load(x, false, |u.random|), u.idCount;
    var t := LoadNew(u, x);
    AppendIndexed(u, i);
    CountMore(u.infos, id, i);
    TriedKeptNow(e, u.infos, t.infos, u.tried);
    forall sl | sl in t.news ensures HoldsNew(e, t.infos, sl, t.news[sl]) && t.news[sl] != id { assert HoldsNew(e, u.infos, sl, u.news[sl]); }
    NoBuckets(e, t.news, x.addr, id);
    forall k | k in t.infos ensures Referenced(e, t.news, Limbo(t.infos), k, t.infos[k]) {
      if k != id { assert Referenced(e, u.news, Limbo(u.infos), k, u.infos[k]); }
    }
  }

  lemma {:induction false} AppendTried(e: Env, u: State, x: Saved)
    requires Inv(e, u, Limbo(u.infos), 0) && x.addr.ip !in u.ids && TriedSlot(e, x.addr) !in u.tried
    ensures var t := LoadTried(e, u, x); Inv(e, t.(nTried := t.nTried + 1), Limbo(t.infos), 0)
  {
    hide TriedSlot;
    var i, id, slot := Load(x, true, |u.random|), u.idCount, TriedSlot(e, x.addr);
    var t := LoadTried(e, u, x);
    AppendIndexed(u, i);
    CountMore(u.infos, id, i);
    assert Limbo(t.infos) == Limbo(u.infos);
    forall sl | sl in t.tried ensures HoldsTried(e, t.infos, sl, t.tried[sl]) {
      if sl != slot { assert HoldsTried(e, u.infos, sl, u.tried[sl]); }
    }
    forall k | k in t.infos ensures InTriedTable(e, t.tried, k, t.infos[k]) {
      if k != id { assert InTriedTable(e, u.tried, k, u.infos[k]); }
    }
    forall sl | sl in t.news ensures HoldsNew(e, t.infos, sl, t.news[sl]) { assert HoldsNew(e, u.infos, sl, u.news[sl]); }
    forall k | k in t.infos ensures Referenced(e, t.news, Limbo(t.infos), k, t.infos[k]) {
      if k != id { assert Referenced(e, u.news, Limbo(u.infos), k, u.infos[k]); }
    }
  }

  // ---- All entries ----

  /** The new entries are those whose ids are below the count. */
  ghost predicate NewBelow(u: State, n: int) { forall id: int :: id in NewIds(u.infos) <==> 0 <= id < n }

  lemma {:induction false} NewsAny(e: Env, xs: seq<Saved>, n: nat, nTried: int)
    requires DifferentIps(xs) && n <= |xs| && nTried >= 0
    ensures var u := LoadNews(EmptyState(|xs|, nTried), xs[..n]);
            && Inv(e, Settled(u, |xs| - n, nTried), Limbo(u.infos), 0) && FromStream(u, xs, n)
            && NewBelow(u, n) && u.idCount == n && u.nNew == |xs| && u.nTried == nTried
    decreases n
  {
    hide Inv, TriedSlot;
    var empty := EmptyState(|xs|, nTried);
    if n == 0 {
      EmptyAny(e, |xs|, nTried);
      assert xs[..0] == [];
    } else {
      NewsAny(e, xs, n - 1, nTried);
      var u, x := LoadNews(empty, xs[..n - 1]), xs[n - 1];
      assert xs[..n][..n - 1] == xs[..n - 1];
      var v := Settled(u, |xs| - (n - 1), nTried);
      InvIndexed(e, v);
      Unheard(v, xs, n - 1);
      AppendNew(e, v, x);
      var t := LoadNew(u, x);
      assert LoadNew(v, x).(nNew := v.nNew + 1) == Settled(t, |xs| - n, nTried);
      NewEntry(u, x, xs, n);
    }
  }

  lemma {:induction false} InvIndexed(e: Env, v: State)
    requires Inv(e, v, Limbo(v.infos), 0)
    ensures IndexOk(v)
  {
  }

  lemma {:induction false} NewEntry(u: State, x: Saved, xs: seq<Saved>, n: nat)
    requires 0 < n <= |xs| && x == xs[n - 1] && u.idCount == n - 1 && FromStream(u, xs, n - 1) && NewBelow(u, n - 1)
    ensures FromStream(LoadNew(u, x), xs, n) && NewBelow(LoadNew(u, x), n)
  {
    var t := LoadNew(u, x);
    forall id | id in t.infos ensures Read(xs, n, t.infos[id].addr.ip) {
      if id == u.idCount { assert xs[n - 1].addr.ip == t.infos[id].addr.ip; } else { assert Read(xs, n - 1, u.infos[id].addr.ip); }
    }
    forall id: int ensures id in NewIds(t.infos) <==> 0 <= id < n {
      assert id in NewIds(u.infos) <==> 0 <= id < n - 1;
    }
  }

  lemma {:induction false} EmptyAny(e: Env, nNew: nat, nTried: nat)
    ensures var u := EmptyState(nNew, nTried); Inv(e, Settled(u, nNew, nTried), Limbo(u.infos), 0) && NewBelow(u, 0)
  {
    var u := EmptyState(nNew, nTried);
    assert TriedIds(u.infos) == {} && NewIds(u.infos) == {} && Limbo(u.infos) == {};
  }

  lemma {:induction false} TriedsAny(e: Env, u0: State, all: seq<Saved>, first: nat, n: nat, total: nat)
    requires DifferentIps(all) && first + total == |all| && n <= total
    requires Inv(e, Settled(u0, 0, total), Limbo(u0.infos), 0) && FromStream(u0, all, first) && NewBelow(u0, first) && u0.idCount >= first
    ensures var u := LoadTrieds(e, u0, all[first..first + n]);
            && Inv(e, Settled(u, 0, total - n), Limbo(u.infos), 0) && FromStream(u, all, first + n)
            && NewBelow(u, first) && u.idCount >= first && u.nNew == u0.nNew
    decreases n
  {
    hide Inv, TriedSlot, NewBelow, DifferentIps, FromStream, LoadTried, Settled;
    if n == 0 {
      assert all[first..first] == [];
    } else {
      TriedsAny(e, u0, all, first, n - 1, total);
      var xs := all[first..first + n];
      assert xs[..n - 1] == all[first..first + n - 1] && xs[n - 1] == all[first + n - 1];
      OneTried(e, LoadTrieds(e, u0, all[first..first + n - 1]), all, first, first + n - 1, total - n + 1);
    }
  }

  /** One more entry of the stream: lost if its place is taken, and then no longer counted. */
  lemma {:induction false} OneTried(e: Env, u: State, all: seq<Saved>, first: nat, n: nat, left: nat)
    requires DifferentIps(all) && first <= n < |all| && left > 0
    requires Inv(e, Settled(u, 0, left), Limbo(u.infos), 0) && FromStream(u, all, n) && NewBelow(u, first) && u.idCount >= first
    ensures var t := LoadTried(e, u, all[n]);
            && Inv(e, Settled(t, 0, left - 1), Limbo(t.infos), 0) && FromStream(t, all, n + 1)
            && NewBelow(t, first) && t.idCount >= first && t.nNew == u.nNew
  {
    hide Inv, TriedSlot, NewBelow, DifferentIps, FromStream;
    var x, v := all[n], Settled(u, 0, left);
    InvIndexed(e, v);
    SameStream(u, v, all, n);
    Unheard(v, all, n);
    var t := LoadTried(e, u, x);
    if TriedSlot(e, x.addr) in u.tried {
      assert Settled(t, 0, left - 1) == v;
      LaterRead(u, all, n);
      SameBelow(u, t, first);
    } else {
      AppendTried(e, v, x);
      assert LoadTried(e, v, x).(nTried := v.nTried + 1) == Settled(t, 0, left - 1);
      AppendIndexed(v, Load(x, true, |u.random|));
      TriedEntry(e, u, x, all, first, n + 1);
    }
  }

  lemma SameStream(u: State, v: State, all: seq<Saved>, n: nat)
    requires u.infos == v.infos && FromStream(u, all, n)
    ensures FromStream(v, all, n)
  {
  }

  lemma SameBelow(u: State, v: State, n: int)
    requires u.infos == v.infos && NewBelow(u, n)
    ensures NewBelow(v, n)
  {
  }

  lemma {:induction false} LaterRead(u: State, all: seq<Saved>, n: nat)
    requires FromStream(u, all, n)
    ensures FromStream(u.(nTried := u.nTried - 1), all, n + 1)
  {
    forall id | id in u.infos ensures Read(all, n + 1, u.infos[id].addr.ip) { assert Read(all, n, u.infos[id].addr.ip); }
  }

  lemma {:induction false} TriedEntry(e: Env, u: State, x: Saved, all: seq<Saved>, first: nat, n: nat)
    requires 0 < n <= |all| && x == all[n - 1] && FromStream(u, all, n - 1) && NewBelow(u, first) && u.idCount >= first
    requires u.idCount !in u.infos && TriedSlot(e, x.addr) !in u.tried
    ensures FromStream(LoadTried(e, u, x), all, n) && NewBelow(LoadTried(e, u, x), first)
  {
    hide TriedSlot;
    var t := LoadTried(e, u, x);
    forall id | id in t.infos ensures Read(all, n, t.infos[id].addr.ip) {
      if id == u.idCount { assert all[n - 1].addr.ip == t.infos[id].addr.ip; } else { assert Read(all, n - 1, u.infos[id].addr.ip); }
    }
    forall id: int ensures id in NewIds(t.infos) <==> 0 <= id < first {
      assert id in NewIds(u.infos) <==> 0 <= id < first;
    }
  }

  // ---- The indices ----

  ghost predicate Open(e: Env, u: State) { Inv(e, u, Limbo(u.infos), 0) && NewBelow(u, u.nNew) }

  /** An index out of range, a place taken or a ninth reference is passed over; any other adds a reference. */
  lemma {:induction false} IndexAny(e: Env, u: State, bucket: int, k: int)
    requires Open(e, u) && 0 <= bucket < NEW_BUCKETS
    ensures Open(e, LoadIndex(e, u, bucket, k)) && LoadIndex(e, u, bucket, k).idCount == u.idCount
  {
    hide Inv;
    var t := LoadIndex(e, u, bucket, k);
    if t != u {
      assert k in NewIds(u.infos);
      var sl := SlotIn(e, u.infos[k].addr, bucket);
      LinkKeeps(e, u, k, sl, Limbo(u.infos), 0);
      CountNotNegative(e, u, k);
      assert Limbo(t.infos) == Limbo(u.infos) - {k};
      assert NewIds(t.infos) == NewIds(u.infos);
    }
  }

  lemma {:induction false} CountNotNegative(e: Env, u: State, k: int)
    requires Inv(e, u, Limbo(u.infos), 0) && k in u.infos && !u.infos[k].inTried
    ensures u.infos[k].refCount >= 0
  {
    assert Referenced(e, u.news, Limbo(u.infos), k, u.infos[k]);
  }

  lemma {:induction false} BucketAny(e: Env, u: State, bucket: int, ks: seq<int>)
    requires Open(e, u) && 0 <= bucket < NEW_BUCKETS
    ensures Open(e, LoadBucket(e, u, bucket, ks)) && LoadBucket(e, u, bucket, ks).idCount == u.idCount
    decreases |ks|
  {
    hide Open, LoadIndex;
    if ks != [] {
      BucketAny(e, u, bucket, ks[..|ks| - 1]);
      IndexAny(e, LoadBucket(e, u, bucket, ks[..|ks| - 1]), bucket, ks[|ks| - 1]);
    }
  }

  lemma {:induction false} BucketsAny(e: Env, u: State, bs: seq<seq<int>>)
    requires Open(e, u) && |bs| <= NEW_BUCKETS
    ensures Open(e, LoadBuckets(e, u, bs)) && LoadBuckets(e, u, bs).idCount == u.idCount
    decreases |bs|
  {
    hide Open, LoadBucket;
    if bs != [] {
      BucketsAny(e, u, bs[..|bs| - 1]);
      BucketAny(e, LoadBuckets(e, u, bs[..|bs| - 1]), |bs| - 1, bs[|bs| - 1]);
    }
  }

  // ---- Dropping what has no place ----

  lemma {:induction false} DropOne(e: Env, v: State, id: int)
    requires Inv(e, v, Limbo(v.infos), 0) && id in Limbo(v.infos)
    ensures var t := Delete(v, id); Inv(e, t, Limbo(t.infos), 0) && Limbo(t.infos) == Limbo(v.infos) - {id} && t.idCount == v.idCount
  {
    hide TablesOk;
    DeleteKeeps(e, v, id, Limbo(v.infos), 0);
    var t := Delete(v, id);
    forall k: int ensures k in Limbo(t.infos) <==> k in Limbo(v.infos) - {id} {
      if k in v.infos && k != id { DeleteStays(v, id, k); }
      if k in t.infos && k !in v.infos { DeletedKeys(v, id, k); }
      DeletedKeys(v, id, id);
    }
    assert Limbo(t.infos) == Limbo(v.infos) - {id};
    SwapToLast(v, id);
  }

  lemma {:induction false} DeletedKeys(v: State, id: int, k: int)
    requires IndexOk(v) && id in v.infos
    ensures k in Delete(v, id).infos <==> k in v.infos && k != id
  {
    SwapToLast(v, id);
  }

  lemma {:induction false} PruneAny(e: Env, v: State, n: nat)
    requires Inv(e, v, Limbo(v.infos), 0) && forall id: int :: id in Limbo(v.infos) ==> 0 <= id
    ensures var t := Prune(v, n); Inv(e, t, Limbo(t.infos), 0) && t.idCount == v.idCount && forall id: int :: id in Limbo(t.infos) ==> n <= id
    decreases n
  {
    hide Inv, Delete;
    if n > 0 {
      PruneAny(e, v, n - 1);
      var t := Prune(v, n - 1);
      if n - 1 in Limbo(t.infos) { DropOne(e, t, n - 1); }
    }
  }

  // ---- The whole stream ----

  /**
   A stream that holds what it announces, with counts that are not negative and no address twice, gives a
   consistent manager, whatever its entries and bucket indices are.
   */
  lemma {:induction false} AnyStreamConsistent(e: Env, m: Message)
    requires Complete(m) && m.nNew >= 0 && m.nTried >= 0 && DifferentIps(m.news + m.tried)
    ensures Consistent(e, Unserialize(e, m))
  {
    hide Inv, LoadNews, LoadTrieds, LoadBuckets, Prune, NewBelow, FromStream;
    var all, first, total := m.news + m.tried, |m.news|, |m.tried|;
    assert all[..first] == m.news && all[first..first + total] == m.tried;
    Part(all, first);
    NewsAny(e, m.news, first, m.nTried);
    assert m.news[..first] == m.news;
    var u := LoadNews(EmptyState(m.nNew, m.nTried), m.news);
    ReadMore(u, m.news, all, first);
    assert Settled(u, 0, m.nTried) == Settled(u, 0, total);
    TriedsAny(e, u, all, first, total, total);
    var v := LoadTrieds(e, u, m.tried);
    assert Settled(v, 0, 0) == v;
    BucketsAny(e, v, m.buckets);
    var w := LoadBuckets(e, v, m.buckets);
    LimboKnown(e, w);
    PruneAny(e, w, w.idCount);
    var t := Prune(w, w.idCount);
    LimboKnown(e, t);
    forall id: int ensures id !in Limbo(t.infos) { }
    assert Limbo(t.infos) == {};
    NoLimbo(e, t);
  }

  /** With no address twice, the counts alone decide. */
  lemma {:induction false} ConsistentIffCounted(e: Env, m: Message)
    requires Complete(m) && DifferentIps(m.news + m.tried)
    ensures Consistent(e, Unserialize(e, m)) <==> m.nNew >= 0 && m.nTried >= 0
  {
    hide LoadIndex, Prune, Consistent;
    if m.nNew >= 0 && m.nTried >= 0 {
      AnyStreamConsistent(e, m);
    } else {
      var u := LoadTrieds(e, LoadNews(EmptyState(m.nNew, m.nTried), m.news), m.tried);
      NewsCounts(EmptyState(m.nNew, m.nTried), m.news);
      TriedsCounts(e, LoadNews(EmptyState(m.nNew, m.nTried), m.news), m.tried);
      BucketsCounts(e, u, m.buckets);
      var v := LoadBuckets(e, u, m.buckets);
      var n := if v.idCount < 0 then 0 else v.idCount;
      PruneCounts(v, n);
      if Consistent(e, Prune(v, n)) { NotNegative(e, Prune(v, n)); }
    }
  }

  lemma NotNegative(e: Env, s: State)
    requires Consistent(e, s)
    ensures s.nNew >= 0 && s.nTried >= 0
  {
  }

  lemma {:induction false} NewsCounts(u: State, xs: seq<Saved>)
    ensures LoadNews(u, xs).nNew == u.nNew && LoadNews(u, xs).nTried == u.nTried
    decreases |xs|
  {
    if xs != [] { NewsCounts(u, xs[..|xs| - 1]); }
  }

  lemma {:induction false} TriedsCounts(e: Env, u: State, xs: seq<Saved>)
    ensures LoadTrieds(e, u, xs).nNew == u.nNew && LoadTrieds(e, u, xs).nTried <= u.nTried
    decreases |xs|
  {
    if xs != [] { TriedsCounts(e, u, xs[..|xs| - 1]); }
  }

  lemma {:induction false} BucketCounts(e: Env, u: State, bucket: int, ks: seq<int>)
    ensures LoadBucket(e, u, bucket, ks).nNew == u.nNew && LoadBucket(e, u, bucket, ks).nTried == u.nTried
    decreases |ks|
  {
    if ks != [] { BucketCounts(e, u, bucket, ks[..|ks| - 1]); }
  }

  lemma {:induction false} BucketsCounts(e: Env, u: State, bs: seq<seq<int>>)
    ensures LoadBuckets(e, u, bs).nNew == u.nNew && LoadBuckets(e, u, bs).nTried == u.nTried
    decreases |bs|
  {
    hide LoadBucket;
    if bs != [] {
      BucketsCounts(e, u, bs[..|bs| - 1]);
      BucketCounts(e, LoadBuckets(e, u, bs[..|bs| - 1]), |bs| - 1, bs[|bs| - 1]);
    }
  }

  lemma {:induction false} PruneCounts(v: State, n: nat)
    ensures Prune(v, n).nNew <= v.nNew && Prune(v, n).nTried == v.nTried
    decreases n
  {
    if n > 0 { PruneCounts(v, n - 1); }
  }

  lemma NoLimbo(e: Env, t: State)
    requires Inv(e, t, {}, 0)
    ensures Consistent(e, t)
  {
  }

  lemma {:induction false} LimboKnown(e: Env, w: State)
    requires Inv(e, w, Limbo(w.infos), 0)
    ensures forall id: int :: id in Limbo(w.infos) ==> 0 <= id < w.idCount
  {
    forall id: int | id in Limbo(w.infos) ensures 0 <= id < w.idCount { IdBelow(w, id); }
  }

  lemma {:induction false} Part(all: seq<Saved>, n: nat)
    requires DifferentIps(all) && n <= |all|
    ensures DifferentIps(all[..n])
  {
    forall i, j | 0 <= i < j < n ensures all[..n][i].addr.ip != all[..n][j].addr.ip { assert all[i].addr.ip != all[j].addr.ip; }
  }

  lemma {:induction false} ReadMore(u: State, xs: seq<Saved>, all: seq<Saved>, n: nat)
    requires FromStream(u, xs, n) && |xs| == n <= |all| && all[..n] == xs
    ensures FromStream(u, all, n)
  {
    forall id | id in u.infos ensures Read(all, n, u.infos[id].addr.ip) {
      assert Read(xs, n, u.infos[id].addr.ip);
      var k :| 0 <= k < n && k < |xs| && xs[k].addr.ip == u.infos[id].addr.ip;
      assert all[k] == xs[k];
    }
  }
}
