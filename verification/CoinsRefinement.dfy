/**
 Every stack of caches that the calls can build shows exactly the flat store.
 */
module CoinsRefinement {
  import opened Wrappers
  import opened Coins

  // ---- The invariant of one entry over what its base shows ----

  ghost predicate EntryFits(e: Entry, coin: Option<Coin>, record: Option<Record>) {
    && (!e.isDirty ==> !e.isFresh && !e.isUnbind && coin == Some(e.coin))
    && (e.isFresh ==> !e.coin.IsSpent() && !e.coin.IsBind() && coin.None? && record.None?)
    && (e.isUnbind ==> e.coin.IsSpent() && e.coin.IsBind())
  }

  ghost predicate EntryOk(e: Entry, o: OutPoint, below: Flat) {
    EntryFits(e, Get(below.coins, o), Get(below.binds, o))
  }

  ghost predicate EntriesOk(es: Entries, below: Flat) {
    forall o :: o in es ==> EntryOk(es[o], o, below)
  }

  ghost predicate FlatOk(f: Flat) {
    forall o :: o in f.coins ==> !f.coins[o].IsSpent()
  }

  ghost predicate Ok(v: View) {
    match v
    case Database(f) => FlatOk(f)
    case Cache(es, b) => Ok(b) && EntriesOk(es, Flatten(b))
  }

  // ---- Pointwise reading ----

  lemma FlatAt(es: Entries, f: Flat, o: OutPoint)
    ensures Get(FlatOver(es, f).coins, o) == CoinOver(Get(es, o), Get(f.coins, o))
    ensures Get(FlatOver(es, f).binds, o) == RecordOver(Get(es, o), Get(f.binds, o))
  {
  }

  lemma FlatEqual(f: Flat, g: Flat)
    requires forall o :: Get(f.coins, o) == Get(g.coins, o)
    requires forall o :: Get(f.binds, o) == Get(g.binds, o)
    ensures f == g
  {
    MapEqual(f.coins, g.coins);
    MapEqual(f.binds, g.binds);
  }

  ghost function Put(f: Flat, o: OutPoint, coin: Option<Coin>, record: Option<Record>): Flat {
    Flat(if coin.Some? then f.coins[o := coin.value] else f.coins - {o},
         if record.Some? then f.binds[o := record.value] else f.binds - {o})
  }

  lemma PutSame(f: Flat, o: OutPoint)
    ensures Put(f, o, Get(f.coins, o), Get(f.binds, o)) == f
  {
    FlatEqual(Put(f, o, Get(f.coins, o), Get(f.binds, o)), f);
  }

  lemma PutAt(f: Flat, o: OutPoint, coin: Option<Coin>, record: Option<Record>, k: OutPoint)
    ensures Get(Put(f, o, coin, record).coins, k) == if k == o then coin else Get(f.coins, k)
    ensures Get(Put(f, o, coin, record).binds, k) == if k == o then record else Get(f.binds, k)
  {
  }

  lemma SetAt(es: Entries, f: Flat, o: OutPoint, e: Option<Entry>, k: OutPoint)
    ensures Get(FlatOver(SetOrErase(es, o, e), f).coins, k) == if k == o then CoinOver(e, Get(f.coins, o)) else Get(FlatOver(es, f).coins, k)
    ensures Get(FlatOver(SetOrErase(es, o, e), f).binds, k) == if k == o then RecordOver(e, Get(f.binds, o)) else Get(FlatOver(es, f).binds, k)
  {
    SetOrEraseAt(es, o, e);
    FlatAt(es, f, k);
    FlatAt(SetOrErase(es, o, e), f, k);
  }

  /** Changing one entry changes what shows at that outpoint only. */
  lemma FlatSet(es: Entries, f: Flat, o: OutPoint, e: Option<Entry>)
    ensures FlatOver(SetOrErase(es, o, e), f) ==
            Put(FlatOver(es, f), o, CoinOver(e, Get(f.coins, o)), RecordOver(e, Get(f.binds, o)))
  {
    var f' := FlatOver(SetOrErase(es, o, e), f);
    var coin, record := CoinOver(e, Get(f.coins, o)), RecordOver(e, Get(f.binds, o));
    var g := Put(FlatOver(es, f), o, coin, record);
    forall k ensures Get(f'.coins, k) == Get(g.coins, k) && Get(f'.binds, k) == Get(g.binds, k) {
      PutAt(FlatOver(es, f), o, coin, record, k);
      SetAt(es, f, o, e, k);
    }
    FlatEqual(f', g);
  }

  lemma OkFlat(v: View)
    requires Ok(v)
    ensures FlatOk(Flatten(v))
  {
    if v.Cache? {
      OkFlat(v.base);
      forall o | o in Flatten(v).coins ensures !Flatten(v).coins[o].IsSpent() {
        FlatAt(v.entries, Flatten(v.base), o);
      }
    }
  }

  // ---- Fetching and uncaching change nothing that shows ----

  lemma {:induction false} FetchKeeps(v: View, o: OutPoint)
    requires Ok(v)
    ensures Ok(Fetch(v, o)) && Flatten(Fetch(v, o)) == Flatten(v)
    ensures v.Cache? ==> (o in Flatten(v).coins ==> o in Fetch(v, o).entries && Fetch(v, o).entries[o].coin == Flatten(v).coins[o])
    ensures v.Cache? && o !in v.entries && o !in Flatten(v).coins ==> o !in Fetch(v, o).entries
  {
    if v.Cache? {
      var f, w := Flatten(v.base), Fetch(v, o);
      FlatAt(v.entries, f, o);
      if o !in v.entries {
        FetchKeeps(v.base, o);
        OkFlat(v.base);
        if o in f.coins {
          FlatSet(v.entries, f, o, Some(w.entries[o]));
          PutSame(Flatten(v), o);
        }
      }
    }
  }

  /** Down to the first level that knows the outpoint, every level has a clean copy of the coin; further down nothing changes. */
  ghost predicate CopiedDown(before: View, after: View, o: OutPoint, c: Coin) {
    if before.Database? || o in before.entries then after == before
    else after.Cache? && after.entries == before.entries[o := Entry(c, false, false, false)] && CopiedDown(before.base, after.base, o, c)
  }

  /** Fetching a coin copies it into every level that it passes through; a coin that does not show is not cached anywhere. */
  lemma {:induction false} FetchCopies(v: View, o: OutPoint)
    ensures if o in Flatten(v).coins then CopiedDown(v, Fetch(v, o), o, Flatten(v).coins[o]) else Fetch(v, o) == v
  {
    if v.Cache? && o !in v.entries {
      FlatAt(v.entries, Flatten(v.base), o);
      FetchCopies(v.base, o);
    }
  }

  lemma UncacheKeeps(p: Params, v: View, o: OutPoint)
    requires v.Cache? && Ok(v)
    ensures Ok(Uncache(p, v, o)) && Flatten(Uncache(p, v, o)) == Flatten(v)
  {
    if Uncache(p, v, o) != v {
      OkFlat(v.base);
      FlatAt(v.entries, Flatten(v.base), o);
      FlatSet(v.entries, Flatten(v.base), o, None);
      PutSame(Flatten(v), o);
    }
  }

  /** Exactly a cached entry without flags, of another account than the burn account, is dropped. */
  lemma UncacheDrops(p: Params, v: View, o: OutPoint)
    requires v.Cache?
    ensures var after := Uncache(p, v, o);
            && after.Cache? && after.base == v.base
            && (o in after.entries <==>
                o in v.entries && (v.entries[o].isDirty || v.entries[o].isFresh || v.entries[o].isUnbind || v.entries[o].coin.account == p.burnAccount))
            && forall k {:trigger Get(after.entries, k)} :: k != o ==> Get(after.entries, k) == Get(v.entries, k)
  {
  }

  // ---- Adding ----

  /** A new FRESH flag is right: the base shows nothing at this outpoint. */
  ghost predicate AddPremise(p: Params, v: View, o: OutPoint, c: Coin, overwrite: bool)
    requires v.Cache?
  {
    overwrite || c.IsBind() || p.unspendable(c.script) || o in v.entries ||
    (o !in Flatten(v.base).coins && o !in Flatten(v.base).binds)
  }

  lemma AddShows(p: Params, v: View, o: OutPoint, c: Coin, overwrite: bool)
    requires v.Cache? && Ok(v) && !c.IsSpent()
    requires !AddThrows(p, v.entries, o, c, overwrite)
    ensures Flatten(AddCoin(p, v, o, c, overwrite)) == FlatAdd(p, Flatten(v), o, c)
  {
    if !p.unspendable(c.script) {
      FlatSet(v.entries, Flatten(v.base), o, Some(AddEntry(p, Prior(v.entries, o), c, overwrite)));
    }
  }

  /**
   What an addition leaves: the coin under the account of its script, and for a bind coin a valid record;
   nothing else changes. An unspendable coin is not added.
   */
  lemma AddLeaves(p: Params, v: View, o: OutPoint, c: Coin, overwrite: bool)
    requires v.Cache? && Ok(v) && !c.IsSpent() && AddPremise(p, v, o, c, overwrite)
    requires !AddThrows(p, v.entries, o, c, overwrite)
    ensures var before, after, account := Flatten(v), Flatten(AddCoin(p, v, o, c, overwrite)), p.accountOf(c.script);
            if p.unspendable(c.script) then after == before
            else
              && Get(after.coins, o) == Some(Coin(c.script, account, c.height, c.extra))
              && Get(after.binds, o) == (if c.extra.Bind? then Some(Record(c.height, account, c.extra.id, true)) else None)
              && forall k {:trigger Get(after.binds, k)} :: k != o ==> Get(after.coins, k) == Get(before.coins, k) && Get(after.binds, k) == Get(before.binds, k)
  {
    AddShows(p, v, o, c, overwrite);
    var f := FlatAdd(p, Flatten(v), o, c);
    forall k | k != o ensures Get(f.coins, k) == Get(Flatten(v).coins, k) && Get(f.binds, k) == Get(Flatten(v).binds, k) {
      FlatAddAt(p, Flatten(v), o, c, k);
    }
  }

  lemma FlatAddAt(p: Params, f: Flat, o: OutPoint, c: Coin, k: OutPoint)
    requires k != o
    ensures Get(FlatAdd(p, f, o, c).coins, k) == Get(f.coins, k) && Get(FlatAdd(p, f, o, c).binds, k) == Get(f.binds, k)
  {
  }

  /** The invariant survives an addition exactly when the premise holds. */
  lemma AddKeepsIff(p: Params, v: View, o: OutPoint, c: Coin, overwrite: bool)
    requires v.Cache? && Ok(v) && !c.IsSpent()
    requires !AddThrows(p, v.entries, o, c, overwrite)
    ensures Ok(AddCoin(p, v, o, c, overwrite)) <==> AddPremise(p, v, o, c, overwrite)
  {
    var w := AddCoin(p, v, o, c, overwrite);
    OkFlat(v.base);
    if AddPremise(p, v, o, c, overwrite) {
      forall k | k in w.entries ensures EntryOk(w.entries[k], k, Flatten(v.base)) { }
    } else {
      assert !EntryOk(w.entries[o], o, Flatten(v.base));
    }
  }

  // ---- Spending ----

  lemma SpendShows(p: Params, v: View, o: OutPoint, rollback: bool)
    requires v.Cache? && Ok(v)
    requires o in v.entries ==> o in Flatten(v).coins
    ensures Ok(SpendCoin(p, v, o, rollback))
    ensures Flatten(SpendCoin(p, v, o, rollback)) == FlatSpend(p, Flatten(v), o, rollback)
  {
    FetchKeeps(v, o);
    var w := Fetch(v, o);
    if o in w.entries {
      FetchedUnspent(v, o);
      SpendCached(p, w, o, rollback);
    }
  }

  /**
   The record left by spending a coin that is unspent in the view: that of a bind coin stays, no longer
   valid, when the spend is not a rollback and the coin is at or above the unbind height; otherwise there
   is none. The coin is gone, and nothing else changes.
   */
  lemma SpendLeaves(p: Params, v: View, o: OutPoint, rollback: bool)
    requires v.Cache? && Ok(v) && o in Flatten(v).coins
    ensures var c, before, after := Flatten(v).coins[o], Flatten(v), Flatten(SpendCoin(p, v, o, rollback));
            && Get(after.coins, o) == None
            && Get(after.binds, o) == (if c.extra.Bind? && !rollback && c.height >= p.unbindHeight
                                       then Some(Record(c.height, c.account, c.extra.id, false)) else None)
            && forall k {:trigger Get(after.binds, k)} :: k != o ==> Get(after.coins, k) == Get(before.coins, k) && Get(after.binds, k) == Get(before.binds, k)
  {
    SpendShows(p, v, o, rollback);
    var f := FlatSpend(p, Flatten(v), o, rollback);
    forall k | k != o ensures Get(f.coins, k) == Get(Flatten(v).coins, k) && Get(f.binds, k) == Get(Flatten(v).binds, k) {
      FlatSpendAt(p, Flatten(v), o, rollback, k);
    }
  }

  lemma FlatSpendAt(p: Params, f: Flat, o: OutPoint, rollback: bool, k: OutPoint)
    requires k != o
    ensures Get(FlatSpend(p, f, o, rollback).coins, k) == Get(f.coins, k) && Get(FlatSpend(p, f, o, rollback).binds, k) == Get(f.binds, k)
  {
  }

  lemma FetchedUnspent(v: View, o: OutPoint)
    requires v.Cache? && Ok(v)
    requires o in v.entries ==> o in Flatten(v).coins
    requires o in Fetch(v, o).entries
    ensures !Fetch(v, o).entries[o].coin.IsSpent()
  {
    OkFlat(v.base);
    FlatAt(v.entries, Flatten(v.base), o);
  }

  lemma SpendCached(p: Params, w: View, o: OutPoint, rollback: bool)
    requires w.Cache? && Ok(w) && o in w.entries && !w.entries[o].coin.IsSpent()
    ensures var x := w.(entries := SetOrErase(w.entries, o, SpendEntry(p, w.entries[o], rollback)));
            Ok(x) && Flatten(x) == FlatSpend(p, Flatten(w), o, rollback)
  {
    FlatAt(w.entries, Flatten(w.base), o);
    FlatSet(w.entries, Flatten(w.base), o, SpendEntry(p, w.entries[o], rollback));
  }

  /**
   Spending an outpoint whose cached coin is already spent is promised to have no effect. It
   has none on what shows exactly when the entry already carries the UNBIND flag this spend sets.
   */
  lemma SpendSpentIff(p: Params, v: View, o: OutPoint, rollback: bool)
    requires v.Cache? && Ok(v)
    requires o in v.entries && v.entries[o].coin.IsSpent()
    ensures Ok(SpendCoin(p, v, o, rollback))
    ensures Flatten(SpendCoin(p, v, o, rollback)) == Flatten(v) <==>
            v.entries[o].isUnbind == Unbinds(p, v.entries[o].coin, rollback)
  {
    OkFlat(v.base);
    var e, f := v.entries[o], Flatten(v.base);
    FlatAt(v.entries, f, o);
    FlatSet(v.entries, f, o, SpendEntry(p, e, rollback));
    PutSame(Flatten(v), o);
    if e.isUnbind != Unbinds(p, e.coin, rollback) {
      assert Get(Flatten(SpendCoin(p, v, o, rollback)).binds, o) != Get(Flatten(v).binds, o);
    }
  }

  /**
   A second spend that takes effect: a bind coin whose spending leaves an invalid record is spent,
   and spent again during a rollback. The record disappears.
   */
  lemma SpendTwice(p: Params, o: OutPoint, c: Coin)
    requires !c.IsSpent() && c.IsBind() && c.height >= p.unbindHeight
    ensures var v := Cache(map[], Database(Flat(map[o := c], map[o := Record(c.height, c.account, c.extra.id, true)])));
            var once := SpendCoin(p, v, o, false);
            var twice := SpendCoin(p, once, o, true);
            && Ok(v) && o in once.entries && once.entries[o].coin.IsSpent()
            && Get(Flatten(once).binds, o) == Some(Record(c.height, c.account, c.extra.id, false))
            && Get(Flatten(twice).binds, o) == None
  {
    var v := Cache(map[], Database(Flat(map[o := c], map[o := Record(c.height, c.account, c.extra.id, true)])));
    var once := SpendCoin(p, v, o, false);
    SpendShows(p, v, o, false);
    FlatAt(once.entries, Flatten(once.base), o);
    FlatAt(SpendCoin(p, once, o, true).entries, Flatten(once.base), o);
  }

  // ---- Writing a batch into the view below ----

  lemma MergeAt(us: Entries, child: Entries, o: OutPoint)
    ensures Get(Merge(us, child), o) == MergeEntry(Get(us, o), Get(child, o))
  {
  }

  lemma BatchNeverFails(v: View, child: Entries)
    requires Ok(Cache(child, v))
    ensures !BatchFails(v, child)
  {
    if v.Cache? {
      forall o | o in child ensures !MergeFails(Get(v.entries, o), Get(child, o)) {
        assert EntryOk(child[o], o, Flatten(v));
        FlatAt(v.entries, Flatten(v.base), o);
      }
    }
  }

  /** After the write the view below shows exactly what the child showed over it. */
  lemma BatchShows(v: View, child: Entries)
    requires Ok(Cache(child, v))
    ensures Ok(BatchWrite(v, child))
    ensures Flatten(BatchWrite(v, child)) == Flatten(Cache(child, v))
  {
    match v
    case Database(f) =>
      var d := DirtyOnly(child);
      forall k
        ensures Get(FlatOver(d, f).coins, k) == Get(FlatOver(child, f).coins, k)
        ensures Get(FlatOver(d, f).binds, k) == Get(FlatOver(child, f).binds, k)
      {
        FlatAt(d, f, k);
        FlatAt(child, f, k);
        assert k in child ==> EntryOk(child[k], k, f);
      }
      FlatEqual(FlatOver(d, f), FlatOver(child, f));
      OkFlat(Cache(child, v));
    case Cache(es, b) =>
      var f, m := Flatten(b), Merge(es, child);
      OkFlat(b);
      forall k
        ensures Get(FlatOver(m, f).coins, k) == Get(FlatOver(child, FlatOver(es, f)).coins, k)
        ensures Get(FlatOver(m, f).binds, k) == Get(FlatOver(child, FlatOver(es, f)).binds, k)
        ensures k in m ==> EntryOk(m[k], k, f)
      {
        MergedEntry(es, child, f, k);
      }
      FlatEqual(FlatOver(m, f), FlatOver(child, FlatOver(es, f)));
  }

  /** Merging one entry: the four paths of the write, for one outpoint. */
  lemma MergeFits(us: Option<Entry>, child: Option<Entry>, coin: Option<Coin>, record: Option<Record>)
    requires coin.Some? ==> !coin.value.IsSpent()
    requires us.Some? ==> EntryFits(us.value, coin, record)
    requires child.Some? ==> EntryFits(child.value, CoinOver(us, coin), RecordOver(us, record))
    ensures var m := MergeEntry(us, child);
            && CoinOver(m, coin) == CoinOver(child, CoinOver(us, coin))
            && RecordOver(m, record) == RecordOver(child, RecordOver(us, record))
            && (m.Some? ==> EntryFits(m.value, coin, record))
  {
  }

  lemma MergedEntry(es: Entries, child: Entries, f: Flat, k: OutPoint)
    requires FlatOk(f) && EntriesOk(es, f) && EntriesOk(child, FlatOver(es, f))
    ensures var m := Merge(es, child);
            && Get(FlatOver(m, f).coins, k) == Get(FlatOver(child, FlatOver(es, f)).coins, k)
            && Get(FlatOver(m, f).binds, k) == Get(FlatOver(child, FlatOver(es, f)).binds, k)
            && (k in m ==> EntryOk(m[k], k, f))
  {
    MergeAt(es, child, k);
    FlatAt(es, f, k);
    MergeFits(Get(es, k), Get(child, k), Get(f.coins, k), Get(f.binds, k));
    FlatAt(Merge(es, child), f, k);
    FlatAt(child, FlatOver(es, f), k);
  }

  lemma FlushShows(v: View)
    requires v.Cache? && Ok(v)
    ensures Ok(Flush(v)) && !BatchFails(v.base, v.entries)
    ensures Flatten(Flush(v)) == Flatten(v) == Flatten(Flush(v).base)
  {
    BatchNeverFails(v.base, v.entries);
    BatchShows(v.base, v.entries);
    var f := Flatten(Flush(v).base);
    forall k
      ensures Get(FlatOver(map[], f).coins, k) == Get(f.coins, k)
      ensures Get(FlatOver(map[], f).binds, k) == Get(f.binds, k)
    {
      FlatAt(map[], f, k);
    }
    FlatEqual(FlatOver(map[], f), f);
  }

  // ---- What FRESH is for ----

  /**
   A coin that is not a bind coin, added to a cache where nothing is known of it and flushed into the cache
   below, leaves no entry there once it is spent: neither level ever writes it down.
   */
  lemma FreshLeavesNoTrace(p: Params, es: Entries, below: Entries, b: View, o: OutPoint, c: Coin, rollback: bool)
    requires o !in es && o !in below && !c.IsSpent() && !c.extra.Bind? && !p.unspendable(c.script)
    ensures var v := AddCoin(p, Cache(es, Cache(below, b)), o, c, false);
            var parent := Flush(v).base;
            && parent.Cache? && o in parent.entries && parent.entries[o].isFresh && parent.entries[o].isDirty
            && o !in SpendCoin(p, parent, o, rollback).entries
            && o !in SpendCoin(p, v, o, rollback).entries
  {
    var v := AddCoin(p, Cache(es, Cache(below, b)), o, c, false);
    MergeAt(below, v.entries, o);
  }

  /**
   A flush is refused exactly when some dirty entry is marked unbind but not spent, is FRESH over an unspent
   coin, or is a FRESH unspent bind coin of which the cache below knows nothing.
   */
  lemma {:induction false} FlushRefusedIff(v: View, child: Entries)
    requires v.Cache?
    ensures BatchFails(v, child) <==>
            exists o :: && o in child && child[o].isDirty
                        && (|| (child[o].isUnbind && child[o].coin.script != [])
                            || (child[o].isFresh && if o in v.entries then v.entries[o].coin.script != []
                                                   else child[o].coin.script != [] && child[o].coin.extra.Bind?))
  {
  }

  /** A FRESH entry stays so under any flush that does not make it a bind coin, and leaves no entry once spent. */
  lemma {:induction false} FreshStays(p: Params, below: Entries, child: Entries, b: View, o: OutPoint, rollback: bool)
    requires o in below && below[o].isFresh && o in child && child[o].isDirty && !child[o].coin.extra.Bind?
    ensures var v := BatchWrite(Cache(below, b), child);
            && v.Cache? && (child[o].coin.script == [] ==> o !in v.entries)
            && (child[o].coin.script != [] ==>
                  && o in v.entries && v.entries[o].isFresh && v.entries[o].coin == child[o].coin
                  && o !in SpendCoin(p, v, o, rollback).entries)
  {
    hide Flatten;
    var v := BatchWrite(Cache(below, b), child);
    assert o in below.Keys + child.Keys;
  }

  /** Written to the database, dirty entries replace coin and record, or remove them; a clean entry changes nothing. */
  lemma {:induction false} DatabaseTakesDirty(f: Flat, child: Entries, o: OutPoint)
    ensures var g := BatchWrite(Database(f), child);
            && g.Database?
            && (o !in child || !child[o].isDirty ==> Get(g.flat.coins, o) == Get(f.coins, o) && Get(g.flat.binds, o) == Get(f.binds, o))
            && (o in child && child[o].isDirty ==>
                  && Get(g.flat.coins, o) == (if child[o].coin.script == [] then None else Some(child[o].coin))
                  && Get(g.flat.binds, o) == RecordOf(child[o]))
  {
    FlatAt(DirtyOnly(child), f, o);
  }
}
