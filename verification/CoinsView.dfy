/**
 The views as linked objects, updated in place. An object without a base is the database: its
 store is flat. Any other object is a cache over its base.
 */
module CoinsViews {
  import opened Wrappers
  import opened Coins
  import opened CoinsRefinement
  import opened CoinsRuns
  import opened BindRecords
  import opened BalanceMerge

  /** What spending does to one entry; None when the entry is erased. */
  method SpendOne(p: Params, entry: Entry, rollback: bool) returns (r: Option<Entry>)
    ensures r == SpendEntry(p, entry, rollback)
  {
    var e := entry;
    if !rollback && e.coin.IsBind() && e.coin.height >= p.unbindHeight {
      e := e.(isDirty := true, isUnbind := true, isFresh := false);
      r := Some(e.(coin := e.coin.Clear()));
    } else if e.isFresh {
      r := None;
    } else {
      e := e.(isDirty := true, isUnbind := false);
      if e.coin.IsBind() { e := e.(isFresh := false); }
      r := Some(e.(coin := e.coin.Clear()));
    }
  }

  /** One child entry written into the parent's entry; not ok when the code throws or asserts. */
  method WriteOne(us: Option<Entry>, c: Entry) returns (ok: bool, r: Option<Entry>)
    ensures ok <==> !MergeFails(us, Some(c))
    ensures ok ==> r == MergeEntry(us, Some(c))
  {
    r := us;
    if !c.isDirty { return true, r; }
    if us.None? {
      if !(c.isFresh && c.coin.IsSpent()) {
        var e := Entry(c.coin, true, false, false);
        if c.isFresh {
          if e.coin.IsBind() { return false, r; }
          e := e.(isFresh := true);
        }
        if c.isUnbind {
          if !e.coin.IsSpent() { return false, r; }
          e := e.(isUnbind := true);
        }
        r := Some(e);
      }
    } else {
      var u := us.value;
      if c.isFresh && !u.coin.IsSpent() { return false, r; }
      if u.isFresh && c.coin.IsSpent() && !c.coin.IsBind() {
        r := None;
      } else {
        u := u.(coin := c.coin, isDirty := true, isUnbind := false);
        if u.coin.IsBind() { u := u.(isFresh := false); }
        if c.isUnbind {
          if !u.coin.IsSpent() { return false, r; }
          u := u.(isUnbind := true);
        }
        r := Some(u);
      }
    }
    ok := true;
  }

  method WriteAll(us: Entries, mapCoins: Entries) returns (ok: bool, r: Entries)
    ensures ok <==> forall o :: o in mapCoins ==> !MergeFails(Get(us, o), Get(mapCoins, o))
    ensures ok ==> r == Merge(us, mapCoins)
  {
    r := us;
    var todo := mapCoins.Keys;
    while todo != {}
      invariant todo <= mapCoins.Keys
      invariant forall o :: Get(r, o) == if o in todo then Get(us, o) else MergeEntry(Get(us, o), Get(mapCoins, o))
      invariant forall o :: o in mapCoins && o !in todo ==> !MergeFails(Get(us, o), Get(mapCoins, o))
      decreases |todo|
    {
      var o :| o in todo;
      assert Get(r, o) == Get(us, o);
      var x;
      ok, x := WriteOne(Get(r, o), mapCoins[o]);
      if !ok { return; }
      SetOrEraseAt(r, o, x);
      r := SetOrErase(r, o, x);
      todo := todo - {o};
    }
    forall o ensures Get(r, o) == Get(Merge(us, mapCoins), o) { MergeAt(us, mapCoins, o); }
    MapEqual(r, Merge(us, mapCoins));
    ok := true;
  }

  method CopyRelevant(account: Account, es: Entries) returns (r: Entries)
    ensures r == RelevantOnly(account, es)
    ensures forall o :: o in r <==>
              o in es && match es[o].coin.extra
                         case Point(receiver) => es[o].coin.account == account || receiver == account
                         case Retarget(receiver) => es[o].coin.account == account || receiver == account
                         case Bind(_) => es[o].coin.account == account
                         case NoPayload => es[o].coin.account == account
    ensures forall o :: o in r ==> r[o] == es[o]
  {
    r := map[];
    var todo := es.Keys;
    while todo != {}
      invariant todo <= es.Keys
      invariant forall o :: Get(r, o) == if o in es && o !in todo && Relevant(account, es[o]) then Some(es[o]) else None
      decreases |todo|
    {
      var o :| o in todo;
      SetOrEraseAt(r, o, Some(es[o]));
      if Relevant(account, es[o]) { r := SetOrErase(r, o, Some(es[o])); }
      todo := todo - {o};
    }
    forall o ensures Get(r, o) == Get(RelevantOnly(account, es), o) { RelevantAt(account, es, o); }
    MapEqual(r, RelevantOnly(account, es));
  }

  /** The map one cache hands to its base. */
  method HandOn(account: Account, es: Entries, mapChildCoins: Entries) returns (r: Entries)
    requires forall o :: o in RelevantOnly(account, mapChildCoins) ==>
               !MergeFails(Get(RelevantOnly(account, es), o), Get(RelevantOnly(account, mapChildCoins), o))
    ensures r == Handed(account, es, mapChildCoins)
    ensures mapChildCoins == map[] ==> r == es
    ensures mapChildCoins != map[] && (forall o :: o in es ==> !Relevant(account, es[o])) ==> r == mapChildCoins
  {
    if es == map[] { return mapChildCoins; }
    if mapChildCoins == map[] { return es; }
    var merged := CopyRelevant(account, es);
    if merged == map[] { return mapChildCoins; }
    var mine := CopyRelevant(account, mapChildCoins);
    var ok;
    ok, r := WriteAll(merged, mine);
  }

  class CoinsView {
    var cacheCoins: Entries
    var base: CoinsView?
    var store: Flat
    ghost var Repr: set<CoinsView>

    ghost predicate Valid()
      reads this, Repr
      ensures Valid() ==> this in Repr
    {
      this in Repr &&
      (base != null ==> base in Repr && base.Repr <= Repr && this !in base.Repr && base.Valid())
    }

    ghost function Stack(): View
      requires Valid()
      reads this, Repr
      decreases Repr
    {
      if base == null then Database(store) else Cache(cacheCoins, base.Stack())
    }

    constructor OverStore(f: Flat)
      ensures Valid() && fresh(Repr) && Stack() == Database(f)
    {
      cacheCoins, base, store := map[], null, f;
      Repr := {this};
    }

    constructor OverView(b: CoinsView)
      requires b.Valid()
      ensures Valid() && fresh(Repr - b.Repr) && base == b && Stack() == Cache(map[], b.Stack())
    {
      cacheCoins, base, store := map[], b, Flat(map[], map[]);
      Repr := {this} + b.Repr;
    }

    /** The coin when unspent. Fills this cache and every cache below it. */
    method GetCoin(o: OutPoint) returns (r: Option<Coin>)
      requires Valid() && Ok(Stack())
      modifies Repr
      ensures Valid() && Repr == old(Repr) && base == old(base)
      ensures Stack() == Fetch(old(Stack()), o)
      ensures r == Get(Flatten(old(Stack())).coins, o)
      decreases Repr, 1
    {
      if base == null {
        r := Get(store.coins, o);
      } else {
        FlatAt(cacheCoins, Flatten(base.Stack()), o);
        OkFlat(Stack());
        FetchKeeps(Stack(), o);
        var found := FetchCoin(o);
        r := if found && !cacheCoins[o].coin.IsSpent() then Some(cacheCoins[o].coin) else None;
      }
    }

    method FetchCoin(o: OutPoint) returns (found: bool)
      requires Valid() && base != null && Ok(Stack())
      modifies Repr
      ensures Valid() && Repr == old(Repr) && base == old(base)
      ensures Stack() == Fetch(old(Stack()), o)
      ensures found <==> o in cacheCoins
      decreases Repr, 0
    {
      if o in cacheCoins { return true; }
      OkFlat(base.Stack());
      var tmp := base.GetCoin(o);
      if tmp.None? { return false; }
      assert !tmp.value.IsSpent();   // GetCoin only returns unspent coins
      cacheCoins := cacheCoins[o := Entry(tmp.value, false, false, false)];
      return true;
    }

    /** False when the call throws; nothing has changed then. */
    method AddCoin(p: Params, o: OutPoint, c: Coin, overwrite: bool) returns (ok: bool)
      requires Valid() && base != null && !c.IsSpent()
      modifies this
      ensures Valid() && Repr == old(Repr) && base == old(base)
      ensures ok <==> !AddThrows(p, old(cacheCoins), o, c, overwrite)
      ensures Stack() == Coins.AddCoin(p, old(Stack()), o, c, overwrite)
    {
      if p.unspendable(c.script) { return true; }
      var e := if o in cacheCoins then cacheCoins[o] else EMPTY_ENTRY;
      var makeFresh := false;
      if !overwrite {
        if !e.coin.IsSpent() { return false; }
        makeFresh := !e.isDirty;
      }
      if makeFresh && e.coin.IsBind() { makeFresh := false; }
      e := e.(coin := c.(account := p.accountOf(c.script)), isDirty := true,
              isFresh := e.isFresh || makeFresh, isUnbind := false);
      if e.coin.IsBind() { e := e.(isFresh := false); }
      cacheCoins := cacheCoins[o := e];
      return true;
    }

    method SpendCoin(p: Params, o: OutPoint, rollback: bool) returns (r: Option<Coin>)
      requires Valid() && base != null && Ok(Stack())
      modifies Repr
      ensures Valid() && Repr == old(Repr) && base == old(base)
      ensures Stack() == Coins.SpendCoin(p, old(Stack()), o, rollback)
      ensures r == if o in old(cacheCoins) then Some(old(cacheCoins)[o].coin) else Get(Flatten(old(Stack())).coins, o)
    {
      OkFlat(base.Stack());
      FlatAt(cacheCoins, Flatten(base.Stack()), o);
      var found := FetchCoin(o);
      if !found { return None; }
      r := Some(cacheCoins[o].coin);
      var e := SpendOne(p, cacheCoins[o], rollback);
      cacheCoins := SetOrErase(cacheCoins, o, e);
    }

    method Uncache(p: Params, o: OutPoint)
      requires Valid() && base != null
      modifies this
      ensures Valid() && Repr == old(Repr) && base == old(base)
      ensures Stack() == Coins.Uncache(p, old(Stack()), o)
    {
      if o in cacheCoins {
        var e := cacheCoins[o];
        if !e.isDirty && !e.isFresh && !e.isUnbind && e.coin.account != p.burnAccount {
          cacheCoins := cacheCoins - {o};
        }
      }
    }

    /** False when an entry makes the write throw or assert. */
    method BatchWrite(mapCoins: Entries) returns (ok: bool)
      requires Valid()
      modifies this
      ensures Valid() && Repr == old(Repr) && base == old(base)
      ensures ok <==> !BatchFails(old(Stack()), mapCoins)
      ensures ok ==> Stack() == Coins.BatchWrite(old(Stack()), mapCoins)
    {
      if base == null {
        store := FlatOver(DirtyOnly(mapCoins), store);
        return true;
      }
      ok, cacheCoins := WriteAll(cacheCoins, mapCoins);
    }

    /** Writes the entries into the base and empties the cache; every flush succeeds. */
    method Flush() returns (ok: bool)
      requires Valid() && base != null && Ok(Stack())
      modifies this, base
      ensures Valid() && Repr == old(Repr) && base == old(base)
      ensures ok && Stack() == Coins.Flush(old(Stack()))
      ensures Flatten(Stack()) == Flatten(base.Stack()) == Flatten(old(Stack()))
    {
      FlushShows(Stack());
      ok := base.BatchWrite(cacheCoins);
      cacheCoins := map[];
    }

    // ---- Bind records ----

    method GetBindPlotterEntries(id: BindId) returns (r: map<OutPoint, Record>)
      requires Valid()
      ensures r == OfId(Flatten(Stack()).binds, id)
      decreases Repr
    {
      if base == null { return OfId(store.binds, id); }
      var below := base.GetBindPlotterEntries(id);
      r := ApplyAllToId(cacheCoins, below, id, Flatten(base.Stack()));
    }

    method GetAccountBindPlotterEntries(account: Account, id: BindId) returns (r: map<OutPoint, Record>)
      requires Valid()
      ensures r == OfAccount(Flatten(Stack()).binds, account, id)
      decreases Repr
    {
      if base == null { return OfAccount(store.binds, account, id); }
      var below := base.GetAccountBindPlotterEntries(account, id);
      r := ApplyAllToAccount(cacheCoins, below, account, id, Flatten(base.Stack()));
    }

    /** The last record of the id by (height, outpoint), or the null info when there is none. */
    method GetLastBindPlotterInfo(id: BindId) returns (last: Info)
      requires Valid() && base != null && NoNullRecord(Flatten(Stack()).binds)
      ensures var rs := OfId(Flatten(Stack()).binds, id);
              if rs == map[] then last == NULL_INFO else IsGreatest(last, rs)
    {
      var rs := GetBindPlotterEntries(id);
      assert forall o :: o in rs ==> rs[o].id == id;
      last := LastOf(rs);
    }

    /** Asserts of the call: a valid record's coin is unspent, a bind coin, and has the id. */
    method GetLastBindPlotterCoin(id: BindId) returns (coin: Option<Coin>, outpoint: OutPoint)
      requires Valid() && base != null && Ok(Stack())
      requires NoNullRecord(Flatten(Stack()).binds) && Consistent(Flatten(Stack()))
      modifies Repr
      ensures Valid() && Repr == old(Repr) && Flatten(Stack()) == Flatten(old(Stack()))
      ensures var rs := OfId(Flatten(old(Stack())).binds, id);
              if rs == map[] then outpoint == NULL_OUTPOINT else outpoint in rs && IsGreatest(InfoOf(outpoint, rs[outpoint]), rs)
      ensures coin.Some? ==> !coin.value.IsSpent() && coin.value.extra == Bind(id)
      ensures coin == if outpoint in OfId(Flatten(old(Stack())).binds, id) && Flatten(old(Stack())).binds[outpoint].valid
                      then Get(Flatten(old(Stack())).coins, outpoint) else None
    {
      var last := GetLastBindPlotterInfo(id);
      outpoint := last.outpoint;
      FetchKeeps(Stack(), outpoint);
      if !last.valid { return None, outpoint; }
      OkFlat(Stack());
      coin := GetCoin(outpoint);
      assert coin.Some? && !coin.value.IsSpent();
      assert coin.value.IsBind();
      assert coin.value.extra.id == id;
    }

    /** The next record after the source: the least later one, or in compatible mode the greatest valid later one. */
    method GetChangeBindPlotterInfo(source: Info, compatible: bool) returns (change: Info)
      requires Valid() && base != null && !source.outpoint.IsNull()
      requires NoNullRecord(Flatten(Stack()).binds) && BoundedHeights(Flatten(Stack()).binds)
      ensures var later := Later(OfId(Flatten(Stack()).binds, source.id), source, compatible);
              if later == map[] then change == source
              else if compatible then IsGreatest(change, later)
              else IsLeast(change, later)
    {
      var rs := GetBindPlotterEntries(source.id);
      change := NextAfter(rs, source, compatible);
    }

    // ---- Balance ----

    /**
     The entries a balance query hands to the database. The child's map may be any that counts,
     for the account, the same entries as those of some cache over this one: no merge then fails.
     */
    method GetBalance(account: Account, mapChildCoins: Entries, ghost child: Entries) returns (r: Entries)
      requires Valid() && Ok(Cache(child, Stack()))
      requires AgreeDown(account, Stack(), child) && SameCounted(account, mapChildCoins, child)
      ensures r == HandDown(account, Stack(), mapChildCoins)
      ensures SameCounted(account, r, FlushDown(Stack(), child))
      decreases Repr
    {
      HandDownCounts(account, Stack(), mapChildCoins, child);
      if base == null { return mapChildCoins; }
      HandedBelow(account, Stack(), mapChildCoins, child);
      HandedNeverFails(account, Stack(), mapChildCoins, child);
      var given := HandOn(account, cacheCoins, mapChildCoins);
      r := base.GetBalance(account, given, Merge(cacheCoins, child));
    }
  }
}
