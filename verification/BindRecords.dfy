/** Bind records: selecting them by id or account, and ordering them by (height, outpoint). */
module BindRecords {
  import opened Wrappers
  import opened Coins
  import opened CoinsRefinement

  type Records = map<OutPoint, Record>

  predicate NoNullRecord(rs: Records) { NULL_OUTPOINT !in rs }

  /** Heights are 30-bit. */
  predicate BoundedHeights(rs: Records) { forall o :: o in rs ==> 0 <= rs[o].height <= 0x3fff_ffff }

  function Select(rs: Records, sel: Record -> bool): Records {
    map o | o in rs && sel(rs[o]) :: rs[o]
  }

  function HasId(id: BindId): Record -> bool {
    (r: Record) => r.id == id
  }

  function HasAccount(account: Account, id: BindId): Record -> bool {
    (r: Record) => r.account == account && (id == 0 || r.id == id)
  }

  function OfId(rs: Records, id: BindId): Records { Select(rs, HasId(id)) }

  function OfAccount(rs: Records, account: Account, id: BindId): Records { Select(rs, HasAccount(account, id)) }

  /** What a query must answer for one outpoint, from the cache's entry and the base's answer. */
  ghost function Overlay(e: Option<Entry>, below: Option<Record>, sel: Record -> bool): Option<Record> {
    if e.Some? && e.value.isDirty
    then (if RecordOf(e.value).Some? && sel(RecordOf(e.value).value) then RecordOf(e.value) else None)
    else below
  }

  /** Overlaying the cache on the base's answer is the same as selecting from what the cache shows. */
  lemma OverlaySelects(es: Entries, f: Flat, sel: Record -> bool, r: Records)
    requires forall o :: Get(r, o) == Overlay(Get(es, o), Get(Select(f.binds, sel), o), sel)
    ensures r == Select(FlatOver(es, f).binds, sel)
  {
    forall o ensures Get(r, o) == Get(Select(FlatOver(es, f).binds, sel), o) {
      FlatAt(es, f, o);
    }
    MapEqual(r, Select(FlatOver(es, f).binds, sel));
  }

  /** For a non-zero id the account query is the id query restricted to the account. */
  lemma AccountQueryRestricts(rs: Records, account: Account, id: BindId)
    requires id != 0
    ensures OfAccount(rs, account, id) == Select(OfId(rs, id), (r: Record) => r.account == account)
  {
  }

  /** Without an id the account query gives every record of the account. */
  lemma AccountQueryAll(rs: Records, account: Account)
    ensures forall o :: Get(OfAccount(rs, account, 0), o) == (if o in rs && rs[o].account == account then Some(rs[o]) else None)
  {
  }

  datatype Info = Info(outpoint: OutPoint, height: int, account: Account, id: BindId, valid: bool)

  const NULL_INFO := Info(NULL_OUTPOINT, -1, 0, 0, false)

  function InfoOf(o: OutPoint, r: Record): Info { Info(o, r.height, r.account, r.id, r.valid) }

  predicate InfoLess(a: Info, b: Info) {
    a.height < b.height || (a.height == b.height && a.outpoint.Less(b.outpoint))
  }

  /** The order: lower heights first, then smaller hashes, then smaller output numbers. */
  lemma InfoOrder(a: Info, b: Info)
    ensures InfoLess(a, b) <==>
      || a.height < b.height
      || (a.height == b.height && a.outpoint.hash < b.outpoint.hash)
      || (a.height == b.height && a.outpoint.hash == b.outpoint.hash && a.outpoint.n < b.outpoint.n)
  {
  }

  ghost predicate IsInfoOf(i: Info, rs: Records) {
    i.outpoint in rs && i == InfoOf(i.outpoint, rs[i.outpoint])
  }

  ghost predicate IsGreatest(i: Info, rs: Records) {
    IsInfoOf(i, rs) && forall o :: o in rs && o != i.outpoint ==> InfoLess(InfoOf(o, rs[o]), i)
  }

  ghost predicate IsLeast(i: Info, rs: Records) {
    IsInfoOf(i, rs) && forall o :: o in rs && o != i.outpoint ==> InfoLess(i, InfoOf(o, rs[o]))
  }

  /** The records that come after the source by (height, outpoint); in compatible mode only the valid ones. */
  function Later(rs: Records, source: Info, compatible: bool): Records {
    map o | o in rs && (!compatible || rs[o].valid) && o != source.outpoint &&
            !(rs[o].height < source.height || (rs[o].height == source.height && o.Less(source.outpoint)))
      :: rs[o]
  }

  // ---- The loops of the queries ----

  /** One entry of the cache applied to the answer of the id query. */
  method ApplyToId(e: Entry, selected: Option<Record>, id: BindId) returns (r: Option<Record>)
    ensures r == Overlay(Some(e), selected, HasId(id))
  {
    r := selected;
    if !e.isDirty { return; }
    if r.Some? {
      if e.coin.IsSpent() && !e.isUnbind {
        r := None;
      } else if e.coin.IsBind() {
        if id == e.coin.extra.id {
          r := Some(Record(e.coin.height, e.coin.account, e.coin.extra.id, !e.coin.IsSpent()));
        } else {
          r := None;
        }
      } else {
        r := None;
      }
    } else if e.coin.IsBind() && id == e.coin.extra.id {
      if !e.coin.IsSpent() || e.isUnbind {
        r := Some(Record(e.coin.height, e.coin.account, e.coin.extra.id, !e.coin.IsSpent()));
      }
    }
  }

  /** One entry of the cache applied to the answer of the account query. */
  method ApplyToAccount(e: Entry, selected: Option<Record>, account: Account, id: BindId) returns (r: Option<Record>)
    ensures r == Overlay(Some(e), selected, HasAccount(account, id))
  {
    r := selected;
    if !e.isDirty { return; }
    if account != e.coin.account { return None; }
    if r.Some? {
      if e.coin.IsSpent() && !e.isUnbind {
        r := None;
      } else if e.coin.IsBind() {
        if id == 0 || id == e.coin.extra.id {
          r := Some(Record(e.coin.height, e.coin.account, e.coin.extra.id, !e.coin.IsSpent()));
        } else {
          r := None;
        }
      } else {
        r := None;
      }
    } else if e.coin.IsBind() && (id == 0 || id == e.coin.extra.id) {
      if !e.coin.IsSpent() || e.isUnbind {
        r := Some(Record(e.coin.height, e.coin.account, e.coin.extra.id, !e.coin.IsSpent()));
      }
    }
  }

  method ApplyAllToId(es: Entries, below: Records, id: BindId, ghost f: Flat) returns (r: Records)
    requires below == OfId(f.binds, id)
    ensures r == OfId(FlatOver(es, f).binds, id)
  {
    r := below;
    var todo := es.Keys;
    while todo != {}
      invariant todo <= es.Keys
      invariant forall o :: Get(r, o) == if o in todo then Get(below, o) else Overlay(Get(es, o), Get(below, o), HasId(id))
      decreases |todo|
    {
      var o :| o in todo;
      assert Get(r, o) == Get(below, o);
      var x := ApplyToId(es[o], Get(r, o), id);
      SetOrEraseAt(r, o, x);
      r := SetOrErase(r, o, x);
      todo := todo - {o};
    }
    OverlaySelects(es, f, HasId(id), r);
  }

  method ApplyAllToAccount(es: Entries, below: Records, account: Account, id: BindId, ghost f: Flat) returns (r: Records)
    requires below == OfAccount(f.binds, account, id)
    ensures r == OfAccount(FlatOver(es, f).binds, account, id)
  {
    r := below;
    var todo := es.Keys;
    while todo != {}
      invariant todo <= es.Keys
      invariant forall o :: Get(r, o) == if o in todo then Get(below, o) else Overlay(Get(es, o), Get(below, o), HasAccount(account, id))
      decreases |todo|
    {
      var o :| o in todo;
      assert Get(r, o) == Get(below, o);
      var x := ApplyToAccount(es[o], Get(r, o), account, id);
      SetOrEraseAt(r, o, x);
      r := SetOrErase(r, o, x);
      todo := todo - {o};
    }
    OverlaySelects(es, f, HasAccount(account, id), r);
  }

  /** The last record by (height, outpoint), or the null info when there is none. */
  method LastOf(rs: Records) returns (last: Info)
    requires NoNullRecord(rs)
    ensures if rs == map[] then last == NULL_INFO else IsGreatest(last, rs)
    ensures forall o :: o in rs ==> rs[o].height <= last.height
    ensures rs != map[] ==> last.outpoint in rs && last.height == rs[last.outpoint].height && last.account == rs[last.outpoint].account &&
                            last.id == rs[last.outpoint].id && last.valid == rs[last.outpoint].valid
  {
    last := NULL_INFO;
    var todo := rs.Keys;
    while todo != {}
      invariant todo <= rs.Keys
      invariant if todo == rs.Keys then last == NULL_INFO else IsInfoOf(last, rs)
      invariant forall o :: o in rs && o !in todo && o != last.outpoint ==> InfoLess(InfoOf(o, rs[o]), last)
      decreases |todo|
    {
      var o :| o in todo;
      var r := rs[o];
      if last.outpoint.IsNull() || last.height < r.height || (last.height == r.height && last.outpoint.Less(o)) {
        last := InfoOf(o, r);
      }
      todo := todo - {o};
    }
  }

  /** The least later record, or in compatible mode the greatest valid later one; the source when there is none. */
  method NextAfter(rs: Records, source: Info, compatible: bool) returns (change: Info)
    requires !source.outpoint.IsNull() && NoNullRecord(rs) && BoundedHeights(rs)
    ensures var later := Later(rs, source, compatible);
            if later == map[] then change == source
            else if compatible then IsGreatest(change, later)
            else IsLeast(change, later)
    ensures forall o :: o in rs && o != source.outpoint && rs[o].height > source.height && (compatible ==> rs[o].valid) ==>
              if compatible then change.height >= rs[o].height else change.height <= rs[o].height
  {
    ghost var later := Later(rs, source, compatible);
    var none := if compatible then NULL_INFO else NULL_INFO.(height := 0x7fff_ffff);
    change := none;
    var todo := rs.Keys;
    while todo != {}
      invariant todo <= rs.Keys
      invariant if later.Keys <= todo then change == none else IsInfoOf(change, later)
      invariant forall o :: o in later && o !in todo && o != change.outpoint ==>
                  if compatible then InfoLess(InfoOf(o, later[o]), change) else InfoLess(change, InfoOf(o, later[o]))
      decreases |todo|
    {
      var o :| o in todo;
      var r := rs[o];
      if !((compatible && !r.valid) || o == source.outpoint || r.height < source.height ||
           (r.height == source.height && o.Less(source.outpoint))) {
        assert o in later && later[o] == r;
        if (compatible && (change.height < r.height || (change.height == r.height && change.outpoint.Less(o)))) ||
           (!compatible && (change.height > r.height || (change.height == r.height && o.Less(change.outpoint)))) {
          change := InfoOf(o, r);
        }
      }
      todo := todo - {o};
    }
    if change.outpoint.IsNull() { change := source; }
    assert later.Keys == {} ==> later == map[];
    forall o | o in rs && o != source.outpoint && rs[o].height > source.height && (compatible ==> rs[o].valid)
      ensures if compatible then change.height >= rs[o].height else change.height <= rs[o].height
    {
      assert o in later && later[o] == rs[o];
    }
  }
}
