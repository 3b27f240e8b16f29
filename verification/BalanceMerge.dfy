/**
 The entries that a balance query hands down from cache to cache, against the entries that
 flushing the caches would write.
 */
module BalanceMerge {
  import opened Wrappers
  import opened Coins
  import opened CoinsRefinement

  /** The entry's coin belongs to the account or points at it. */
  predicate Relevant(account: Account, e: Entry) {
    || e.coin.account == account
    || (e.coin.extra.Point? && e.coin.extra.receiver == account)
    || (e.coin.extra.Retarget? && e.coin.extra.receiver == account)
  }

  function RelevantOnly(account: Account, es: Entries): Entries {
    map o | o in es && Relevant(account, es[o]) :: es[o]
  }

  /** What one cache hands to its base, by the four paths of the call. */
  function Handed(account: Account, es: Entries, child: Entries): Entries {
    if es == map[] then child
    else if child == map[] then es
    else if RelevantOnly(account, es) == map[] then child
    else Merge(RelevantOnly(account, es), RelevantOnly(account, child))
  }

  /** The entries that reach the database. */
  function HandDown(account: Account, v: View, child: Entries): Entries {
    match v
    case Database(_) => child
    case Cache(es, b) => HandDown(account, b, Handed(account, es, child))
  }

  /** The entries the database would be given if every cache were flushed, top first. */
  function FlushDown(v: View, child: Entries): Entries {
    match v
    case Database(_) => child
    case Cache(es, b) => FlushDown(b, Merge(es, child))
  }

  ghost function Counted(account: Account, e: Option<Entry>): Option<Entry> {
    if e.Some? && e.value.isDirty && Relevant(account, e.value) then e else None
  }

  /** Two maps count the same entries for the account: same coins, same flags. */
  ghost predicate SameCounted(account: Account, a: Entries, b: Entries) {
    forall o :: Counted(account, Get(a, o)) == Counted(account, Get(b, o))
  }

  /** An outpoint has one owner and receiver at every level. */
  ghost predicate Agree(account: Account, es: Entries, child: Entries) {
    forall o :: o in es && o in child ==> (Relevant(account, es[o]) <==> Relevant(account, child[o]))
  }

  ghost predicate AgreeDown(account: Account, v: View, child: Entries) {
    match v
    case Database(_) => true
    case Cache(es, b) => Agree(account, es, child) && AgreeDown(account, b, Merge(es, child))
  }

  lemma RelevantAt(account: Account, es: Entries, o: OutPoint)
    ensures Get(RelevantOnly(account, es), o) == if o in es && Relevant(account, es[o]) then Some(es[o]) else None
  {
  }

  /** One outpoint through the merging path. */
  lemma MergedCounts(account: Account, us: Option<Entry>, given: Option<Entry>, child: Option<Entry>)
    requires Counted(account, given) == Counted(account, child)
    requires us.Some? && child.Some? ==> (Relevant(account, us.value) <==> Relevant(account, child.value))
    ensures var u := if us.Some? && Relevant(account, us.value) then us else None;
            var g := if given.Some? && Relevant(account, given.value) then given else None;
            && Counted(account, MergeEntry(u, g)) == Counted(account, MergeEntry(us, child))
            && (MergeFails(u, g) ==> MergeFails(us, child))
  {
  }

  /** One outpoint through the paths that hand the child's map on unchanged. */
  lemma PassedCounts(account: Account, us: Option<Entry>, given: Option<Entry>, child: Option<Entry>)
    requires Counted(account, given) == Counted(account, child)
    requires us.Some? && child.Some? ==> (Relevant(account, us.value) <==> Relevant(account, child.value))
    requires us.Some? ==> !Relevant(account, us.value)
    requires child.Some? && child.value.isFresh ==> !child.value.coin.IsSpent()
    ensures Counted(account, given) == Counted(account, MergeEntry(us, child))
  {
  }

  lemma HandedCounts(account: Account, es: Entries, given: Entries, child: Entries)
    requires SameCounted(account, given, child) && Agree(account, es, child)
    requires forall o :: o in child && child[o].isFresh ==> !child[o].coin.IsSpent()
    ensures SameCounted(account, Handed(account, es, given), Merge(es, child))
  {
    forall o ensures Counted(account, Get(Handed(account, es, given), o)) == Counted(account, Get(Merge(es, child), o)) {
      MergeAt(es, child, o);
      RelevantAt(account, es, o);
      RelevantAt(account, given, o);
      assert Counted(account, Get(given, o)) == Counted(account, Get(child, o));
      MergeAt(RelevantOnly(account, es), RelevantOnly(account, given), o);
      MergedCounts(account, Get(es, o), Get(given, o), Get(child, o));
      if es == map[] || RelevantOnly(account, es) == map[] {
        assert o !in RelevantOnly(account, es);
        PassedCounts(account, Get(es, o), Get(given, o), Get(child, o));
      }
    }
  }

  /** The merging path never throws or asserts. */
  lemma HandedNeverFails(account: Account, v: View, given: Entries, child: Entries)
    requires v.Cache? && Ok(Cache(child, v))
    requires SameCounted(account, given, child) && Agree(account, v.entries, child)
    ensures forall o :: o in RelevantOnly(account, given) ==>
              !MergeFails(Get(RelevantOnly(account, v.entries), o), Get(RelevantOnly(account, given), o))
  {
    BatchNeverFails(v, child);
    forall o | o in RelevantOnly(account, given)
      ensures !MergeFails(Get(RelevantOnly(account, v.entries), o), Get(RelevantOnly(account, given), o))
    {
      RelevantAt(account, v.entries, o);
      RelevantAt(account, given, o);
      assert Counted(account, Get(given, o)) == Counted(account, Get(child, o));
      MergedCounts(account, Get(v.entries, o), Get(given, o), Get(child, o));
      assert o in child ==> !MergeFails(Get(v.entries, o), Get(child, o));
    }
  }

  /** What this cache hands on is as good for the base as this cache's map was for it. */
  lemma HandedBelow(account: Account, v: View, given: Entries, child: Entries)
    requires v.Cache? && Ok(Cache(child, v)) && Agree(account, v.entries, child) && SameCounted(account, given, child)
    ensures Ok(Cache(Merge(v.entries, child), v.base))
    ensures SameCounted(account, Handed(account, v.entries, given), Merge(v.entries, child))
  {
    forall o | o in child && child[o].isFresh ensures !child[o].coin.IsSpent() {
      assert EntryOk(child[o], o, Flatten(v));
    }
    HandedCounts(account, v.entries, given, child);
    BatchShows(v, child);
  }

  /**
   Through a whole stack: the database counts for the account exactly the entries, coins and
   flags alike, that flushing every cache would have written into it.
   */
  lemma {:induction false} HandDownCounts(account: Account, v: View, given: Entries, child: Entries)
    requires Ok(Cache(child, v)) && AgreeDown(account, v, child) && SameCounted(account, given, child)
    ensures SameCounted(account, HandDown(account, v, given), FlushDown(v, child))
    decreases v
  {
    if v.Cache? {
      HandedBelow(account, v, given, child);
      HandDownCounts(account, v.base, Handed(account, v.entries, given), Merge(v.entries, child));
    }
  }
}
