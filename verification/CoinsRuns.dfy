/**
 Runs over a stack of caches, against a stack of flat stores.

 Caches are pushed and dropped at the top; coins are added and spent at the top; any level may
 fetch, uncache or flush. So a base changes only through flushes, as the design asks.
 */
module CoinsRuns {
  import opened Wrappers
  import opened Coins
  import opened CoinsRefinement

  datatype Upkeep = FetchOne(o: OutPoint) | UncacheOne(o: OutPoint) | FlushAll

  datatype Op =
    | Push
    | Pop
    | Add(o: OutPoint, c: Coin, overwrite: bool)
    | Spend(o: OutPoint, rollback: bool)
    | At(level: nat, upkeep: Upkeep)

  // ---- The stack of caches ----

  function Depth(v: View): nat {
    if v.Database? then 0 else 1 + Depth(v.base)
  }

  function Maintain(p: Params, v: View, u: Upkeep): View
    requires v.Cache?
  {
    match u
    case FetchOne(o) => Fetch(v, o)
    case UncacheOne(o) => Uncache(p, v, o)
    case FlushAll => Flush(v)
  }

  function MaintainAt(p: Params, v: View, level: nat, u: Upkeep): View
    requires level < Depth(v)
    decreases level
  {
    if level == 0 then Maintain(p, v, u) else v.(base := MaintainAt(p, v.base, level - 1, u))
  }

  function LevelOf(v: View, level: nat): View
    requires level < Depth(v)
    ensures LevelOf(v, level).Cache?
    decreases level
  {
    if level == 0 then v else LevelOf(v.base, level - 1)
  }

  /** What the callers promise before each call. */
  ghost predicate Allowed(p: Params, v: View, op: Op) {
    match op
    case Push => true
    case Pop => v.Cache?
    case Add(o, c, overwrite) =>
      && v.Cache? && !c.IsSpent()
      && (overwrite || (o in v.entries && v.entries[o].isDirty) ||
          (o !in Flatten(v.base).coins && o !in Flatten(v.base).binds))
    case Spend(o, _) => v.Cache? && (o in v.entries ==> !v.entries[o].coin.IsSpent())
    case At(level, _) => level < Depth(v)
  }

  ghost function Step(p: Params, v: View, op: Op): View
    requires Allowed(p, v, op)
  {
    match op
    case Push => Cache(map[], v)
    case Pop => v.base
    case Add(o, c, overwrite) => AddCoin(p, v, o, c, overwrite)
    case Spend(o, rollback) => SpendCoin(p, v, o, rollback)
    case At(level, u) => MaintainAt(p, v, level, u)
  }

  /** The call throws "Adding new coin that replaces non-pruned entry". */
  ghost predicate Throws(p: Params, v: View, op: Op)
    requires Allowed(p, v, op)
  {
    op.Add? && AddThrows(p, v.entries, op.o, op.c, op.overwrite)
  }

  /** The call hits the "FRESH flag misapplied" throw or an assert of the batch write. */
  ghost predicate Fails(p: Params, v: View, op: Op)
    requires Allowed(p, v, op)
  {
    op.At? && op.upkeep.FlushAll? &&
    var w := LevelOf(v, op.level);
    BatchFails(w.base, w.entries)
  }

  // ---- The stack of flat stores, the top first ----

  function Flats(v: View): seq<Flat> {
    [Flatten(v)] + if v.Cache? then Flats(v.base) else []
  }

  ghost predicate FlatThrows(p: Params, fs: seq<Flat>, op: Op)
    requires |fs| > 0
  {
    op.Add? && !op.overwrite && !p.unspendable(op.c.script) && op.o in fs[0].coins
  }

  ghost function FlatStep(p: Params, fs: seq<Flat>, op: Op): seq<Flat>
    requires |fs| > 0
  {
    match op
    case Push => [fs[0]] + fs
    case Pop => fs[1..]
    case Add(o, c, _) => if FlatThrows(p, fs, op) then fs else fs[0 := FlatAdd(p, fs[0], o, c)]
    case Spend(o, rollback) => fs[0 := FlatSpend(p, fs[0], o, rollback)]
    case At(level, u) =>
      if u.FlushAll? && level + 1 < |fs| then fs[level + 1 := fs[level]] else fs
  }

  // ---- One step ----

  lemma {:induction false} MaintainShows(p: Params, v: View, level: nat, u: Upkeep)
    requires Ok(v) && level < Depth(v)
    ensures Ok(MaintainAt(p, v, level, u)) && Flatten(MaintainAt(p, v, level, u)) == Flatten(v)
    ensures |Flats(v)| == Depth(v) + 1
    ensures Flats(MaintainAt(p, v, level, u)) ==
            if u.FlushAll? then Flats(v)[level + 1 := Flats(v)[level]] else Flats(v)
    ensures !BatchFails(LevelOf(v, level).base, LevelOf(v, level).entries)
    decreases level
  {
    hide FlatOver, EntriesOk, Maintain, BatchFails;
    FlatsLength(v);
    if level > 0 {
      MaintainShows(p, v.base, level - 1, u);
    } else {
      MaintainTop(p, v, u);
    }
  }

  lemma MaintainTop(p: Params, v: View, u: Upkeep)
    requires Ok(v) && v.Cache?
    ensures Ok(Maintain(p, v, u)) && Flatten(Maintain(p, v, u)) == Flatten(v)
    ensures |Flats(v)| >= 2
    ensures Flats(Maintain(p, v, u)) == if u.FlushAll? then Flats(v)[1 := Flats(v)[0]] else Flats(v)
    ensures !BatchFails(v.base, v.entries)
  {
    BatchNeverFails(v.base, v.entries);
    FlatsLength(v);
    match u
    case FetchOne(o) => FetchFlats(v, o); FetchKeeps(v, o);
    case UncacheOne(o) => UncacheKeeps(p, v, o);
    case FlushAll =>
      FlushShows(v);
      FlushFlats(v);
  }

  lemma {:induction false} FlushFlats(v: View)
    requires v.Cache?
    ensures |Flats(v)| >= 2
    ensures Flats(Flush(v)) == [Flatten(Flush(v)), Flatten(Flush(v).base)] + Flats(v)[2..]
  {
    hide FlatOver, BatchWrite;
    FlatsLength(v);
    BatchFlats(v.base, v.entries);
  }

  lemma {:induction false} BatchFlats(v: View, child: Entries)
    ensures Flats(BatchWrite(v, child)) == [Flatten(BatchWrite(v, child))] + Flats(v)[1..]
  {
    hide FlatOver, Merge;
    assert Flats(v)[1..] == if v.Cache? then Flats(v.base) else [];
  }

  lemma {:induction false} FetchFlats(v: View, o: OutPoint)
    requires Ok(v)
    ensures Flats(Fetch(v, o)) == Flats(v) && Depth(Fetch(v, o)) == Depth(v)
  {
    FetchKeeps(v, o);
    if v.Cache? && o !in v.entries { FetchFlats(v.base, o); }
  }

  lemma {:induction false} FlatsLength(v: View)
    ensures |Flats(v)| == Depth(v) + 1
  {
    hide FlatOver;
    if v.Cache? { FlatsLength(v.base); }
  }

  lemma PushShows(v: View)
    ensures Flatten(Cache(map[], v)) == Flatten(v)
  {
    forall k
      ensures Get(FlatOver(map[], Flatten(v)).coins, k) == Get(Flatten(v).coins, k)
      ensures Get(FlatOver(map[], Flatten(v)).binds, k) == Get(Flatten(v).binds, k)
    {
      FlatAt(map[], Flatten(v), k);
    }
    FlatEqual(FlatOver(map[], Flatten(v)), Flatten(v));
  }

  /** Within the premises an addition throws exactly when the coin is unspent in the view. */
  lemma ThrowsWhenUnspent(p: Params, v: View, op: Op)
    requires Ok(v) && op.Add? && Allowed(p, v, op)
    ensures Throws(p, v, op) <==> FlatThrows(p, Flats(v), op)
  {
    FlatAt(v.entries, Flatten(v.base), op.o);
    assert op.o in v.entries ==> EntryOk(v.entries[op.o], op.o, Flatten(v.base));
  }

  lemma {:induction false} StepRefines(p: Params, v: View, op: Op)
    requires Ok(v) && Allowed(p, v, op)
    ensures Ok(Step(p, v, op)) && !Fails(p, v, op)
    ensures Throws(p, v, op) <==> FlatThrows(p, Flats(v), op)
    ensures Flats(Step(p, v, op)) == FlatStep(p, Flats(v), op)
  {
    match op
    case Push => PushShows(v);
    case Pop =>
    case Add(o, c, overwrite) => AddRefines(p, v, op);
    case Spend(o, rollback) => SpendRefines(p, v, op);
    case At(level, u) => MaintainShows(p, v, level, u);
  }

  lemma {:induction false} AddRefines(p: Params, v: View, op: Op)
    requires Ok(v) && op.Add? && Allowed(p, v, op)
    ensures Ok(Step(p, v, op)) && !Fails(p, v, op)
    ensures Throws(p, v, op) <==> FlatThrows(p, Flats(v), op)
    ensures Flats(Step(p, v, op)) == FlatStep(p, Flats(v), op)
  {
    hide FlatOver, FlatAdd, AddEntry, EntriesOk;
    ThrowsWhenUnspent(p, v, op);
    if !Throws(p, v, op) {
      AddShows(p, v, op.o, op.c, op.overwrite);
      AddKeepsIff(p, v, op.o, op.c, op.overwrite);
    }
  }

  lemma {:induction false} SpendRefines(p: Params, v: View, op: Op)
    requires Ok(v) && op.Spend? && Allowed(p, v, op)
    ensures Ok(Step(p, v, op)) && !Fails(p, v, op)
    ensures Throws(p, v, op) <==> FlatThrows(p, Flats(v), op)
    ensures Flats(Step(p, v, op)) == FlatStep(p, Flats(v), op)
  {
    FlatAt(v.entries, Flatten(v.base), op.o);
    SpendShows(p, v, op.o, op.rollback);
    SpendFlats(p, v, op.o, op.rollback);
  }

  lemma SpendFlats(p: Params, v: View, o: OutPoint, rollback: bool)
    requires Ok(v) && v.Cache?
    ensures Flats(SpendCoin(p, v, o, rollback)) == [Flatten(SpendCoin(p, v, o, rollback))] + Flats(v.base)
  {
    FetchFlats(v, o);
    assert Flats(v)[1..] == Flats(v.base);
    assert Flats(Fetch(v, o))[1..] == Flats(Fetch(v, o).base);
  }

  // ---- Whole runs ----

  ghost predicate AllowedRun(p: Params, v: View, ops: seq<Op>)
    decreases |ops|
  {
    ops == [] || (Allowed(p, v, ops[0]) && AllowedRun(p, Step(p, v, ops[0]), ops[1..]))
  }

  ghost function Run(p: Params, v: View, ops: seq<Op>): View
    requires AllowedRun(p, v, ops)
    decreases |ops|
  {
    if ops == [] then v else Run(p, Step(p, v, ops[0]), ops[1..])
  }

  ghost predicate RunFails(p: Params, v: View, ops: seq<Op>)
    requires AllowedRun(p, v, ops)
    decreases |ops|
  {
    ops != [] && (Fails(p, v, ops[0]) || RunFails(p, Step(p, v, ops[0]), ops[1..]))
  }

  ghost function FlatRun(p: Params, fs: seq<Flat>, ops: seq<Op>): seq<Flat>
    decreases |ops|
  {
    if ops == [] || |fs| == 0 then fs else FlatRun(p, FlatStep(p, fs, ops[0]), ops[1..])
  }

  /** Every level of every reachable stack shows its flat store, and no flush ever fails. */
  lemma {:induction false} RunRefines(p: Params, v: View, ops: seq<Op>)
    requires Ok(v) && AllowedRun(p, v, ops)
    ensures Ok(Run(p, v, ops)) && !RunFails(p, v, ops)
    ensures Flats(Run(p, v, ops)) == FlatRun(p, Flats(v), ops)
    decreases |ops|
  {
    if ops != [] {
      StepRefines(p, v, ops[0]);
      RunRefines(p, Step(p, v, ops[0]), ops[1..]);
    }
  }

  // ---- Bind records never outlive their coins ----

  /** A record reported valid is an unspent bind coin with that height, account and id. */
  ghost predicate Consistent(f: Flat) {
    forall o :: o in f.binds && f.binds[o].valid ==>
      o in f.coins && f.coins[o].IsBind() &&
      f.binds[o] == Record(f.coins[o].height, f.coins[o].account, f.coins[o].extra.id, true)
  }

  ghost predicate AllConsistent(fs: seq<Flat>) {
    forall i :: 0 <= i < |fs| ==> Consistent(fs[i])
  }

  lemma StepConsistent(p: Params, fs: seq<Flat>, op: Op)
    requires |fs| > 0 && AllConsistent(fs)
    ensures AllConsistent(FlatStep(p, fs, op))
  {
    var gs := FlatStep(p, fs, op);
    forall i | 0 <= i < |gs| ensures Consistent(gs[i]) {
      assert Consistent(fs[0]);
      match op
      case Push => assert gs[i] == fs[if i == 0 then 0 else i - 1];
      case Pop => assert gs[i] == fs[i + 1];
      case Add(o, c, _) => if i > 0 { assert gs[i] == fs[i]; }
      case Spend(o, rollback) => if i > 0 { assert gs[i] == fs[i]; }
      case At(level, u) => assert gs[i] == fs[i] || gs[i] == fs[level];
    }
  }

  lemma {:induction false} RunConsistent(p: Params, v: View, ops: seq<Op>)
    requires Ok(v) && AllowedRun(p, v, ops) && AllConsistent(Flats(v))
    ensures AllConsistent(Flats(Run(p, v, ops)))
    decreases |ops|
  {
    if ops != [] {
      StepRefines(p, v, ops[0]);
      StepConsistent(p, Flats(v), ops[0]);
      RunConsistent(p, Step(p, v, ops[0]), ops[1..]);
    }
  }
}
