/**
 The coin cache stack as values: what each call does to the entries of a cache, and the
 flat pair (unspent coins, bind records) that a stack of caches stands for.
 */
module Coins {
  import opened Wrappers

  type Script = seq<nat>
  type Account = nat
  type BindId = nat   // 0 is the zero id, the wildcard of the per-account query

  datatype OutPoint = OutPoint(hash: nat, n: nat) {
    predicate Less(other: OutPoint) {
      hash < other.hash || (hash == other.hash && n < other.n)
    }
    predicate IsNull() { hash == 0 && n == 0xffff_ffff }
  }

  const NULL_OUTPOINT := OutPoint(0, 0xffff_ffff)

  datatype Payload = NoPayload | Bind(id: BindId) | Point(receiver: Account) | Retarget(receiver: Account)

  datatype Coin = Coin(script: Script, account: Account, height: nat, extra: Payload) {
    predicate IsSpent() { script == [] }
    predicate IsBind() { extra.Bind? }
    // Only the script goes: account, height and payload of a spent coin stay readable.
    function Clear(): Coin { this.(script := []) }
  }

  datatype Entry = Entry(coin: Coin, isDirty: bool, isFresh: bool, isUnbind: bool)

  datatype Record = Record(height: int, account: Account, id: BindId, valid: bool)

  datatype Params = Params(
    unspendable: Script -> bool,
    accountOf: Script -> Account,
    unbindHeight: nat,
    burnAccount: Account)

  type Entries = map<OutPoint, Entry>

  datatype Flat = Flat(coins: map<OutPoint, Coin>, binds: map<OutPoint, Record>)

  /** A stack of views: caches over a database. */
  datatype View = Database(flat: Flat) | Cache(entries: Entries, base: View)

  // ---- What a stack shows ----

  /** The bind record a modified entry stands for. */
  function RecordOf(e: Entry): Option<Record> {
    if e.coin.IsBind() && (!e.coin.IsSpent() || e.isUnbind)
    then Some(Record(e.coin.height, e.coin.account, e.coin.extra.id, !e.coin.IsSpent()))
    else None
  }

  function CoinOver(e: Option<Entry>, below: Option<Coin>): Option<Coin> {
    if e.None? then below else if e.value.coin.IsSpent() then None else Some(e.value.coin)
  }

  function RecordOver(e: Option<Entry>, below: Option<Record>): Option<Record> {
    if e.Some? && e.value.isDirty then RecordOf(e.value) else below
  }

  function FlatOver(es: Entries, f: Flat): Flat {
    Flat(map o | o in f.coins.Keys + es.Keys && CoinOver(Get(es, o), Get(f.coins, o)).Some?
           :: CoinOver(Get(es, o), Get(f.coins, o)).value,
         map o | o in f.binds.Keys + es.Keys && RecordOver(Get(es, o), Get(f.binds, o)).Some?
           :: RecordOver(Get(es, o), Get(f.binds, o)).value)
  }

  function Flatten(v: View): Flat {
    match v
    case Database(f) => f
    case Cache(es, b) => FlatOver(es, Flatten(b))
  }

  // ---- What each call does ----

  function Fetch(v: View, o: OutPoint): View {
    match v
    case Database(_) => v
    case Cache(es, b) =>
      if o in es then v
      else if o in Flatten(b).coins
      then Cache(es[o := Entry(Flatten(b).coins[o], false, false, false)], Fetch(b, o))
      else Cache(es, Fetch(b, o))
  }

  const EMPTY_ENTRY := Entry(Coin([], 0, 0, NoPayload), false, false, false)

  function AddEntry(p: Params, prior: Entry, c: Coin, overwrite: bool): Entry {
    var isFresh := !overwrite && !prior.isDirty && !prior.coin.IsBind();
    var coin := c.(account := p.accountOf(c.script));
    Entry(coin, true, (prior.isFresh || isFresh) && !coin.IsBind(), false)
  }

  function Prior(es: Entries, o: OutPoint): Entry {
    if o in es then es[o] else EMPTY_ENTRY
  }

  /** The call throws "Adding new coin that replaces non-pruned entry". */
  predicate AddThrows(p: Params, es: Entries, o: OutPoint, c: Coin, overwrite: bool) {
    !p.unspendable(c.script) && !overwrite && !Prior(es, o).coin.IsSpent()
  }

  function AddCoin(p: Params, v: View, o: OutPoint, c: Coin, overwrite: bool): View
    requires v.Cache?
  {
    if p.unspendable(c.script) || AddThrows(p, v.entries, o, c, overwrite) then v
    else v.(entries := v.entries[o := AddEntry(p, Prior(v.entries, o), c, overwrite)])
  }

  predicate Unbinds(p: Params, c: Coin, rollback: bool) {
    !rollback && c.IsBind() && c.height >= p.unbindHeight
  }

  function SpendEntry(p: Params, e: Entry, rollback: bool): Option<Entry> {
    if Unbinds(p, e.coin, rollback) then Some(Entry(e.coin.Clear(), true, false, true))
    else if e.isFresh then None
    else Some(Entry(e.coin.Clear(), true, false, false))
  }

  function SpendCoin(p: Params, v: View, o: OutPoint, rollback: bool): View
    requires v.Cache?
  {
    var w := Fetch(v, o);
    if o !in w.entries then w
    else w.(entries := SetOrErase(w.entries, o, SpendEntry(p, w.entries[o], rollback)))
  }

  function Uncache(p: Params, v: View, o: OutPoint): View
    requires v.Cache?
  {
    if o in v.entries && !v.entries[o].isDirty && !v.entries[o].isFresh && !v.entries[o].isUnbind &&
       v.entries[o].coin.account != p.burnAccount
    then v.(entries := v.entries - {o})
    else v
  }

  /** One child entry written into the parent's entry for the same outpoint. */
  function MergeEntry(us: Option<Entry>, child: Option<Entry>): Option<Entry> {
    if child.None? || !child.value.isDirty then us
    else
      var c := child.value;
      match us
      case None =>
        if c.isFresh && c.coin.IsSpent() then None else Some(Entry(c.coin, true, c.isFresh, c.isUnbind))
      case Some(u) =>
        if u.isFresh && c.coin.IsSpent() && !c.coin.IsBind() then None
        else Some(Entry(c.coin, true, u.isFresh && !c.coin.IsBind(), c.isUnbind))
  }

  /** The "FRESH flag misapplied" throw and the asserts on FRESH and UNBIND entries. */
  predicate MergeFails(us: Option<Entry>, child: Option<Entry>) {
    child.Some? && child.value.isDirty &&
    var c := child.value;
    match us
    case None => !(c.isFresh && c.coin.IsSpent()) && ((c.isFresh && c.coin.IsBind()) || (c.isUnbind && !c.coin.IsSpent()))
    case Some(u) =>
      (c.isFresh && !u.coin.IsSpent()) ||
      (!(u.isFresh && c.coin.IsSpent() && !c.coin.IsBind()) && c.isUnbind && !c.coin.IsSpent())
  }

  function Merge(us: Entries, child: Entries): Entries {
    map o | o in us.Keys + child.Keys && MergeEntry(Get(us, o), Get(child, o)).Some?
      :: MergeEntry(Get(us, o), Get(child, o)).value
  }

  predicate BatchFails(v: View, child: Entries) {
    v.Cache? && exists o :: o in child && MergeFails(Get(v.entries, o), Get(child, o))
  }

  /** The dirty entries of a map: all that a database write looks at. */
  function DirtyOnly(es: Entries): Entries {
    map o | o in es && es[o].isDirty :: es[o]
  }

  function BatchWrite(v: View, child: Entries): View {
    match v
    case Database(f) => Database(FlatOver(DirtyOnly(child), f))
    case Cache(es, b) => Cache(Merge(es, child), b)
  }

  function Flush(v: View): View
    requires v.Cache?
  {
    Cache(map[], BatchWrite(v.base, v.entries))
  }

  // ---- The flat store ----

  function FlatAdd(p: Params, f: Flat, o: OutPoint, c: Coin): Flat {
    if p.unspendable(c.script) then f
    else
      var coin := c.(account := p.accountOf(c.script));
      Flat(f.coins[o := coin],
           if coin.IsBind() then f.binds[o := Record(coin.height, coin.account, coin.extra.id, true)]
           else f.binds - {o})
  }

  function FlatSpend(p: Params, f: Flat, o: OutPoint, rollback: bool): Flat {
    if o !in f.coins then f
    else
      var c := f.coins[o];
      Flat(f.coins - {o},
           if Unbinds(p, c, rollback) then f.binds[o := Record(c.height, c.account, c.extra.id, false)]
           else f.binds - {o})
  }
}
