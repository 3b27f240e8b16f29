/**
 The address manager as values: its five structures and what each call does to them.
 Hashes are any functions, reduced by the table sizes as the code reduces them.
 */
module AddrManModel {
  import opened Wrappers

  const TRIED_BUCKETS := 256
  const NEW_BUCKETS := 1024
  const BUCKET_SIZE := 64
  const NEW_BUCKETS_PER_ADDRESS := 8
  const COLLISION_SIZE := 10
  const HOUR := 3600
  const DAY := 86400

  type NetAddr = nat

  /** The service bits that are set. */
  type Flags = set<nat>

  datatype Service = Service(ip: NetAddr, port: nat)

  datatype Info = Info(
    addr: Service, services: Flags, source: NetAddr, time: int,
    lastTry: int, lastCount: int, lastSuccess: int, attempts: int,
    refCount: int, inTried: bool, randomPos: int)

  const NO_INFO := Info(Service(0, 0), {}, 0, 0, 0, 0, 0, 0, 0, false, -1)

  datatype Slot = Slot(bucket: int, pos: int)

  type Table = map<Slot, int>

  type Infos = map<int, Info>

  datatype State = State(
    idCount: int,
    infos: Infos,
    ids: map<NetAddr, int>,
    random: seq<int>,
    nTried: int,
    tried: Table,
    nNew: int,
    news: Table,
    lastGood: int,
    collisions: set<int>)

  /** The keyed hashes and the routing test. */
  datatype Env = Env(
    triedHash: Service -> nat,
    newHash: (Service, NetAddr) -> nat,
    positionHash: (Service, bool, int) -> nat,
    routable: NetAddr -> bool,
    valid: Service -> bool)

  function TriedSlot(e: Env, a: Service): Slot {
    var b := e.triedHash(a) % TRIED_BUCKETS;
    Slot(b, e.positionHash(a, false, b) % BUCKET_SIZE)
  }

  /** The one place an address may take in a given new bucket. */
  function SlotIn(e: Env, a: Service, bucket: int): Slot {
    Slot(bucket, e.positionHash(a, true, bucket) % BUCKET_SIZE)
  }

  function NewSlot(e: Env, a: Service, source: NetAddr): Slot {
    SlotIn(e, a, e.newHash(a, source) % NEW_BUCKETS)
  }

  predicate Terrible(i: Info, now: int) {
    if i.lastTry != 0 && i.lastTry >= now - 60 then false
    else
      || i.time > now + 600
      || i.time == 0 || now - i.time > 30 * DAY
      || (i.lastSuccess == 0 && i.attempts >= 3)
      || (now - i.lastSuccess > 7 * DAY && i.attempts >= 10)
  }

  function At(s: State, id: int): Info {
    if id in s.infos then s.infos[id] else NO_INFO
  }

  function Find(s: State, ip: NetAddr): Option<int> {
    if ip in s.ids && s.ids[ip] in s.infos then Some(s.ids[ip]) else None
  }

  function Set(s: State, id: int, i: Info): State {
    s.(infos := s.infos[id := i])
  }

  // ---- The private steps ----

  function Create(s: State, a: Service, services: Flags, time: int, source: NetAddr): State {
    var id := s.idCount;
    s.(idCount := id + 1,
       infos := s.infos[id := Info(a, services, source, time, 0, 0, 0, 0, 0, false, |s.random|)],
       ids := s.ids[a.ip := id],
       random := s.random + [id])
  }

  function SwapRandom(s: State, i: int, j: int): State {
    if i == j || !(0 <= i < |s.random|) || !(0 <= j < |s.random|) then s
    else
      var a, b := s.random[i], s.random[j];
      s.(random := s.random[i := b][j := a],
         infos := s.infos[a := At(s, a).(randomPos := j)][b := At(s, b).(randomPos := i)])
  }

  function DropLast(t: State, id: int): State {
    t.(random := if t.random == [] then [] else t.random[..|t.random| - 1],
       ids := t.ids - {At(t, id).addr.ip},
       infos := t.infos - {id},
       nNew := t.nNew - 1)
  }

  function Delete(s: State, id: int): State {
    DropLast(SwapRandom(s, At(s, id).randomPos, |s.random| - 1), id)
  }

  /** The occupant of a new slot loses that reference. */
  function Unlink(s: State, sl: Slot): State {
    if sl !in s.news then s
    else
      var y := s.news[sl];
      Set(s.(news := s.news - {sl}), y, At(s, y).(refCount := At(s, y).refCount - 1))
  }

  function ClearNew(s: State, sl: Slot): State {
    if sl in s.news && At(s, s.news[sl]).refCount == 1 then Delete(Unlink(s, sl), s.news[sl])
    else Unlink(s, sl)
  }

  function Link(s: State, id: int, sl: Slot): State {
    Set(s.(news := s.news[sl := id]), id, At(s, id).(refCount := At(s, id).refCount + 1))
  }

  /** The new buckets whose place for this address holds this id. */
  function Buckets(e: Env, news: Table, a: Service, id: int): set<int> {
    set b: int | 0 <= b < NEW_BUCKETS && SlotIn(e, a, b) in news && news[SlotIn(e, a, b)] == id
  }

  /** The first loop of MakeTried: the entry leaves every new bucket below `upto`. */
  function Without(e: Env, news: Table, a: Service, id: int, upto: int): Table {
    map sl | sl in news && !(news[sl] == id && 0 <= sl.bucket < upto && SlotIn(e, a, sl.bucket) == sl) :: news[sl]
  }

  function BucketsBelow(e: Env, news: Table, a: Service, id: int, upto: int): set<int> {
    set b | b in Buckets(e, news, a, id) && b < upto
  }

  function Forget(e: Env, s: State, id: int, upto: int): State {
    var i := At(s, id);
    Set(s.(news := Without(e, s.news, i.addr, id, upto)), id,
        i.(refCount := i.refCount - |BucketsBelow(e, s.news, i.addr, id, upto)|))
  }

  function Untry(s: State, sl: Slot): State {
    if sl !in s.tried then s
    else
      var y := s.tried[sl];
      Set(s.(tried := s.tried - {sl}, nTried := s.nTried - 1), y, At(s, y).(inTried := false))
  }

  /** A tried entry moves back to its own new slot, clearing what is there. */
  function Evict(e: Env, s: State, sl: Slot): State {
    if sl !in s.tried then s
    else
      var y := s.tried[sl];
      var t := Untry(s, sl);
      var target := NewSlot(e, At(t, y).addr, At(t, y).source);
      var u := ClearNew(t, target);
      Set(u.(news := u.news[target := y], nNew := u.nNew + 1), y, At(u, y).(refCount := 1))
  }

  function Try(e: Env, s: State, id: int): State {
    Set(s.(tried := s.tried[TriedSlot(e, At(s, id).addr) := id], nTried := s.nTried + 1),
        id, At(s, id).(inTried := true))
  }

  function MakeTried(e: Env, s: State, id: int): State {
    var t := Forget(e, s, id, NEW_BUCKETS);
    Try(e, Evict(e, t.(nNew := t.nNew - 1), TriedSlot(e, At(s, id).addr)), id)
  }

  // ---- The calls ----

  function Good(e: Env, s0: State, a: Service, testBeforeEvict: bool, time: int): State {
    var s := s0.(lastGood := time);
    match Find(s, a.ip)
    case None => s
    case Some(id) =>
      if s.infos[id].addr != a then s
      else
        var t := Set(s, id, s.infos[id].(lastSuccess := time, lastTry := time, attempts := 0));
        if t.infos[id].inTried || Buckets(e, t.news, a, id) == {} then t
        else if testBeforeEvict && TriedSlot(e, a) in t.tried then
          (if |t.collisions| < COLLISION_SIZE then t.(collisions := t.collisions + {id}) else t)
        else MakeTried(e, t, id)
  }

  /** A sighting adds its services, and its time if it is later by more than the update interval. */
  function Refreshed(i: Info, services: Flags, time: int, penalty: int, now: int): Info {
    var interval := if now - time < DAY then HOUR else DAY;
    var late := time != 0 && (i.time == 0 || i.time < time - interval - penalty);
    i.(services := i.services + services, time := if late then Max(0, time - penalty) else i.time)
  }

  function Place(e: Env, s: State, id: int, source: NetAddr, now: int): State {
    var sl := NewSlot(e, At(s, id).addr, source);
    if sl in s.news && s.news[sl] == id then s
    else if sl !in s.news || Terrible(At(s, s.news[sl]), now) || (At(s, s.news[sl]).refCount > 1 && At(s, id).refCount == 0)
    then Link(ClearNew(s, sl), id, sl)
    else if At(s, id).refCount == 0 then Delete(s, id)
    else s
  }

  /** `lucky` is the outcome of the draw that makes each further reference twice as rare. */
  function Add(e: Env, s: State, a: Service, services: Flags, time: int, source: NetAddr, penalty: int, now: int, lucky: bool): State {
    var pen := if a.ip == source then 0 else penalty;
    if !e.routable(a.ip) then s
    else match Find(s, a.ip)
      case Some(id) =>
        var i := Refreshed(s.infos[id], services, time, pen, now);
        var t := Set(s, id, i);
        if time == 0 || (i.time != 0 && time <= i.time) || i.inTried || i.refCount == NEW_BUCKETS_PER_ADDRESS ||
           (i.refCount > 0 && !lucky)
        then t
        else Place(e, t, id, source, now)
      case None =>
        var t := Create(s, a, services, Max(0, time - pen), source);
        Place(e, t.(nNew := t.nNew + 1), s.idCount, source, now)
  }

  /** What Attempt_, Connected_ and SetServices_ note in the entry of exactly the given service. */
  datatype Remark = Attempted(countFailure: bool, time: int) | ConnectedAt(time: int) | Serves(services: Flags)

  function Noted(i: Info, r: Remark, lastGood: int): Info {
    match r
    case Attempted(countFailure, time) =>
      if countFailure && i.lastCount < lastGood then i.(lastTry := time, lastCount := time, attempts := i.attempts + 1)
      else i.(lastTry := time)
    case ConnectedAt(time) => if time - i.time > 20 * 60 then i.(time := time) else i
    case Serves(services) => i.(services := services)
  }

  function Note(s: State, a: Service, r: Remark): State {
    match Find(s, a.ip)
    case None => s
    case Some(id) => if s.infos[id].addr != a then s else Set(s, id, Noted(s.infos[id], r, s.lastGood))
  }

  /** One turn of ResolveCollisions_. */
  function ResolveOne(e: Env, s: State, id: int, now: int): State {
    var sl := TriedSlot(e, At(s, id).addr);
    var done := s.(collisions := s.collisions - {id});
    if id !in s.infos || !e.valid(At(s, id).addr) then done
    else if sl in s.tried then
      var holder := At(s, s.tried[sl]);
      if now - holder.lastSuccess < 4 * HOUR then done
      else if now - holder.lastTry < 4 * HOUR then
        (if now - holder.lastTry > 60 then Resolved(e, s, id, now) else s)
      else if now - At(s, id).lastSuccess > 2400 then Resolved(e, s, id, now)
      else s
    else Resolved(e, s, id, now)
  }

  function Resolved(e: Env, s: State, id: int, now: int): State {
    var t := Good(e, s, At(s, id).addr, false, now);
    t.(collisions := t.collisions - {id})
  }

  function ResolveAll(e: Env, s: State, order: seq<int>, now: int): State
    decreases |order|
  {
    if order == [] then s else ResolveAll(e, ResolveOne(e, s, order[0], now), order[1..], now)
  }
}
