/**
 Compact blocks: a message gives some transactions of a block outright, at positions coded as
 differences, and a short id for each of the others, in order.
 */
module Compact {
  import opened Wrappers

  const MAX_BLOCK_WEIGHT := 8000000
  const MIN_SERIALIZABLE_TRANSACTION_WEIGHT := 4 * 10
  const UINT16_MAX := 65535

  datatype Status = Ok | Invalid | Failed | CheckFailed

  datatype Prefilled<T> = Prefilled(index: nat, tx: T)

  datatype Message<T> = Message(headerNull: bool, shortIds: seq<nat>, prefilled: seq<Prefilled<T>>)

  /** How transactions are hashed and hashes shortened, and which transactions count as null. */
  datatype Rules<!T> = Rules(hashOf: T -> nat, witnessHashOf: T -> nat, shortId: nat -> nat, isNull: T -> bool)

  function Total<T>(m: Message<T>): nat { |m.shortIds| + |m.prefilled| }

  /** Where a prefilled transaction goes: differences are summed, each with one for the slot itself. */
  function Pos<T>(m: Message<T>, i: nat): nat
    requires i < |m.prefilled|
  {
    m.prefilled[i].index + if i == 0 then 0 else Pos(m, i - 1) + 1
  }

  lemma {:induction false} PosAscends<T>(m: Message<T>, i: nat, j: nat)
    requires i < j < |m.prefilled|
    ensures Pos(m, i) < Pos(m, j)
    decreases j
  {
    if i < j - 1 { PosAscends(m, i, j - 1); }
  }

  /** A prefilled transaction can be accepted: not null, and not beyond the ids and slots before it. */
  predicate Accepts<T>(r: Rules<T>, m: Message<T>, i: nat)
    requires i < |m.prefilled|
  {
    !r.isNull(m.prefilled[i].tx) && Pos(m, i) <= UINT16_MAX && Pos(m, i) <= |m.shortIds| + i
  }

  ghost predicate WellFormed<T>(r: Rules<T>, m: Message<T>) {
    && !m.headerNull && Total(m) != 0 && Total(m) <= MAX_BLOCK_WEIGHT / MIN_SERIALIZABLE_TRANSACTION_WEIGHT
    && forall i :: 0 <= i < |m.prefilled| ==> Accepts(r, m, i)
  }

  // ---- Slots ----

  /** The empty slots from p on, in order. */
  function Empty<T>(slots: seq<Option<T>>, p: nat): seq<nat>
    requires p <= |slots|
    decreases |slots| - p
  {
    if p == |slots| then [] else (if slots[p].None? then [p] else []) + Empty(slots, p + 1)
  }

  lemma {:induction false} EmptyExact<T>(slots: seq<Option<T>>, p: nat)
    requires p <= |slots|
    ensures forall i :: 0 <= i < |Empty(slots, p)| ==> p <= Empty(slots, p)[i] < |slots| && slots[Empty(slots, p)[i]].None?
    ensures forall q :: p <= q < |slots| && slots[q].None? ==> q in Empty(slots, p)
    ensures forall i, j :: 0 <= i < j < |Empty(slots, p)| ==> Empty(slots, p)[i] < Empty(slots, p)[j]
    decreases |slots| - p
  {
    if p < |slots| { EmptyExact(slots, p + 1); }
  }

  /** Filling an empty slot leaves one fewer. */
  lemma {:induction false} EmptyPut<T>(slots: seq<Option<T>>, q: nat, x: T, p: nat)
    requires q < |slots| && slots[q].None? && p <= |slots|
    ensures |Empty(slots[q := Some(x)], p)| == |Empty(slots, p)| - if p <= q then 1 else 0
    decreases |slots| - p
  {
    if p < |slots| { EmptyPut(slots, q, x, p + 1); }
  }

  /** The slots after the first n prefilled transactions have been put in. */
  ghost predicate Laid<T>(m: Message<T>, n: nat, slots: seq<Option<T>>)
    requires n <= |m.prefilled|
  {
    && |slots| == Total(m) && |Empty(slots, 0)| == Total(m) - n
    && (forall k {:trigger Pos(m, k)} :: 0 <= k < n ==> Pos(m, k) < |slots| && slots[Pos(m, k)] == Some(m.prefilled[k].tx))
    && (forall p {:trigger slots[p]} :: 0 <= p < |slots| && slots[p].Some? ==> exists k :: 0 <= k < n && p == Pos(m, k))
  }

  lemma {:induction false} AllEmpty<T>(slots: seq<Option<T>>, p: nat)
    requires p <= |slots| && forall q :: 0 <= q < |slots| ==> slots[q].None?
    ensures |Empty(slots, p)| == |slots| - p
    decreases |slots| - p
  {
    if p < |slots| { AllEmpty(slots, p + 1); }
  }

  lemma {:induction false} LaidNext<T>(r: Rules<T>, m: Message<T>, n: nat, slots: seq<Option<T>>)
    requires n < |m.prefilled| && Laid(m, n, slots) && Accepts(r, m, n)
    ensures Pos(m, n) < |slots| && Laid(m, n + 1, slots[Pos(m, n) := Some(m.prefilled[n].tx)])
  {
    hide Pos, Empty;
    var q, x := Pos(m, n), m.prefilled[n].tx;
    forall k | 0 <= k < n ensures Pos(m, k) < q { PosAscends(m, k, n); }
    assert slots[q].None?;
    EmptyPut(slots, q, x, 0);
    var next := slots[q := Some(x)];
    forall p | 0 <= p < |next| && next[p].Some? ensures exists k :: 0 <= k < n + 1 && p == Pos(m, k) {
      if p != q { assert slots[p].Some?; }
    }
  }

  /** Each short id belongs to the empty slot of the same rank. */
  ghost predicate Describes<T>(r: Rules<T>, m: Message<T>, slots: seq<Option<T>>, txs: seq<T>) {
    && |slots| == |txs| && |Empty(slots, 0)| == |m.shortIds|
    && (forall p {:trigger slots[p]} :: 0 <= p < |slots| && slots[p].Some? ==> slots[p].value == txs[p])
    && (forall i {:trigger m.shortIds[i]} :: 0 <= i < |m.shortIds| ==>
          Empty(slots, 0)[i] < |txs| && m.shortIds[i] == r.shortId(r.hashOf(txs[Empty(slots, 0)[i]])))
  }

  // ---- Filling from the pools ----

  /** A pool entry: a hash and the transaction offered under it. */
  predicate Carries<T>(r: Rules<T>, x: (nat, T), id: nat) { r.shortId(x.0) == id }

  /**
   Among the entries looked at, of which the first n are from the memory pool, the k-th settles the
   id: it is the first to carry it, no other from the memory pool does, and every extra one that
   does has the same witness hash.
   */
  ghost predicate Settles<T(!new)>(r: Rules<T>, seen: seq<(nat, T)>, n: nat, id: nat, k: int) {
    && 0 <= k < |seen| && Carries(r, seen[k], id)
    && forall j {:trigger seen[j]} :: 0 <= j < |seen| && j != k && Carries(r, seen[j], id) ==>
         k < j && n <= j && r.witnessHashOf(seen[j].1) == r.witnessHashOf(seen[k].1)
  }

  ghost predicate Decided<T(!new)>(r: Rules<T>, seen: seq<(nat, T)>, n: nat, id: nat) { exists k :: Settles(r, seen, n, id, k) }

  /** The id map sends the i-th short id to the i-th empty slot. */
  ghost predicate Indexes(ids: map<nat, nat>, shortIds: seq<nat>, empty: seq<nat>) {
    && |shortIds| == |empty|
    && (forall i {:trigger shortIds[i]} :: 0 <= i < |shortIds| ==> shortIds[i] in ids && ids[shortIds[i]] == empty[i])
    && (forall s {:trigger s in ids} :: s in ids ==> s in shortIds)
  }

  /** One slot that had no prefilled transaction: it holds the transaction that settles its id, if there is one. */
  ghost predicate SlotOk<T(!new)>(r: Rules<T>, seen: seq<(nat, T)>, n: nat, id: nat, slot: Option<T>, have: bool) {
    && (slot.Some? ==> exists k :: Settles(r, seen, n, id, k) && slot.value == seen[k].1)
    && (slot.None? ==> forall k :: !Settles(r, seen, n, id, k))
    && (have <==> exists k {:trigger seen[k]} :: 0 <= k < |seen| && Carries(r, seen[k], id))
  }

  /** What one more entry with the slot's id does to the slot. */
  function Offer<T>(r: Rules<T>, slot: Option<T>, have: bool, tx: T, isExtra: bool): Option<T> {
    if !have then Some(tx)
    else if slot.Some? && (!isExtra || r.witnessHashOf(slot.value) != r.witnessHashOf(tx)) then None
    else slot
  }

  function FromPool(n: nat, isExtra: bool): nat { if isExtra then n else n + 1 }

  lemma {:induction false} SlotOffered<T(!new)>(r: Rules<T>, seen: seq<(nat, T)>, n: nat, id: nat, slot: Option<T>, have: bool, x: (nat, T), isExtra: bool)
    requires SlotOk(r, seen, n, id, slot, have) && n <= |seen| && (!isExtra ==> n == |seen|) && Carries(r, x, id)
    ensures SlotOk(r, seen + [x], FromPool(n, isExtra), id, Offer(r, slot, have, x.1, isExtra), true)
  {
    var more, n', last := seen + [x], FromPool(n, isExtra), |seen|;
    assert more[last] == x;
    assert forall j :: 0 <= j < last ==> more[j] == seen[j];
    if !have {
      assert Settles(r, more, n', id, last);
    } else if slot.Some? {
      var k :| Settles(r, seen, n, id, k) && slot.value == seen[k].1;
      if isExtra && r.witnessHashOf(slot.value) == r.witnessHashOf(x.1) {
        assert Settles(r, more, n', id, k);
      } else {
        assert more[k] == seen[k];
        forall i ensures !Settles(r, more, n', id, i) { }
      }
    } else {
      var j :| 0 <= j < |seen| && Carries(r, seen[j], id);
      forall k ensures !Settles(r, more, n', id, k) {
        if Settles(r, more, n', id, k) {
          assert more[j] == seen[j];
          assert Settles(r, seen, n, id, k);
        }
      }
    }
  }

  lemma {:induction false} SlotPassed<T(!new)>(r: Rules<T>, seen: seq<(nat, T)>, n: nat, id: nat, slot: Option<T>, have: bool, x: (nat, T), isExtra: bool)
    requires SlotOk(r, seen, n, id, slot, have) && n <= |seen| && (!isExtra ==> n == |seen|) && !Carries(r, x, id)
    ensures SlotOk(r, seen + [x], FromPool(n, isExtra), id, slot, have)
  {
    var more, n', last := seen + [x], FromPool(n, isExtra), |seen|;
    assert more[last] == x;
    assert forall j :: 0 <= j < last ==> more[j] == seen[j];
    forall k ensures Settles(r, more, n', id, k) <==> Settles(r, seen, n, id, k) {
      if Settles(r, more, n', id, k) {
        forall j | 0 <= j < |seen| && j != k && Carries(r, seen[j], id)
          ensures k < j && n <= j && r.witnessHashOf(seen[j].1) == r.witnessHashOf(seen[k].1)
        {
          assert more[j] == seen[j];
        }
      }
    }
    assert (exists k {:trigger more[k]} :: 0 <= k < |more| && Carries(r, more[k], id)) ==> have;
    if have {
      var k :| 0 <= k < |seen| && Carries(r, seen[k], id);
      assert Carries(r, more[k], id);
    }
  }

  /** The slots while the pools are searched; `count` of those without a prefilled transaction are filled. */
  ghost predicate Filling<T(!new)>(r: Rules<T>, seen: seq<(nat, T)>, n: nat, shortIds: seq<nat>, pre: seq<Option<T>>, slots: seq<Option<T>>, have: seq<bool>, count: int)
  {
    && |slots| == |have| == |pre| && |Empty(pre, 0)| == |shortIds|
    && (forall p {:trigger slots[p]} :: 0 <= p < |pre| && pre[p].Some? ==> slots[p] == pre[p])
    && (forall i {:trigger shortIds[i]} :: 0 <= i < |shortIds| ==>
          Empty(pre, 0)[i] < |pre| && SlotOk(r, seen, n, shortIds[i], slots[Empty(pre, 0)[i]], have[Empty(pre, 0)[i]]))
    && count == |shortIds| - |Empty(slots, 0)|
  }

  lemma {:induction false} FillingStart<T(!new)>(r: Rules<T>, shortIds: seq<nat>, pre: seq<Option<T>>, have: seq<bool>)
    requires |have| == |pre| && |Empty(pre, 0)| == |shortIds| && forall p :: 0 <= p < |have| ==> !have[p]
    ensures Filling(r, [], 0, shortIds, pre, pre, have, 0)
  {
    hide Empty;
    EmptyExact(pre, 0);
  }

  /** Looking at an entry that carries the i-th short id. */
  lemma {:induction false} FillingOffered<T(!new)>(r: Rules<T>, seen: seq<(nat, T)>, n: nat, shortIds: seq<nat>, pre: seq<Option<T>>, slots: seq<Option<T>>, have: seq<bool>, count: int, i: nat, x: (nat, T), isExtra: bool)
    requires Filling(r, seen, n, shortIds, pre, slots, have, count) && n <= |seen| && (!isExtra ==> n == |seen|)
    requires i < |shortIds| && Distinct(shortIds) && Carries(r, x, shortIds[i])
    ensures var q := Empty(pre, 0)[i];
            var slot := Offer(r, slots[q], have[q], x.1, isExtra);
            Filling(r, seen + [x], FromPool(n, isExtra), shortIds, pre, slots[q := slot], have[q := true],
                    count + (if slot.Some? then 1 else 0) - (if slots[q].Some? then 1 else 0))
  {
    hide Empty, SlotOk, Offer, Distinct;
    EmptyExact(pre, 0);
    var e, n' := Empty(pre, 0), FromPool(n, isExtra);
    var q := e[i];
    var slot := Offer(r, slots[q], have[q], x.1, isExtra);
    EmptyChange(slots, q, slot);
    var slots', have' := slots[q := slot], have[q := true];
    forall j | 0 <= j < |shortIds| ensures e[j] < |pre| && SlotOk(r, seen + [x], n', shortIds[j], slots'[e[j]], have'[e[j]]) {
      if j == i {
        SlotOffered(r, seen, n, shortIds[j], slots[q], have[q], x, isExtra);
      } else {
        DistinctAt(shortIds, i, j);
        SlotPassed(r, seen, n, shortIds[j], slots[e[j]], have[e[j]], x, isExtra);
      }
    }
  }

  lemma DistinctAt(s: seq<nat>, i: nat, j: nat)
    requires Distinct(s) && i < |s| && j < |s| && i != j
    ensures s[i] != s[j]
  {
  }

  lemma {:induction false} EmptyChange<T>(slots: seq<Option<T>>, q: nat, x: Option<T>)
    requires q < |slots|
    ensures |Empty(slots[q := x], 0)| == |Empty(slots, 0)| - (if x.Some? then 1 else 0) + (if slots[q].Some? then 1 else 0)
  {
    hide Empty;
    if slots[q].Some? == x.Some? {
      SameEmpty(slots, slots[q := x], 0);
    } else if x.Some? {
      EmptyPut(slots, q, x.value, 0);
    } else {
      EmptyPut(slots[q := None], q, slots[q].value, 0);
      assert slots[q := None][q := Some(slots[q].value)] == slots && slots[q := None] == slots[q := x];
    }
  }

  lemma {:induction false} SameEmpty<T>(a: seq<Option<T>>, b: seq<Option<T>>, p: nat)
    requires |a| == |b| && p <= |a| && forall i :: 0 <= i < |a| ==> a[i].Some? == b[i].Some?
    ensures Empty(a, p) == Empty(b, p)
    decreases |a| - p
  {
    if p < |a| { SameEmpty(a, b, p + 1); }
  }

  /** Looking at an entry that carries none of the short ids. */
  lemma {:induction false} FillingPassed<T(!new)>(r: Rules<T>, seen: seq<(nat, T)>, n: nat, shortIds: seq<nat>, pre: seq<Option<T>>, slots: seq<Option<T>>, have: seq<bool>, count: int, x: (nat, T), isExtra: bool)
    requires Filling(r, seen, n, shortIds, pre, slots, have, count) && n <= |seen| && (!isExtra ==> n == |seen|)
    requires r.shortId(x.0) !in shortIds
    ensures Filling(r, seen + [x], FromPool(n, isExtra), shortIds, pre, slots, have, count)
  {
    hide Empty, SlotOk;
    var e := Empty(pre, 0);
    forall j | 0 <= j < |shortIds| ensures e[j] < |pre| && SlotOk(r, seen + [x], FromPool(n, isExtra), shortIds[j], slots[e[j]], have[e[j]]) {
      SlotPassed(r, seen, n, shortIds[j], slots[e[j]], have[e[j]], x, isExtra);
    }
  }

  /** How many of the short ids are decided. */
  ghost function DecidedCount<T(!new)>(r: Rules<T>, seen: seq<(nat, T)>, n: nat, ids: seq<nat>): nat
    decreases |ids|
  {
    if ids == [] then 0 else (if Decided(r, seen, n, ids[0]) then 1 else 0) + DecidedCount(r, seen, n, ids[1..])
  }

  ghost function NoneAmong<T>(slots: seq<Option<T>>, e: seq<nat>): nat
    requires forall i :: 0 <= i < |e| ==> e[i] < |slots|
    decreases |e|
  {
    if e == [] then 0 else (if slots[e[0]].None? then 1 else 0) + NoneAmong(slots, e[1..])
  }

  lemma {:induction false} EmptyAmong<T>(pre: seq<Option<T>>, slots: seq<Option<T>>, p: nat)
    requires p <= |pre| == |slots| && forall q :: 0 <= q < |pre| && pre[q].Some? ==> slots[q].Some?
    ensures forall i :: 0 <= i < |Empty(pre, p)| ==> Empty(pre, p)[i] < |slots|
    ensures |Empty(slots, p)| == NoneAmong(slots, Empty(pre, p))
    decreases |pre| - p
  {
    hide Empty;
    EmptyStep(pre, p);
    EmptyStep(slots, p);
    if p < |pre| {
      EmptyAmong(pre, slots, p + 1);
      if pre[p].None? { assert Empty(pre, p)[1..] == Empty(pre, p + 1); }
    }
  }

  lemma EmptyStep<T>(slots: seq<Option<T>>, p: nat)
    requires p <= |slots|
    ensures Empty(slots, p) == if p == |slots| then [] else if slots[p].None? then [p] + Empty(slots, p + 1) else Empty(slots, p + 1)
  {
  }

  lemma {:induction false} CountAmong<T(!new)>(r: Rules<T>, seen: seq<(nat, T)>, n: nat, ids: seq<nat>, slots: seq<Option<T>>, e: seq<nat>)
    requires |ids| == |e| && forall i {:trigger e[i]} :: 0 <= i < |e| ==> e[i] < |slots| && (slots[e[i]].Some? <==> Decided(r, seen, n, ids[i]))
    ensures NoneAmong(slots, e) + DecidedCount(r, seen, n, ids) == |ids|
    decreases |ids|
  {
    hide Decided;
    if ids != [] {
      forall i | 0 <= i < |e[1..]| ensures e[1..][i] < |slots| && (slots[e[1..][i]].Some? <==> Decided(r, seen, n, ids[1..][i])) {
        assert e[1..][i] == e[i + 1] && ids[1..][i] == ids[i + 1];
      }
      CountAmong(r, seen, n, ids[1..], slots, e[1..]);
    }
  }

  /** The count kept during the search is the number of ids decided so far. */
  lemma {:induction false} FillingCount<T(!new)>(r: Rules<T>, seen: seq<(nat, T)>, n: nat, shortIds: seq<nat>, pre: seq<Option<T>>, slots: seq<Option<T>>, have: seq<bool>, count: int)
    requires Filling(r, seen, n, shortIds, pre, slots, have, count)
    ensures count == DecidedCount(r, seen, n, shortIds)
  {
    hide Empty, Settles, DecidedCount;
    var e := Empty(pre, 0);
    EmptyAmong(pre, slots, 0);
    forall i | 0 <= i < |e| ensures e[i] < |slots| && (slots[e[i]].Some? <==> Decided(r, seen, n, shortIds[i])) {
      assert SlotOk(r, seen, n, shortIds[i], slots[e[i]], have[e[i]]);
    }
    CountAmong(r, seen, n, shortIds, slots, e);
  }

  /** With as many slots filled as there are short ids, every one of them is. */
  lemma {:induction false} AllFilled<T(!new)>(r: Rules<T>, seen: seq<(nat, T)>, n: nat, shortIds: seq<nat>, pre: seq<Option<T>>, slots: seq<Option<T>>, have: seq<bool>, i: nat)
    requires Filling(r, seen, n, shortIds, pre, slots, have, |shortIds|) && i < |shortIds|
    ensures Empty(pre, 0)[i] < |slots| && slots[Empty(pre, 0)[i]].Some?
  {
    hide Empty, SlotOk;
    var id := shortIds[i];
    EmptyExact(slots, 0);
  }

  /** One entry of the pools, and no other, carries the id. */
  ghost predicate Sole<T(!new)>(r: Rules<T>, pools: seq<(nat, T)>, id: nat, k: int) {
    0 <= k < |pools| && Carries(r, pools[k], id) && forall j {:trigger pools[j]} :: 0 <= j < |pools| && Carries(r, pools[j], id) ==> j == k
  }

  /**
   The search looks at the first part of the memory pool and then of the extra transactions, and
   stops early only when every slot is filled: nothing that a slot could use is missed.
   */
  lemma {:induction false} SoleFound<T(!new)>(r: Rules<T>, pool: seq<(nat, T)>, extra: seq<(nat, T)>, p: nat, x: nat,
                                              shortIds: seq<nat>, pre: seq<Option<T>>, slots: seq<Option<T>>, have: seq<bool>, count: int, i: nat, k: int)
    requires p <= |pool| && x <= |extra| && Filling(r, pool[..p] + extra[..x], p, shortIds, pre, slots, have, count) && i < |shortIds|
    requires p < |pool| ==> Decided(r, pool[..p], p, shortIds[i])
    requires x < |extra| ==> count == |shortIds|
    requires Sole(r, pool + extra, shortIds[i], k)
    ensures Empty(pre, 0)[i] < |slots| && slots[Empty(pre, 0)[i]] == Some((pool + extra)[k].1)
  {
    hide Empty;
    var seen, id, all := pool[..p] + extra[..x], shortIds[i], pool + extra;
    var q := Empty(pre, 0)[i];
    assert SlotOk(r, seen, p, id, slots[q], have[q]);
    forall j | 0 <= j < |seen| ensures seen[j] == all[Whence(|pool|, p, j)] && (Carries(r, seen[j], id) ==> Whence(|pool|, p, j) == k) { }
    if x < |extra| {
      AllFilled(r, seen, p, shortIds, pre, slots, have, i);
    } else if p < |pool| {
      var j :| Settles(r, pool[..p], p, id, j);
      assert seen[j] == pool[..p][j];
      assert Settles(r, seen, p, id, j);
    } else {
      assert seen == all;
      assert Settles(r, seen, p, id, k);
    }
  }

  /** Where an entry looked at stands in the two pools together. */
  function Whence(poolSize: nat, p: nat, j: nat): nat { if j < p then j else poolSize + (j - p) }

  ghost predicate Distinct(s: seq<nat>) { forall i, j :: 0 <= i < j < |s| ==> s[i] != s[j] }

  ghost function Elements(s: seq<nat>): set<nat> { set x | x in s }

  /** A list without repetition has as many elements as places. */
  lemma {:induction false} DistinctCount(s: seq<nat>)
    ensures |Elements(s)| <= |s| && (|Elements(s)| == |s| <==> Distinct(s))
    decreases |s|
  {
    if s != [] {
      hide Distinct;
      var n := |s| - 1;
      DistinctCount(s[..n]);
      DistinctLast(s);
      assert s == s[..n] + [s[n]];
      assert Elements(s) == Elements(s[..n]) + {s[n]};
      if s[n] in s[..n] { assert Elements(s) == Elements(s[..n]); }
    }
  }

  lemma {:induction false} DistinctLast(s: seq<nat>)
    requires s != []
    ensures var n := |s| - 1; Distinct(s) <==> Distinct(s[..n]) && s[n] !in s[..n]
  {
    var n := |s| - 1;
    if s[n] in s[..n] {
      var i :| 0 <= i < n && s[..n][i] == s[n];
      assert s[i] == s[n];
    } else {
      assert forall i :: 0 <= i < n ==> s[i] == s[..n][i];
    }
    if Distinct(s) {
      forall i, j | 0 <= i < j < n ensures s[..n][i] != s[..n][j] { assert s[i] != s[j]; }
    }
  }

  // ---- Rebuilding ----

  /** The slots filled up, in order, with the transactions handed in; none if they run out. */
  function Merge<T>(slots: seq<Option<T>>, missing: seq<T>): Option<(seq<T>, seq<T>)>
    decreases |slots|
  {
    if slots == [] then Some(([], missing))
    else if slots[0].Some? then
      match Merge(slots[1..], missing)
      case None => None
      case Some((txs, rest)) => Some(([slots[0].value] + txs, rest))
    else if missing == [] then None
    else
      match Merge(slots[1..], missing[1..])
      case None => None
      case Some((txs, rest)) => Some(([missing[0]] + txs, rest))
  }

  /** The transactions to ask for, given the true list. */
  function Missing<T>(slots: seq<Option<T>>, txs: seq<T>): seq<T>
    requires |slots| == |txs|
    decreases |slots|
  {
    if slots == [] then [] else (if slots[0].None? then [txs[0]] else []) + Missing(slots[1..], txs[1..])
  }

  /** Slots that agree with a list, filled with what is missing from it, give the list. */
  lemma {:induction false} MergeMissing<T>(slots: seq<Option<T>>, txs: seq<T>)
    requires |slots| == |txs| && forall p :: 0 <= p < |slots| && slots[p].Some? ==> slots[p].value == txs[p]
    ensures Merge(slots, Missing(slots, txs)) == Some((txs, []))
    decreases |slots|
  {
    if slots != [] {
      MergeMissing(slots[1..], txs[1..]);
      assert txs == [txs[0]] + txs[1..];
      var m := Missing(slots[1..], txs[1..]);
      assert slots[0].None? ==> ([txs[0]] + m)[1..] == m;
      assert slots[0].Some? ==> [] + m == m;
    }
  }

  /** Merging succeeds exactly when enough is handed in, and leaves over what is too much. */
  lemma {:induction false} MergeIff<T>(slots: seq<Option<T>>, missing: seq<T>)
    ensures Merge(slots, missing).Some? <==> |missing| >= |Empty(slots, 0)|
    ensures Merge(slots, missing).Some? ==> |Merge(slots, missing).value.1| == |missing| - |Empty(slots, 0)|
    decreases |slots|
  {
    if slots != [] {
      EmptyTail(slots, 1);
      MergeIff(slots[1..], if slots[0].None? && missing != [] then missing[1..] else missing);
    }
  }

  lemma {:induction false} EmptyTail<T>(slots: seq<Option<T>>, p: nat)
    requires 1 <= p <= |slots|
    ensures |Empty(slots, p)| == |Empty(slots[1..], p - 1)|
    decreases |slots| - p
  {
    if p < |slots| { EmptyTail(slots, p + 1); }
  }

  /** No pool offers another transaction under a short id of the block. */
  ghost predicate Unambiguous<T(!new)>(r: Rules<T>, pools: seq<(nat, T)>, txs: seq<T>) {
    forall k, p {:trigger pools[k], txs[p]} :: 0 <= k < |pools| && 0 <= p < |txs| ==>
      r.shortId(pools[k].0) == r.shortId(r.hashOf(txs[p])) ==> pools[k].1 == txs[p]
  }

  /** If equal short ids mean equal transactions, filled slots agree with the block the message describes. */
  lemma {:induction false} FilledAgree<T(!new)>(r: Rules<T>, m: Message<T>, seen: seq<(nat, T)>, n: nat, pre: seq<Option<T>>, slots: seq<Option<T>>, have: seq<bool>, count: int, txs: seq<T>)
    requires Describes(r, m, pre, txs) && Filling(r, seen, n, m.shortIds, pre, slots, have, count)
    requires Unambiguous(r, seen, txs)
    ensures forall p :: 0 <= p < |slots| && slots[p].Some? ==> slots[p].value == txs[p]
  {
    hide Empty;
    EmptyExact(pre, 0);
    var e := Empty(pre, 0);
    forall p | 0 <= p < |slots| && slots[p].Some? ensures slots[p].value == txs[p] {
      if pre[p].None? {
        assert p in e;
        var i :| 0 <= i < |e| && e[i] == p;
        assert SlotOk(r, seen, n, m.shortIds[i], slots[e[i]], have[e[i]]);
        var k :| Settles(r, seen, n, m.shortIds[i], k) && slots[p].value == seen[k].1;
        assert seen[k].1 == txs[p];
      } else {
        assert slots[p] == pre[p];
      }
    }
  }

  /** A message describes a block, its pools-filled slots and what is missing rebuild the block. */
  lemma {:induction false} Rebuilds<T(!new)>(r: Rules<T>, m: Message<T>, seen: seq<(nat, T)>, n: nat, pre: seq<Option<T>>, slots: seq<Option<T>>, have: seq<bool>, count: int, txs: seq<T>)
    requires Describes(r, m, pre, txs) && Filling(r, seen, n, m.shortIds, pre, slots, have, count)
    requires Unambiguous(r, seen, txs)
    ensures Merge(slots, Missing(slots, txs)) == Some((txs, []))
  {
    FilledAgree(r, m, seen, n, pre, slots, have, count, txs);
    MergeMissing(slots, txs);
  }

  // ---- The sender's message ----

  /** The coinbase outright, a short id for every other transaction. */
  function Encode<T>(r: Rules<T>, txs: seq<T>): Message<T>
    requires txs != []
  {
    Message(false, ShortIds(r, txs[1..]), [Prefilled(0, txs[0])])
  }

  function ShortIds<T>(r: Rules<T>, txs: seq<T>): (ids: seq<nat>)
    ensures |ids| == |txs| && forall i :: 0 <= i < |txs| ==> ids[i] == r.shortId(r.hashOf(txs[i]))
    decreases |txs|
  {
    if txs == [] then [] else ShortIds(r, txs[..|txs| - 1]) + [r.shortId(r.hashOf(txs[|txs| - 1]))]
  }

  lemma {:induction false} EncodeDescribes<T>(r: Rules<T>, txs: seq<T>, slots: seq<Option<T>>)
    requires txs != [] && Laid(Encode(r, txs), 1, slots)
    ensures Describes(r, Encode(r, txs), slots, txs)
  {
    var m := Encode(r, txs);
    assert Pos(m, 0) == 0;
    assert forall k :: 0 <= k < 1 ==> Pos(m, k) == 0;
    OnlyFirst(slots, 1);
    assert Empty(slots, 0) == Empty(slots, 1);
  }

  lemma {:induction false} OnlyFirst<T>(slots: seq<Option<T>>, p: nat)
    requires p <= |slots| && forall q :: p <= q < |slots| ==> slots[q].None?
    ensures |Empty(slots, p)| == |slots| - p && forall i :: 0 <= i < |slots| - p ==> Empty(slots, p)[i] == p + i
    decreases |slots| - p
  {
    if p < |slots| { OnlyFirst(slots, p + 1); }
  }

  /** A sender's message is well-formed unless the block is too large or its coinbase null. */
  lemma {:induction false} EncodeWellFormed<T>(r: Rules<T>, txs: seq<T>)
    requires txs != []
    ensures WellFormed(r, Encode(r, txs)) <==> |txs| <= MAX_BLOCK_WEIGHT / MIN_SERIALIZABLE_TRANSACTION_WEIGHT && !r.isNull(txs[0])
  {
    var m := Encode(r, txs);
    assert Pos(m, 0) == 0;
    assert Accepts(r, m, 0) <==> !r.isNull(txs[0]);
  }

  // ---- Request indexes ----

  /** Differences to the previous index, less one; a negative one becomes a huge 64-bit number. */
  function DiffEncode(xs: seq<nat>): (ds: seq<nat>)
    ensures |ds| == |xs|
    decreases |xs|
  {
    if xs == [] then []
    else
      var n := |xs| - 1;
      DiffEncode(xs[..n]) + [Diff(xs[n], if n == 0 then 0 else xs[n - 1] + 1)]
  }

  /** Subtraction in 64 bits. */
  function Diff(x: int, base: int): nat { (x - base) % 0x1_0000_0000_0000_0000 }

  lemma DiffSmall(x: nat, base: nat)
    requires x <= UINT16_MAX && base <= UINT16_MAX + 1
    ensures if x >= base then Diff(x, base) == x - base else Diff(x, base) > UINT16_MAX
  {
  }

  /** Running sums; none as soon as a difference or a sum leaves 16 bits. */
  function DiffDecode(ds: seq<nat>): (r: Option<seq<nat>>)
    ensures r.Some? ==> |r.value| == |ds|
    decreases |ds|
  {
    if ds == [] then Some([])
    else
      var n := |ds| - 1;
      match DiffDecode(ds[..n])
      case None => None
      case Some(xs) =>
        var x := ds[n] + if n == 0 then 0 else xs[n - 1] + 1;
        if ds[n] > UINT16_MAX || x > UINT16_MAX then None else Some(xs + [x])
  }

  ghost predicate Sixteen(xs: seq<nat>) { forall i :: 0 <= i < |xs| ==> xs[i] <= UINT16_MAX }

  ghost predicate Ascending(xs: seq<nat>) { forall i :: 0 < i < |xs| ==> xs[i - 1] < xs[i] }

  lemma {:induction false} AscendingStep(xs: seq<nat>)
    requires xs != []
    ensures var n := |xs| - 1; Ascending(xs) <==> Ascending(xs[..n]) && (n > 0 ==> xs[n - 1] < xs[n])
  {
    var n := |xs| - 1;
    if Ascending(xs[..n]) && (n > 0 ==> xs[n - 1] < xs[n]) {
      forall i | 0 < i < |xs| ensures xs[i - 1] < xs[i] {
        if i < n { assert xs[..n][i - 1] < xs[..n][i]; }
      }
    }
    if Ascending(xs) {
      forall i | 0 < i < n ensures xs[..n][i - 1] < xs[..n][i] { assert xs[i - 1] < xs[i]; }
    }
  }

  lemma NoneAscending()
    ensures Ascending([])
  {
  }

  /** A list of 16-bit indexes survives the coding exactly when it is strictly ascending. */
  lemma {:induction false} DiffRoundTrip(xs: seq<nat>)
    requires Sixteen(xs)
    ensures DiffDecode(DiffEncode(xs)) == Some(xs) <==> Ascending(xs)
    ensures DiffDecode(DiffEncode(xs)).Some? ==> DiffDecode(DiffEncode(xs)) == Some(xs)
    decreases |xs|
  {
    hide Diff, Ascending;
    if xs == [] {
      NoneAscending();
    } else {
      var n := |xs| - 1;
      var ds := DiffEncode(xs);
      assert ds[..n] == DiffEncode(xs[..n]);
      DiffRoundTrip(xs[..n]);
      assert xs == xs[..n] + [xs[n]];
      DiffSmall(xs[n], if n == 0 then 0 else xs[n - 1] + 1);
      AscendingStep(xs);
    }
  }

  /** What decodes is ascending and 16-bit, and encodes back to the same differences. */
  lemma {:induction false} DiffBack(ds: seq<nat>)
    ensures DiffDecode(ds).Some? ==> Sixteen(DiffDecode(ds).value) && Ascending(DiffDecode(ds).value) && DiffEncode(DiffDecode(ds).value) == ds
    decreases |ds|
  {
    hide Diff, Ascending;
    if ds == [] {
      NoneAscending();
    } else if DiffDecode(ds).Some? {
      var n := |ds| - 1;
      DiffBack(ds[..n]);
      var xs := DiffDecode(ds).value;
      assert xs[..n] == DiffDecode(ds[..n]).value;
      assert ds == ds[..n] + [ds[n]];
      DiffSmall(xs[n], if n == 0 then 0 else xs[n - 1] + 1);
      AscendingStep(xs);
    }
  }
}
