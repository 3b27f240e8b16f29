/** Receiving a compact block: the loops that lay out, index, fill and rebuild. */
module CompactBlocks {
  import opened Wrappers
  import opened Compact

  /** The sender's message. */
  method Announce<T>(r: Rules<T>, vtx: seq<T>) returns (m: Message<T>)
    requires vtx != []
    ensures m == Encode(r, vtx)
  {
    var shorttxids: seq<nat> := [];
    for i := 1 to |vtx|
      invariant |shorttxids| == i - 1 && forall k :: 0 <= k < i - 1 ==> shorttxids[k] == r.shortId(r.hashOf(vtx[1..][k]))
    {
      shorttxids := shorttxids + [r.shortId(r.hashOf(vtx[i]))];
    }
    assert shorttxids == ShortIds(r, vtx[1..]);
    m := Message(false, shorttxids, [Prefilled(0, vtx[0])]);
  }

  /** Puts the prefilled transactions in place; false if one cannot be accepted. */
  method LayOut<T>(r: Rules<T>, m: Message<T>) returns (ok: bool, slots: seq<Option<T>>)
    ensures ok <==> forall i :: 0 <= i < |m.prefilled| ==> Accepts(r, m, i)
    ensures ok ==> Laid(m, |m.prefilled|, slots)
  {
    hide Empty;
    slots := seq(Total(m), i => None);
    AllEmpty(slots, 0);
    var lastprefilledindex := -1;
    for i := 0 to |m.prefilled|
      invariant lastprefilledindex == if i == 0 then -1 else Pos(m, i - 1)
      invariant forall k :: 0 <= k < i ==> Accepts(r, m, k)
      invariant Laid(m, i, slots)
    {
      if r.isNull(m.prefilled[i].tx) {
        assert !Accepts(r, m, i);
        return false, slots;
      }
      lastprefilledindex := lastprefilledindex + (m.prefilled[i].index + 1);
      if lastprefilledindex > UINT16_MAX {
        assert !Accepts(r, m, i);
        return false, slots;
      }
      if lastprefilledindex > |m.shortIds| + i {
        assert !Accepts(r, m, i);
        return false, slots;
      }
      LaidNext(r, m, i, slots);
      slots := slots[lastprefilledindex := Some(m.prefilled[i].tx)];
    }
    ok := true;
  }

  /** Skips the filled slots. */
  method NextEmpty<T>(slots: seq<Option<T>>, start: nat) returns (p: nat)
    requires start <= |slots| && Empty(slots, start) != []
    ensures start <= p < |slots| && Empty(slots, start) == [p] + Empty(slots, p + 1)
  {
    p := start;
    while slots[p].Some?
      invariant start <= p < |slots| && Empty(slots, p) == Empty(slots, start)
      decreases |slots| - p
    {
      assert Empty(slots, p + 1) == Empty(slots, p);
      p := p + 1;
    }
  }

  /** The id map after the first i ids; a repeated id leaves fewer keys. */
  ghost predicate Indexing(ids: map<nat, nat>, shortIds: seq<nat>, e: seq<nat>, i: nat)
    requires i <= |shortIds| == |e|
  {
    && ids.Keys == Elements(shortIds[..i])
    && (Distinct(shortIds[..i]) ==> forall k {:trigger shortIds[k]} :: 0 <= k < i ==> shortIds[k] in ids && ids[shortIds[k]] == e[k])
  }

  /** Numbers the empty slots with the short ids; `crowded` says when a bucket of the hash map grew too long. */
  method IndexIds<T>(shortIds: seq<nat>, slots: seq<Option<T>>, crowded: nat -> bool) returns (ok: bool, ids: map<nat, nat>)
    requires |Empty(slots, 0)| == |shortIds| && |slots| <= UINT16_MAX
    ensures ok <==> Distinct(shortIds) && forall i :: 0 <= i < |shortIds| ==> !crowded(i)
    ensures ok ==> Indexes(ids, shortIds, Empty(slots, 0)) && |ids| == |shortIds|
  {
    hide Distinct, Indexing, Empty, Indexes;
    ids := map[];
    var indexOffset: nat := 0;
    ghost var e := Empty(slots, 0);
    IndexingStart(shortIds, e);
    for i := 0 to |shortIds|
      invariant i + indexOffset <= |slots| && Empty(slots, i + indexOffset) == e[i..]
      invariant forall k :: 0 <= k < i ==> !crowded(k)
      invariant Indexing(ids, shortIds, e, i)
    {
      var p := NextEmpty(slots, i + indexOffset);
      indexOffset := p - i;
      assert i + indexOffset <= UINT16_MAX;
      assert e[i..][0] == p && e[i..][1..] == e[i + 1..];
      IndexingNext(ids, shortIds, e, i);
      ids := ids[shortIds[i] := i + indexOffset];
      if crowded(i) {
        return false, ids;
      }
    }
    IndexingEnd(ids, shortIds, e);
    ok := |ids| == |shortIds|;
  }

  lemma {:induction false} IndexingStart(shortIds: seq<nat>, e: seq<nat>)
    requires |shortIds| == |e|
    ensures Indexing(map[], shortIds, e, 0)
  {
  }

  lemma {:induction false} IndexingNext(ids: map<nat, nat>, shortIds: seq<nat>, e: seq<nat>, i: nat)
    requires i < |shortIds| == |e| && Indexing(ids, shortIds, e, i)
    ensures Indexing(ids[shortIds[i] := e[i]], shortIds, e, i + 1)
  {
    hide Distinct;
    ElementsStep(shortIds, i);
    if Distinct(shortIds[..i + 1]) { DistinctStep(shortIds, i); }
  }

  lemma {:induction false} IndexingEnd(ids: map<nat, nat>, shortIds: seq<nat>, e: seq<nat>)
    requires |shortIds| == |e| && Indexing(ids, shortIds, e, |shortIds|)
    ensures |ids| == |shortIds| <==> Distinct(shortIds)
    ensures Distinct(shortIds) ==> Indexes(ids, shortIds, e)
  {
    assert shortIds[..|shortIds|] == shortIds;
    DistinctCount(shortIds);
    assert |ids| == |ids.Keys|;
    assert forall s :: s in ids ==> s in ids.Keys;
  }

  lemma {:induction false} ElementsStep(s: seq<nat>, i: nat)
    requires i < |s|
    ensures Elements(s[..i + 1]) == Elements(s[..i]) + {s[i]}
  {
    assert s[..i + 1] == s[..i] + [s[i]];
  }

  lemma {:induction false} DistinctStep(s: seq<nat>, i: nat)
    requires i < |s| && Distinct(s[..i + 1])
    ensures Distinct(s[..i]) && forall k :: 0 <= k < i ==> s[k] != s[i]
  {
    forall j, k | 0 <= j < k < i ensures s[..i][j] != s[..i][k] { assert s[..i + 1][j] != s[..i + 1][k]; }
    forall k | 0 <= k < i ensures s[k] != s[i] { assert s[..i + 1][k] != s[..i + 1][i]; }
  }

  // ---- Searching the pools ----

  /**
   Offers the listed transactions to the slots of their short ids; a second one takes the first out
   again, except, among the extra transactions, when it is the same one. The search ends after the
   first entry with which the count reaches the number of short ids.
   */
  method Search<T(==,!new)>(r: Rules<T>, list: seq<(nat, T)>, isExtra: bool, ids: map<nat, nat>,
                            slots0: seq<Option<T>>, have0: seq<bool>, count0: int,
                            ghost seen: seq<(nat, T)>, ghost n: nat, ghost base: int, ghost shortIds: seq<nat>, ghost pre: seq<Option<T>>)
    returns (slots: seq<Option<T>>, have: seq<bool>, count: int, ghost stop: nat)
    requires |Empty(pre, 0)| == |shortIds| == |ids| && Distinct(shortIds) && Indexes(ids, shortIds, Empty(pre, 0))
    requires n <= |seen| && (!isExtra ==> n == |seen|)
    requires Filling(r, seen, n, shortIds, pre, slots0, have0, count0 - base)
    ensures Stops(r, seen, n, isExtra, list, base, shortIds, stop) && (stop < |list| ==> count == |ids|)
    ensures Filling(r, seen + list[..stop], if isExtra then n else n + stop, shortIds, pre, slots, have, count - base)
  {
    hide Filling, Empty, Distinct, Indexes, DecidedCount;
    slots, have, count, stop := slots0, have0, count0, 0;
    assert seen + list[..0] == seen;
    for i := 0 to |list|
      invariant stop == i
      invariant Filling(r, seen + list[..i], if isExtra then n else n + i, shortIds, pre, slots, have, count - base)
      invariant forall j :: 0 < j <= i ==> base + DecidedCount(r, seen + list[..j], if isExtra then n else n + j, shortIds) != |ids|
    {
      assert (seen + list[..i]) + [list[i]] == seen + list[..i + 1];
      slots, have, count := LookAt(r, list[i], isExtra, ids, slots, have, count, seen + list[..i], if isExtra then n else n + i, base, shortIds, pre);
      stop := i + 1;
      FillingCount(r, seen + list[..i + 1], if isExtra then n else n + i + 1, shortIds, pre, slots, have, count - base);
      if count == |ids| {
        break;
      }
    }
  }

  /** One entry of a pool. */
  method LookAt<T(==,!new)>(r: Rules<T>, x: (nat, T), isExtra: bool, ids: map<nat, nat>, slots0: seq<Option<T>>, have0: seq<bool>, count0: int,
                            ghost seen: seq<(nat, T)>, ghost n: nat, ghost base: int, ghost shortIds: seq<nat>, ghost pre: seq<Option<T>>)
    returns (slots: seq<Option<T>>, have: seq<bool>, count: int)
    requires |Empty(pre, 0)| == |shortIds| && Distinct(shortIds) && Indexes(ids, shortIds, Empty(pre, 0))
    requires n <= |seen| && (!isExtra ==> n == |seen|)
    requires Filling(r, seen, n, shortIds, pre, slots0, have0, count0 - base)
    ensures Filling(r, seen + [x], FromPool(n, isExtra), shortIds, pre, slots, have, count - base)
  {
    hide Filling, Empty, Distinct, Indexes, SlotOk;
    slots, have, count := slots0, have0, count0;
    var shortid := r.shortId(x.0);
    if shortid in ids {
      var q := ids[shortid];
      ghost var k := RankOf(ids, shortIds, Empty(pre, 0), shortid);
      SlotAt(r, seen, n, shortIds, pre, slots, have, count - base, k);
      FillingOffered(r, seen, n, shortIds, pre, slots, have, count - base, k, x, isExtra);
      if !have[q] {
        NotHad(r, seen, n, shortid, slots[q]);
        slots, have, count := slots[q := Some(x.1)], have[q := true], count + 1;
      } else {
        assert have[q := true] == have;
        if slots[q].Some? && (!isExtra || r.witnessHashOf(slots[q].value) != r.witnessHashOf(x.1)) {
          slots, count := slots[q := None], count - 1;
        } else {
          assert slots[q := slots[q]] == slots;
        }
      }
    } else {
      NoRank(ids, shortIds, Empty(pre, 0), shortid);
      FillingPassed(r, seen, n, shortIds, pre, slots, have, count - base, x, isExtra);
    }
  }

  lemma {:induction false} NotHad<T(!new)>(r: Rules<T>, seen: seq<(nat, T)>, n: nat, id: nat, slot: Option<T>)
    requires SlotOk(r, seen, n, id, slot, false)
    ensures slot.None?
  {
  }

  lemma {:induction false} NoRank(ids: map<nat, nat>, shortIds: seq<nat>, e: seq<nat>, s: nat)
    requires Indexes(ids, shortIds, e) && s !in ids
    ensures s !in shortIds
  {
  }

  lemma {:induction false} RankOf(ids: map<nat, nat>, shortIds: seq<nat>, e: seq<nat>, s: nat) returns (k: nat)
    requires Indexes(ids, shortIds, e) && s in ids
    ensures k < |shortIds| == |e| && shortIds[k] == s && ids[s] == e[k]
  {
    assert s in shortIds;
    k :| 0 <= k < |shortIds| && shortIds[k] == s;
  }

  lemma {:induction false} SlotAt<T(!new)>(r: Rules<T>, seen: seq<(nat, T)>, n: nat, shortIds: seq<nat>, pre: seq<Option<T>>, slots: seq<Option<T>>, have: seq<bool>, count: int, k: nat)
    requires Filling(r, seen, n, shortIds, pre, slots, have, count) && k < |shortIds|
    ensures k < |Empty(pre, 0)| && Empty(pre, 0)[k] < |slots| == |have|
    ensures SlotOk(r, seen, n, shortIds[k], slots[Empty(pre, 0)[k]], have[Empty(pre, 0)[k]])
  {
    var id := shortIds[k];
  }

  /** The search ends after the first entry, and at least one, with which every short id is counted, or at the end of the list. */
  ghost predicate Stops<T(!new)>(r: Rules<T>, seen: seq<(nat, T)>, n: nat, isExtra: bool, list: seq<(nat, T)>, base: int, shortIds: seq<nat>, stop: nat) {
    && stop <= |list| && (list != [] ==> stop > 0)
    && (forall j :: 0 < j < stop ==> base + DecidedCount(r, seen + list[..j], if isExtra then n else n + j, shortIds) != |shortIds|)
    && (stop < |list| ==> base + DecidedCount(r, seen + list[..stop], if isExtra then n else n + stop, shortIds) == |shortIds|)
  }

  /** Every short id carried by one entry of the pools alone has its slot filled with that entry. */
  ghost predicate NoneMissed<T(!new)>(r: Rules<T>, pools: seq<(nat, T)>, shortIds: seq<nat>, pre: seq<Option<T>>, slots: seq<Option<T>>)
    requires |Empty(pre, 0)| == |shortIds|
  {
    forall i, k {:trigger Sole(r, pools, shortIds[i], k)} :: 0 <= i < |shortIds| && Sole(r, pools, shortIds[i], k) ==>
      Empty(pre, 0)[i] < |slots| && slots[Empty(pre, 0)[i]] == Some(pools[k].1)
  }

  /** The memory pool and then the extra transactions. */
  method SearchPools<T(==,!new)>(r: Rules<T>, pool: seq<(nat, T)>, extra: seq<(nat, T)>, ids: map<nat, nat>,
                                 slots0: seq<Option<T>>, count0: int, ghost shortIds: seq<nat>)
    returns (slots: seq<Option<T>>, count: int, ghost have: seq<bool>, ghost p: nat, ghost x: nat)
    requires |Empty(slots0, 0)| == |shortIds| == |ids| && Distinct(shortIds) && Indexes(ids, shortIds, Empty(slots0, 0))
    ensures Stops(r, [], 0, false, pool, count0, shortIds, p) && Stops(r, pool[..p], p, true, extra, count0, shortIds, x)
    ensures x < |extra| ==> count == |shortIds|
    ensures Filling(r, pool[..p] + extra[..x], p, shortIds, slots0, slots, have, count - count0)
    ensures count0 == 0 ==> NoneMissed(r, pool + extra, shortIds, slots0, slots)
  {
    hide Filling, Empty, Distinct, Indexes, NoneMissed, Decided, DecidedCount;
    var haveTxn := seq(|slots0|, i => false);
    FillingStart(r, shortIds, slots0, haveTxn);
    slots, haveTxn, count, p := Search(r, pool, false, ids, slots0, haveTxn, count0, [], 0, count0, shortIds, slots0);
    assert [] + pool[..p] == pool[..p];
    ghost var after, haveAfter := slots, haveTxn;
    if count0 == 0 && p < |pool| { AllSettled(r, pool[..p], p, shortIds, slots0, after, haveAfter); }
    slots, haveTxn, count, x := Search(r, extra, true, ids, slots, haveTxn, count, pool[..p], p, count0, shortIds, slots0);
    have := haveTxn;
    if count0 == 0 { NothingMissed(r, pool, extra, p, x, shortIds, slots0, slots, have, count); }
  }

  lemma {:induction false} AllSettled<T(!new)>(r: Rules<T>, seen: seq<(nat, T)>, n: nat, shortIds: seq<nat>, pre: seq<Option<T>>, slots: seq<Option<T>>, have: seq<bool>)
    requires Filling(r, seen, n, shortIds, pre, slots, have, |shortIds|)
    ensures forall i :: 0 <= i < |shortIds| ==> Decided(r, seen, n, shortIds[i])
  {
    hide Filling, Empty;
    forall i | 0 <= i < |shortIds| ensures Decided(r, seen, n, shortIds[i]) {
      AllFilled(r, seen, n, shortIds, pre, slots, have, i);
      SlotAt(r, seen, n, shortIds, pre, slots, have, |shortIds|, i);
    }
  }

  lemma {:induction false} NothingMissed<T(!new)>(r: Rules<T>, pool: seq<(nat, T)>, extra: seq<(nat, T)>, p: nat, x: nat,
                                                  shortIds: seq<nat>, pre: seq<Option<T>>, slots: seq<Option<T>>, have: seq<bool>, count: int)
    requires p <= |pool| && x <= |extra| && |Empty(pre, 0)| == |shortIds|
    requires Filling(r, pool[..p] + extra[..x], p, shortIds, pre, slots, have, count)
    requires p < |pool| ==> forall i :: 0 <= i < |shortIds| ==> Decided(r, pool[..p], p, shortIds[i])
    requires x < |extra| ==> count == |shortIds|
    ensures NoneMissed(r, pool + extra, shortIds, pre, slots)
  {
    hide Filling, Empty, Settles, Decided;
    forall i, k | 0 <= i < |shortIds| && Sole(r, pool + extra, shortIds[i], k)
      ensures 0 <= k < |pool + extra| && Empty(pre, 0)[i] < |slots| && slots[Empty(pre, 0)[i]] == Some((pool + extra)[k].1)
    {
      SoleFound(r, pool, extra, p, x, shortIds, pre, slots, have, count, i, k);
    }
  }

  // ---- The object ----

  datatype Verdict = Valid | Mutated | Bad

  class PartiallyDownloadedBlock<T(==,!new)> {
    const pool: seq<(nat, T)>
    const rules: Rules<T>
    var headerNull: bool
    var txnAvailable: seq<Option<T>>
    var prefilledCount: nat
    var mempoolCount: int
    ghost var laid: seq<Option<T>>
    ghost var have: seq<bool>
    ghost var poolSeen: nat
    ghost var extraSeen: nat

    constructor (poolIn: seq<(nat, T)>, rulesIn: Rules<T>)
      ensures pool == poolIn && rules == rulesIn && headerNull && txnAvailable == [] && mempoolCount == 0
    {
      pool, rules, headerNull, txnAvailable, prefilledCount, mempoolCount := poolIn, rulesIn, true, [], 0, 0;
      laid, have, poolSeen, extraSeen := [], [], 0, 0;
    }

    /**
     The message format allows at most 65535 transactions. Every slot without a prefilled transaction
     holds the entry that settles its short id among those looked at; a counter that started from
     zero lets the search miss none that is the only one with its id.
     */
    method InitData(m: Message<T>, extra: seq<(nat, T)>, crowded: nat -> bool) returns (status: Status)
      requires headerNull && txnAvailable == [] && Total(m) <= UINT16_MAX
      modifies this
      ensures status == if !WellFormed(rules, m) then Invalid
                        else if Distinct(m.shortIds) && (forall i :: 0 <= i < |m.shortIds| ==> !crowded(i)) then Ok
                        else Failed
      ensures status.Ok? ==> !headerNull && prefilledCount == |m.prefilled| && Laid(m, |m.prefilled|, laid)
      ensures status.Ok? ==>
                && Stops(rules, [], 0, false, pool, old(mempoolCount), m.shortIds, poolSeen)
                && Stops(rules, pool[..poolSeen], poolSeen, true, extra, old(mempoolCount), m.shortIds, extraSeen)
                && (extraSeen < |extra| ==> mempoolCount == |m.shortIds|)
      ensures status.Ok? ==>
                Filling(rules, pool[..poolSeen] + extra[..extraSeen], poolSeen, m.shortIds, laid, txnAvailable, have, mempoolCount - old(mempoolCount))
      ensures status.Ok? && old(mempoolCount) == 0 ==> NoneMissed(rules, pool + extra, m.shortIds, laid, txnAvailable)
    {
      hide Filling, Empty, Distinct, Indexes, Accepts, NoneMissed;
      if m.headerNull || (m.shortIds == [] && m.prefilled == []) {
        return Invalid;
      }
      if |m.shortIds| + |m.prefilled| > MAX_BLOCK_WEIGHT / MIN_SERIALIZABLE_TRANSACTION_WEIGHT {
        return Invalid;
      }
      headerNull := false;
      var ok, slots := LayOut(rules, m);
      txnAvailable := slots;
      if !ok {
        return Invalid;
      }
      prefilledCount := |m.prefilled|;
      laid := slots;
      var fine, ids := IndexIds(m.shortIds, slots, crowded);
      if !fine {
        return Failed;
      }
      txnAvailable, mempoolCount, have, poolSeen, extraSeen := SearchPools(rules, pool, extra, ids, slots, mempoolCount, m.shortIds);
      status := Ok;
    }

    /** Fills the empty slots in order; only an exact fit is passed on to the block check. */
    method FillBlock(missing: seq<T>, checkBlock: seq<T> -> Verdict) returns (status: Status, vtx: seq<T>)
      requires !headerNull
      modifies this
      ensures var merged := Merge(old(txnAvailable), missing);
              if merged.None? then
                && status == Invalid && !headerNull && |missing| < |Empty(old(txnAvailable), 0)|
                && MovedOut(old(txnAvailable), Empty(old(txnAvailable), 0)[|missing|], txnAvailable)
              else
                && headerNull && txnAvailable == [] && vtx == merged.value.0
                && status == if merged.value.1 != [] then Invalid
                             else match checkBlock(vtx) case Valid => Ok case Mutated => Failed case Bad => CheckFailed
    {
      hide Merge, Empty;
      ghost var slots := txnAvailable;
      vtx := [];
      var offset := 0;
      MergeFrom(slots, missing);
      for i := 0 to |txnAvailable|
        invariant |txnAvailable| == |slots| && txnAvailable[i..] == slots[i..] && offset <= |missing|
        invariant Merge(slots, missing) == After(vtx, Merge(slots[i..], missing[offset..]))
        invariant !headerNull && MovedOut(slots, i, txnAvailable)
        invariant offset <= |Empty(slots, 0)| && Empty(slots, i) == Empty(slots, 0)[offset..]
      {
        EmptyStep(slots, i);
        assert txnAvailable[i] == txnAvailable[i..][0] == slots[i];
        MergeNext(vtx, slots[i..], missing[offset..]);
        assert slots[i..][1..] == slots[i + 1..] && (offset < |missing| ==> missing[offset..][1..] == missing[offset + 1..]);
        ghost var rest := txnAvailable[i..];
        if txnAvailable[i].None? {
          if |missing| <= offset {
            assert Empty(slots, 0)[offset] == Empty(slots, i)[0] == i;
            return Invalid, vtx;
          }
          vtx := vtx + [missing[offset]];
          offset := offset + 1;
        } else {
          vtx := vtx + [txnAvailable[i].value];
          txnAvailable := txnAvailable[i := None];
          assert txnAvailable[i + 1..] == rest[1..];
        }
      }
      MergeDone(vtx, slots[|slots|..], missing[offset..]);
      headerNull := true;
      txnAvailable := [];
      if |missing| != offset {
        return Invalid, vtx;
      }
      match checkBlock(vtx)
      case Valid => status := Ok;
      case Mutated => status := Failed;
      case Bad => status := CheckFailed;
    }
  }

  function After<T>(done: seq<T>, m: Option<(seq<T>, seq<T>)>): Option<(seq<T>, seq<T>)> {
    match m case None => None case Some((txs, rest)) => Some((done + txs, rest))
  }

  lemma {:induction false} MergeFrom<T>(slots: seq<Option<T>>, missing: seq<T>)
    ensures slots[0..] == slots && missing[0..] == missing
    ensures Merge(slots, missing) == After([], Merge(slots, missing))
  {
    if Merge(slots, missing).Some? { assert [] + Merge(slots, missing).value.0 == Merge(slots, missing).value.0; }
  }

  lemma {:induction false} MergeNext<T>(done: seq<T>, slots: seq<Option<T>>, missing: seq<T>)
    requires slots != []
    ensures slots[0].Some? ==> After(done, Merge(slots, missing)) == After(done + [slots[0].value], Merge(slots[1..], missing))
    ensures slots[0].None? && missing == [] ==> Merge(slots, missing) == None
    ensures slots[0].None? && missing != [] ==> After(done, Merge(slots, missing)) == After(done + [missing[0]], Merge(slots[1..], missing[1..]))
  {
    if slots[0].Some? {
      var m := Merge(slots[1..], missing);
      if m.Some? { assert done + ([slots[0].value] + m.value.0) == done + [slots[0].value] + m.value.0; }
    } else if missing != [] {
      var m := Merge(slots[1..], missing[1..]);
      if m.Some? { assert done + ([missing[0]] + m.value.0) == done + [missing[0]] + m.value.0; }
    }
  }

  lemma {:induction false} MergeDone<T>(done: seq<T>, slots: seq<Option<T>>, missing: seq<T>)
    requires slots == []
    ensures After(done, Merge(slots, missing)) == Some((done, missing))
  {
    assert done + [] == done;
  }

  /**
   Sender to receiver: if the receiver accepts the message and equal short ids mean equal
   transactions, the transactions missing at the receiver complete exactly the sender's list.
   */
  method Relay<T(==,!new)>(r: Rules<T>, vtx: seq<T>, pool: seq<(nat, T)>, extra: seq<(nat, T)>, crowded: nat -> bool, checkBlock: seq<T> -> Verdict)
    returns (first: Status, second: Status, rebuilt: seq<T>)
    requires 0 < |vtx| <= UINT16_MAX
    requires Unambiguous(r, pool + extra, vtx)
    ensures first == if r.isNull(vtx[0]) then Invalid
                     else if Distinct(ShortIds(r, vtx[1..])) && (forall i :: 0 <= i < |vtx| - 1 ==> !crowded(i)) then Ok
                     else Failed
    ensures first == Ok ==> rebuilt == vtx && second == (match checkBlock(vtx) case Valid => Ok case Mutated => Failed case Bad => CheckFailed)
  {
    hide Distinct, Filling, Laid, Merge, Missing, WellFormed, Describes, Unambiguous;
    var m := Announce(r, vtx);
    EncodeWellFormed(r, vtx);
    var receiver := new PartiallyDownloadedBlock(pool, r);
    first := receiver.InitData(m, extra, crowded);
    if first != Ok {
      return first, first, [];
    }
    EncodeDescribes(r, vtx, receiver.laid);
    ghost var p := receiver.poolSeen;
    ghost var seen := pool[..p] + extra[..receiver.extraSeen];
    StillUnambiguous(r, pool, extra, p, receiver.extraSeen, vtx);
    Rebuilds(r, m, seen, p, receiver.laid, receiver.txnAvailable, receiver.have, receiver.mempoolCount, vtx);
    SameSize(r, m, seen, p, receiver.laid, receiver.txnAvailable, receiver.have, receiver.mempoolCount, vtx);
    second, rebuilt := receiver.FillBlock(Missing(receiver.txnAvailable, vtx), checkBlock);
  }

  /** The transactions in the first slots have been moved into the block. */
  ghost predicate MovedOut<T>(before: seq<Option<T>>, n: nat, after: seq<Option<T>>) {
    && n <= |before| == |after| && (forall i :: 0 <= i < n ==> after[i].None?)
    && forall i :: n <= i < |before| ==> after[i] == before[i]
  }

  lemma {:induction false} StillUnambiguous<T(!new)>(r: Rules<T>, pool: seq<(nat, T)>, extra: seq<(nat, T)>, p: nat, x: nat, txs: seq<T>)
    requires p <= |pool| && x <= |extra| && Unambiguous(r, pool + extra, txs)
    ensures Unambiguous(r, pool[..p] + extra[..x], txs)
  {
    var seen, all := pool[..p] + extra[..x], pool + extra;
    forall k, q | 0 <= k < |seen| && 0 <= q < |txs|
      ensures r.shortId(seen[k].0) == r.shortId(r.hashOf(txs[q])) ==> seen[k].1 == txs[q]
    {
      assert seen[k] == all[Whence(|pool|, p, k)];
    }
  }

  lemma {:induction false} SameSize<T(!new)>(r: Rules<T>, m: Message<T>, seen: seq<(nat, T)>, n: nat, pre: seq<Option<T>>, slots: seq<Option<T>>, have: seq<bool>, count: int, txs: seq<T>)
    requires Describes(r, m, pre, txs) && Filling(r, seen, n, m.shortIds, pre, slots, have, count)
    ensures |slots| == |txs|
  {
  }

  // ---- Request indexes ----

  /** Turns differences into indexes in place; false when one leaves 16 bits. */
  method ReadIndexes(indexes: array<nat>) returns (ok: bool)
    modifies indexes
    ensures ok <==> DiffDecode(old(indexes[..])).Some?
    ensures ok ==> indexes[..] == DiffDecode(old(indexes[..])).value
  {
    hide DiffDecode;
    ghost var ds := indexes[..];
    for i := 0 to indexes.Length
      invariant forall k :: 0 <= k < i ==> ds[k] <= UINT16_MAX
    {
      if indexes[i] > UINT16_MAX {
        TooLarge(ds, i, indexes.Length);
        assert ds[..indexes.Length] == ds;
        return false;
      }
    }
    var offset := 0;
    DecodeNone(ds);
    for j := 0 to indexes.Length
      invariant DiffDecode(ds[..j]) == Some(indexes[..j]) && indexes[j..] == ds[j..]
      invariant offset == if j == 0 then 0 else indexes[j - 1] + 1
    {
      assert indexes[j] == indexes[j..][0] == ds[j];
      DecodeNext(ds, j, indexes[..j]);
      if indexes[j] + offset > UINT16_MAX {
        DecodeFails(ds, j + 1, indexes.Length);
        assert ds[..indexes.Length] == ds;
        return false;
      }
      ghost var done, rest := indexes[..j], indexes[j..];
      indexes[j] := indexes[j] + offset;
      assert indexes[..j + 1] == done + [indexes[j]];
      assert indexes[j + 1..] == rest[1..];
      offset := indexes[j] + 1;
    }
    assert ds[..indexes.Length] == ds && indexes[..indexes.Length] == indexes[..];
    ok := true;
  }

  lemma {:induction false} DecodeNone(ds: seq<nat>)
    ensures DiffDecode(ds[..0]) == Some([])
  {
  }

  lemma {:induction false} DecodeNext(ds: seq<nat>, j: nat, xs: seq<nat>)
    requires j < |ds| && |xs| == j && DiffDecode(ds[..j]) == Some(xs) && ds[j] <= UINT16_MAX
    ensures var x := ds[j] + if j == 0 then 0 else xs[j - 1] + 1;
            DiffDecode(ds[..j + 1]) == if x > UINT16_MAX then None else Some(xs + [x])
  {
    assert ds[..j + 1][..j] == ds[..j];
  }

  lemma {:induction false} DecodeFails(ds: seq<nat>, j: nat, n: nat)
    requires j <= n <= |ds| && DiffDecode(ds[..j]) == None
    ensures DiffDecode(ds[..n]) == None
    decreases n
  {
    if j < n {
      DecodeFails(ds, j, n - 1);
      assert ds[..n][..n - 1] == ds[..n - 1];
    }
  }

  lemma {:induction false} TooLarge(ds: seq<nat>, i: nat, n: nat)
    requires i < n <= |ds| && ds[i] > UINT16_MAX
    ensures DiffDecode(ds[..n]) == None
    decreases n
  {
    assert ds[..n][..n - 1] == ds[..n - 1];
    if i < n - 1 { TooLarge(ds, i, n - 1); }
  }

  method WriteIndexes(indexes: seq<nat>) returns (ds: seq<nat>)
    ensures ds == DiffEncode(indexes)
  {
    ds := [];
    for i := 0 to |indexes|
      invariant ds == DiffEncode(indexes[..i])
    {
      assert indexes[..i + 1][..i] == indexes[..i];
      ds := ds + [Diff(indexes[i], if i == 0 then 0 else indexes[i - 1] + 1)];
    }
    assert indexes[..|indexes|] == indexes;
  }
}
