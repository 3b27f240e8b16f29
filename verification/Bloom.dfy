/**
 The rolling bloom filter: a place is a bit of a pair of 64-bit words, and the two bits there say
 in which of three generations the place was last set, or that it is clear.
 */
module Bloom {
  import opened FastRange
  import opened Wrappers

  datatype Place = Place(w: nat, b: bv6)

  datatype Filter = Filter(perGen: nat, thisGen: nat, gen: int, data: seq<bv64>)

  predicate Bit(x: bv64, b: bv6) { (x >> b) & 1 == 1 }

  /** The generation mark of a place: 0 when clear. */
  function Mark(data: seq<bv64>, p: Place): int
    requires 2 * p.w + 1 < |data|
  {
    (if Bit(data[2 * p.w], p.b) then 1 else 0) + (if Bit(data[2 * p.w + 1], p.b) then 2 else 0)
  }

  function Low(gen: int): bv64 { if gen % 2 == 1 then 1 else 0 }
  function High(gen: int): bv64 { if gen >= 2 then 1 else 0 }

  // The word operations, named so that a proof about bits can use their meaning alone.
  function Or(x: bv64, y: bv64): bv64 { x | y }
  function And(x: bv64, y: bv64): bv64 { x & y }
  function Xor(x: bv64, y: bv64): bv64 { x ^ y }
  function Not(x: bv64): bv64 { !x }
  function Shift(x: bv64, b: bv6): bv64 { x << b }
  function Spread(x: bv64): bv64 { 0 - x }

  /** The pair of words without the places that carry the given generation. */
  function WipePair(p1: bv64, p2: bv64, gen: int): (bv64, bv64) {
    var mask := Or(Xor(p1, Spread(Low(gen))), Xor(p2, Spread(High(gen))));
    (And(p1, mask), And(p2, mask))
  }

  function SetWord(x: bv64, b: bv6, v: bv64): bv64 { Or(And(x, Not(Shift(1, b))), Shift(v, b)) }

  function Wipe(data: seq<bv64>, gen: int): (r: seq<bv64>)
    requires |data| % 2 == 0
    ensures |r| == |data|
    decreases |data|
  {
    if data == [] then []
    else
      var n := |data| - 2;
      var (a, b) := WipePair(data[n], data[n + 1], gen);
      Wipe(data[..n], gen) + [a, b]
  }

  function Put(data: seq<bv64>, p: Place, gen: int): seq<bv64>
    requires 2 * p.w + 1 < |data|
  {
    data[2 * p.w := SetWord(data[2 * p.w], p.b, Low(gen))][2 * p.w + 1 := SetWord(data[2 * p.w + 1], p.b, High(gen))]
  }

  ghost predicate Fits(places: seq<Place>, size: nat) { forall i :: 0 <= i < |places| ==> 2 * places[i].w + 1 < size }

  function PutAll(data: seq<bv64>, places: seq<Place>, gen: int): (r: seq<bv64>)
    requires Fits(places, |data|)
    ensures |r| == |data|
    decreases |places|
  {
    if places == [] then data
    else Put(PutAll(data, places[..|places| - 1], gen), places[|places| - 1], gen)
  }

  function NextGen(gen: int): int { if gen + 1 == 4 then 1 else gen + 1 }

  function Rotate(f: Filter): Filter
    requires |f.data| % 2 == 0
  {
    f.(thisGen := 0, gen := NextGen(f.gen), data := Wipe(f.data, NextGen(f.gen)))
  }

  function Turned(f: Filter): (r: Filter)
    requires |f.data| % 2 == 0
  {
    if f.thisGen == f.perGen then Rotate(f) else f
  }

  function Insert(f: Filter, places: seq<Place>): Filter
    requires |f.data| % 2 == 0 && Fits(places, |f.data|)
  {
    var r := Turned(f);
    r.(thisGen := r.thisGen + 1, data := PutAll(r.data, places, r.gen))
  }

  predicate Contains(data: seq<bv64>, places: seq<Place>)
    requires Fits(places, |data|)
  {
    forall i :: 0 <= i < |places| ==> Bit(Or(data[2 * places[i].w], data[2 * places[i].w + 1]), places[i].b)
  }

  function Cleared(perGen: nat, size: nat): Filter { Filter(perGen, 0, 1, seq(size, i => 0)) }

  // ---- What the word operations do to marks ----

  lemma OrBits(x: bv64, y: bv64, b: bv6)
    ensures Bit(Or(x, y), b) == (Bit(x, b) || Bit(y, b))
  {
  }

  lemma AndBits(x: bv64, y: bv64, b: bv6)
    ensures Bit(And(x, y), b) == (Bit(x, b) && Bit(y, b))
  {
  }

  lemma XorBits(x: bv64, y: bv64, b: bv6)
    ensures Bit(Xor(x, y), b) == (Bit(x, b) != Bit(y, b))
  {
    hide Bit, Or, And, Not, Xor;
    XorSplit(x, y);
    NotBits(x, b);
    NotBits(y, b);
    AndBits(x, Not(y), b);
    AndBits(Not(x), y, b);
    OrBits(And(x, Not(y)), And(Not(x), y), b);
  }

  lemma XorSplit(x: bv64, y: bv64)
    ensures Xor(x, y) == Or(And(x, Not(y)), And(Not(x), y))
  {
  }

  lemma NotBits(x: bv64, b: bv6)
    ensures Bit(Not(x), b) == !Bit(x, b)
  {
  }

  lemma SpreadBits(gen: int, b: bv6)
    requires 1 <= gen <= 3
    ensures Bit(Spread(Low(gen)), b) == (gen % 2 == 1) && Bit(Spread(High(gen)), b) == (gen >= 2)
  {
  }

  lemma ShiftBits(b: bv6, c: bv6)
    ensures Bit(Shift(1, b), c) == (b == c)
    ensures !Bit(Shift(0, b), c)
  {
  }

  lemma {:induction false} WipeBit(p1: bv64, p2: bv64, gen: int, b: bv6)
    requires 1 <= gen <= 3
    ensures var (q1, q2) := WipePair(p1, p2, gen);
            var hit := Bit(p1, b) == (gen % 2 == 1) && Bit(p2, b) == (gen >= 2);
            && (hit ==> !Bit(q1, b) && !Bit(q2, b))
            && (!hit ==> Bit(q1, b) == Bit(p1, b) && Bit(q2, b) == Bit(p2, b))
  {
    hide Bit, Or, And, Xor, Spread, Low, High;
    var x1, x2 := Xor(p1, Spread(Low(gen))), Xor(p2, Spread(High(gen)));
    SpreadBits(gen, b);
    XorBits(p1, Spread(Low(gen)), b);
    XorBits(p2, Spread(High(gen)), b);
    OrBits(x1, x2, b);
    AndBits(p1, Or(x1, x2), b);
    AndBits(p2, Or(x1, x2), b);
  }

  lemma {:induction false} SetWordBit(x: bv64, b: bv6, c: bv6, v: bv64)
    requires v == 0 || v == 1
    ensures Bit(SetWord(x, b, v), c) == if b == c then v == 1 else Bit(x, c)
  {
    hide Bit, Or, And, Not, Shift;
    ShiftBits(b, c);
    NotBits(Shift(1, b), c);
    AndBits(x, Not(Shift(1, b)), c);
    OrBits(And(x, Not(Shift(1, b))), Shift(v, b), c);
  }

  lemma {:induction false} WipeMark(data: seq<bv64>, gen: int, p: Place)
    requires |data| % 2 == 0 && 1 <= gen <= 3 && 2 * p.w + 1 < |data|
    ensures Mark(Wipe(data, gen), p) == if Mark(data, p) == gen then 0 else Mark(data, p)
    decreases |data|
  {
    hide Bit, WipePair;
    var n := |data| - 2;
    if 2 * p.w == n {
      WipeBit(data[n], data[n + 1], gen, p.b);
    } else {
      WipeMark(data[..n], gen, p);
    }
  }

  lemma {:induction false} PutMark(data: seq<bv64>, q: Place, gen: int, p: Place)
    requires 1 <= gen <= 3 && 2 * p.w + 1 < |data| && 2 * q.w + 1 < |data|
    ensures Mark(Put(data, q, gen), p) == if p == q then gen else Mark(data, p)
  {
    hide Bit, SetWord;
    if p.w == q.w {
      SetWordBit(data[2 * p.w], q.b, p.b, Low(gen));
      SetWordBit(data[2 * p.w + 1], q.b, p.b, High(gen));
    }
  }

  lemma {:induction false} PutAllMark(data: seq<bv64>, places: seq<Place>, gen: int, p: Place)
    requires 1 <= gen <= 3 && Fits(places, |data|) && 2 * p.w + 1 < |data|
    ensures Mark(PutAll(data, places, gen), p) == if p in places then gen else Mark(data, p)
    decreases |places|
  {
    hide Mark, Put;
    if places != [] {
      var n := |places| - 1;
      PutAllMark(data, places[..n], gen, p);
      PutMark(PutAll(data, places[..n], gen), places[n], gen, p);
      assert places == places[..n] + [places[n]];
    }
  }

  lemma {:induction false} ContainsMarks(data: seq<bv64>, places: seq<Place>)
    requires Fits(places, |data|)
    ensures Contains(data, places) <==> forall i :: 0 <= i < |places| ==> Mark(data, places[i]) != 0
  {
    hide Mark, Bit, Or;
    forall i | 0 <= i < |places|
      ensures Bit(Or(data[2 * places[i].w], data[2 * places[i].w + 1]), places[i].b) <==> Mark(data, places[i]) != 0
    {
      SetMark(data, places[i]);
    }
  }

  lemma {:induction false} SetMark(data: seq<bv64>, p: Place)
    requires 2 * p.w + 1 < |data|
    ensures Bit(Or(data[2 * p.w], data[2 * p.w + 1]), p.b) <==> Mark(data, p) != 0
  {
    hide Bit, Or;
    OrBits(data[2 * p.w], data[2 * p.w + 1], p.b);
  }

  // ---- Runs since the last reset ----

  ghost predicate Maps<K(!new)>(placesOf: K -> seq<Place>, size: nat) { forall k :: Fits(placesOf(k), size) }

  ghost function After<K(!new)>(placesOf: K -> seq<Place>, perGen: nat, size: nat, keys: seq<K>): (f: Filter)
    requires size % 2 == 0 && Maps(placesOf, size)
    ensures |f.data| == size
    decreases |keys|
  {
    if keys == [] then Cleared(perGen, size)
    else
      assert Fits(placesOf(keys[|keys| - 1]), size);
      Insert(After(placesOf, perGen, size, keys[..|keys| - 1]), placesOf(keys[|keys| - 1]))
  }

  /** How many generations ago a mark was made. */
  function Ago(mark: int, gen: int): int { if mark <= gen then gen - mark else gen - mark + 3 }

  /** How many generations ago the key inserted d keys before the last one went in. */
  function Back(f: Filter, d: nat): nat { if d < f.thisGen then 0 else if d < f.thisGen + f.perGen then 1 else 2 }

  /** How many keys went in after the last one that has the place. */
  ghost function Since<K(!new)>(placesOf: K -> seq<Place>, keys: seq<K>, p: Place): Option<nat>
    decreases |keys|
  {
    if keys == [] then None
    else if p in placesOf(keys[|keys| - 1]) then Some(0)
    else
      var before := Since(placesOf, keys[..|keys| - 1], p);
      if before.None? then None else Some(before.value + 1)
  }

  /** The keys of the current generation and of the two before it. */
  function Window(f: Filter): nat { f.thisGen + 2 * f.perGen }

  /** The place carries the generation of the last key that has it, or is clear if that key is too old. */
  ghost predicate MarkIs(f: Filter, p: Place, since: Option<nat>)
    requires 2 * p.w + 1 < |f.data|
  {
    var m := Mark(f.data, p);
    if since.Some? && since.value < Window(f) then 1 <= m <= 3 && Ago(m, f.gen) == Back(f, since.value) else m == 0
  }

  ghost predicate Running(f: Filter) { 1 <= f.gen <= 3 && f.thisGen <= f.perGen && f.perGen > 0 && |f.data| % 2 == 0 }

  lemma {:induction false} TurnMark(f: Filter, p: Place, since: Option<nat>)
    requires Running(f) && 2 * p.w + 1 < |f.data| && MarkIs(f, p, since)
    ensures var r := Turned(f); Running(r) && r.thisGen < r.perGen == f.perGen && |r.data| == |f.data| && MarkIs(r, p, since)
  {
    hide Mark, Wipe;
    if f.thisGen == f.perGen { WipeMark(f.data, NextGen(f.gen), p); }
  }

  /** One insertion: a place of the key gets the current generation, any other grows older by one key. */
  lemma {:induction false} InsertMark(f: Filter, places: seq<Place>, p: Place, since: Option<nat>)
    requires Running(f) && Fits(places, |f.data|) && 2 * p.w + 1 < |f.data| && MarkIs(f, p, since)
    ensures var g := Insert(f, places);
            && Running(g) && g.perGen == f.perGen && |g.data| == |f.data|
            && MarkIs(g, p, if p in places then Some(0) else if since.None? then None else Some(since.value + 1))
  {
    hide Mark, Wipe, PutAll;
    TurnMark(f, p, since);
    var r := Turned(f);
    PutAllMark(r.data, places, r.gen, p);
  }

  /** After any insertions since a reset every place carries exactly the mark that the keys gave it. */
  lemma {:induction false} AfterMark<K(!new)>(placesOf: K -> seq<Place>, perGen: nat, size: nat, keys: seq<K>, p: Place)
    requires size % 2 == 0 && Maps(placesOf, size) && perGen > 0 && 2 * p.w + 1 < size
    ensures var f := After(placesOf, perGen, size, keys);
            Running(f) && f.perGen == perGen && MarkIs(f, p, Since(placesOf, keys, p))
    decreases |keys|
  {
    hide Insert, MarkIs;
    if keys == [] {
      ClearMark(perGen, size, p);
    } else {
      var n := |keys| - 1;
      AfterMark(placesOf, perGen, size, keys[..n], p);
      assert Fits(placesOf(keys[n]), size);
      InsertMark(After(placesOf, perGen, size, keys[..n]), placesOf(keys[n]), p, Since(placesOf, keys[..n], p));
    }
  }

  lemma ClearMark(perGen: nat, size: nat, p: Place)
    requires 2 * p.w + 1 < size
    ensures MarkIs(Cleared(perGen, size), p, None)
  {
  }

  /** One of the last w keys has the place. */
  ghost predicate Recent<K(!new)>(placesOf: K -> seq<Place>, keys: seq<K>, p: Place, w: nat) {
    exists j {:trigger keys[j]} :: 0 <= j < |keys| && |keys| - j <= w && p in placesOf(keys[j])
  }

  lemma {:induction false} SinceIff<K(!new)>(placesOf: K -> seq<Place>, keys: seq<K>, p: Place, w: nat)
    ensures (Since(placesOf, keys, p).Some? && Since(placesOf, keys, p).value < w) <==> Recent(placesOf, keys, p, w)
    decreases |keys|
  {
    if keys != [] && w > 0 {
      var n := |keys| - 1;
      SinceIff(placesOf, keys[..n], p, w - 1);
      if p in placesOf(keys[n]) {
        assert Recent(placesOf, keys, p, w);
      } else if Recent(placesOf, keys[..n], p, w - 1) {
        var j :| 0 <= j < n && n - j <= w - 1 && p in placesOf(keys[..n][j]);
        assert p in placesOf(keys[j]);
      } else {
        forall j | 0 <= j < n && |keys| - j <= w ensures p !in placesOf(keys[j]) { assert keys[..n][j] == keys[j]; }
      }
    }
  }

  /** A place is set exactly when it belongs to a key of the current generation or of the two before it. */
  lemma {:induction false} SetIffRecent<K(!new)>(placesOf: K -> seq<Place>, perGen: nat, size: nat, keys: seq<K>, p: Place)
    requires size % 2 == 0 && Maps(placesOf, size) && perGen > 0 && 2 * p.w + 1 < size
    ensures var f := After(placesOf, perGen, size, keys);
            Mark(f.data, p) != 0 <==> Recent(placesOf, keys, p, Window(f))
  {
    hide After, Mark, Recent;
    AfterMark(placesOf, perGen, size, keys, p);
    SinceIff(placesOf, keys, p, Window(After(placesOf, perGen, size, keys)));
  }

  /** A key is contained exactly when each of its places belongs to a recent key. */
  lemma {:induction false} ContainedIff<K(!new)>(placesOf: K -> seq<Place>, perGen: nat, size: nat, keys: seq<K>, key: K)
    requires size % 2 == 0 && Maps(placesOf, size) && perGen > 0
    ensures var f := After(placesOf, perGen, size, keys);
            && Fits(placesOf(key), |f.data|)
            && (Contains(f.data, placesOf(key)) <==>
                forall i :: 0 <= i < |placesOf(key)| ==> Recent(placesOf, keys, placesOf(key)[i], Window(f)))
  {
    hide Contains, After, Mark, Recent;
    var f, places := After(placesOf, perGen, size, keys), placesOf(key);
    assert Fits(places, |f.data|);
    ContainsMarks(f.data, places);
    forall i | 0 <= i < |places| ensures Mark(f.data, places[i]) != 0 <==> Recent(placesOf, keys, places[i], Window(f)) {
      SetIffRecent(placesOf, perGen, size, keys, places[i]);
    }
  }

  /**
   After any insertions since a reset, every one of the last nElements keys is contained, and so
   is every key of the two full generations before the current one.
   */
  lemma {:induction false} LastKeysContained<K(!new)>(placesOf: K -> seq<Place>, nElements: nat, size: nat, keys: seq<K>, j: nat)
    requires size % 2 == 0 && Maps(placesOf, size) && nElements >= 1 && j < |keys|
    requires |keys| - j <= nElements || |keys| - j <= Window(After(placesOf, (nElements + 1) / 2, size, keys))
    ensures var f := After(placesOf, (nElements + 1) / 2, size, keys);
            Fits(placesOf(keys[j]), |f.data|) && Contains(f.data, placesOf(keys[j]))
  {
    hide Contains, After;
    var perGen := (nElements + 1) / 2;
    var f := After(placesOf, perGen, size, keys);
    ContainedIff(placesOf, perGen, size, keys, keys[j]);
    AfterRunning(placesOf, perGen, size, keys);
    forall i | 0 <= i < |placesOf(keys[j])| ensures Recent(placesOf, keys, placesOf(keys[j])[i], Window(f)) { }
  }

  lemma {:induction false} AfterRunning<K(!new)>(placesOf: K -> seq<Place>, perGen: nat, size: nat, keys: seq<K>)
    requires size % 2 == 0 && Maps(placesOf, size) && perGen > 0
    ensures Running(After(placesOf, perGen, size, keys)) && After(placesOf, perGen, size, keys).perGen == perGen
    decreases |keys|
  {
    if keys != [] {
      hide Wipe, PutAll;
      AfterRunning(placesOf, perGen, size, keys[..|keys| - 1]);
    }
  }
}
