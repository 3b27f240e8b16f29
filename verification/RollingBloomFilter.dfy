/** The rolling filter object, with the keys inserted since the last reset kept as its history. */
module RollingBloomFilters {
  import opened Bloom
  import opened FastRange
  import opened Powers

  type Key = seq<bv8>

  /** Which bit of which pair of words a hash selects. */
  function PlaceOf(h: Word, size: nat): Place { Place(Scale(h, size) / 2, (h % 64) as bv6) }

  /** Hashes that differ in their low six bits have different places. */
  lemma {:induction false} PlacesDiffer(h: Word, k: Word, size: nat)
    requires h % 64 != k % 64
    ensures PlaceOf(h, size) != PlaceOf(k, size)
  {
    hide Scale;
    SixBits(h % 64, k % 64);
  }

  lemma SixBits(m: nat, n: nat)
    requires m < 64 && n < 64 && m != n
    ensures m as bv6 != n as bv6
  {
    assert (m as bv6) as nat == m;
    assert (n as bv6) as nat == n;
  }

  /** In a filter of at most 2^26 words every place is the place of some hash. */
  lemma {:induction false} EveryPlaceUsed(w: nat, b: nat, size: nat) returns (h: Word)
    requires b < 64 && 2 * w + 1 < size <= 0x400_0000
    ensures PlaceOf(h, size) == Place(w, b as bv6)
  {
    hide Scale;
    var start := (2 * w * 0x1_0000_0000 + size - 1) / size;
    Rounded(2 * w * 0x1_0000_0000, size);
    var n := Residue(start, b);
    Within(start, n, size, 2 * w * 0x1_0000_0000);
    InRange(n, size, w);
    h := n;
  }

  lemma Residue(start: nat, b: nat) returns (n: nat)
    requires b < 64
    ensures start <= n < start + 64 && n % 64 == b
  {
    n := start + (b - start) % 64;
  }

  lemma {:induction false} Within(start: nat, n: nat, size: nat, x: nat)
    requires start <= n < start + 64 && x <= start * size < x + size && size <= 0x400_0000
    ensures x <= n * size < x + 0x1_0000_0000
  {
    MulLe(start, n, size);
    MulLe(n, start + 63, size);
    assert (start + 63) * size == start * size + 63 * size;
  }

  lemma Rounded(x: nat, size: nat)
    requires size > 0
    ensures var q := (x + size - 1) / size; x <= q * size < x + size
  {
    var y := x + size - 1;
    assert y == y / size * size + y % size;
  }

  lemma InRange(n: nat, size: nat, w: nat)
    requires 2 * w * 0x1_0000_0000 <= n * size < (2 * w + 1) * 0x1_0000_0000 && 2 * w + 1 < size
    ensures n < 0x1_0000_0000 && Scale(n, size) == 2 * w
  {
    if n >= 0x1_0000_0000 { MulLe(0x1_0000_0000, n, size); }
  }

  function PlacesOf(hash: (nat, Word, Key) -> Word, nHashFuncs: nat, tweak: Word, size: nat): Key -> seq<Place> {
    key => Places(hash, nHashFuncs, tweak, size, key)
  }

  function Places(hash: (nat, Word, Key) -> Word, nHashFuncs: nat, tweak: Word, size: nat, key: Key): (r: seq<Place>)
    ensures |r| == nHashFuncs
    ensures forall n :: 0 <= n < nHashFuncs ==> r[n] == PlaceOf(hash(n, tweak, key), size)
  {
    seq(nHashFuncs, (n: nat) => PlaceOf(hash(n, tweak, key), size))
  }

  lemma {:induction false} PlacesFit(hash: (nat, Word, Key) -> Word, nHashFuncs: nat, tweak: Word, size: nat)
    requires size > 0 && size % 2 == 0
    ensures Maps(PlacesOf(hash, nHashFuncs, tweak, size), size)
  {
    forall key: Key ensures Fits(PlacesOf(hash, nHashFuncs, tweak, size)(key), size) {
      forall n | 0 <= n < nHashFuncs ensures 2 * Places(hash, nHashFuncs, tweak, size, key)[n].w + 1 < size {
        ScaleOk(hash(n, tweak, key), size);
      }
    }
  }

  method FillZero(data: array<bv64>)
    modifies data
    ensures data[..] == Cleared(0, data.Length).data
  {
    for i := 0 to data.Length
      invariant forall k :: 0 <= k < i ==> data[k] == 0
    {
      data[i] := 0;
    }
  }

  /** Clears the places that carry the generation number about to be reused. */
  method WipeAll(data: array<bv64>, gen: int)
    requires data.Length % 2 == 0
    modifies data
    ensures data[..] == Wipe(old(data[..]), gen)
  {
    hide Wipe, WipePair;
    ghost var before := data[..];
    var p := 0;
    WipeStart(before, gen);
    while p < data.Length
      invariant p % 2 == 0 && p <= data.Length
      invariant data[..] == Wipe(before[..p], gen) + before[p..]
    {
      WipeNext(before, p, gen);
      WipeWords(data, p, gen);
      p := p + 2;
    }
    WipeEnd(before, gen);
  }

  method WipeWords(data: array<bv64>, p: nat, gen: int)
    requires p + 2 <= data.Length
    modifies data
    ensures var (a, b) := WipePair(old(data[p]), old(data[p + 1]), gen); data[..] == old(data[..])[p := a][p + 1 := b]
  {
    hide WipePair;
    var (p1, p2) := WipePair(data[p], data[p + 1], gen);
    data[p] := p1;
    data[p + 1] := p2;
  }

  /** Writes one place of the pair of words at the even index. */
  method SetPlace(data: array<bv64>, even: nat, bit: bv6, gen: int)
    requires even % 2 == 0 && even + 1 < data.Length
    modifies data
    ensures data[..] == Put(old(data[..]), Place(even / 2, bit), gen)
  {
    hide SetWord, Low, High;
    data[even] := SetWord(data[even], bit, Low(gen));
    data[even + 1] := SetWord(data[even + 1], bit, High(gen));
  }

  class RollingBloomFilter {
    const nElements: nat
    const nHashFuncs: nat
    const data: array<bv64>
    const hash: (nat, Word, Key) -> Word
    var nEntriesPerGeneration: nat
    var nEntriesThisGeneration: nat
    var nGeneration: int
    var nTweak: Word
    ghost var keys: seq<Key>

    ghost function Mapping(): Key -> seq<Place>
      reads this`nTweak
    {
      PlacesOf(hash, nHashFuncs, nTweak, data.Length)
    }

    ghost predicate Shape()
      reads this
    {
      nElements >= 1 && data.Length > 0 && data.Length % 2 == 0 && nEntriesPerGeneration == (nElements + 1) / 2
      && 1 <= nGeneration <= 3
    }

    ghost function Now(): Filter
      reads this, data
    {
      Filter(nEntriesPerGeneration, nEntriesThisGeneration, nGeneration, data[..])
    }

    ghost predicate Valid()
      reads this, data
    {
      && Shape()
      && Maps(Mapping(), data.Length)
      && Now() == After(Mapping(), nEntriesPerGeneration, data.Length, keys)
    }

    /** The sizes come from the floating-point estimate; the tweak is the random draw of the first reset. */
    constructor (elements: nat, hashFuncs: nat, pairs: nat, hashFunction: (nat, Word, Key) -> Word, tweak: Word)
      requires elements >= 1 && hashFuncs >= 1 && pairs >= 1
      ensures Valid() && fresh(data) && keys == [] && nElements == elements
    {
      nElements, nHashFuncs, hash := elements, hashFuncs, hashFunction;
      nEntriesPerGeneration := (elements + 1) / 2;
      data := new bv64[2 * pairs];
      nGeneration, nEntriesThisGeneration, nTweak, keys := 1, 0, tweak, [];
      new;
      Reset(tweak);
    }

    method Reset(tweak: Word)
      requires Shape()
      modifies this`nTweak, this`nEntriesThisGeneration, this`nGeneration, this`keys, data
      ensures Valid() && keys == [] && nTweak == tweak && nEntriesThisGeneration == 0 && nGeneration == 1
    {
      nTweak := tweak;
      nEntriesThisGeneration := 0;
      nGeneration := 1;
      FillZero(data);
      keys := [];
      PlacesFit(hash, nHashFuncs, nTweak, data.Length);
    }

    method Insert(key: Key)
      requires Valid()
      modifies this`nEntriesThisGeneration, this`nGeneration, this`keys, data
      ensures Valid() && keys == old(keys) + [key]
    {
      hide Wipe, PutAll, After, Places, Scale;
      ghost var f := Now();
      PlacesFit(hash, nHashFuncs, nTweak, data.Length);
      GenerationOk(Mapping(), nEntriesPerGeneration, data.Length, keys);
      if nEntriesThisGeneration == nEntriesPerGeneration {
        nEntriesThisGeneration := 0;
        nGeneration := nGeneration + 1;
        if nGeneration == 4 {
          nGeneration := 1;
        }
        WipeAll(data, nGeneration);
      }
      assert Now() == Turned(f);
      nEntriesThisGeneration := nEntriesThisGeneration + 1;
      SetPlaces(key);
      keys := keys + [key];
      AfterNext(Mapping(), nEntriesPerGeneration, data.Length, old(keys), key);
    }

    /** Marks every place of the key with the current generation. */
    method SetPlaces(key: Key)
      requires Shape() && Maps(Mapping(), data.Length)
      modifies data
      ensures Fits(Mapping()(key), |old(data[..])|)
      ensures data[..] == PutAll(old(data[..]), Mapping()(key), nGeneration)
    {
      hide Scale, Put, PutAll, Places;
      ghost var before := data[..];
      ghost var places := Places(hash, nHashFuncs, nTweak, data.Length, key);
      assert places == Mapping()(key) && Fits(Mapping()(key), data.Length);
      PutNone(before, places, nGeneration);
      for n := 0 to nHashFuncs
        invariant Fits(places[..n], |before|) && data[..] == PutAll(before, places[..n], nGeneration)
      {
        var h := hash(n, nTweak, key);
        var bit := (h % 64) as bv6;
        var pos := Scale(h, data.Length);
        var even := 2 * (pos / 2);
        assert places[n] == Place(pos / 2, bit);
        PutNext(before, places, n, nGeneration);
        SetPlace(data, even, bit, nGeneration);
      }
      assert places[..nHashFuncs] == places;
    }

    /**
     True exactly when every place of the key belongs to a key of the current or of the two earlier
     generations, so for each of those keys, and for each of the last nElements.
     */
    method Contains(key: Key) returns (r: bool)
      requires Valid()
      ensures r <==> forall i :: 0 <= i < |Mapping()(key)| ==>
                Recent(Mapping(), keys, Mapping()(key)[i], nEntriesThisGeneration + 2 * nEntriesPerGeneration)
      ensures forall j :: 0 <= j < |keys| && keys[j] == key && |keys| - j <= nElements ==> r
      ensures forall j :: 0 <= j < |keys| && keys[j] == key && |keys| - j <= nEntriesThisGeneration + 2 * nEntriesPerGeneration ==> r
    {
      hide After, Bloom.Contains, Recent;
      ghost var places := Mapping()(key);
      ContainedIff(Mapping(), nEntriesPerGeneration, data.Length, keys, key);
      assert Fits(places, data.Length);
      forall j | 0 <= j < |keys| && keys[j] == key
        && (|keys| - j <= nElements || |keys| - j <= nEntriesThisGeneration + 2 * nEntriesPerGeneration)
        ensures Bloom.Contains(data[..], places)
      {
        LastKeysContained(Mapping(), nElements, data.Length, keys, j);
      }
      r := HasPlaces(key);
    }

    method HasPlaces(key: Key) returns (r: bool)
      requires Shape() && Maps(Mapping(), data.Length)
      ensures Fits(Mapping()(key), data.Length) && r == Bloom.Contains(data[..], Mapping()(key))
    {
      hide Bit, Or, Scale;
      ghost var places := Places(hash, nHashFuncs, nTweak, data.Length, key);
      assert places == Mapping()(key) && Fits(Mapping()(key), data.Length);
      for n := 0 to nHashFuncs
        invariant forall i :: 0 <= i < n ==> Bit(Or(data[2 * places[i].w], data[2 * places[i].w + 1]), places[i].b)
      {
        var h := hash(n, nTweak, key);
        var bit := (h % 64) as bv6;
        var pos := Scale(h, data.Length);
        assert places[n] == Place(pos / 2, bit);
        var even := 2 * (pos / 2);
        if !Bit(Or(data[even], data[even + 1]), bit) {
          return false;
        }
      }
      return true;
    }
  }

  lemma {:induction false} WipeStart(data: seq<bv64>, gen: int)
    ensures data == Wipe(data[..0], gen) + data[0..]
  {
  }

  lemma {:induction false} WipeEnd(data: seq<bv64>, gen: int)
    requires |data| % 2 == 0
    ensures Wipe(data[..|data|], gen) + data[|data|..] == Wipe(data, gen)
  {
    assert data[..|data|] == data;
  }

  lemma {:induction false} WipeNext(data: seq<bv64>, p: nat, gen: int)
    requires p + 2 <= |data| && p % 2 == 0
    ensures var (a, b) := WipePair(data[p], data[p + 1], gen);
            var now := Wipe(data[..p], gen) + data[p..];
            && now[p] == data[p] && now[p + 1] == data[p + 1]
            && now[p := a][p + 1 := b] == Wipe(data[..p + 2], gen) + data[p + 2..]
  {
    hide WipePair;
    assert data[..p + 2][..p] == data[..p];
  }

  lemma {:induction false} PutNone(data: seq<bv64>, places: seq<Place>, gen: int)
    ensures Fits(places[..0], |data|) && PutAll(data, places[..0], gen) == data
  {
  }

  lemma {:induction false} PutNext(data: seq<bv64>, places: seq<Place>, n: nat, gen: int)
    requires n < |places| && Fits(places, |data|)
    ensures Fits(places[..n], |data|) && Fits(places[..n + 1], |data|)
    ensures PutAll(data, places[..n + 1], gen) == Put(PutAll(data, places[..n], gen), places[n], gen)
  {
    hide Put;
    assert places[..n + 1][..n] == places[..n];
  }

  lemma {:induction false} AfterNext(placesOf: Key -> seq<Place>, perGen: nat, size: nat, keys: seq<Key>, key: Key)
    requires size % 2 == 0 && Maps(placesOf, size)
    ensures Fits(placesOf(key), size)
    ensures After(placesOf, perGen, size, keys + [key]) == Insert(After(placesOf, perGen, size, keys), placesOf(key))
  {
    hide Insert;
    assert (keys + [key])[..|keys|] == keys;
    assert Fits(placesOf(key), size);
  }

  lemma {:induction false} GenerationOk(placesOf: Key -> seq<Place>, perGen: nat, size: nat, keys: seq<Key>)
    requires size % 2 == 0 && Maps(placesOf, size) && perGen > 0
    ensures 1 <= After(placesOf, perGen, size, keys).gen <= 3
  {
    AfterRunning(placesOf, perGen, size, keys);
  }
}
