/** Optional values and small facts about collections, shared by the models. */
module Wrappers {
  function Max(a: int, b: int): int { if a < b then b else a }

  datatype Option<+T> = None | Some(value: T)

  function Get<K, V>(m: map<K, V>, k: K): Option<V> {
    if k in m then Some(m[k]) else None
  }

  function SetOrErase<K, V>(m: map<K, V>, k: K, v: Option<V>): map<K, V> {
    if v.Some? then m[k := v.value] else m - {k}
  }

  lemma SetOrEraseAt<K, V>(m: map<K, V>, k: K, v: Option<V>)
    ensures Get(SetOrErase(m, k, v), k) == v
    ensures forall j :: j != k ==> Get(SetOrErase(m, k, v), j) == Get(m, j)
  {
  }

  lemma MapEqual<K(!new), V>(m: map<K, V>, n: map<K, V>)
    requires forall k :: Get(m, k) == Get(n, k)
    ensures m == n
  {
    forall k ensures k in m <==> k in n { assert Get(m, k) == Get(n, k); }
    forall k | k in m ensures m[k] == n[k] { assert Get(m, k) == Get(n, k); }
  }

  lemma Pick<T>(s: set<T>) returns (x: T)
    requires s != {}
    ensures x in s
  {
    x :| x in s;
  }

  lemma {:induction false} SubsetCard<T>(a: set<T>, b: set<T>)
    requires a <= b
    ensures |a| <= |b|
  {
    var c := b - a;
    assert b == a + c;
  }

  lemma Swap<T>(h: multiset<T>, a: multiset<T>, b: multiset<T>)
    ensures (h + a) + b == (h + b) + a
  {
  }

  lemma Shuffle<T>(x: multiset<T>, a: multiset<T>, y: multiset<T>, b: multiset<T>, l: multiset<T>)
    requires x + a == y + b
    ensures (x + l) + a == (y + l) + b
  {
    calc { (x + l) + a; (x + a) + l; (y + b) + l; (y + l) + b; }
  }
}
