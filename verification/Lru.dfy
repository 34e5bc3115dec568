/**
 The ordered dictionary under both caches of privaite/pii: entries in the order of their last
 use, the least recently used first, and at most so many of them.
 */
module Lru {
  import opened Wrappers

  datatype Entry<K, V> = Entry(key: K, value: V)

  function Lookup<K(==), V>(s: seq<Entry<K, V>>, k: K): Option<V> {
    if s == [] then None
    else if s[0].key == k then Some(s[0].value)
    else Lookup(s[1..], k)
  }

  function Without<K(==), V>(s: seq<Entry<K, V>>, k: K): seq<Entry<K, V>> {
    if s == [] then []
    else (if s[0].key == k then [] else [s[0]]) + Without(s[1..], k)
  }

  /** Stored, or used again: the entry goes last. */
  function Placed<K(==), V>(s: seq<Entry<K, V>>, k: K, v: V): seq<Entry<K, V>> {
    Without(s, k) + [Entry(k, v)]
  }

  /** What eviction from the front leaves. */
  function Trimmed<K, V>(s: seq<Entry<K, V>>, max: nat): seq<Entry<K, V>> {
    if |s| <= max then s else s[|s| - max..]
  }

  function Keys<K, V>(s: seq<Entry<K, V>>): set<K> {
    set i | 0 <= i < |s| :: s[i].key
  }

  ghost predicate Distinct<K, V>(s: seq<Entry<K, V>>) {
    forall i, j :: 0 <= i < j < |s| ==> s[i].key != s[j].key
  }

  lemma {:induction false} LookupFinds<K, V>(s: seq<Entry<K, V>>, k: K)
    requires Distinct(s)
    ensures Lookup(s, k).Some? <==> k in Keys(s)
    ensures forall i :: 0 <= i < |s| && s[i].key == k ==> Lookup(s, k) == Some(s[i].value)
    ensures Lookup(s, k).Some? ==> Entry(k, Lookup(s, k).value) in s
    decreases |s|
  {
    if s != [] {
      LookupFinds(s[1..], k);
      assert forall i :: 0 < i < |s| ==> s[i] == s[1..][i - 1];
      if k in Keys(s) && s[0].key != k {
        var i :| 0 <= i < |s| && s[i].key == k;
        assert s[1..][i - 1].key == k;
      }
    }
  }

  lemma {:induction false} WithoutHas<K, V>(s: seq<Entry<K, V>>, k: K)
    ensures |Without(s, k)| <= |s|
    ensures forall i :: 0 <= i < |Without(s, k)| ==> Without(s, k)[i] in s && Without(s, k)[i].key != k
    ensures forall e :: e in s && e.key != k ==> e in Without(s, k)
    decreases |s|
  {
    if s != [] {
      WithoutHas(s[1..], k);
      assert s == [s[0]] + s[1..];
    }
  }

  lemma {:induction false} WithoutAbsent<K, V>(s: seq<Entry<K, V>>, k: K)
    requires forall e :: e in s ==> e.key != k
    ensures Without(s, k) == s
    decreases |s|
  {
    if s != [] {
      WithoutAbsent(s[1..], k);
      assert s == [s[0]] + s[1..] && s[0] in s;
    }
  }

  lemma {:induction false} WithoutDrops<K, V>(s: seq<Entry<K, V>>, i: nat)
    requires Distinct(s) && i < |s|
    ensures Without(s, s[i].key) == s[..i] + s[i + 1..]
    decreases |s|
  {
    var k := s[i].key;
    if i == 0 {
      forall e | e in s[1..] ensures e.key != k {}
      WithoutAbsent(s[1..], k);
    } else {
      WithoutDrops(s[1..], i - 1);
      assert s[..i] == [s[0]] + s[1..][..i - 1] && s[1..][i..] == s[i + 1..];
    }
  }

  /** Entries in the order of their use, the latest last. */
  ghost predicate InOrder<K, V>(s: seq<Entry<K, V>>, used: K -> int) {
    forall i, j :: 0 <= i < j < |s| ==> used(s[i].key) < used(s[j].key)
  }

  lemma {:induction false} WithoutInOrder<K, V>(s: seq<Entry<K, V>>, k: K, used: K -> int)
    requires InOrder(s, used)
    ensures InOrder(Without(s, k), used)
    decreases |s|
  {
    if s != [] {
      WithoutInOrder(s[1..], k, used);
      WithoutHas(s[1..], k);
      var rest := Without(s[1..], k);
      forall j | 0 <= j < |rest| ensures used(s[0].key) < used(rest[j].key) {
        assert rest[j] in s[1..];
      }
    }
  }

  /** The other entries in their order, and then the one just used. */
  lemma {:induction false} PlacedInOrder<K, V>(s: seq<Entry<K, V>>, k: K, v: V, used: K -> int, used': K -> int)
    requires InOrder(s, used)
    requires forall e :: e in s && e.key != k ==> used'(e.key) == used(e.key) < used'(k)
    ensures InOrder(Placed(s, k, v), used')
  {
    WithoutInOrder(s, k, used);
    WithoutHas(s, k);
    var rest := Without(s, k);
    forall i | 0 <= i < |rest| ensures used'(rest[i].key) == used(rest[i].key) < used'(k) {
      assert rest[i] in s;
    }
  }

  lemma {:induction false} OrderIsDistinct<K(!new), V>(s: seq<Entry<K, V>>, used: K -> int)
    requires InOrder(s, used)
    ensures Distinct(s)
  {
  }

  lemma {:induction false} InOrderFront<K, V>(s: seq<Entry<K, V>>, e: Entry<K, V>, used: K -> int)
    requires InOrder(s + [e], used)
    ensures InOrder(s, used)
  {
    forall i | 0 <= i < |s| ensures s[i] == (s + [e])[i] {}
  }

  lemma {:induction false} TrimmedInOrder<K, V>(s: seq<Entry<K, V>>, max: nat, used: K -> int)
    requires InOrder(s, used)
    ensures InOrder(Trimmed(s, max), used) && |Trimmed(s, max)| <= max
  {
  }

  lemma {:induction false} KeysCount<K(!new), V>(s: seq<Entry<K, V>>, keys: set<K>)
    requires Distinct(s) && forall i :: 0 <= i < |s| ==> s[i].key in keys
    ensures |s| <= |keys|
    decreases |s|
  {
    if s != [] {
      var n := |s| - 1;
      KeysCount(s[..n], keys - {s[n].key});
    }
  }

  lemma {:induction false} DropOne<K(!new), V>(s: seq<Entry<K, V>>, k: K)
    requires Distinct(s) && k in Keys(s)
    ensures Distinct(Without(s, k)) && |Without(s, k)| == |s| - 1
    ensures forall v :: Distinct(Placed(s, k, v)) && |Placed(s, k, v)| == |s|
  {
    var i :| 0 <= i < |s| && s[i].key == k;
    WithoutDrops(s, i);
  }

  lemma {:induction false} PlacedDistinct<K(!new), V>(s: seq<Entry<K, V>>, k: K, v: V)
    requires Distinct(s)
    ensures Distinct(Placed(s, k, v)) && |Placed(s, k, v)| == |s| + if k in Keys(s) then 0 else 1
  {
    if k in Keys(s) {
      DropOne(s, k);
    } else {
      forall e | e in s ensures e.key != k {
        var i :| 0 <= i < |s| && s[i] == e;
        assert s[i].key in Keys(s);
      }
      WithoutAbsent(s, k);
    }
  }
}
