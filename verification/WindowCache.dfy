/**
 privaite/pii/window_cache.py: predictions kept for one scrub operation. Workers of a cancelled
 request may still call the cache after it has been closed.
 */
module WindowCaching {
  import opened Wrappers
  import opened Lru

  datatype Op<K, V> = Get(key: K) | Put(key: K, value: V) | Close

  datatype State<K, V> = State(entries: seq<Entry<K, V>>, closed: bool)

  function Step<K(==), V>(st: State<K, V>, op: Op<K, V>, max: nat): State<K, V> {
    match op
    case Get(k) => if Lookup(st.entries, k).Some? then st.(entries := Placed(st.entries, k, Lookup(st.entries, k).value)) else st
    case Put(k, v) => if st.closed then st else st.(entries := Trimmed(Placed(st.entries, k, v), max))
    case Close => State([], true)
  }

  /** The state after some operations, in the order in which they took the lock. */
  function After<K(==), V>(ops: seq<Op<K, V>>, max: nat): State<K, V> {
    if ops == [] then State([], false) else Step(After(ops[..|ops| - 1], max), ops[|ops| - 1], max)
  }

  ghost predicate Bounded<K, V>(st: State<K, V>, max: nat) {
    Distinct(st.entries) && |st.entries| <= max
  }

  /** However late a store comes, a closed cache stays empty; and it never outgrows its bound. */
  lemma {:induction false} ClosedStaysEmpty<K(!new), V>(ops: seq<Op<K, V>>, max: nat)
    ensures Bounded(After(ops, max), max)
    ensures After(ops, max).closed <==> Close in ops
    ensures Close in ops ==> After(ops, max).entries == []
    decreases |ops|
  {
    if ops != [] {
      var front, op := ops[..|ops| - 1], ops[|ops| - 1];
      ClosedStaysEmpty(front, max);
      assert ops == front + [op];
      StepBounded(After(front, max), op, max);
    }
  }

  lemma {:induction false} StepBounded<K(!new), V>(st: State<K, V>, op: Op<K, V>, max: nat)
    requires Bounded(st, max) && (st.closed ==> st.entries == [])
    ensures Bounded(Step(st, op, max), max)
    ensures Step(st, op, max).closed <==> st.closed || op.Close?
    ensures Step(st, op, max).closed ==> Step(st, op, max).entries == []
  {
    match op
    case Get(k) =>
      LookupFinds(st.entries, k);
      if Lookup(st.entries, k).Some? { PlacedDistinct(st.entries, k, Lookup(st.entries, k).value); }
    case Put(k, v) => PlacedDistinct(st.entries, k, v);
    case Close =>
  }

  // ----- what is found, and what is lost -----

  /** The entry is what was stored last under its key. */
  ghost predicate StoredLast<K(!new), V>(ops: seq<Op<K, V>>, e: Entry<K, V>) {
    exists i :: && 0 <= i < |ops| && ops[i] == Put(e.key, e.value)
                && forall j :: i < j < |ops| ==> !(ops[j].Put? && ops[j].key == e.key)
  }

  lemma {:induction false} StoredBefore<K(!new), V>(ops: seq<Op<K, V>>, op: Op<K, V>, e: Entry<K, V>)
    requires StoredLast(ops, e) && !(op.Put? && op.key == e.key)
    ensures StoredLast(ops + [op], e)
  {
    var i :| && 0 <= i < |ops| && ops[i] == Put(e.key, e.value)
             && forall j :: i < j < |ops| ==> !(ops[j].Put? && ops[j].key == e.key);
    assert (ops + [op])[i] == ops[i];
  }

  lemma {:induction false} PlacedHas<K(!new), V>(s: seq<Entry<K, V>>, k: K, v: V, max: nat, e: Entry<K, V>)
    requires e in Trimmed(Placed(s, k, v), max)
    ensures e == Entry(k, v) || (e in s && e.key != k)
  {
    WithoutHas(s, k);
    var placed := Placed(s, k, v);
    var i :| 0 <= i < |placed| && placed[i] == e;
    if i < |placed| - 1 { assert Without(s, k)[i] == e; }
  }

  /** Every entry is what was stored last under its key. */
  lemma {:induction false} EntriesAreStoredLast<K(!new), V>(ops: seq<Op<K, V>>, max: nat, e: Entry<K, V>)
    requires e in After(ops, max).entries
    ensures StoredLast(ops, e)
    decreases |ops|
  {
    var front, op := ops[..|ops| - 1], ops[|ops| - 1];
    var st := After(front, max);
    assert ops == front + [op];
    ClosedStaysEmpty(front, max);
    match op
    case Get(k) =>
      LookupFinds(st.entries, k);
      if Lookup(st.entries, k).Some? {
        var v := Lookup(st.entries, k).value;
        assert Trimmed(Placed(st.entries, k, v), |Placed(st.entries, k, v)|) == Placed(st.entries, k, v);
        PlacedHas(st.entries, k, v, |Placed(st.entries, k, v)|, e);
      }
      EntriesAreStoredLast(front, max, e);
      StoredBefore(front, op, e);
    case Put(k, v) =>
      if e == Entry(k, v) {
        assert ops[|ops| - 1] == Put(e.key, e.value);
      } else {
        PlacedHas(st.entries, k, v, max, e);
        EntriesAreStoredLast(front, max, e);
        StoredBefore(front, op, e);
      }
    case Close =>
  }

  /** A window that is found is what was stored last under its key, in a cache never closed. */
  lemma {:induction false} FoundIsStoredLast<K(!new), V>(ops: seq<Op<K, V>>, max: nat, k: K, v: V)
    requires Lookup(After(ops, max).entries, k) == Some(v)
    ensures StoredLast(ops, Entry(k, v)) && Close !in ops
  {
    ClosedStaysEmpty(ops, max);
    LookupFinds(After(ops, max).entries, k);
    EntriesAreStoredLast(ops, max, Entry(k, v));
  }

  /** The entry is there, with only these keys behind it. */
  ghost predicate Behind<K, V>(s: seq<Entry<K, V>>, e: Entry<K, V>, since: set<K>) {
    exists p :: 0 <= p < |s| && s[p] == e && forall j :: p < j < |s| ==> s[j].key in since
  }

  lemma {:induction false} BehindPlaced<K(!new), V>(s: seq<Entry<K, V>>, e: Entry<K, V>, since: set<K>, k: K, v: V)
    requires Distinct(s) && Behind(s, e, since) && k != e.key
    ensures Behind(Placed(s, k, v), e, since + {k})
  {
    var p :| 0 <= p < |s| && s[p] == e && forall j :: p < j < |s| ==> s[j].key in since;
    if i :| 0 <= i < |s| && s[i].key == k {
      WithoutDrops(s, i);
      assert Placed(s, k, v)[if i < p then p - 1 else p] == e;
    } else {
      forall x | x in s ensures x.key != k {
        var i :| 0 <= i < |s| && s[i] == x;
      }
      WithoutAbsent(s, k);
      assert Placed(s, k, v)[p] == e;
    }
  }

  lemma {:induction false} BehindTrimmed<K(!new), V>(s: seq<Entry<K, V>>, e: Entry<K, V>, since: set<K>, max: nat)
    requires Distinct(s) && Behind(s, e, since) && |since| < max
    ensures Behind(Trimmed(s, max), e, since)
  {
    var p :| 0 <= p < |s| && s[p] == e && forall j :: p < j < |s| ==> s[j].key in since;
    var tail := s[p + 1..];
    forall i | 0 <= i < |tail| ensures tail[i].key in since { assert tail[i] == s[p + 1 + i]; }
    KeysCount(tail, since);
    if |s| > max { assert Trimmed(s, max)[p - (|s| - max)] == e; }
  }

  predicate Uses<K(==), V>(op: Op<K, V>, k: K) {
    match op
    case Get(j) => j == k
    case Put(j, _) => j == k
    case Close => false
  }

  function KeysUsed<K(==), V>(ops: seq<Op<K, V>>): set<K> {
    set i | 0 <= i < |ops| && !ops[i].Close? :: ops[i].key
  }

  lemma {:induction false} LastIsUsed<K(!new), V>(a: seq<Op<K, V>>, max: nat, e: Entry<K, V>)
    requires a != [] && Uses(a[|a| - 1], e.key) && 1 <= max && e in After(a, max).entries
    ensures Behind(After(a, max).entries, e, {})
  {
    var s := After(a, max).entries;
    var st := After(a[..|a| - 1], max);
    ClosedStaysEmpty(a, max);
    ClosedStaysEmpty(a[..|a| - 1], max);
    LookupFinds(st.entries, e.key);
    var p :| 0 <= p < |s| && s[p] == e;
    assert s[|s| - 1].key == e.key;
  }

  lemma {:induction false} StepKeepsBehind<K(!new), V>(st: State<K, V>, op: Op<K, V>, max: nat, e: Entry<K, V>, since: set<K>, more: set<K>)
    requires Bounded(st, max) && Behind(st.entries, e, since) && !op.Close? && op.key != e.key
    requires more == since + {op.key} && |more| < max
    ensures Behind(Step(st, op, max).entries, e, more)
  {
    match op
    case Get(k) =>
      if Lookup(st.entries, k).Some? { BehindPlaced(st.entries, e, since, k, Lookup(st.entries, k).value); }
    case Put(k, v) =>
      if !st.closed {
        BehindPlaced(st.entries, e, since, k, v);
        PlacedDistinct(st.entries, k, v);
        BehindTrimmed(Placed(st.entries, k, v), e, more, max);
      }
  }

  lemma {:induction false} RecentIsBehind<K(!new), V>(a: seq<Op<K, V>>, b: seq<Op<K, V>>, max: nat, e: Entry<K, V>)
    requires a != [] && Uses(a[|a| - 1], e.key) && e in After(a, max).entries
    requires (forall op :: op in b ==> !op.Close? && !Uses(op, e.key)) && |KeysUsed(b)| < max
    ensures Behind(After(a + b, max).entries, e, KeysUsed(b))
    decreases |b|
  {
    if b == [] {
      assert a + b == a;
      LastIsUsed(a, max, e);
    } else {
      var n := |b| - 1;
      var front, op := a + b[..n], b[n];
      assert op in b && a + b == front + [op] && (front + [op])[..|front|] == front;
      KeysUsedNext(b);
      Fewer(KeysUsed(b[..n]), KeysUsed(b));
      RecentIsBehind(a, b[..n], max, e);
      ClosedStaysEmpty(front, max);
      StepKeepsBehind(After(front, max), op, max, e, KeysUsed(b[..n]), KeysUsed(b));
    }
  }

  lemma {:induction false} KeysUsedNext<K(!new), V>(b: seq<Op<K, V>>)
    requires b != [] && !b[|b| - 1].Close?
    ensures KeysUsed(b) == KeysUsed(b[..|b| - 1]) + {b[|b| - 1].key}
  {
    var n := |b| - 1;
    forall k | k in KeysUsed(b[..n]) ensures k in KeysUsed(b) {
      var i :| 0 <= i < n && !b[..n][i].Close? && b[..n][i].key == k;
      assert b[i].key == k;
    }
    assert b[n].key in KeysUsed(b);
    forall k | k in KeysUsed(b) && k != b[n].key ensures k in KeysUsed(b[..n]) {
      var i :| 0 <= i < |b| && !b[i].Close? && b[i].key == k;
      assert b[..n][i].key == k;
    }
  }

  lemma {:induction false} Fewer<T>(a: set<T>, b: set<T>)
    requires a <= b
    ensures |a| <= |b|
  {
    assert b == a + (b - a);
  }

  /** Only what has not been used for longest is lost: a window stored, or found, is found again as long
      as fewer than `max` other keys are used since and the cache is not closed. */
  lemma {:induction false} RecentIsFound<K(!new), V>(a: seq<Op<K, V>>, b: seq<Op<K, V>>, max: nat, e: Entry<K, V>)
    requires a != [] && Uses(a[|a| - 1], e.key) && e in After(a, max).entries
    requires (forall op :: op in b ==> !op.Close? && !Uses(op, e.key)) && |KeysUsed(b)| < max
    ensures Lookup(After(a + b, max).entries, e.key) == Some(e.value)
  {
    RecentIsBehind(a, b, max, e);
    ClosedStaysEmpty(a + b, max);
    LookupFinds(After(a + b, max).entries, e.key);
  }

  /** And a window just stored is there, unless the cache is closed. */
  lemma {:induction false} StoredIsThere<K(!new), V>(ops: seq<Op<K, V>>, k: K, v: V, max: nat)
    requires 1 <= max && Close !in ops
    ensures Entry(k, v) in After(ops + [Put(k, v)], max).entries
  {
    assert (ops + [Put(k, v)])[..|ops|] == ops;
    ClosedStaysEmpty(ops, max);
    var s := After(ops + [Put(k, v)], max).entries;
    assert s[|s| - 1] == Entry(k, v);
  }

  class WindowCache<K(==,!new), V> {
    const max: nat
    var entries: seq<Entry<K, V>>
    var closed: bool

    ghost function Now(): State<K, V>
      reads this
    {
      State(entries, closed)
    }

    constructor (max: nat)
      requires 1 <= max
      ensures Now() == State([], false) && this.max == max
    {
      this.max, entries, closed := max, [], false;
    }

    method GetWindow(k: K) returns (r: Option<V>)
      modifies this
      ensures r == Lookup(old(entries), k)
      ensures Now() == Step(old(Now()), Get(k), max)
    {
      r := Lookup(entries, k);
      if r.Some? {
        entries := Placed(entries, k, r.value);
      }
    }

    method PutWindow(k: K, v: V)
      modifies this
      ensures Now() == Step(old(Now()), Put(k, v), max)
    {
      if closed {
        return;
      }
      entries := Placed(entries, k, v);
      ghost var placed := entries;
      while |entries| > max
        invariant |entries| <= |placed| && !closed
        invariant if |placed| <= max then entries == placed else |entries| >= max && entries == placed[|placed| - |entries|..]
      {
        entries := entries[1..];
      }
    }

    method CloseCache()
      modifies this
      ensures Now() == Step(old(Now()), Close, max)
    {
      closed := true;
      entries := [];
    }
  }
}
