/**
 privaite/pii/cache.py: the detection cache, bounded in size and in age.
 */
module DetectionCaching {
  import opened Wrappers
  import opened Lru

  datatype Stored<D> = Stored(at: real, detection: D)

  predicate Expired<D>(v: Stored<D>, now: real, ttl: real) {
    now - v.at > ttl
  }

  /** The entries that may still be served. */
  function Unexpired<K, D>(s: seq<Entry<K, Stored<D>>>, now: real, ttl: real): seq<Entry<K, Stored<D>>> {
    if s == [] then []
    else (if Expired(s[0].value, now, ttl) then [] else [s[0]]) + Unexpired(s[1..], now, ttl)
  }

  /** The entries after a lookup: an expired entry goes, a hit is used again. */
  function AfterGet<K(==), D>(s: seq<Entry<K, Stored<D>>>, k: K, now: real, ttl: real): seq<Entry<K, Stored<D>>> {
    match Lookup(s, k)
    case None => s
    case Some(v) => if Expired(v, now, ttl) then Without(s, k) else Placed(s, k, v)
  }

  function Got<K(==), D>(s: seq<Entry<K, Stored<D>>>, k: K, now: real, ttl: real): Option<D> {
    match Lookup(s, k)
    case None => None
    case Some(v) => if Expired(v, now, ttl) then None else Some(v.detection)
  }

  /** The entries after a store: what has expired goes, and what has not been used longest. */
  function AfterPut<K(==), D>(s: seq<Entry<K, Stored<D>>>, k: K, d: D, now: real, ttl: real, max: nat): seq<Entry<K, Stored<D>>> {
    Trimmed(Placed(Unexpired(s, now, ttl), k, Stored(now, d)), max)
  }

  lemma {:induction false} UnexpiredHas<K, D>(s: seq<Entry<K, Stored<D>>>, now: real, ttl: real)
    ensures |Unexpired(s, now, ttl)| <= |s|
    ensures forall i :: 0 <= i < |Unexpired(s, now, ttl)| ==>
              Unexpired(s, now, ttl)[i] in s && !Expired(Unexpired(s, now, ttl)[i].value, now, ttl)
    ensures forall e :: e in s && !Expired(e.value, now, ttl) ==> e in Unexpired(s, now, ttl)
    decreases |s|
  {
    if s != [] {
      UnexpiredHas(s[1..], now, ttl);
      assert s == [s[0]] + s[1..];
    }
  }

  lemma {:induction false} UnexpiredInOrder<K, D>(s: seq<Entry<K, Stored<D>>>, now: real, ttl: real, used: K -> int)
    requires InOrder(s, used)
    ensures InOrder(Unexpired(s, now, ttl), used)
    decreases |s|
  {
    if s != [] {
      UnexpiredInOrder(s[1..], now, ttl, used);
      UnexpiredHas(s[1..], now, ttl);
      var rest := Unexpired(s[1..], now, ttl);
      forall i | 0 <= i < |rest| ensures used(s[0].key) < used(rest[i].key) {
        assert rest[i] in s[1..];
      }
    }
  }

  // ----- runs -----

  datatype Op<K, D> = Get(key: K, now: real) | Put(key: K, now: real, detection: D)

  /** A cache's limits. */
  datatype Limits = Limits(max: nat, ttl: real)

  function Step<K(==), D>(s: seq<Entry<K, Stored<D>>>, op: Op<K, D>, limits: Limits): seq<Entry<K, Stored<D>>> {
    match op
    case Get(k, now) => AfterGet(s, k, now, limits.ttl)
    case Put(k, now, d) => AfterPut(s, k, d, now, limits.ttl, limits.max)
  }

  /** The entries of a new cache after some operations. */
  function After<K(==), D>(ops: seq<Op<K, D>>, limits: Limits): seq<Entry<K, Stored<D>>> {
    if ops == [] then [] else Step(After(ops[..|ops| - 1], limits), ops[|ops| - 1], limits)
  }

  /** The last operation on a key. */
  function LastUse<K(==), D>(ops: seq<Op<K, D>>, k: K): int {
    if ops == [] then -1
    else if ops[|ops| - 1].key == k then |ops| - 1
    else LastUse(ops[..|ops| - 1], k)
  }

  function LastPut<K(==), D>(ops: seq<Op<K, D>>, k: K): int {
    if ops == [] then -1
    else if ops[|ops| - 1].Put? && ops[|ops| - 1].key == k then |ops| - 1
    else LastPut(ops[..|ops| - 1], k)
  }

  lemma {:induction false} LastUseIsLast<K, D>(ops: seq<Op<K, D>>, k: K)
    ensures -1 <= LastUse(ops, k) < |ops|
    ensures LastUse(ops, k) >= 0 ==> ops[LastUse(ops, k)].key == k
    ensures forall i :: LastUse(ops, k) < i < |ops| ==> ops[i].key != k
    decreases |ops|
  {
    if ops != [] {
      LastUseIsLast(ops[..|ops| - 1], k);
    }
  }

  lemma {:induction false} LastPutIsLast<K, D>(ops: seq<Op<K, D>>, k: K)
    ensures -1 <= LastPut(ops, k) < |ops|
    ensures LastPut(ops, k) >= 0 ==> ops[LastPut(ops, k)].Put? && ops[LastPut(ops, k)].key == k
    ensures forall i :: LastPut(ops, k) < i < |ops| ==> !ops[i].Put? || ops[i].key != k
    decreases |ops|
  {
    if ops != [] {
      LastPutIsLast(ops[..|ops| - 1], k);
    }
  }

  ghost function Used<K(!new), D>(ops: seq<Op<K, D>>): K -> int {
    (k: K) => LastUse(ops, k)
  }

  /** `used'` is `used` after a use of `k`. */
  ghost predicate Later<K(!new)>(used: K -> int, used': K -> int, k: K) {
    forall j :: if j == k then used(j) < used'(k) else used'(j) == used(j) < used'(k)
  }

  lemma {:induction false} GetInOrder<K(!new), D>(s: seq<Entry<K, Stored<D>>>, k: K, now: real, ttl: real, used: K -> int, used': K -> int)
    requires InOrder(s, used) && Later(used, used', k)
    ensures InOrder(AfterGet(s, k, now, ttl), used')
  {
    OrderIsDistinct(s, used);
    LookupFinds(s, k);
    if Lookup(s, k).Some? {
      PlacedInOrder(s, k, Lookup(s, k).value, used, used');
      InOrderFront(Without(s, k), Entry(k, Lookup(s, k).value), used');
    } else {
      forall i | 0 <= i < |s| ensures used'(s[i].key) == used(s[i].key) {
        assert s[i].key in Keys(s);
      }
    }
  }

  lemma {:induction false} PutInOrder<K(!new), D>(s: seq<Entry<K, Stored<D>>>, k: K, d: D, now: real, ttl: real, used: K -> int, used': K -> int)
    requires InOrder(s, used) && Later(used, used', k)
    ensures InOrder(Placed(Unexpired(s, now, ttl), k, Stored(now, d)), used')
  {
    UnexpiredInOrder(s, now, ttl, used);
    PlacedInOrder(Unexpired(s, now, ttl), k, Stored(now, d), used, used');
  }

  lemma {:induction false} OpIsLater<K(!new), D>(ops: seq<Op<K, D>>, op: Op<K, D>)
    ensures Later(Used(ops), Used(ops + [op]), op.key)
  {
    assert (ops + [op])[..|ops|] == ops;
    forall k ensures LastUse(ops, k) < |ops| {
      LastUseIsLast(ops, k);
    }
  }

  /** A cache keeps its entries in the order of their last use, and no more than it may. */
  lemma {:induction false} RunInOrder<K(!new), D>(ops: seq<Op<K, D>>, limits: Limits)
    ensures InOrder(After(ops, limits), Used(ops))
    ensures |After(ops, limits)| <= limits.max
    decreases |ops|
  {
    if ops != [] {
      var front, op := ops[..|ops| - 1], ops[|ops| - 1];
      RunInOrder(front, limits);
      assert ops == front + [op];
      var s, used, used' := After(front, limits), Used(front), Used(ops);
      OpIsLater(front, op);
      match op
      case Get(k, now) =>
        GetInOrder(s, k, now, limits.ttl, used, used');
        GetKeepsSize(s, k, now, limits.ttl, used);
      case Put(k, now, d) =>
        PutInOrder(s, k, d, now, limits.ttl, used, used');
        TrimmedInOrder(Placed(Unexpired(s, now, limits.ttl), k, Stored(now, d)), limits.max, used');
    }
  }

  lemma {:induction false} GetKeepsSize<K(!new), D>(s: seq<Entry<K, Stored<D>>>, k: K, now: real, ttl: real, used: K -> int)
    requires InOrder(s, used)
    ensures |AfterGet(s, k, now, ttl)| <= |s|
  {
    OrderIsDistinct(s, used);
    LookupFinds(s, k);
    WithoutHas(s, k);
    if Lookup(s, k).Some? {
      var i :| 0 <= i < |s| && s[i].key == k;
      WithoutDrops(s, i);
    }
  }

  // ----- what a run keeps -----

  lemma {:induction false} GetHas<K(!new), D>(s: seq<Entry<K, Stored<D>>>, k: K, now: real, ttl: real)
    requires Distinct(s)
    ensures forall i :: 0 <= i < |AfterGet(s, k, now, ttl)| ==> AfterGet(s, k, now, ttl)[i] in s
    ensures forall e :: e in s && e.key != k ==> e in AfterGet(s, k, now, ttl)
  {
    LookupFinds(s, k);
    WithoutHas(s, k);
  }

  lemma {:induction false} PutHas<K(!new), D>(s: seq<Entry<K, Stored<D>>>, k: K, d: D, now: real, ttl: real, max: nat)
    ensures forall i :: 0 <= i < |AfterPut(s, k, d, now, ttl, max)| ==>
              var e := AfterPut(s, k, d, now, ttl, max)[i];
              e == Entry(k, Stored(now, d)) || (e in s && e.key != k && !Expired(e.value, now, ttl))
    ensures max > 0 ==> Entry(k, Stored(now, d)) in AfterPut(s, k, d, now, ttl, max)
  {
    var live := Unexpired(s, now, ttl);
    UnexpiredHas(s, now, ttl);
    WithoutHas(live, k);
    var placed, after := Placed(live, k, Stored(now, d)), AfterPut(s, k, d, now, ttl, max);
    forall i | 0 <= i < |after| ensures after[i] in placed {}
    forall i | 0 <= i < |placed| - 1 ensures placed[i] in s && placed[i].key != k && !Expired(placed[i].value, now, ttl) {
      assert placed[i] == Without(live, k)[i] && placed[i] in live;
      var j :| 0 <= j < |live| && live[j] == placed[i];
    }
    if max > 0 { assert after[|after| - 1] == Entry(k, Stored(now, d)); }
  }

  ghost predicate IsLastPut<K(!new), D>(ops: seq<Op<K, D>>, e: Entry<K, Stored<D>>) {
    var p := LastPut(ops, e.key);
    0 <= p < |ops| && ops[p].Put? && e.value == Stored(ops[p].now, ops[p].detection)
  }

  /** Every entry is what was last stored under its key. */
  lemma {:induction false} EntriesAreLastPuts<K(!new), D>(ops: seq<Op<K, D>>, limits: Limits)
    ensures forall i :: 0 <= i < |After(ops, limits)| ==> IsLastPut(ops, After(ops, limits)[i])
    decreases |ops|
  {
    if ops != [] {
      var front, op := ops[..|ops| - 1], ops[|ops| - 1];
      var s, after := After(front, limits), After(ops, limits);
      EntriesAreLastPuts(front, limits);
      RunInOrder(front, limits);
      OrderIsDistinct(s, Used(front));
      match op
      case Get(k, now) => GetHas(s, k, now, limits.ttl);
      case Put(k, now, d) => PutHas(s, k, d, now, limits.ttl, limits.max);
      forall i | 0 <= i < |after| ensures IsLastPut(ops, after[i]) {
        if op.Get? || after[i].key != op.key {
          assert after[i] in s;
          var j :| 0 <= j < |s| && s[j] == after[i];
          assert IsLastPut(front, s[j]);
        }
      }
    }
  }

  /** What a lookup serves was stored last under its key, and is no older than the limit. */
  lemma {:induction false} ServedIsLastPut<K(!new), D>(ops: seq<Op<K, D>>, limits: Limits, k: K, now: real)
    requires Got(After(ops, limits), k, now, limits.ttl).Some?
    ensures var p := LastPut(ops, k);
            && 0 <= p < |ops| && ops[p].Put? && now - ops[p].now <= limits.ttl
            && Got(After(ops, limits), k, now, limits.ttl) == Some(ops[p].detection)
  {
    var s := After(ops, limits);
    RunInOrder(ops, limits);
    OrderIsDistinct(s, Used(ops));
    LookupFinds(s, k);
    EntriesAreLastPuts(ops, limits);
    var i :| 0 <= i < |s| && s[i].key == k;
    assert IsLastPut(ops, s[i]);
  }

  /** A store leaves nothing that has expired. */
  lemma {:induction false} PutLeavesNoExpired<K(!new), D>(s: seq<Entry<K, Stored<D>>>, k: K, d: D, now: real, ttl: real, max: nat)
    requires ttl > 0.0
    ensures forall i :: 0 <= i < |AfterPut(s, k, d, now, ttl, max)| ==> now - AfterPut(s, k, d, now, ttl, max)[i].value.at <= ttl
  {
    PutHas(s, k, d, now, ttl, max);
  }

  // ----- least recently used -----

  function KeysUsed<K, D>(ops: seq<Op<K, D>>): set<K> {
    set i | 0 <= i < |ops| :: ops[i].key
  }

  /** An entry goes last enough to survive an eviction: those after it were used since. */
  lemma {:induction false} SurvivesTrim<K(!new), V>(s: seq<Entry<K, V>>, used: K -> int, e: Entry<K, V>, since: set<K>, max: nat)
    requires InOrder(s, used) && e in s && |since| < max
    requires forall k :: used(e.key) < used(k) ==> k in since
    ensures e in Trimmed(s, max)
  {
    var p :| 0 <= p < |s| && s[p] == e;
    var tail := s[p + 1..];
    forall i | 0 <= i < |tail| ensures tail[i].key in since {
      assert tail[i] == s[p + 1 + i];
    }
    OrderIsDistinct(s, used);
    KeysCount(tail, since);
    if |s| > max { assert s[|s| - max..][p - (|s| - max)] == e; }
  }

  /** After a use of a key, only the keys used later count as used later. */
  lemma {:induction false} UsedLater<K(!new), D>(a: seq<Op<K, D>>, b: seq<Op<K, D>>, k: K)
    requires a != [] && a[|a| - 1].key == k && forall op :: op in b ==> op.key != k
    ensures LastUse(a + b, k) == |a| - 1
    ensures forall j :: Used(a + b)(k) < Used(a + b)(j) ==> j in KeysUsed(b)
  {
    var ops := a + b;
    assert ops[|a| - 1].key == k;
    LastUseIsLast(ops, k);
    assert LastUse(ops, k) == |a| - 1 by {
      forall i | |a| <= i < |ops| ensures ops[i].key != k { assert ops[i] == b[i - |a|] && b[i - |a|] in b; }
    }
    forall j | LastUse(ops, k) < LastUse(ops, j) ensures j in KeysUsed(b) {
      LastUseIsLast(ops, j);
      assert b[LastUse(ops, j) - |a|].key == j;
    }
  }

  /** A store keeps an entry that is not too old, unless `max` other keys were used since it was. */
  lemma {:induction false} PutKeepsRecent<K(!new), D>(s: seq<Entry<K, Stored<D>>>, front: seq<Op<K, D>>, op: Op<K, D>, limits: Limits,
                                   e: Entry<K, Stored<D>>, since: set<K>)
    requires op.Put? && InOrder(s, Used(front)) && e in s && e.key != op.key && !Expired(e.value, op.now, limits.ttl)
    requires |since| < limits.max && forall k :: Used(front + [op])(e.key) < Used(front + [op])(k) ==> k in since
    ensures e in Step(s, op, limits)
  {
    var live := Unexpired(s, op.now, limits.ttl);
    OpIsLater(front, op);
    PutInOrder(s, op.key, op.detection, op.now, limits.ttl, Used(front), Used(front + [op]));
    UnexpiredHas(s, op.now, limits.ttl);
    WithoutHas(live, op.key);
    SurvivesTrim(Placed(live, op.key, Stored(op.now, op.detection)), Used(front + [op]), e, since, limits.max);
  }

  /** What the operations `b` must be for an entry to outlast them. */
  ghost predicate Gentle<K(!new), D>(b: seq<Op<K, D>>, limits: Limits, e: Entry<K, Stored<D>>) {
    forall op :: op in b ==> op.key != e.key && (op.Put? ==> op.now - e.value.at <= limits.ttl)
  }

  /**
   Only what has expired or has not been used for longest is lost: after a use of its key, an
   entry stays as long as fewer than `max` other keys are used and no store finds it too old.
   */
  lemma {:induction false} RecentStays<K(!new), D>(a: seq<Op<K, D>>, b: seq<Op<K, D>>, limits: Limits, e: Entry<K, Stored<D>>)
    requires a != [] && a[|a| - 1].key == e.key && e in After(a, limits)
    requires Gentle(b, limits, e) && |KeysUsed(b)| < limits.max
    ensures e in After(a + b, limits)
    decreases |b|
  {
    if b == [] {
      assert a + b == a;
    } else {
      var n := |b| - 1;
      var front, op := a + b[..n], b[n];
      assert op in b && b[..n] + [op] == b;
      assert a + b == front + [op] && (front + [op])[..|front|] == front;
      SubsetCount(KeysUsed(b[..n]), KeysUsed(b));
      RecentStays(a, b[..n], limits, e);
      StepKeeps(a, b, front, op, limits, e);
    }
  }

  lemma {:induction false} StepKeeps<K(!new), D>(a: seq<Op<K, D>>, b: seq<Op<K, D>>, front: seq<Op<K, D>>, op: Op<K, D>, limits: Limits, e: Entry<K, Stored<D>>)
    requires a != [] && a[|a| - 1].key == e.key && a + b == front + [op] && op in b
    requires Gentle(b, limits, e) && |KeysUsed(b)| < limits.max && e in After(front, limits)
    ensures e in Step(After(front, limits), op, limits)
  {
    RunInOrder(front, limits);
    OrderIsDistinct(After(front, limits), Used(front));
    if op.Get? {
      GetHas(After(front, limits), op.key, op.now, limits.ttl);
    } else {
      UsedLater(a, b, e.key);
      PutKeepsRecent(After(front, limits), front, op, limits, e, KeysUsed(b));
    }
  }

  /** A lookup serves an entry of its key that is no older than the limit, and nothing else. */
  lemma {:induction false} GotExactly<K(!new), D(!new)>(s: seq<Entry<K, Stored<D>>>, k: K, now: real, ttl: real, d: D)
    requires Distinct(s)
    ensures Got(s, k, now, ttl) == Some(d) <==> exists e :: e in s && e.key == k && e.value.detection == d && now - e.value.at <= ttl
  {
    LookupFinds(s, k);
    if e :| e in s && e.key == k && e.value.detection == d && now - e.value.at <= ttl {
      var i :| 0 <= i < |s| && s[i] == e;
      assert Lookup(s, k) == Some(s[i].value);
    }
  }

  /** It loses an entry of its key that is older, and no other; what it serves is used last. */
  lemma {:induction false} GetLosesExactly<K(!new), D(!new)>(s: seq<Entry<K, Stored<D>>>, k: K, now: real, ttl: real, e: Entry<K, Stored<D>>)
    requires Distinct(s)
    ensures e in AfterGet(s, k, now, ttl) <==> e in s && (e.key == k ==> now - e.value.at <= ttl)
    ensures Got(s, k, now, ttl).Some? ==> AfterGet(s, k, now, ttl) != [] && AfterGet(s, k, now, ttl)[|AfterGet(s, k, now, ttl)| - 1].key == k
  {
    LookupFinds(s, k);
    WithoutHas(s, k);
    if e in s {
      var i :| 0 <= i < |s| && s[i] == e;
      assert e.key == k ==> Lookup(s, k) == Some(s[i].value);
    }
  }

  /** What was stored is served again as long as it is young enough, fewer than `max` other keys were
      used since, and no store found it too old. */
  lemma {:induction false} RecentIsServed<K(!new), D(!new)>(a: seq<Op<K, D>>, b: seq<Op<K, D>>, limits: Limits, k: K, d: D, at: real, now: real)
    requires a != [] && a[|a| - 1] == Put(k, at, d) && 0 < limits.max
    requires Gentle(b, limits, Entry(k, Stored(at, d))) && |KeysUsed(b)| < limits.max && now - at <= limits.ttl
    ensures Got(After(a + b, limits), k, now, limits.ttl) == Some(d)
  {
    var e := Entry(k, Stored(at, d));
    PutHas(After(a[..|a| - 1], limits), k, d, at, limits.ttl, limits.max);
    RecentStays(a, b, limits, e);
    RunInOrder(a + b, limits);
    OrderIsDistinct(After(a + b, limits), Used(a + b));
    GotExactly(After(a + b, limits), k, now, limits.ttl, d);
  }

  lemma {:induction false} SubsetCount<T>(a: set<T>, b: set<T>)
    requires a <= b
    ensures |a| <= |b|
  {
    if a != {} {
      var x :| x in a;
      SubsetCount(a - {x}, b - {x});
    }
  }

  // ----- the cache -----

  function Outside<K(==), V>(s: seq<Entry<K, V>>, keys: set<K>): seq<Entry<K, V>> {
    if s == [] then [] else (if s[0].key in keys then [] else [s[0]]) + Outside(s[1..], keys)
  }

  lemma {:induction false} WithoutOutside<K, V>(s: seq<Entry<K, V>>, keys: set<K>, k: K)
    ensures Without(Outside(s, keys), k) == Outside(s, keys + {k})
    decreases |s|
  {
    if s != [] {
      WithoutOutside(s[1..], keys, k);
      var rest := Outside(s[1..], keys);
      assert ([s[0]] + rest)[1..] == rest;
      assert [] + rest == rest;
    }
  }

  lemma {:induction false} OutsideNone<K, V>(s: seq<Entry<K, V>>)
    ensures Outside(s, {}) == s
    decreases |s|
  {
    if s != [] {
      OutsideNone(s[1..]);
    }
  }

  lemma {:induction false} OutsideExpired<K, D>(s: seq<Entry<K, Stored<D>>>, keys: set<K>, now: real, ttl: real)
    requires forall i :: 0 <= i < |s| ==> (s[i].key in keys <==> Expired(s[i].value, now, ttl))
    ensures Outside(s, keys) == Unexpired(s, now, ttl)
    decreases |s|
  {
    if s != [] {
      OutsideExpired(s[1..], keys, now, ttl);
    }
  }

  function ToSet<K>(s: seq<K>): set<K> {
    set i | 0 <= i < |s| :: s[i]
  }

  class DetectionCache<K(==,!new), D> {
    const limits: Limits
    var entries: seq<Entry<K, Stored<D>>>
    var hits: nat
    var misses: nat

    ghost predicate Valid()
      reads this
    {
      Distinct(entries) && |entries| <= limits.max && 0 < limits.max && 0.0 < limits.ttl
    }

    constructor (max: nat, ttl: real)
      requires 1 <= max && 0.0 < ttl
      ensures Valid() && entries == [] && limits == Limits(max, ttl) && hits == misses == 0
    {
      limits, entries, hits, misses := Limits(max, ttl), [], 0, 0;
    }

    method Get(k: K, now: real) returns (r: Option<D>)
      requires Valid()
      modifies this
      ensures Valid()
      ensures r == Got(old(entries), k, now, limits.ttl)
      ensures entries == AfterGet(old(entries), k, now, limits.ttl)
      ensures hits == old(hits) + (if r.Some? then 1 else 0) && misses == old(misses) + (if r.Some? then 0 else 1)
    {
      LookupFinds(entries, k);
      var entry := Lookup(entries, k);
      if entry == None {
        misses := misses + 1;
        return None;
      }
      DropOne(entries, k);
      if now - entry.value.at > limits.ttl {
        entries := Without(entries, k);
        misses := misses + 1;
        return None;
      }
      entries := Placed(entries, k, entry.value);
      hits := hits + 1;
      return Some(entry.value.detection);
    }

    method PurgeExpired(now: real)
      requires Valid()
      modifies `entries
      ensures Valid() && entries == Unexpired(old(entries), now, limits.ttl)
    {
      ghost var before := entries;
      var expired: seq<K> := [];
      for i := 0 to |entries|
        invariant entries == before
        invariant forall k :: k in ToSet(expired) <==> exists j :: 0 <= j < i && entries[j].key == k && Expired(entries[j].value, now, limits.ttl)
      {
        ghost var some := expired;
        if now - entries[i].value.at > limits.ttl {
          expired := expired + [entries[i].key];
          assert ToSet(expired) == ToSet(some) + {before[i].key} by { SetOfMore(some, before[i].key); }
        }
      }
      OutsideNone(entries);
      assert ToSet(expired[..0]) == {};
      for i := 0 to |expired|
        invariant entries == Outside(before, ToSet(expired[..i]))
      {
        WithoutOutside(before, ToSet(expired[..i]), expired[i]);
        SetOfMore(expired[..i], expired[i]);
        assert expired[..i + 1] == expired[..i] + [expired[i]];
        entries := Without(entries, expired[i]);
      }
      assert expired[..|expired|] == expired;
      OutsideExpired(before, ToSet(expired), now, limits.ttl);
      UnexpiredDistinct(before, now, limits.ttl);
    }

    method Put(k: K, d: D, now: real)
      requires Valid()
      modifies `entries
      ensures Valid() && entries == AfterPut(old(entries), k, d, now, limits.ttl, limits.max)
    {
      PurgeExpired(now);
      PlacedDistinct(entries, k, Stored(now, d));
      ghost var before := entries;
      entries := Placed(entries, k, Stored(now, d));
      ghost var placed := entries;
      while |entries| > limits.max
        invariant |placed| <= limits.max ==> entries == placed
        invariant |placed| > limits.max ==> |entries| >= limits.max && entries == placed[|placed| - |entries|..]
        invariant |entries| <= |placed|
        decreases |entries|
      {
        entries := entries[1..];
      }
    }

    method Clear()
      modifies `entries
      requires Valid()
      ensures Valid() && entries == []
    {
      entries := [];
    }
  }

  lemma {:induction false} SetOfMore<K>(s: seq<K>, k: K)
    ensures ToSet(s + [k]) == ToSet(s) + {k}
  {
    var more := s + [k];
    assert more[|s|] == k;
    forall x | x in ToSet(s) ensures x in ToSet(more) {
      var i :| 0 <= i < |s| && s[i] == x;
      assert more[i] == x;
    }
  }

  lemma {:induction false} UnexpiredDistinct<K(!new), D>(s: seq<Entry<K, Stored<D>>>, now: real, ttl: real)
    requires Distinct(s)
    ensures Distinct(Unexpired(s, now, ttl)) && |Unexpired(s, now, ttl)| <= |s|
    decreases |s|
  {
    if s != [] {
      UnexpiredDistinct(s[1..], now, ttl);
      UnexpiredHas(s[1..], now, ttl);
      var rest := Unexpired(s[1..], now, ttl);
      forall i | 0 <= i < |rest| ensures rest[i].key != s[0].key {
        assert rest[i] in s[1..];
      }
    }
  }
}
