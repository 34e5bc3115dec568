/**
 privaite/pii/mapping.py: what a request is made of before it is read as JSON. Dictionaries and
 lists live on the heap, where they can be shared and can hold themselves.
 */
module Containers {
  datatype Value = Text(s: string) | Ref(id: nat) | Scalar

  /** Every container by what it holds: the items of a list, or the keys of a dictionary, each with
      its item behind it. */
  type Heap = map<nat, seq<Value>>

  predicate InHeap(heap: Heap, v: Value) {
    v.Ref? ==> v.id in heap
  }

  ghost predicate Closed(heap: Heap) {
    forall id, v :: id in heap && v in heap[id] ==> InHeap(heap, v)
  }

  ghost predicate Holds(heap: Heap, v: Value, w: Value) {
    v.Ref? && v.id in heap && w in heap[v.id]
  }

  ghost predicate ReachesIn(heap: Heap, v: Value, w: Value, n: nat)
    decreases n
  {
    if n == 0 then v == w else exists u :: Holds(heap, v, u) && ReachesIn(heap, u, w, n - 1)
  }

  /** `w` is somewhere in `v`. */
  ghost predicate Reaches(heap: Heap, v: Value, w: Value) {
    exists n: nat :: ReachesIn(heap, v, w, n)
  }

  lemma {:induction false} ReachesItself(heap: Heap, v: Value)
    ensures Reaches(heap, v, v)
  {
    assert ReachesIn(heap, v, v, 0);
  }

  lemma {:induction false} ReachesThrough(heap: Heap, v: Value, u: Value, w: Value)
    requires Holds(heap, v, u) && Reaches(heap, u, w)
    ensures Reaches(heap, v, w)
  {
    var n: nat :| ReachesIn(heap, u, w, n);
    assert ReachesIn(heap, v, w, n + 1);
  }

  // ----- a walk that enters every container once -----

  /** What a walk is to do with every text, in terms of the set it fills. */
  type Work = string -> set<string>

  /** The walk is through with a value. */
  predicate Done(work: Work, v: Value, seen: set<nat>, filled: set<string>) {
    match v
    case Text(s) => work(s) <= filled
    case Ref(id) => id in seen
    case Scalar => true
  }

  /** The containers entered between `before` and `seen` have been walked to their end. */
  ghost predicate Walked(heap: Heap, work: Work, before: set<nat>, seen: set<nat>, filled: set<string>) {
    forall id, v :: id in seen && id !in before && id in heap && v in heap[id] ==> Done(work, v, seen, filled)
  }

  lemma {:induction false} WalkedMore(heap: Heap, work: Work, before: set<nat>, seen: set<nat>, filled: set<string>, seen': set<nat>, filled': set<string>)
    requires Walked(heap, work, before, seen, filled) && Walked(heap, work, seen, seen', filled')
    requires seen <= seen' && filled <= filled'
    ensures Walked(heap, work, before, seen', filled')
  {
    forall id, v | id in seen' && id !in before && id in heap && v in heap[id] ensures Done(work, v, seen', filled') {
      if id in seen { DoneStays(work, v, seen, filled, seen', filled'); }
    }
  }

  lemma {:induction false} DoneStays(work: Work, v: Value, seen: set<nat>, filled: set<string>, seen': set<nat>, filled': set<string>)
    requires Done(work, v, seen, filled) && seen <= seen' && filled <= filled'
    ensures Done(work, v, seen', filled')
  {
  }

  /** A walk that has entered nothing before has reached all there is. */
  lemma {:induction false} WalkReachesAll(heap: Heap, work: Work, seen: set<nat>, filled: set<string>, v: Value, w: Value, n: nat)
    requires Walked(heap, work, {}, seen, filled) && Done(work, v, seen, filled) && ReachesIn(heap, v, w, n)
    ensures Done(work, w, seen, filled)
    decreases n
  {
    if n > 0 {
      var u :| Holds(heap, v, u) && ReachesIn(heap, u, w, n - 1);
      WalkReachesAll(heap, work, seen, filled, u, w, n - 1);
    }
  }

  /** A string that the walk is to add for some text in `v`. */
  ghost predicate Found(heap: Heap, work: Work, v: Value, s: string) {
    exists text :: Reaches(heap, v, Text(text)) && s in work(text)
  }

  lemma {:induction false} FoundThrough(heap: Heap, work: Work, v: Value, u: Value, s: string)
    requires Holds(heap, v, u) && Found(heap, work, u, s)
    ensures Found(heap, work, v, s)
  {
    var text :| Reaches(heap, u, Text(text)) && s in work(text);
    ReachesThrough(heap, v, u, Text(text));
  }

  lemma {:induction false} FoundIsFilled(heap: Heap, work: Work, seen: set<nat>, filled: set<string>, v: Value, s: string)
    requires Walked(heap, work, {}, seen, filled) && Done(work, v, seen, filled) && Found(heap, work, v, s)
    ensures s in filled
  {
    var text :| Reaches(heap, v, Text(text)) && s in work(text);
    var n: nat :| ReachesIn(heap, v, Text(text), n);
    WalkReachesAll(heap, work, seen, filled, v, Text(text), n);
  }
}
