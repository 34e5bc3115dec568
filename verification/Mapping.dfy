/**
 privaite/pii/mapping.py: the two maps one request shares between all its texts, the
 strings that may never be issued, and the numbering of placeholders.
 */
module Mapping {
  import opened Wrappers
  import opened Literals
  import opened Containers

  datatype Known = Known(value: string, entityType: string)

  /** What a PIIMapping holds, as a value. */
  datatype MapState = MapState(
    toFake: map<string, string>,
    toOriginal: map<string, string>,
    types: map<string, string>,
    counters: map<string, nat>,
    reserved: set<string>,
    known: seq<Known>)
  {
    function Count(entityType: string): nat {
      if entityType in counters then counters[entityType] else 0
    }

    function Added(original: string, fake: string, entityType: string): MapState {
      this.(toFake := toFake[original := fake],
            toOriginal := toOriginal[fake := original],
            types := types[original := entityType],
            counters := counters[entityType := Count(entityType) + 1])
    }

    function Noted(original: string, entityType: string): MapState {
      this.(types := types[original := entityType],
            counters := if original in types then counters
                        else counters[entityType := Count(entityType) + 1])
    }

    function LiteralAdded(literal: string, fake: string): MapState {
      this.(toFake := toFake[literal := fake], toOriginal := toOriginal[fake := literal])
    }

    function WithReserved(more: set<string>): MapState {
      this.(reserved := reserved + more)
    }

    function Remembered(value: string, entityType: string): MapState {
      if exists i :: 0 <= i < |known| && known[i].value == value then this
      else this.(known := known + [Known(value, entityType)])
    }

    predicate Taken(fake: string) {
      fake in reserved || fake in toOriginal
    }

    /** The taken placeholders of a type from number `idx` on: what the search has still to pass. */
    ghost function Ahead(entityType: string, idx: nat): set<string> {
      set s | s in reserved + toOriginal.Keys && exists j: nat :: j >= idx && s == Numbered(entityType, j)
    }

    /** Skipping a taken number leaves strictly fewer of them ahead. */
    lemma {:induction false} AheadShrinks(entityType: string, idx: nat)
      requires Taken(Numbered(entityType, idx))
      ensures |Ahead(entityType, idx + 1)| < |Ahead(entityType, idx)|
    {
      var here := Numbered(entityType, idx);
      var before, after := Ahead(entityType, idx), Ahead(entityType, idx + 1);
      assert here in before;
      forall j: nat | j >= idx + 1 ensures here != Numbered(entityType, j) {
        if here == Numbered(entityType, j) { NumberedInjective(entityType, idx, j); }
      }
      assert after <= before - {here};
      Smaller(after, before - {here});
    }

    /** The first free number from `idx` on. */
    ghost function FreshFrom(entityType: string, idx: nat): (n: nat)
      ensures idx <= n && !Taken(Numbered(entityType, n))
      ensures forall j :: idx <= j < n ==> Taken(Numbered(entityType, j))
      decreases |Ahead(entityType, idx)|
    {
      if Taken(Numbered(entityType, idx)) then
        AheadShrinks(entityType, idx);
        FreshFrom(entityType, idx + 1)
      else idx
    }

    /** The placeholder issued next for a type. */
    ghost function FreshPlaceholder(entityType: string): (fake: string)
      ensures !Taken(fake)
    {
      Numbered(entityType, FreshFrom(entityType, Count(entityType) + 1))
    }
  }

  lemma {:induction false} Smaller<T>(a: set<T>, b: set<T>)
    requires a <= b
    ensures |a| <= |b|
  {
    assert b == a + (b - a);
  }

  const EMPTY := MapState(map[], map[], map[], map[], {}, [])

  /** The placeholder-shaped strings of a text. */
  function LiteralsOf(text: string): (lits: set<string>)
    ensures forall s :: s in lits <==> exists sp: Span :: LiteralAt(text, sp) && s == text[sp.start..sp.end]
  {
    FindLiteralsExact(text, 0);
    var found := FindLiterals(text);
    var lits := set k | 0 <= k < |found| :: text[found[k].start..found[k].end];
    assert forall s :: (exists sp: Span :: LiteralAt(text, sp) && s == text[sp.start..sp.end]) ==> s in lits by {
      forall s, sp: Span | LiteralAt(text, sp) && s == text[sp.start..sp.end] ensures s in lits {
        assert sp in found;
        var k :| 0 <= k < |found| && found[k] == sp;
      }
    }
    assert forall s :: s in lits ==> exists sp: Span :: LiteralAt(text, sp) && s == text[sp.start..sp.end] by {
      forall s | s in lits ensures exists sp: Span :: LiteralAt(text, sp) && s == text[sp.start..sp.end] {
        var k :| 0 <= k < |found| && s == text[found[k].start..found[k].end];
        assert found[k] in found;
      }
    }
    lits
  }

  /** What a walk through a request adds for a text. */
  const Literal: Work := (text: string) => LiteralsOf(text)

  class PIIMapping {
    var originalToFake: map<string, string>
    var fakeToOriginal: map<string, string>
    var entityTypes: map<string, string>
    var typeCounters: map<string, nat>
    var reserved: set<string>
    var known: seq<Known>

    ghost function State(): MapState
      reads this
    {
      MapState(originalToFake, fakeToOriginal, entityTypes, typeCounters, reserved, known)
    }

    constructor ()
      ensures State() == EMPTY
    {
      originalToFake, fakeToOriginal, entityTypes := map[], map[], map[];
      typeCounters, reserved, known := map[], {}, [];
    }

    method Bump(entityType: string)
      modifies `typeCounters
      ensures typeCounters == old(typeCounters)[entityType := old(State()).Count(entityType) + 1]
    {
      var count := if entityType in typeCounters then typeCounters[entityType] else 0;
      typeCounters := typeCounters[entityType := count + 1];
    }

    method Add(original: string, fake: string, entityType: string)
      modifies this
      ensures State() == old(State()).Added(original, fake, entityType)
    {
      originalToFake := originalToFake[original := fake];
      fakeToOriginal := fakeToOriginal[fake := original];
      entityTypes := entityTypes[original := entityType];
      Bump(entityType);
    }

    method Note(original: string, entityType: string)
      modifies this
      ensures State() == old(State()).Noted(original, entityType)
    {
      if original !in entityTypes {
        Bump(entityType);
      }
      entityTypes := entityTypes[original := entityType];
    }

    method AddLiteral(literal: string, fake: string)
      modifies this
      ensures State() == old(State()).LiteralAdded(literal, fake)
    {
      originalToFake := originalToFake[literal := fake];
      fakeToOriginal := fakeToOriginal[fake := literal];
    }

    /** Reserve every placeholder-shaped string in a text. */
    method ReserveText(text: string)
      modifies `reserved
      ensures State() == old(State()).WithReserved(LiteralsOf(text))
    {
      reserved := reserved + LiteralsOf(text);
    }

    /** Reserve those of all texts in a value. Whatever it shares or however it holds itself, each
        container is walked once. */
    method Reserve(heap: Heap, value: Value)
      requires Closed(heap) && InHeap(heap, value)
      modifies `reserved
      ensures forall s :: s in reserved <==> s in old(reserved) || Found(heap, Literal, value, s)
      ensures State() == old(State()).(reserved := reserved)
    {
      var seen := ReserveFrom(heap, value, {});
      forall s | Found(heap, Literal, value, s) ensures s in reserved {
        FoundIsFilled(heap, Literal, seen, reserved, value, s);
      }
    }

    /** The recursion, with the containers entered so far. */
    method ReserveFrom(heap: Heap, value: Value, seen: set<nat>) returns (seen': set<nat>)
      requires Closed(heap) && InHeap(heap, value)
      modifies `reserved
      decreases heap.Keys - seen
      ensures seen <= seen' && old(reserved) <= reserved
      ensures Done(Literal, value, seen', reserved) && Walked(heap, Literal, seen, seen', reserved)
      ensures forall s :: s in reserved ==> s in old(reserved) || Found(heap, Literal, value, s)
      ensures State() == old(State()).(reserved := reserved)
    {
      seen' := seen;
      match value {
        case Text(text) =>
          ReserveText(text);
          ReachesItself(heap, value);
        case Scalar =>
        case Ref(id) =>
          if id in seen {
            return;
          }
          ghost var before := reserved;
          seen' := seen + {id};
          for n := 0 to |heap[id]|
            invariant seen + {id} <= seen' && before <= reserved
            invariant forall k :: 0 <= k < n ==> Done(Literal, heap[id][k], seen', reserved)
            invariant Walked(heap, Literal, seen + {id}, seen', reserved)
            invariant forall s :: s in reserved ==> s in before || Found(heap, Literal, value, s)
            invariant State() == old(State()).(reserved := reserved)
          {
            ghost var entered, filled := seen', reserved;
            var item := heap[id][n];
            assert item in heap[id];
            seen' := ReserveFrom(heap, item, seen');
            WalkedMore(heap, Literal, seen + {id}, entered, filled, seen', reserved);
            forall s | Found(heap, Literal, item, s) ensures Found(heap, Literal, value, s) {
              FoundThrough(heap, Literal, value, item, s);
            }
          }
      }
    }

    method Remember(value: string, entityType: string)
      modifies `known
      ensures State() == old(State()).Remembered(value, entityType)
    {
      var i := 0;
      while i < |known|
        invariant 0 <= i <= |known|
        invariant forall j :: 0 <= j < i ==> known[j].value != value
      {
        if known[i].value == value {
          return;
        }
        i := i + 1;
      }
      known := known + [Known(value, entityType)];
    }

    function GetFake(original: string): Option<string>
      reads this
    {
      if original in originalToFake then Some(originalToFake[original]) else None
    }

    function GetOriginal(fake: string): Option<string>
      reads this
    {
      if fake in fakeToOriginal then Some(fakeToOriginal[fake]) else None
    }

    /** The numbered placeholder of Anonymizer._numbered_placeholder: the search passes every
        taken number once, so it ends. */
    method NumberedPlaceholder(entityType: string) returns (fake: string)
      ensures fake == State().FreshPlaceholder(entityType)
    {
      var idx: nat := (if entityType in typeCounters then typeCounters[entityType] else 0) + 1;
      ghost var first := idx;
      fake := Numbered(entityType, idx);
      while fake in reserved || fake in fakeToOriginal
        invariant fake == Numbered(entityType, idx)
        invariant State().FreshFrom(entityType, first) == State().FreshFrom(entityType, idx)
        decreases |State().Ahead(entityType, idx)|
      {
        State().AheadShrinks(entityType, idx);
        idx := idx + 1;
        fake := Numbered(entityType, idx);
      }
    }
  }
}
