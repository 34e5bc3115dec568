/**
 The merge of raw detections (privaite/pii/entity.py): interval union with a policy
 that decides which type a merged span carries.
 */
module Merge {
  import opened Entities

  /** What an overlap resolution name selects. Any unknown name means the highest score. */
  datatype Resolution = HighestScore | LongestSpan | PresidioPriority

  /** Priority per entity type; the empty map stands for "no priorities". */
  type Priorities = map<string, int>

  function Priority(priorities: Priorities, entityType: string): int {
    if entityType in priorities then priorities[entityType] else 0
  }

  function ResolveOverlap(a: Entity, b: Entity, resolution: Resolution, priorities: Priorities): Entity {
    var pa, pb := Priority(priorities, a.entityType), Priority(priorities, b.entityType);
    if pa != pb then (if pa > pb then a else b)
    else match resolution
      case LongestSpan => if a.Length() >= b.Length() then a else b
      case PresidioPriority =>
        if (a.source == "presidio") != (b.source == "presidio") then (if a.source == "presidio" then a else b)
        else if a.score >= b.score then a else b
      case HighestScore => if a.score >= b.score then a else b
  }

  /** Detections that lie in the text. */
  predicate InText(text: string, entities: seq<Entity>) {
    forall i :: 0 <= i < |entities| ==> 0 <= entities[i].start <= entities[i].end <= |text|
  }

  /** The last merged span grown over an overlapping detection: the winner gives the label,
      the span is the union of both. */
  function Widen(last: Entity, e: Entity, resolution: Resolution, text: string, priorities: Priorities): (w: Entity)
    requires 0 <= last.start <= last.end <= |text| && 0 <= e.start <= e.end <= |text|
    ensures w.start == last.start && w.end == (if last.end >= e.end then last.end else e.end)
  {
    var winner :=
      if e.entityType == last.entityType then (if last.score >= e.score then last else e)
      else ResolveOverlap(last, e, resolution, priorities);
    var end := if last.end >= e.end then last.end else e.end;
    Entity(winner.entityType,
           if last.start == winner.start && end == winner.end then winner.text else text[last.start..end],
           last.start, end, winner.score, winner.source)
  }

  /** One turn of the loop of `_merge_union`. */
  function Absorb(merged: seq<Entity>, e: Entity, resolution: Resolution, text: string, priorities: Priorities): (r: seq<Entity>)
    requires InText(text, merged) && 0 <= e.start <= e.end <= |text|
    ensures InText(text, r) && r != []
  {
    if merged == [] || e.start >= merged[|merged| - 1].end then merged + [e]
    else merged[..|merged| - 1] + [Widen(merged[|merged| - 1], e, resolution, text, priorities)]
  }

  /** The union merge of the first detections, taken in order. */
  function UnionOf(entities: seq<Entity>, resolution: Resolution, text: string, priorities: Priorities): (r: seq<Entity>)
    requires InText(text, entities)
    ensures InText(text, r)
    ensures r == [] <==> entities == []
  {
    if entities == [] then []
    else
      var n := |entities| - 1;
      Absorb(UnionOf(entities[..n], resolution, text, priorities), entities[n], resolution, text, priorities)
  }

  // ----- the order of detections -----

  /** The sort key: start ascending, then length descending. */
  predicate Before(a: Entity, b: Entity) {
    a.start < b.start || (a.start == b.start && a.Length() >= b.Length())
  }

  function Insert(e: Entity, sorted: seq<Entity>): seq<Entity> {
    if sorted == [] || Before(e, sorted[0]) then [e] + sorted
    else [sorted[0]] + Insert(e, sorted[1..])
  }

  /** Python's sorted: stable. */
  function Sort(entities: seq<Entity>): seq<Entity> {
    if entities == [] then [] else Insert(entities[0], Sort(entities[1..]))
  }

  predicate Sorted(entities: seq<Entity>) {
    forall i, j :: 0 <= i < j < |entities| ==> Before(entities[i], entities[j])
  }

  lemma {:induction false} InsertSorts(e: Entity, sorted: seq<Entity>)
    requires Sorted(sorted)
    ensures Sorted(Insert(e, sorted))
    ensures multiset(Insert(e, sorted)) == multiset(sorted) + multiset{e}
    decreases |sorted|
  {
    if sorted != [] && !Before(e, sorted[0]) {
      assert sorted == [sorted[0]] + sorted[1..];
      InsertSorts(e, sorted[1..]);
      var rest := Insert(e, sorted[1..]);
      forall i | 0 <= i < |rest| ensures Before(sorted[0], rest[i]) {
        assert rest[i] in multiset(rest);
        assert rest[i] == e || rest[i] in sorted[1..];
      }
    }
  }

  lemma {:induction false} SortSorts(entities: seq<Entity>)
    ensures Sorted(Sort(entities)) && multiset(Sort(entities)) == multiset(entities)
    ensures forall e :: e in Sort(entities) <==> e in entities
    decreases |entities|
  {
    if entities != [] {
      assert entities == [entities[0]] + entities[1..];
      SortSorts(entities[1..]);
      InsertSorts(entities[0], Sort(entities[1..]));
    }
    forall e ensures e in Sort(entities) <==> e in entities {
      assert e in Sort(entities) <==> e in multiset(Sort(entities));
      assert e in entities <==> e in multiset(entities);
    }
  }

  // ----- what a merge is -----

  predicate Inside(e: Entity, m: Entity) { m.start <= e.start && e.end <= m.end }

  predicate At(e: Entity, p: int) { e.start <= p < e.end }

  ghost predicate Covered(entities: seq<Entity>, p: int) {
    exists e :: e in entities && At(e, p)
  }

  /** In order, and none reaches into the next. */
  predicate Disjoint(spans: seq<Entity>) {
    forall i, j :: 0 <= i < j < |spans| ==> spans[i].end <= spans[j].start
  }

  /** A detection lies in a merged span that carries a type of at least its priority. */
  ghost predicate Kept(e: Entity, merged: seq<Entity>, priorities: Priorities) {
    exists m :: m in merged && Inside(e, m) && Priority(priorities, m.entityType) >= Priority(priorities, e.entityType)
  }

  /** The label of a merged span is the one of a detection in it. */
  ghost predicate Labelled(m: Entity, entities: seq<Entity>) {
    exists e :: e in entities && Inside(e, m) && e.entityType == m.entityType
                && e.score == m.score && e.source == m.source
  }

  /** Some detection reaches across position `p`. */
  ghost predicate Bridged(entities: seq<Entity>, p: int) {
    exists e :: e in entities && e.start < p < e.end
  }

  /** A merged span has no seam. */
  ghost predicate Seamless(m: Entity, entities: seq<Entity>) {
    forall p :: m.start < p < m.end ==> Bridged(entities, p)
  }

  /** `merged` is the union of `entities`, under the policy. */
  ghost predicate Merges(entities: seq<Entity>, merged: seq<Entity>, priorities: Priorities) {
    && Disjoint(merged)
    && (forall e {:trigger Kept(e, merged, priorities)} :: e in entities ==> Kept(e, merged, priorities))
    && (forall m {:trigger Labelled(m, entities)} :: m in merged ==> Labelled(m, entities))
    && (forall m {:trigger Seamless(m, entities)} :: m in merged ==> Seamless(m, entities))
    && (forall p :: Covered(merged, p) <==> Covered(entities, p))
  }

  lemma {:induction false} WidenDominates(last: Entity, e: Entity, resolution: Resolution, text: string, priorities: Priorities)
    requires 0 <= last.start <= last.end <= |text| && 0 <= e.start <= e.end <= |text|
    ensures var w := Widen(last, e, resolution, text, priorities);
            && Priority(priorities, w.entityType) >= Priority(priorities, last.entityType)
            && Priority(priorities, w.entityType) >= Priority(priorities, e.entityType)
            && (|| (w.entityType, w.score, w.source) == (last.entityType, last.score, last.source)
                || (w.entityType, w.score, w.source) == (e.entityType, e.score, e.source))
  {
  }

  /** A detection that starts behind the last merged span opens a new one. */
  lemma {:induction false} AppendMerges(entities: seq<Entity>, merged: seq<Entity>, e: Entity, priorities: Priorities)
    requires Merges(entities, merged, priorities) && e.start <= e.end
    requires forall m :: m in merged ==> m.end <= e.start
    ensures Merges(entities + [e], merged + [e], priorities)
  {
    var all, now := entities + [e], merged + [e];
    assert forall i :: 0 <= i < |merged| ==> now[i] in merged;
    forall x {:trigger Kept(x, now, priorities)} | x in all ensures Kept(x, now, priorities) {
      if x == e {
        assert e in now && Inside(e, e);
      } else {
        assert Kept(x, merged, priorities);
        var m :| m in merged && Inside(x, m) && Priority(priorities, m.entityType) >= Priority(priorities, x.entityType);
        assert m in now;
      }
    }
    forall m {:trigger Labelled(m, all)} {:trigger Seamless(m, all)} | m in now ensures Labelled(m, all) && Seamless(m, all) {
      if m in merged { assert Labelled(m, entities) && Seamless(m, entities); }
      SupersetLabels(m, entities, all);
      if m == e {
        assert e in all && Inside(e, e);
        forall p | e.start < p < e.end ensures Bridged(all, p) {}
      }
    }
    CoveredAppend(entities, e);
    CoveredAppend(merged, e);
  }

  lemma {:induction false} SupersetLabels(m: Entity, entities: seq<Entity>, all: seq<Entity>)
    requires forall x :: x in entities ==> x in all
    ensures Labelled(m, entities) ==> Labelled(m, all)
    ensures Seamless(m, entities) ==> Seamless(m, all)
  {
    if Labelled(m, entities) {
      var e :| e in entities && Inside(e, m) && e.entityType == m.entityType && e.score == m.score && e.source == m.source;
      assert e in all;
    }
    if Seamless(m, entities) {
      forall p | m.start < p < m.end ensures Bridged(all, p) {
        assert Bridged(entities, p);
        var e :| e in entities && e.start < p < e.end;
        assert e in all;
      }
    }
  }

  lemma {:induction false} CoveredAppend(entities: seq<Entity>, e: Entity)
    ensures forall p :: Covered(entities + [e], p) <==> Covered(entities, p) || At(e, p)
  {
    forall p ensures Covered(entities + [e], p) <==> Covered(entities, p) || At(e, p) {
      if Covered(entities, p) {
        var x :| x in entities && At(x, p);
        assert x in entities + [e];
      }
      if At(e, p) { assert e in entities + [e]; }
    }
  }

  /** A detection that overlaps the last merged span widens it. */
  lemma {:induction false} WidenMerges(entities: seq<Entity>, merged: seq<Entity>, last: Entity, w: Entity, e: Entity, priorities: Priorities)
    requires Merges(entities, merged + [last], priorities)
    requires last.start <= e.start < last.end && e.start <= e.end
    requires w.start == last.start && w.end == if last.end >= e.end then last.end else e.end
    requires Priority(priorities, w.entityType) >= Priority(priorities, last.entityType)
    requires Priority(priorities, w.entityType) >= Priority(priorities, e.entityType)
    requires || (w.entityType, w.score, w.source) == (last.entityType, last.score, last.source)
             || (w.entityType, w.score, w.source) == (e.entityType, e.score, e.source)
    ensures Merges(entities + [e], merged + [w], priorities)
  {
    var all, before, now := entities + [e], merged + [last], merged + [w];
    assert last in before && w in now && e in all;
    forall i, j | 0 <= i < j < |now| ensures now[i].end <= now[j].start {
      assert before[i].end <= before[j].start;
    }
    forall x {:trigger Kept(x, now, priorities)} | x in all ensures Kept(x, now, priorities) {
      if x != e {
        assert Kept(x, before, priorities);
        var m :| m in before && Inside(x, m) && Priority(priorities, m.entityType) >= Priority(priorities, x.entityType);
        assert m == last || m in now;
      }
    }
    forall m {:trigger Labelled(m, all)} {:trigger Seamless(m, all)} | m in now ensures Labelled(m, all) && Seamless(m, all) {
      if m in before { assert Labelled(m, entities) && Seamless(m, entities); }
      assert Labelled(last, entities) && Seamless(last, entities);
      SupersetLabels(m, entities, all);
      SupersetLabels(last, entities, all);
      if m == w {
        assert Labelled(last, all);
        WidenSeamless(all, last, w, e);
      } else {
        assert m in before;
      }
    }
    CoveredAppend(entities, e);
    CoveredAppend(merged, last);
    CoveredAppend(merged, w);
    assert forall p :: At(w, p) <==> At(last, p) || At(e, p);
    assert forall p :: Covered(before, p) <==> Covered(entities, p);
  }

  lemma {:induction false} WidenSeamless(all: seq<Entity>, last: Entity, w: Entity, e: Entity)
    requires Seamless(last, all) && e in all && last.start <= e.start < last.end
    requires w.start == last.start && w.end == if last.end >= e.end then last.end else e.end
    ensures Seamless(w, all)
  {
    forall p | w.start < p < w.end ensures Bridged(all, p) {
      if p < last.end {
        assert Bridged(all, p);
      } else {
        assert e.start < p < e.end;
      }
    }
  }

  /** The loop of `_merge_union` computes the union of the sorted detections it is given. */
  lemma {:induction false} UnionMerges(entities: seq<Entity>, resolution: Resolution, text: string, priorities: Priorities)
    requires InText(text, entities) && Sorted(entities)
    ensures var merged := UnionOf(entities, resolution, text, priorities);
            && Merges(entities, merged, priorities)
            && (forall m :: m in merged ==> m.start <= entities[|entities| - 1].start)
    decreases |entities|
  {
    if entities != [] {
      var n := |entities| - 1;
      var front, e := entities[..n], entities[n];
      assert entities == front + [e];
      UnionMerges(front, resolution, text, priorities);
      assert n > 0 ==> Before(entities[n - 1], entities[n]);
      AbsorbMerges(front, UnionOf(front, resolution, text, priorities), e, resolution, text, priorities);
    }
  }

  lemma {:induction false} AbsorbMerges(front: seq<Entity>, merged: seq<Entity>, e: Entity, resolution: Resolution, text: string, priorities: Priorities)
    requires InText(text, merged) && 0 <= e.start <= e.end <= |text|
    requires Merges(front, merged, priorities) && forall m :: m in merged ==> m.start <= e.start
    ensures Merges(front + [e], Absorb(merged, e, resolution, text, priorities), priorities)
    ensures forall m :: m in Absorb(merged, e, resolution, text, priorities) ==> m.start <= e.start
  {
    if merged == [] || e.start >= merged[|merged| - 1].end {
      forall m | m in merged ensures m.end <= e.start {
        var i :| 0 <= i < |merged| && merged[i] == m;
        assert i < |merged| - 1 ==> merged[i].end <= merged[|merged| - 1].start;
      }
      AppendMerges(front, merged, e, priorities);
    } else {
      var last := merged[|merged| - 1];
      WidenDominates(last, e, resolution, text, priorities);
      assert merged == merged[..|merged| - 1] + [last];
      WidenMerges(front, merged[..|merged| - 1], last, Widen(last, e, resolution, text, priorities), e, priorities);
    }
  }

  /** Only the set of detections matters for what a merge is. */
  lemma {:induction false} MergesSameElements(a: seq<Entity>, b: seq<Entity>, merged: seq<Entity>, priorities: Priorities)
    requires forall e :: e in a <==> e in b
    requires Merges(a, merged, priorities)
    ensures Merges(b, merged, priorities)
  {
    forall m {:trigger Labelled(m, b)} {:trigger Seamless(m, b)} | m in merged ensures Labelled(m, b) && Seamless(m, b) {
      assert Labelled(m, a) && Seamless(m, a);
      SupersetLabels(m, a, b);
    }
    forall p ensures Covered(a, p) <==> Covered(b, p) {
      if Covered(a, p) { var e :| e in a && At(e, p); assert e in b; }
      if Covered(b, p) { var e :| e in b && At(e, p); assert e in a; }
    }
  }

  // ----- the spans of a merge are determined -----

  predicate Solid(entities: seq<Entity>) {
    forall i :: 0 <= i < |entities| ==> entities[i].start < entities[i].end
  }

  /** A merged span of one merge is a merged span of any other: it starts and ends where no
      detection reaches across. */
  lemma {:induction false} SpanInBoth(entities: seq<Entity>, a: seq<Entity>, b: seq<Entity>, pa: Priorities, pb: Priorities, m: Entity)
    returns (other: Entity)
    requires Solid(entities) && Merges(entities, a, pa) && Merges(entities, b, pb) && m in a
    ensures other in b && other.start == m.start && other.end == m.end
  {
    assert Labelled(m, entities);
    var e :| e in entities && Inside(e, m) && e.entityType == m.entityType && e.score == m.score && e.source == m.source;
    assert e.start < e.end;
    assert Kept(e, b, pb);
    other :| other in b && Inside(e, other) && Priority(pb, other.entityType) >= Priority(pb, e.entityType);
    assert Inside(e, m) && Inside(e, other);
    EdgesHold(entities, a, b, pa, pb, m, other);
    EdgesHold(entities, b, a, pb, pa, other, m);
  }

  /** Of two merged spans that share a detection, the second does not go beyond the first. */
  lemma {:induction false} EdgesHold(entities: seq<Entity>, a: seq<Entity>, b: seq<Entity>, pa: Priorities, pb: Priorities, m: Entity, other: Entity)
    requires Solid(entities) && Merges(entities, a, pa) && Merges(entities, b, pb) && m in a && other in b
    requires exists e :: e in entities && Inside(e, m) && Inside(e, other)
    ensures m.start <= other.start && other.end <= m.end
  {
    var e :| e in entities && Inside(e, m) && Inside(e, other);
    assert e.start < e.end;
    if other.start < m.start {
      assert Seamless(other, entities) && Bridged(entities, m.start);
      NoBridgeAtEdge(entities, a, pa, m, m.start);
    }
    if m.end < other.end {
      assert Seamless(other, entities) && Bridged(entities, m.end);
      NoBridgeAtEdge(entities, a, pa, m, m.end);
    }
  }

  lemma {:induction false} NoBridgeAtEdge(entities: seq<Entity>, a: seq<Entity>, pa: Priorities, m: Entity, p: int)
    requires Merges(entities, a, pa) && m in a && m.start < m.end && (p == m.start || p == m.end)
    ensures !Bridged(entities, p)
  {
    if Bridged(entities, p) {
      var e :| e in entities && e.start < p < e.end;
      assert Kept(e, a, pa);
      var k :| k in a && Inside(e, k) && Priority(pa, k.entityType) >= Priority(pa, e.entityType);
      OneOrOther(a, m, k);
      assert false;
    }
  }

  lemma {:induction false} OneOrOther(a: seq<Entity>, m: Entity, k: Entity)
    requires Disjoint(a) && m in a && k in a
    ensures m == k || m.end <= k.start || k.end <= m.start
  {
    var i :| 0 <= i < |a| && a[i] == m;
    var j :| 0 <= j < |a| && a[j] == k;
    if i < j { assert a[i].end <= a[j].start; } else if j < i { assert a[j].end <= a[i].start; }
  }

  predicate SameSpans(a: seq<Entity>, b: seq<Entity>) {
    |a| == |b| && forall i :: 0 <= i < |a| ==> a[i].start == b[i].start && a[i].end == b[i].end
  }

  predicate HasSpan(spans: seq<Entity>, e: Entity) {
    exists i :: 0 <= i < |spans| && spans[i].start == e.start && spans[i].end == e.end
  }

  /** Two disjoint lists with the same spans list them in the same order. */
  lemma {:induction false} DisjointOrder(a: seq<Entity>, b: seq<Entity>)
    requires Disjoint(a) && Disjoint(b) && Solid(a) && Solid(b)
    requires forall i {:trigger HasSpan(b, a[i])} :: 0 <= i < |a| ==> HasSpan(b, a[i])
    requires forall i {:trigger HasSpan(a, b[i])} :: 0 <= i < |b| ==> HasSpan(a, b[i])
    ensures SameSpans(a, b)
    decreases |a|
  {
    assert a != [] ==> HasSpan(b, a[0]);
    assert b != [] ==> HasSpan(a, b[0]);
    if a != [] && b != [] {
      FirstIsFirst(a, b);
      FirstIsFirst(b, a);
      TailHas(a, b);
      TailHas(b, a);
      DisjointOrder(a[1..], b[1..]);
      assert a == [a[0]] + a[1..] && b == [b[0]] + b[1..];
    }
  }

  lemma {:induction false} FirstIsFirst(a: seq<Entity>, b: seq<Entity>)
    requires a != [] && b != [] && Disjoint(a) && Solid(a) && Solid(b) && HasSpan(a, b[0])
    ensures a[0].start < b[0].start || (a[0].start == b[0].start && a[0].end == b[0].end)
  {
    var j :| 0 <= j < |a| && a[j].start == b[0].start && a[j].end == b[0].end;
    if j > 0 { assert a[0].end <= a[j].start; }
  }

  lemma {:induction false} TailHas(a: seq<Entity>, b: seq<Entity>)
    requires a != [] && b != [] && Disjoint(a) && Disjoint(b) && Solid(a) && Solid(b)
    requires a[0].start == b[0].start && a[0].end == b[0].end
    requires forall i {:trigger HasSpan(b, a[i])} :: 0 <= i < |a| ==> HasSpan(b, a[i])
    ensures forall i {:trigger HasSpan(b[1..], a[1..][i])} :: 0 <= i < |a[1..]| ==> HasSpan(b[1..], a[1..][i])
  {
    forall i {:trigger HasSpan(b[1..], a[1..][i])} | 0 <= i < |a[1..]| ensures HasSpan(b[1..], a[1..][i]) {
      var e := a[i + 1];
      assert HasSpan(b, e);
      var j :| 0 <= j < |b| && b[j].start == e.start && b[j].end == e.end;
      assert a[0].end <= a[i + 1].start;
      assert j > 0;
      assert b[1..][j - 1] == b[j];
    }
  }

  lemma {:induction false} MergedIsSolid(entities: seq<Entity>, merged: seq<Entity>, priorities: Priorities)
    requires Solid(entities) && Merges(entities, merged, priorities)
    ensures Solid(merged)
  {
    forall i | 0 <= i < |merged| ensures merged[i].start < merged[i].end {
      assert merged[i] in merged;
      assert Labelled(merged[i], entities);
      var e :| e in entities && Inside(e, merged[i]) && e.entityType == merged[i].entityType
               && e.score == merged[i].score && e.source == merged[i].source;
    }
  }

  /** The spans of a merge depend on the detections alone: not on their order, on how often
      each was reported, on scores, resolution or policy. */
  lemma {:induction false} MergedSpansUnique(entities: seq<Entity>, a: seq<Entity>, b: seq<Entity>, pa: Priorities, pb: Priorities)
    requires Solid(entities) && Merges(entities, a, pa) && Merges(entities, b, pb)
    ensures SameSpans(a, b)
  {
    MergedIsSolid(entities, a, pa);
    MergedIsSolid(entities, b, pb);
    forall i {:trigger HasSpan(b, a[i])} | 0 <= i < |a| ensures HasSpan(b, a[i]) {
      var other := SpanInBoth(entities, a, b, pa, pb, a[i]);
    }
    forall i {:trigger HasSpan(a, b[i])} | 0 <= i < |b| ensures HasSpan(a, b[i]) {
      var other := SpanInBoth(entities, b, a, pb, pa, b[i]);
    }
    DisjointOrder(a, b);
  }

  /** The union merge of detections in any order. */
  function Union(entities: seq<Entity>, resolution: Resolution, text: string, priorities: Priorities): (r: seq<Entity>)
    requires InText(text, entities)
    ensures InText(text, r)
  {
    SortInText(entities, text);
    UnionOf(Sort(entities), resolution, text, priorities)
  }

  lemma {:induction false} SortInText(entities: seq<Entity>, text: string)
    requires InText(text, entities)
    ensures InText(text, Sort(entities))
  {
    SortSorts(entities);
    forall i | 0 <= i < |Sort(entities)|
      ensures 0 <= Sort(entities)[i].start <= Sort(entities)[i].end <= |text|
    {
      assert Sort(entities)[i] in entities;
    }
  }

  /** The merge covers exactly the positions the detections cover, with disjoint spans in
      order; each detection lies in one of them, which carries at least its priority. */
  lemma {:induction false} UnionIsMerge(entities: seq<Entity>, resolution: Resolution, text: string, priorities: Priorities)
    requires InText(text, entities)
    ensures Merges(entities, Union(entities, resolution, text, priorities), priorities)
  {
    SortInText(entities, text);
    SortSorts(entities);
    UnionMerges(Sort(entities), resolution, text, priorities);
    MergesSameElements(Sort(entities), entities, Union(entities, resolution, text, priorities), priorities);
  }

  /** The order of the detections, repetitions, and the policy leave the spans as they are. */
  lemma {:induction false} UnionSpansUnique(a: seq<Entity>, b: seq<Entity>, ra: Resolution, rb: Resolution, text: string, pa: Priorities, pb: Priorities)
    requires InText(text, a) && InText(text, b) && Solid(a)
    requires forall e :: e in a <==> e in b
    ensures SameSpans(Union(a, ra, text, pa), Union(b, rb, text, pb))
  {
    UnionIsMerge(a, ra, text, pa);
    UnionIsMerge(b, rb, text, pb);
    MergesSameElements(b, a, Union(b, rb, text, pb), pb);
    MergedSpansUnique(a, Union(a, ra, text, pa), Union(b, rb, text, pb), pa, pb);
  }

  lemma {:induction false} SortKeepsDisjoint(spans: seq<Entity>)
    requires Disjoint(spans) && Solid(spans)
    ensures Sort(spans) == spans
    decreases |spans|
  {
    if spans != [] {
      SortKeepsDisjoint(spans[1..]);
      if |spans| > 1 { assert spans[0].end <= spans[1].start; }
      assert spans == [spans[0]] + spans[1..];
    }
  }

  lemma {:induction false} AbsorbApart(merged: seq<Entity>, e: Entity, resolution: Resolution, text: string, priorities: Priorities)
    requires InText(text, merged) && 0 <= e.start <= e.end <= |text| && Disjoint(merged + [e])
    ensures Absorb(merged, e, resolution, text, priorities) == merged + [e]
  {
    var all := merged + [e];
    if merged != [] { assert all[|merged| - 1].end <= all[|merged|].start; }
  }

  lemma {:induction false} UnionOfDisjoint(spans: seq<Entity>, resolution: Resolution, text: string, priorities: Priorities)
    requires Disjoint(spans) && InText(text, spans)
    ensures UnionOf(spans, resolution, text, priorities) == spans
    decreases |spans|
  {
    if spans != [] {
      var n := |spans| - 1;
      UnionOfDisjoint(spans[..n], resolution, text, priorities);
      AbsorbApart(spans[..n], spans[n], resolution, text, priorities);
      assert spans == spans[..n] + [spans[n]];
    }
  }

  /** Merging a merge changes nothing. */
  lemma {:induction false} UnionIdempotent(entities: seq<Entity>, resolution: Resolution, text: string, priorities: Priorities)
    requires InText(text, entities) && Solid(entities)
    ensures var merged := Union(entities, resolution, text, priorities);
            Union(merged, resolution, text, priorities) == merged
  {
    var merged := Union(entities, resolution, text, priorities);
    UnionIsMerge(entities, resolution, text, priorities);
    MergedIsSolid(entities, merged, priorities);
    SortKeepsDisjoint(merged);
    UnionOfDisjoint(merged, resolution, text, priorities);
  }

  predicate Quotes(text: string, entities: seq<Entity>)
    requires InText(text, entities)
  {
    forall i :: 0 <= i < |entities| ==> entities[i].text == text[entities[i].start..entities[i].end]
  }

  /** Merged spans quote the text they cover when the detections do. */
  lemma {:induction false} UnionQuotes(entities: seq<Entity>, resolution: Resolution, text: string, priorities: Priorities)
    requires InText(text, entities) && Quotes(text, entities)
    ensures Quotes(text, UnionOf(entities, resolution, text, priorities))
    decreases |entities|
  {
    if entities != [] {
      UnionQuotes(entities[..|entities| - 1], resolution, text, priorities);
    }
  }

  // ----- the code -----

  method AbsorbOne(merged: seq<Entity>, entity: Entity, resolution: Resolution, text: string, priorities: Priorities)
    returns (r: seq<Entity>)
    requires InText(text, merged) && 0 <= entity.start <= entity.end <= |text|
    ensures r == Absorb(merged, entity, resolution, text, priorities)
  {
    if merged == [] {
      return [entity];
    }
    var n := |merged| - 1;
    var last := merged[n];
    if entity.start >= last.end {
      return merged + [entity];
    }
    var widened := Widen(last, entity, resolution, text, priorities);
    r := merged[n := widened];
    assert r == merged[..n] + [widened];
  }

  lemma {:induction false} UnionNext(entities: seq<Entity>, i: nat, resolution: Resolution, text: string, priorities: Priorities)
    requires InText(text, entities) && i < |entities|
    ensures InText(text, entities[..i]) && InText(text, entities[..i + 1])
    ensures UnionOf(entities[..i + 1], resolution, text, priorities)
         == Absorb(UnionOf(entities[..i], resolution, text, priorities), entities[i], resolution, text, priorities)
  {
    assert entities[..i + 1][..i] == entities[..i];
  }

  method MergeUnion(entities: seq<Entity>, resolution: Resolution, text: string, priorities: Priorities)
    returns (merged: seq<Entity>)
    requires InText(text, entities)
    ensures merged == UnionOf(entities, resolution, text, priorities)
  {
    merged := [];
    for i := 0 to |entities|
      invariant InText(text, entities[..i])
      invariant merged == UnionOf(entities[..i], resolution, text, priorities)
    {
      UnionNext(entities, i, resolution, text, priorities);
      merged := AbsorbOne(merged, entities[i], resolution, text, priorities);
    }
    assert entities[..|entities|] == entities;
  }

  /** Detection `i` is overlapped by one from another detector. */
  predicate Agreed(entities: seq<Entity>, i: nat)
    requires i < |entities|
  {
    exists j :: 0 <= j < |entities| && Agree(entities[i], entities[j])
  }

  predicate Agree(a: Entity, b: Entity) {
    a.source != b.source && a.start < b.end && b.start < a.end
  }

  function Confirmed(entities: seq<Entity>): set<nat> {
    set i: nat | 0 <= i < |entities| && Agreed(entities, i)
  }

  /** The pairs the two loops have looked at: all with a first member below `i`, and those
      of `i` with a second member below `j`. */
  predicate Seen(entities: seq<Entity>, i: nat, j: nat, k: nat) {
    exists a, b :: 0 <= a < b < |entities| && (a < i || (a == i && b < j)) && (k == a || k == b)
                   && Agree(entities[a], entities[b])
  }

  ghost predicate SeenSet(entities: seq<Entity>, i: nat, j: nat, seen: set<nat>) {
    forall k: nat :: k in seen <==> Seen(entities, i, j, k)
  }

  /** The confirmed places so far, in the order the two loops note them: all pairs with a first
      member below `i`, and those of `i` with a second member below `j`. */
  function PairOrder(entities: seq<Entity>, i: nat, j: nat): (order: seq<nat>)
    requires i <= |entities| && j <= |entities|
    ensures forall k :: k in order ==> k < |entities|
    decreases i, j
  {
    if j > i + 1 then
      var before := PairOrder(entities, i, j - 1);
      if Agree(entities[i], entities[j - 1]) then Noted(Noted(before, i), j - 1) else before
    else if i > 0 then PairOrder(entities, i - 1, |entities|)
    else []
  }

  function Noted(order: seq<nat>, i: nat): seq<nat> {
    if i in order then order else order + [i]
  }

  function Picked(entities: seq<Entity>, order: seq<nat>): seq<Entity>
    requires forall k :: k in order ==> k < |entities|
  {
    seq(|order|, i requires 0 <= i < |order| => assert order[i] in order; entities[order[i]])
  }

  /** The confirmed detections, each once. Both members of an agreeing pair are kept. */
  function ConfirmedOf(entities: seq<Entity>): seq<Entity> {
    Picked(entities, PairOrder(entities, |entities|, 0))
  }

  ghost predicate Tracked(entities: seq<Entity>, order: seq<nat>, seen: set<nat>, confirmed: seq<Entity>) {
    && (forall k :: k in order ==> k < |entities|)
    && (forall k: nat :: k in seen <==> k in order)
    && confirmed == Picked(entities, order)
  }

  method ConfirmPairs(entities: seq<Entity>) returns (confirmed: seq<Entity>)
    ensures confirmed == ConfirmedOf(entities)
  {
    confirmed := [];
    var seen: set<nat> := {};
    for i := 0 to |entities|
      invariant Tracked(entities, PairOrder(entities, i, 0), seen, confirmed)
    {
      for j := i + 1 to |entities|
        invariant Tracked(entities, PairOrder(entities, i, j), seen, confirmed)
      {
        if Agree(entities[i], entities[j]) {
          ghost var order := PairOrder(entities, i, j);
          seen, confirmed := Confirm(entities, order, seen, confirmed, i);
          seen, confirmed := Confirm(entities, Noted(order, i), seen, confirmed, j);
        }
      }
    }
  }

  method Confirm(entities: seq<Entity>, ghost order: seq<nat>, seen: set<nat>, confirmed: seq<Entity>, i: nat)
    returns (seen': set<nat>, confirmed': seq<Entity>)
    requires Tracked(entities, order, seen, confirmed) && i < |entities|
    ensures Tracked(entities, Noted(order, i), seen', confirmed')
  {
    seen', confirmed' := seen, confirmed;
    if i !in seen {
      seen', confirmed' := seen + {i}, confirmed + [entities[i]];
    }
  }

  ghost function Places(order: seq<nat>): set<nat> {
    set k: nat | k in order
  }

  lemma {:induction false} NotedOnce(order: seq<nat>, i: nat)
    requires |Places(order)| == |order|
    ensures Places(Noted(order, i)) == Places(order) + {i} && |Places(Noted(order, i))| == |Noted(order, i)|
  {
    assert Places(Noted(order, i)) == Places(order) + {i};
  }

  lemma {:induction false} OrderIsSeen(entities: seq<Entity>, i: nat, j: nat)
    requires i <= |entities| && j <= |entities|
    ensures SeenSet(entities, i, j, Places(PairOrder(entities, i, j)))
    ensures |Places(PairOrder(entities, i, j))| == |PairOrder(entities, i, j)|
    decreases i, j
  {
    var order := PairOrder(entities, i, j);
    if j > i + 1 {
      OrderIsSeen(entities, i, j - 1);
      var before := PairOrder(entities, i, j - 1);
      if Agree(entities[i], entities[j - 1]) {
        NotedOnce(before, i);
        NotedOnce(Noted(before, i), j - 1);
      }
      SeenNext(entities, i, j - 1, Places(before), Places(order));
    } else if i > 0 {
      OrderIsSeen(entities, i - 1, |entities|);
      SeenRow(entities, i - 1, Places(order));
      SeenEarly(entities, i, j);
    } else {
      SeenEarly(entities, i, j);
    }
  }

  /** The confirmed detections are the ones overlapped from another detector, each once. */
  lemma {:induction false} ConfirmedExactly(entities: seq<Entity>)
    ensures forall e :: e in ConfirmedOf(entities) <==> IsConfirmed(entities, e)
    ensures |ConfirmedOf(entities)| == |Confirmed(entities)|
  {
    var order := PairOrder(entities, |entities|, 0);
    OrderIsSeen(entities, |entities|, 0);
    SeenAll(entities, Places(order));
    forall e ensures e in ConfirmedOf(entities) <==> exists k: nat :: k in Confirmed(entities) && entities[k] == e {
      if e in ConfirmedOf(entities) {
        var i :| 0 <= i < |order| && ConfirmedOf(entities)[i] == e;
        assert order[i] in Places(order);
      }
      if exists k: nat :: k in Confirmed(entities) && entities[k] == e {
        var k: nat :| k in Confirmed(entities) && entities[k] == e;
        assert k in order;
        var i :| 0 <= i < |order| && order[i] == k;
        assert ConfirmedOf(entities)[i] == e;
      }
    }
    ConfirmedElements(entities, entities, ConfirmedOf(entities));
  }

  /** No pair of `i` has been looked at yet. */
  lemma {:induction false} SeenEarly(entities: seq<Entity>, i: nat, j: nat)
    requires j <= i + 1
    ensures forall k: nat :: Seen(entities, i, j, k) <==> Seen(entities, i, 0, k)
  {
  }

  lemma {:induction false} SeenNext(entities: seq<Entity>, i: nat, j: nat, seen: set<nat>, seen': set<nat>)
    requires i < j < |entities| && SeenSet(entities, i, j, seen)
    requires seen' == if Agree(entities[i], entities[j]) then seen + {i} + {j} else seen
    ensures SeenSet(entities, i, j + 1, seen')
  {
    forall k: nat ensures k in seen' <==> Seen(entities, i, j + 1, k) {
      if Seen(entities, i, j, k) {
        var a, b :| 0 <= a < b < |entities| && (a < i || (a == i && b < j)) && (k == a || k == b) && Agree(entities[a], entities[b]);
      }
    }
  }

  lemma {:induction false} SeenRow(entities: seq<Entity>, i: nat, seen: set<nat>)
    requires i < |entities| && SeenSet(entities, i, |entities|, seen)
    ensures SeenSet(entities, i + 1, 0, seen)
  {
    forall k: nat ensures Seen(entities, i, |entities|, k) <==> Seen(entities, i + 1, 0, k) {
      if Seen(entities, i, |entities|, k) {
        var a, b :| 0 <= a < b < |entities| && (a < i || (a == i && b < |entities|)) && (k == a || k == b) && Agree(entities[a], entities[b]);
        assert a < i + 1;
      }
      if Seen(entities, i + 1, 0, k) {
        var a, b :| 0 <= a < b < |entities| && (a < i + 1 || (a == i + 1 && b < 0)) && (k == a || k == b) && Agree(entities[a], entities[b]);
        assert a < i || (a == i && b < |entities|);
      }
    }
  }

  lemma {:induction false} SeenAll(entities: seq<Entity>, seen: set<nat>)
    requires SeenSet(entities, |entities|, 0, seen)
    ensures seen == Confirmed(entities)
  {
    forall k: nat ensures Seen(entities, |entities|, 0, k) <==> k in Confirmed(entities) {
      if Seen(entities, |entities|, 0, k) {
        var a, b :| 0 <= a < b < |entities| && (k == a || k == b) && Agree(entities[a], entities[b]);
        assert Agree(entities[b], entities[a]);
        assert Agreed(entities, k);
      }
      if k in Confirmed(entities) {
        var j :| 0 <= j < |entities| && Agree(entities[k], entities[j]);
        assert Agree(entities[j], entities[k]);
        if k < j { assert Seen(entities, |entities|, 0, k); } else { assert Seen(entities, |entities|, 0, k); }
      }
    }
  }

  /** The detections overlapped by one from another detector. */
  ghost predicate IsConfirmed(entities: seq<Entity>, e: Entity) {
    e in entities && exists other :: other in entities && Agree(e, other)
  }

  datatype Strategy = UnionAll | Intersection

  /** The detections a merge takes into account. */
  ghost predicate Taken(strategy: Strategy, entities: seq<Entity>, e: Entity) {
    if strategy == UnionAll then e in entities else IsConfirmed(entities, e)
  }

  function Considered(entities: seq<Entity>, strategy: Strategy): seq<Entity> {
    if strategy == UnionAll then entities else ConfirmedOf(Sort(entities))
  }

  lemma {:induction false} ConsideredAreTaken(entities: seq<Entity>, strategy: Strategy)
    ensures forall e :: e in Considered(entities, strategy) <==> Taken(strategy, entities, e)
  {
    if strategy == Intersection {
      SortSorts(entities);
      ConfirmedExactly(Sort(entities));
      forall e ensures IsConfirmed(Sort(entities), e) <==> IsConfirmed(entities, e) {
      }
    }
  }

  lemma {:induction false} ConsideredInText(entities: seq<Entity>, strategy: Strategy, text: string)
    requires InText(text, entities)
    ensures InText(text, Considered(entities, strategy))
    ensures Solid(entities) ==> Solid(Considered(entities, strategy))
  {
    ConsideredAreTaken(entities, strategy);
    var taken := Considered(entities, strategy);
    forall i | 0 <= i < |taken|
      ensures 0 <= taken[i].start <= taken[i].end <= |text| && (Solid(entities) ==> taken[i].start < taken[i].end)
    {
      assert taken[i] in taken && taken[i] in entities;
    }
  }

  /** `merge_entities`: agreement between detectors is resolved by score. */
  function Merged(entities: seq<Entity>, strategy: Strategy, resolution: Resolution, text: string, priorities: Priorities): (r: seq<Entity>)
    requires InText(text, entities)
    ensures InText(text, r)
  {
    ConsideredInText(entities, strategy, text);
    Union(Considered(entities, strategy), if strategy == UnionAll then resolution else HighestScore, text, priorities)
  }

  /** Either strategy merges exactly the detections it takes into account. */
  lemma {:induction false} MergedIsMerge(entities: seq<Entity>, strategy: Strategy, resolution: Resolution, text: string, priorities: Priorities)
    requires InText(text, entities)
    ensures forall e :: e in Considered(entities, strategy) <==> Taken(strategy, entities, e)
    ensures Merges(Considered(entities, strategy), Merged(entities, strategy, resolution, text, priorities), priorities)
  {
    ConsideredAreTaken(entities, strategy);
    ConsideredInText(entities, strategy, text);
    UnionIsMerge(Considered(entities, strategy), if strategy == UnionAll then resolution else HighestScore, text, priorities);
  }

  method MergeEntities(entities: seq<Entity>, strategy: Strategy, resolution: Resolution, text: string, priorities: Priorities)
    returns (merged: seq<Entity>)
    requires InText(text, entities)
    ensures merged == Merged(entities, strategy, resolution, text, priorities)
  {
    SortInText(entities, text);
    var sorted := Sort(entities);
    if strategy == UnionAll {
      merged := MergeUnion(sorted, resolution, text, priorities);
      return;
    }
    ConsideredInText(entities, strategy, text);
    var confirmed := ConfirmPairs(sorted);
    SortInText(confirmed, text);
    merged := MergeUnion(Sort(confirmed), HighestScore, text, priorities);
  }

  lemma {:induction false} ConfirmedElements(entities: seq<Entity>, sorted: seq<Entity>, confirmed: seq<Entity>)
    requires forall e :: e in sorted <==> e in entities
    requires forall e :: e in confirmed <==> exists k: nat :: k in Confirmed(sorted) && sorted[k] == e
    ensures forall e :: e in confirmed <==> IsConfirmed(entities, e)
  {
    forall e ensures e in confirmed <==> IsConfirmed(entities, e) {
      if e in confirmed {
        var k: nat :| k in Confirmed(sorted) && sorted[k] == e;
        var j :| 0 <= j < |sorted| && Agree(sorted[k], sorted[j]);
        assert sorted[j] in entities;
      }
      if IsConfirmed(entities, e) {
        var other :| other in entities && Agree(e, other);
        var k :| 0 <= k < |sorted| && sorted[k] == e;
        var j :| 0 <= j < |sorted| && sorted[j] == other;
        assert Agreed(sorted, k);
        assert k in Confirmed(sorted);
      }
    }
  }
}
