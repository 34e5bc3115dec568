/**
 What the policy decides (privaite/pii/entity.py, privaite/pii/engine.py, privaite/pii/allow_list.py):
 which label a merged span carries, and what no rule lets through.
 */
module Policy {
  import opened Wrappers
  import opened Entities
  import opened Merge
  import AllowList
  import Engine

  // ----- one overlap -----

  /** The second of two overlapping detections takes the label from the first. */
  predicate Wins(e: Entity, last: Entity, resolution: Resolution, priorities: Priorities) {
    var pe, pl := Priority(priorities, e.entityType), Priority(priorities, last.entityType);
    || pe > pl
    || (pe == pl && e.entityType == last.entityType && e.score > last.score)
    || (pe == pl && e.entityType != last.entityType &&
        match resolution
        case HighestScore => e.score > last.score
        case LongestSpan => e.end - e.start > last.end - last.start
        case PresidioPriority =>
          || (e.source == "presidio" && last.source != "presidio")
          || ((e.source == "presidio" <==> last.source == "presidio") && e.score > last.score))
  }

  predicate SameLabel(a: Entity, b: Entity) {
    a.entityType == b.entityType && a.score == b.score && a.source == b.source
  }

  lemma {:induction false} OverlapIsDecided(last: Entity, e: Entity, resolution: Resolution, text: string, priorities: Priorities)
    requires 0 <= last.start <= last.end <= |text| && 0 <= e.start <= e.end <= |text|
    ensures SameLabel(Widen(last, e, resolution, text, priorities), if Wins(e, last, resolution, priorities) then e else last)
  {
  }

  lemma {:induction false} SamePlaceStaysInOrder(a: Entity, b: Entity, c: Entity)
    requires a.start == b.start == c.start && a.end == b.end == c.end
    ensures Sort([a, b, c]) == [a, b, c]
  {
    assert [a, b, c][1..] == [b, c] && [b, c][1..] == [c] && [c][1..] == [];
    assert Sort([c]) == [c];
    assert Sort([b, c]) == [b, c];
  }

  lemma {:induction false} ThreeInTurn(a: Entity, b: Entity, c: Entity, resolution: Resolution, text: string, priorities: Priorities)
    requires 0 <= a.start <= a.end <= |text| && 0 <= b.start <= b.end <= |text| && 0 <= c.start <= c.end <= |text|
    ensures UnionOf([a, b, c], resolution, text, priorities)
         == Absorb(Absorb([a], b, resolution, text, priorities), c, resolution, text, priorities)
  {
    assert [a, b, c][..2] == [a, b] && [a, b][..1] == [a] && [a][..0] == [];
    assert UnionOf([a], resolution, text, priorities) == [a];
    assert UnionOf([a, b], resolution, text, priorities) == Absorb([a], b, resolution, text, priorities);
  }

  lemma {:induction false} TakesItsPlace(last: Entity, e: Entity, resolution: Resolution, text: string, priorities: Priorities)
    requires 0 <= e.start == last.start < e.end == last.end <= |text| && Wins(e, last, resolution, priorities)
    ensures Absorb([last], e, resolution, text, priorities) == [e]
  {
    assert [last][..0] == [];
  }

  /** Of three detections with no priorities, the one from Presidio loses: a higher score of its own
      type takes its place, and a third type wins on its score. */
  lemma {:induction false} PresidioCanLose()
    ensures var a := Entity("PERSON", "Ann", 0, 3, 0.5, "presidio");
            var b := Entity("PERSON", "Ann", 0, 3, 0.8, "model");
            var c := Entity("LOCATION", "Ann", 0, 3, 0.9, "model");
            && Wins(a, c, PresidioPriority, map[]) && !Wins(c, a, PresidioPriority, map[])
            && Merged([a, b, c], UnionAll, PresidioPriority, "Ann", map[]) == [c]
  {
    var a := Entity("PERSON", "Ann", 0, 3, 0.5, "presidio");
    var b := Entity("PERSON", "Ann", 0, 3, 0.8, "model");
    var c := Entity("LOCATION", "Ann", 0, 3, 0.9, "model");
    SamePlaceStaysInOrder(a, b, c);
    ThreeInTurn(a, b, c, PresidioPriority, "Ann", map[]);
    TakesItsPlace(a, b, PresidioPriority, "Ann", map[]);
    TakesItsPlace(b, c, PresidioPriority, "Ann", map[]);
  }

  // ----- a whole merge -----

  /** Policy first, score second. */
  predicate Outranks(x: Entity, m: Entity, priorities: Priorities) {
    || Priority(priorities, x.entityType) > Priority(priorities, m.entityType)
    || (Priority(priorities, x.entityType) == Priority(priorities, m.entityType) && x.score > m.score)
  }

  /** No detection that starts in a merged span outranks it. */
  ghost predicate Foremost(m: Entity, entities: seq<Entity>, priorities: Priorities) {
    forall x :: x in entities && m.start <= x.start < m.end ==> !Outranks(x, m, priorities)
  }

  lemma {:induction false} WidenedIsForemost(front: seq<Entity>, last: Entity, e: Entity, text: string, priorities: Priorities)
    requires 0 <= last.start <= last.end <= |text| && 0 <= e.start <= e.end <= |text| && e.start < last.end
    requires Foremost(last, front, priorities) && forall x :: x in front ==> x.start <= e.start
    ensures Foremost(Widen(last, e, HighestScore, text, priorities), front + [e], priorities)
  {
    OverlapIsDecided(last, e, HighestScore, text, priorities);
    var w := Widen(last, e, HighestScore, text, priorities);
    assert !Outranks(last, w, priorities) && !Outranks(e, w, priorities);
  }

  lemma {:induction false} EarlierStaysForemost(front: seq<Entity>, m: Entity, e: Entity, priorities: Priorities)
    requires Foremost(m, front, priorities) && m.end <= e.start
    ensures Foremost(m, front + [e], priorities)
  {
  }

  lemma {:induction false} StartsBefore(front: seq<Entity>, merged: seq<Entity>, e: Entity, x: Entity, priorities: Priorities)
    requires Sorted(front + [e]) && x in front && Kept(x, merged, priorities) && forall m :: m in merged ==> m.end <= e.start
    ensures x.start < e.start || e.end <= x.start
  {
    var i :| 0 <= i < |front| && front[i] == x;
    var all := front + [e];
    assert all[i] == x && all[|front|] == e && Before(all[i], all[|front|]);
  }

  /** A detection behind the merged spans so far is the only one that starts in its place. */
  lemma {:induction false} NewIsForemost(front: seq<Entity>, merged: seq<Entity>, e: Entity, priorities: Priorities)
    requires Sorted(front + [e]) && (forall x :: x in front ==> Kept(x, merged, priorities)) && forall m :: m in merged ==> m.end <= e.start
    ensures Foremost(e, front + [e], priorities)
  {
    forall x | x in front ensures x.start < e.start || e.end <= x.start {
      StartsBefore(front, merged, e, x, priorities);
    }
  }

  lemma {:induction false} UnionIsForemost(entities: seq<Entity>, text: string, priorities: Priorities)
    requires InText(text, entities) && Sorted(entities)
    ensures forall m :: m in UnionOf(entities, HighestScore, text, priorities) ==> Foremost(m, entities, priorities)
    decreases |entities|
  {
    if entities != [] {
      var n := |entities| - 1;
      var front, e := entities[..n], entities[n];
      assert entities == front + [e];
      UnionIsForemost(front, text, priorities);
      UnionMerges(front, HighestScore, text, priorities);
      assert forall i :: 0 <= i < n ==> Before(entities[i], e);
      AbsorbIsForemost(front, UnionOf(front, HighestScore, text, priorities), e, text, priorities);
    }
  }

  lemma {:induction false} AbsorbIsForemost(front: seq<Entity>, merged: seq<Entity>, e: Entity, text: string, priorities: Priorities)
    requires InText(text, merged) && 0 <= e.start <= e.end <= |text| && Sorted(front + [e])
    requires Merges(front, merged, priorities) && forall m :: m in merged ==> m.start <= e.start
    requires forall x :: x in front ==> x.start <= e.start
    requires forall m :: m in merged ==> Foremost(m, front, priorities)
    ensures forall m :: m in Absorb(merged, e, HighestScore, text, priorities) ==> Foremost(m, front + [e], priorities)
  {
    var n := |merged| - 1;
    var now := Absorb(merged, e, HighestScore, text, priorities);
    forall m | m in now ensures Foremost(m, front + [e], priorities) {
      var i :| 0 <= i < |now| && now[i] == m;
      if i < n || (i == n && e.start >= merged[n].end) {
        assert now[i] == merged[i] && merged[i] in merged;
        assert merged[n] in merged;
        EarlierStaysForemost(front, m, e, priorities);
      } else if merged == [] || e.start >= merged[n].end {
        assert forall j :: 0 <= j < n ==> merged[j].end <= merged[n].start;
        NewIsForemost(front, merged, e, priorities);
      } else {
        assert merged[n] in merged;
        WidenedIsForemost(front, merged[n], e, text, priorities);
      }
    }
  }

  /** Where the highest score decides, a merged span carries the label of a detection in it that no
      detection starting in it outranks. */
  lemma {:induction false} HighestWins(entities: seq<Entity>, text: string, priorities: Priorities, m: Entity)
    requires InText(text, entities) && m in Union(entities, HighestScore, text, priorities)
    ensures Foremost(m, entities, priorities) && exists d :: d in entities && Inside(d, m) && SameLabel(d, m)
  {
    SortInText(entities, text);
    SortSorts(entities);
    UnionIsForemost(Sort(entities), text, priorities);
    UnionIsMerge(entities, HighestScore, text, priorities);
    assert Labelled(m, entities);
    var d :| d in entities && Inside(d, m) && d.entityType == m.entityType && d.score == m.score && d.source == m.source;
    assert SameLabel(d, m);
  }

  // ----- the order of types -----

  /** Blocking outranks masking and redacting, and these outrank the rest. */
  lemma {:induction false} TypeOrder(cfg: Engine.Config, entities: seq<Entity>, a: Entity, b: Entity)
    requires a in entities && b in entities
    ensures Priority(Engine.TypePriorities(cfg, entities), a.entityType) > Priority(Engine.TypePriorities(cfg, entities), b.entityType)
       <==> || (a.entityType in cfg.blocked && b.entityType !in cfg.blocked)
            || (cfg.anonymization.Irreversible(a.entityType) && b.entityType !in cfg.blocked && !cfg.anonymization.Irreversible(b.entityType))
  {
  }

  /** Every detection that counts lies in a merged span of a type no weaker than its own: a blocked one in
      a blocked one, one that is masked or redacted in one that is blocked, masked or redacted. */
  lemma {:induction false} StrictestWins(cfg: Engine.Config, text: string, raw: seq<Entity>, d: Entity) returns (m: Entity)
    requires InText(text, raw) && Taken(cfg.strategy, raw, d)
    ensures m in Engine.MergedOf(cfg, text, raw) && Inside(d, m)
    ensures d.entityType in cfg.blocked ==> m.entityType in cfg.blocked
    ensures cfg.anonymization.Irreversible(d.entityType) ==> m.entityType in cfg.blocked || cfg.anonymization.Irreversible(m.entityType)
  {
    var priorities := Engine.TypePriorities(cfg, raw);
    MergedIsMerge(raw, cfg.strategy, cfg.resolution, text, priorities);
    assert Kept(d, Engine.MergedOf(cfg, text, raw), priorities);
    m :| m in Engine.MergedOf(cfg, text, raw) && Inside(d, m) && Priority(priorities, m.entityType) >= Priority(priorities, d.entityType);
    assert Labelled(m, Considered(raw, cfg.strategy));
    var x :| x in Considered(raw, cfg.strategy) && Inside(x, m) && x.entityType == m.entityType && x.score == m.score && x.source == m.source;
    assert Taken(cfg.strategy, raw, x);
    TypeOrder(cfg, raw, d, x);
  }

  // ----- what no rule lets through -----

  /** Two detections overlap if and only if some place lies in both. */
  lemma {:induction false} OverlapsExactly(a: Entity, b: Entity)
    requires a.start < a.end && b.start < b.end
    ensures AllowList.Overlaps(a, b) <==> exists p :: At(a, p) && At(b, p)
  {
    var p := if a.start < b.start then b.start else a.start;
    if AllowList.Overlaps(a, b) { assert At(a, p) && At(b, p); }
  }

  /** A span is partly allowed if and only if a detection that overlaps it is admitted. */
  lemma {:induction false} AllowedExactly(cfg: Engine.Config, text: string, raw: seq<Entity>, span: Entity)
    requires InText(text, raw)
    ensures AllowList.AllowedUnder(text, raw, cfg.rules, Engine.Protected(cfg), span) <==>
            exists d :: d in raw && AllowList.Overlaps(span, d) && AllowList.Admitted(text, d, cfg.rules, Engine.Protected(cfg))
  {
    if i :| 0 <= i < |raw| && AllowList.Overlaps(span, raw[i]) && AllowList.Admitted(text, raw[i], cfg.rules, Engine.Protected(cfg)) {
      assert raw[i] in raw;
    }
    if d :| d in raw && AllowList.Overlaps(span, d) && AllowList.Admitted(text, d, cfg.rules, Engine.Protected(cfg)) {
      var i :| 0 <= i < |raw| && raw[i] == d;
    }
  }

  /** A rule that names no types, or at least not this one. */
  predicate NamesNot(rule: AllowList.Rule, entityType: string) {
    rule.entityTypes.Some? ==> entityType !in rule.entityTypes.value
  }

  /** A rule admits a value of at most 1024 characters that it matches, of a type it names; without
      names, of any type but SECRET and the blocked ones. */
  lemma {:induction false} AdmittedExactly(cfg: Engine.Config, text: string, d: Entity)
    requires 0 <= d.start <= d.end <= |text|
    ensures AllowList.Admitted(text, d, cfg.rules, Engine.Protected(cfg)) <==>
            exists r :: && r in cfg.rules && d.end - d.start <= 1024 && r.matches(text[d.start..d.end])
                        && match r.entityTypes
                           case Some(types) => d.entityType in types
                           case None => d.entityType != "SECRET" && d.entityType !in cfg.blocked
  {
    if i :| 0 <= i < |cfg.rules| && cfg.rules[i].Allows(d.entityType, text[d.start..d.end], Engine.Protected(cfg)) {
      assert cfg.rules[i] in cfg.rules;
    }
    if r :| r in cfg.rules && r.Allows(d.entityType, text[d.start..d.end], Engine.Protected(cfg)) {
      var i :| 0 <= i < |cfg.rules| && cfg.rules[i] == r;
    }
  }

  /** A secret, or a detection of a blocked type, lies in a redacted span unless a rule names its type. */
  lemma {:induction false} ProtectedIsRedacted(cfg: Engine.Config, text: string, raw: seq<Entity>, d: Entity) returns (m: Entity)
    requires InText(text, raw) && Taken(cfg.strategy, raw, d) && d.start < d.end
    requires d.entityType == "SECRET" || d.entityType in cfg.blocked
    requires forall r :: r in cfg.rules ==> NamesNot(r, d.entityType)
    ensures m in Engine.Redacted(cfg, text, raw) && Inside(d, m)
  {
    AdmittedExactly(cfg, text, d);
    m := Engine.RefusedIsRedacted(cfg, text, raw, d);
  }
}
