/**
 One text through privaite/pii/engine.py: detection merge, allow list, propagation of
 known credentials, the block gate, and the anonymizer.
 */
module Engine {
  import opened Wrappers
  import opened Entities
  import opened Mapping
  import Merge
  import AllowList
  import Anonymization
  import Literals

  /** A match of the structured secret rules. */
  datatype Match = Match(start: nat, end: nat, entityType: string)

  /** Detectors and rules are foreign code: the raw detections come with each text, and the
      secret rules, when they are on, are any function. `isAlnum` and `isDigit` stand for
      Python's character classes. */
  datatype Config = Config(
    blocked: set<string>,
    anonymization: Anonymization.Config,
    strategy: Merge.Strategy,
    resolution: Merge.Resolution,
    rules: seq<AllowList.Rule>,
    secretRules: Option<string -> seq<Match>>,
    isAlnum: char -> bool,
    isDigit: char -> bool)

  const PROPAGATED_MIN_LENGTH := 8

  function TypesOf(entities: seq<Entity>): set<string> {
    set e | e in entities :: e.entityType
  }

  /** A blocked type outranks an irreversible one, which outranks the rest. */
  function TypePriorities(cfg: Config, entities: seq<Entity>): Merge.Priorities {
    map t | t in TypesOf(entities) ::
      if t in cfg.blocked then 2 else if cfg.anonymization.Irreversible(t) then 1 else 0
  }

  function Protected(cfg: Config): set<string> {
    AllowList.ALWAYS_PROTECTED + cfg.blocked
  }

  /** The detections of all detectors, merged. */
  function MergedOf(cfg: Config, text: string, raw: seq<Entity>): (r: seq<Entity>)
    requires Merge.InText(text, raw)
    ensures Merge.InText(text, r)
  {
    Merge.Merged(raw, cfg.strategy, cfg.resolution, text, TypePriorities(cfg, raw))
  }

  /** What `_detect_all` hands on: the merged detections that are not let through. */
  ghost function Redacted(cfg: Config, text: string, raw: seq<Entity>): seq<Entity>
    requires Merge.InText(text, raw)
  {
    AllowList.Applied(text, MergedOf(cfg, text, raw), raw, cfg.rules, Protected(cfg)).redacted
  }

  /** A detection the merge takes into account: every one, or those another detector agrees with. */
  ghost predicate Counts(cfg: Config, raw: seq<Entity>, d: Entity) {
    Merge.Taken(cfg.strategy, raw, d)
  }

  lemma {:induction false} MergedIsMerge(cfg: Config, text: string, raw: seq<Entity>) returns (taken: seq<Entity>)
    requires Merge.InText(text, raw)
    ensures forall d :: d in taken <==> Counts(cfg, raw, d)
    ensures Merge.Merges(taken, MergedOf(cfg, text, raw), TypePriorities(cfg, raw))
    ensures Merge.Solid(raw) ==> Merge.Solid(taken)
  {
    taken := Merge.Considered(raw, cfg.strategy);
    Merge.MergedIsMerge(raw, cfg.strategy, cfg.resolution, text, TypePriorities(cfg, raw));
    Merge.ConsideredInText(raw, cfg.strategy, text);
  }

  // ----- known values -----

  predicate TokenShaped(cfg: Config, value: string) {
    && |value| >= PROPAGATED_MIN_LENGTH
    && (exists i :: 0 <= i < |value| && cfg.isDigit(value[i]))
    && (exists i :: 0 <= i < |value| && !cfg.isDigit(value[i]))
  }

  /** Neither end of the occurrence has a letter or digit on both of its sides. */
  predicate StandsAlone(cfg: Config, text: string, start: nat, end: nat)
    requires start < end <= |text|
  {
    && !(cfg.isAlnum(text[start]) && start > 0 && cfg.isAlnum(text[start - 1]))
    && !(cfg.isAlnum(text[end - 1]) && end < |text| && cfg.isAlnum(text[end]))
  }

  predicate MatchesInText(text: string, matches: seq<Match>) {
    forall i :: 0 <= i < |matches| ==> matches[i].start <= matches[i].end <= |text|
  }

  predicate CoversMatch(entities: seq<Entity>, start: int, end: int) {
    exists i :: 0 <= i < |entities| && entities[i].start <= start && end <= entities[i].end
  }

  /** The values the rules identify in this text join the known ones. */
  function RememberAll(cfg: Config, text: string, entities: seq<Entity>, matches: seq<Match>, st: MapState): MapState
    requires MatchesInText(text, matches)
    decreases |matches|
  {
    if matches == [] then st
    else
      var m := matches[0];
      var value := text[m.start..m.end];
      var st' := if TokenShaped(cfg, value) && CoversMatch(entities, m.start, m.end)
                 then st.Remembered(value, m.entityType) else st;
      RememberAll(cfg, text, entities, matches[1..], st')
  }

  predicate OccursAt(text: string, value: string, i: nat) {
    i + |value| <= |text| && text[i..i + |value|] == value
  }

  /** text.find(value, from). */
  function Find(text: string, value: string, from: nat): (r: Option<nat>)
    requires from <= |text|
    ensures r.Some? ==> from <= r.value && OccursAt(text, value, r.value)
    ensures forall i: nat :: from <= i && (r.Some? ==> i < r.value) ==> !OccursAt(text, value, i)
    decreases |text| - from
  {
    if OccursAt(text, value, from) then Some(from)
    else if from == |text| then None
    else Find(text, value, from + 1)
  }

  predicate CoveredAs(entities: seq<Entity>, entityType: string, start: int, end: int) {
    exists i :: 0 <= i < |entities| && entities[i].entityType == entityType
                && entities[i].start <= start && end <= entities[i].end
  }

  function Copy(k: Known, start: nat): Entity {
    Entity(k.entityType, k.value, start, start + |k.value|, 1.0, "known")
  }

  /** One occurrence: a copy, unless a detection of its type covers it already or it is part
      of a longer identifier. */
  function CopyAt(cfg: Config, text: string, entities: seq<Entity>, k: Known, start: nat): (copies: seq<Entity>)
    requires start + |k.value| <= |text| && k.value != ""
    ensures |copies| <= 1
    ensures copies != [] ==> copies[0] == Copy(k, start)
  {
    var end := start + |k.value|;
    if !CoveredAs(entities, k.entityType, start, end) && StandsAlone(cfg, text, start, end)
    then [Copy(k, start)] else []
  }

  /** The copies of one known value from position `from` on. */
  function CopiesOf(cfg: Config, text: string, entities: seq<Entity>, k: Known, from: nat): (copies: seq<Entity>)
    requires from <= |text| && k.value != ""
    ensures forall c :: c in copies ==> from <= c.start < c.end <= |text| && c.entityType == k.entityType
    decreases |text| - from
  {
    var found := Find(text, k.value, from);
    if found == None then []
    else
      CopyAt(cfg, text, entities, k, found.value) + CopiesOf(cfg, text, entities, k, found.value + |k.value|)
  }

  predicate Values(known: seq<Known>) {
    forall i :: 0 <= i < |known| ==> known[i].value != ""
  }

  function Copies(cfg: Config, text: string, entities: seq<Entity>, known: seq<Known>): (copies: seq<Entity>)
    requires Values(known)
    ensures forall c :: c in copies ==> 0 <= c.start < c.end <= |text|
  {
    if known == [] then []
    else
      var n := |known| - 1;
      Copies(cfg, text, entities, known[..n]) + CopiesOf(cfg, text, entities, known[n], 0)
  }

  lemma {:induction false} CopiesInText(cfg: Config, text: string, entities: seq<Entity>, known: seq<Known>)
    requires Values(known) && Merge.InText(text, entities)
    ensures Merge.InText(text, entities + Copies(cfg, text, entities, known))
  {
    var all := entities + Copies(cfg, text, entities, known);
    forall i | 0 <= i < |all| ensures 0 <= all[i].start <= all[i].end <= |text| {
      if i >= |entities| { assert all[i] in Copies(cfg, text, entities, known); }
    }
  }

  /** The detections with the copies of known values merged in. */
  function WithCopies(cfg: Config, text: string, entities: seq<Entity>, known: seq<Known>): (r: seq<Entity>)
    requires Values(known) && Merge.InText(text, entities)
    ensures Merge.InText(text, r)
  {
    var copies := Copies(cfg, text, entities, known);
    if copies == [] then entities
    else
      CopiesInText(cfg, text, entities, known);
      Merge.Union(entities + copies, cfg.resolution, text, TypePriorities(cfg, entities + copies))
  }

  function WithKnownValues(cfg: Config, text: string, entities: seq<Entity>, st: MapState): (r: (seq<Entity>, MapState))
    requires Merge.InText(text, entities) && Values(st.known)
    requires cfg.secretRules.Some? ==> MatchesInText(text, cfg.secretRules.value(text))
    ensures Merge.InText(text, r.0)
  {
    if cfg.secretRules == None then (entities, st)
    else
      var st' := RememberAll(cfg, text, entities, cfg.secretRules.value(text), st);
      RememberedValues(cfg, text, entities, cfg.secretRules.value(text), st);
      (WithCopies(cfg, text, entities, st'.known), st')
  }

  lemma {:induction false} RememberedValues(cfg: Config, text: string, entities: seq<Entity>, matches: seq<Match>, st: MapState)
    requires MatchesInText(text, matches) && Values(st.known)
    ensures var st' := RememberAll(cfg, text, entities, matches, st);
            Values(st'.known) && st' == st.(known := st'.known) && st.known <= st'.known
    decreases |matches|
  {
    if matches != [] {
      var m := matches[0];
      var value := text[m.start..m.end];
      var st' := if TokenShaped(cfg, value) && CoversMatch(entities, m.start, m.end)
                 then st.Remembered(value, m.entityType) else st;
      RememberedValues(cfg, text, entities, matches[1..], st');
    }
  }

  // ----- the gate -----

  function BlockedTypes(cfg: Config, entities: seq<Entity>): set<string> {
    set e | e in entities && e.entityType in cfg.blocked :: e.entityType
  }

  /** An allow-list entry that names this type admits this detection. */
  ghost predicate NamedAndAdmitted(cfg: Config, text: string, d: Entity)
    requires 0 <= d.start <= d.end <= |text|
  {
    exists i :: 0 <= i < |cfg.rules| && cfg.rules[i].entityTypes.Some?
                && d.entityType in cfg.rules[i].entityTypes.value
                && cfg.rules[i].Allows(d.entityType, text[d.start..d.end], Protected(cfg))
  }

  /** An entry without types never admits a blocked type. */
  lemma {:induction false} BlockedNeedsNaming(cfg: Config, text: string, d: Entity)
    requires 0 <= d.start <= d.end <= |text| && d.entityType in cfg.blocked
    ensures AllowList.Admitted(text, d, cfg.rules, Protected(cfg)) <==> NamedAndAdmitted(cfg, text, d)
  {
  }

  /** A detection that counts lies whole in a merged span, which outranks it. */
  lemma {:induction false} CountedIsMerged(cfg: Config, text: string, raw: seq<Entity>, d: Entity) returns (m: Entity)
    requires Merge.InText(text, raw) && Counts(cfg, raw, d)
    ensures m in MergedOf(cfg, text, raw) && Merge.Inside(d, m)
    ensures d.entityType in cfg.blocked ==> m.entityType in cfg.blocked
  {
    var priorities := TypePriorities(cfg, raw);
    var merged := MergedOf(cfg, text, raw);
    var taken := MergedIsMerge(cfg, text, raw);
    assert d in taken && Merge.Kept(d, merged, priorities);
    m :| m in merged && Merge.Inside(d, m)
         && Merge.Priority(priorities, m.entityType) >= Merge.Priority(priorities, d.entityType);
    TopPriority(cfg, raw, d, m.entityType);
  }

  /** A detection that counts and no rule admits lies whole in a redacted span, which outranks it. */
  lemma {:induction false} RefusedIsRedacted(cfg: Config, text: string, raw: seq<Entity>, d: Entity) returns (m: Entity)
    requires Merge.InText(text, raw) && Counts(cfg, raw, d) && d.start < d.end
    requires !AllowList.Admitted(text, d, cfg.rules, Protected(cfg))
    ensures m in Redacted(cfg, text, raw) && Merge.Inside(d, m)
    ensures d.entityType in cfg.blocked ==> m.entityType in cfg.blocked
  {
    m := CountedIsMerged(cfg, text, raw, d);
    var i :| 0 <= i < |raw| && raw[i] == d;
    assert AllowList.Overlaps(m, raw[i]);
    AllowList.SelectElements(text, MergedOf(cfg, text, raw), raw, cfg.rules, Protected(cfg), false);
  }

  /** Only a blocked type has the priority of a blocked type. */
  lemma {:induction false} TopPriority(cfg: Config, entities: seq<Entity>, d: Entity, t: string)
    requires d in entities
    ensures var p := TypePriorities(cfg, entities);
            d.entityType in cfg.blocked && Merge.Priority(p, t) >= Merge.Priority(p, d.entityType) ==> t in cfg.blocked
  {
    assert d.entityType in TypesOf(entities);
  }

  lemma {:induction false} RedactedInText(cfg: Config, text: string, raw: seq<Entity>)
    requires Merge.InText(text, raw)
    ensures Merge.InText(text, Redacted(cfg, text, raw)) && Merge.Disjoint(Redacted(cfg, text, raw))
    ensures Merge.Solid(raw) ==> Merge.Solid(Redacted(cfg, text, raw))
    ensures forall m :: m in Redacted(cfg, text, raw) ==> m in MergedOf(cfg, text, raw)
  {
    var merged := MergedOf(cfg, text, raw);
    var kept := Redacted(cfg, text, raw);
    var taken := MergedIsMerge(cfg, text, raw);
    AllowList.SelectElements(text, merged, raw, cfg.rules, Protected(cfg), false);
    AllowList.SelectStaysDisjoint(text, merged, raw, cfg.rules, Protected(cfg), false);
    if Merge.Solid(raw) { Merge.MergedIsSolid(taken, merged, TypePriorities(cfg, raw)); }
    forall i | 0 <= i < |kept|
      ensures 0 <= kept[i].start <= kept[i].end <= |text| && (Merge.Solid(raw) ==> kept[i].start < kept[i].end)
    {
      assert kept[i] in merged;
    }
  }

  /** Merging the copies in keeps every redacted span whole, under a type that outranks it. */
  lemma {:induction false} RedactedSurvives(cfg: Config, text: string, entities: seq<Entity>, known: seq<Known>, m: Entity) returns (f: Entity)
    requires Values(known) && Merge.InText(text, entities) && m in entities
    ensures f in WithCopies(cfg, text, entities, known) && Merge.Inside(m, f)
    ensures m.entityType in cfg.blocked ==> f.entityType in cfg.blocked
  {
    var copies := Copies(cfg, text, entities, known);
    if copies == [] {
      f := m;
    } else {
      var all := entities + copies;
      CopiesInText(cfg, text, entities, known);
      var priorities := TypePriorities(cfg, all);
      var merged := Merge.Union(all, cfg.resolution, text, priorities);
      Merge.UnionIsMerge(all, cfg.resolution, text, priorities);
      assert m in all && Merge.Kept(m, merged, priorities);
      f :| f in merged && Merge.Inside(m, f)
           && Merge.Priority(priorities, f.entityType) >= Merge.Priority(priorities, m.entityType);
      TopPriority(cfg, all, m, f.entityType);
    }
  }

  /** What the anonymizer is given for a text: None when the gate rejects it. */
  ghost function Final(cfg: Config, text: string, raw: seq<Entity>, st: MapState): (seq<Entity>, MapState)
    requires Merge.InText(text, raw) && Values(st.known)
    requires cfg.secretRules.Some? ==> MatchesInText(text, cfg.secretRules.value(text))
  {
    RedactedInText(cfg, text, raw);
    WithKnownValues(cfg, text, Redacted(cfg, text, raw), st)
  }

  ghost predicate Rejected(cfg: Config, text: string, raw: seq<Entity>, st: MapState)
    requires Merge.InText(text, raw) && Values(st.known)
    requires cfg.secretRules.Some? ==> MatchesInText(text, cfg.secretRules.value(text))
  {
    BlockedTypes(cfg, Final(cfg, text, raw, st).0) != {}
  }

  lemma {:induction false} RedactedReachesGate(cfg: Config, text: string, raw: seq<Entity>, st: MapState, m: Entity) returns (f: Entity)
    requires Merge.InText(text, raw) && Values(st.known)
    requires cfg.secretRules.Some? ==> MatchesInText(text, cfg.secretRules.value(text))
    requires m in Redacted(cfg, text, raw)
    ensures f in Final(cfg, text, raw, st).0 && Merge.Inside(m, f)
    ensures m.entityType in cfg.blocked ==> f.entityType in cfg.blocked
  {
    RedactedInText(cfg, text, raw);
    if cfg.secretRules == None {
      f := m;
    } else {
      var entities, matches := Redacted(cfg, text, raw), cfg.secretRules.value(text);
      RememberedValues(cfg, text, entities, matches, st);
      f := RedactedSurvives(cfg, text, entities, RememberAll(cfg, text, entities, matches, st).known, m);
    }
  }

  /**
   The gate never lets a blocked type pass: a non-empty detection of a blocked type that counts
   and that no allow-list entry naming its type admits makes the gate reject the text, whatever
   else was detected, however spans merge, and whatever values are known.
   */
  lemma {:induction false} GateIsSafe(cfg: Config, text: string, raw: seq<Entity>, st: MapState, d: Entity)
    requires Merge.InText(text, raw) && Values(st.known)
    requires cfg.secretRules.Some? ==> MatchesInText(text, cfg.secretRules.value(text))
    requires Counts(cfg, raw, d) && d.start < d.end && d.entityType in cfg.blocked
    requires !NamedAndAdmitted(cfg, text, d)
    ensures Rejected(cfg, text, raw, st)
  {
    BlockedNeedsNaming(cfg, text, d);
    var m := RefusedIsRedacted(cfg, text, raw, d);
    var f := RedactedReachesGate(cfg, text, raw, st, m);
    assert f.entityType in BlockedTypes(cfg, Final(cfg, text, raw, st).0);
  }

  /** Whatever counts and is refused is replaced: it lies whole in a span the anonymizer is given. */
  lemma {:induction false} RefusedIsReplaced(cfg: Config, text: string, raw: seq<Entity>, st: MapState, d: Entity) returns (f: Entity)
    requires Merge.InText(text, raw) && Values(st.known)
    requires cfg.secretRules.Some? ==> MatchesInText(text, cfg.secretRules.value(text))
    requires Counts(cfg, raw, d) && d.start < d.end && !AllowList.Admitted(text, d, cfg.rules, Protected(cfg))
    ensures f in Final(cfg, text, raw, st).0 && Merge.Inside(d, f)
  {
    var m := RefusedIsRedacted(cfg, text, raw, d);
    f := RedactedReachesGate(cfg, text, raw, st, m);
  }

  /** A blocked detection that counts lies in a span that is not let through. */
  ghost predicate BlockedSpan(cfg: Config, text: string, raw: seq<Entity>) {
    Merge.InText(text, raw) &&
    exists m, d :: m in Redacted(cfg, text, raw) && Counts(cfg, raw, d) && Merge.Inside(d, m) && d.entityType in cfg.blocked
  }

  /** The copies of known values that join the detections of a text. */
  ghost function CopiesFor(cfg: Config, text: string, raw: seq<Entity>, st: MapState): seq<Entity>
    requires Merge.InText(text, raw) && Values(st.known)
    requires cfg.secretRules.Some? ==> MatchesInText(text, cfg.secretRules.value(text))
  {
    if cfg.secretRules == None then []
    else
      RedactedInText(cfg, text, raw);
      RememberedValues(cfg, text, Redacted(cfg, text, raw), cfg.secretRules.value(text), st);
      Copies(cfg, text, Redacted(cfg, text, raw),
             RememberAll(cfg, text, Redacted(cfg, text, raw), cfg.secretRules.value(text), st).known)
  }

  /** The merge with the copies, as WithCopies computes it. */
  ghost predicate MergedWith(cfg: Config, text: string, entities: seq<Entity>, copies: seq<Entity>, final: seq<Entity>) {
    Merge.InText(text, entities + copies) &&
    final == if copies == [] then entities
             else Merge.Union(entities + copies, cfg.resolution, text, TypePriorities(cfg, entities + copies))
  }

  lemma {:induction false} FinalIsMerged(cfg: Config, text: string, raw: seq<Entity>, st: MapState)
    requires Merge.InText(text, raw) && Values(st.known)
    requires cfg.secretRules.Some? ==> MatchesInText(text, cfg.secretRules.value(text))
    ensures MergedWith(cfg, text, Redacted(cfg, text, raw), CopiesFor(cfg, text, raw, st), Final(cfg, text, raw, st).0)
  {
    RedactedInText(cfg, text, raw);
    var redacted := Redacted(cfg, text, raw);
    if cfg.secretRules == None {
      assert redacted + [] == redacted;
    } else {
      RememberedValues(cfg, text, redacted, cfg.secretRules.value(text), st);
      CopiesInText(cfg, text, redacted, RememberAll(cfg, text, redacted, cfg.secretRules.value(text), st).known);
    }
  }

  /** A merged span that holds a blocked detection carries a blocked type. */
  lemma {:induction false} SpanHasTopType(cfg: Config, text: string, raw: seq<Entity>, m: Entity, d: Entity)
    requires Merge.InText(text, raw) && Merge.Solid(raw)
    requires m in MergedOf(cfg, text, raw)
    requires Counts(cfg, raw, d) && Merge.Inside(d, m) && d.entityType in cfg.blocked
    ensures m.entityType in cfg.blocked
  {
    var priorities := TypePriorities(cfg, raw);
    var merged := MergedOf(cfg, text, raw);
    var taken := MergedIsMerge(cfg, text, raw);
    assert d in taken && Merge.Kept(d, merged, priorities);
    var k :| k in merged && Merge.Inside(d, k)
             && Merge.Priority(priorities, k.entityType) >= Merge.Priority(priorities, d.entityType);
    Merge.OneOrOther(merged, m, k);
    TopPriority(cfg, raw, d, k.entityType);
  }

  lemma {:induction false} SpanHasBlocked(cfg: Config, text: string, raw: seq<Entity>, m: Entity)
    requires Merge.InText(text, raw)
    requires m in Redacted(cfg, text, raw) && m.entityType in cfg.blocked
    ensures BlockedSpan(cfg, text, raw)
  {
    var taken := MergedIsMerge(cfg, text, raw);
    RedactedInText(cfg, text, raw);
    assert Merge.Labelled(m, taken);
    assert exists d :: d in taken && Merge.Inside(d, m) && d.entityType == m.entityType;
  }

  lemma {:induction false} CopyReachesGate(cfg: Config, text: string, entities: seq<Entity>, copies: seq<Entity>, final: seq<Entity>, c: Entity)
    returns (f: Entity)
    requires MergedWith(cfg, text, entities, copies, final)
    requires c in copies && c.entityType in cfg.blocked
    ensures f in final && f.entityType in cfg.blocked
  {
    var all := entities + copies;
    var priorities := TypePriorities(cfg, all);
    Merge.UnionIsMerge(all, cfg.resolution, text, priorities);
    assert c in all && Merge.Kept(c, final, priorities);
    f :| f in final && Merge.Inside(c, f)
         && Merge.Priority(priorities, f.entityType) >= Merge.Priority(priorities, c.entityType);
    TopPriority(cfg, all, c, f.entityType);
  }

  lemma {:induction false} LabelComesFrom(cfg: Config, text: string, entities: seq<Entity>, copies: seq<Entity>, final: seq<Entity>, f: Entity)
    returns (e: Entity)
    requires MergedWith(cfg, text, entities, copies, final) && f in final
    ensures (e in entities || e in copies) && e.entityType == f.entityType
  {
    var all := entities + copies;
    if copies == [] {
      e := f;
    } else {
      Merge.UnionIsMerge(all, cfg.resolution, text, TypePriorities(cfg, all));
      assert Merge.Labelled(f, all);
      e :| e in all && Merge.Inside(e, f) && e.entityType == f.entityType && e.score == f.score && e.source == f.source;
    }
  }

  /** The gate rejects a text exactly when a span that is not let through holds a blocked
      detection that counts, or a copy of a known value has a blocked type. */
  lemma {:induction false} GateIsExact(cfg: Config, text: string, raw: seq<Entity>, st: MapState)
    requires Merge.InText(text, raw) && Merge.Solid(raw) && Values(st.known)
    requires cfg.secretRules.Some? ==> MatchesInText(text, cfg.secretRules.value(text))
    ensures Rejected(cfg, text, raw, st) <==>
            BlockedSpan(cfg, text, raw) || BlockedTypes(cfg, CopiesFor(cfg, text, raw, st)) != {}
  {
    RedactedInText(cfg, text, raw);
    var redacted, copies := Redacted(cfg, text, raw), CopiesFor(cfg, text, raw, st);
    var final := Final(cfg, text, raw, st).0;
    FinalIsMerged(cfg, text, raw, st);
    if BlockedSpan(cfg, text, raw) {
      var m, d :| m in redacted && Counts(cfg, raw, d) && Merge.Inside(d, m) && d.entityType in cfg.blocked;
      SpanHasTopType(cfg, text, raw, m, d);
      var f := RedactedReachesGate(cfg, text, raw, st, m);
      assert f.entityType in BlockedTypes(cfg, final);
    }
    if BlockedTypes(cfg, copies) != {} {
      var t :| t in BlockedTypes(cfg, copies);
      var c :| c in copies && c.entityType == t;
      var f := CopyReachesGate(cfg, text, redacted, copies, final, c);
      assert f.entityType in BlockedTypes(cfg, final);
    }
    if Rejected(cfg, text, raw, st) {
      var t :| t in BlockedTypes(cfg, final);
      var f :| f in final && f.entityType == t;
      var e := LabelComesFrom(cfg, text, redacted, copies, final, f);
      if e in redacted {
        SpanHasBlocked(cfg, text, raw, e);
      } else {
        assert e.entityType in BlockedTypes(cfg, copies);
      }
    }
  }

  // ----- propagation covers the copies -----

  /** The scan for a value, which jumps over each occurrence it finds, reaches position `s`. */
  ghost predicate Scanned(text: string, value: string, from: nat, s: nat)
    requires value != "" && from <= |text|
    decreases |text| - from
  {
    var found := Find(text, value, from);
    found.Some? && (found.value == s || Scanned(text, value, found.value + |value|, s))
  }

  /** None of the occurrences the scan reaches from `from` on reaches into position `s`. */
  ghost predicate Clear(text: string, value: string, from: nat, s: nat)
    requires value != "" && from <= |text|
  {
    forall i: nat :: from <= i < s && Scanned(text, value, from, i) ==> i + |value| <= s
  }

  /** It reaches the occurrences that overlap no earlier one it reached. */
  lemma {:induction false} ScannedExactly(text: string, value: string, from: nat, s: nat)
    requires value != "" && from <= |text|
    ensures Scanned(text, value, from, s) <==> from <= s && OccursAt(text, value, s) && Clear(text, value, from, s)
    decreases |text| - from
  {
    var found := Find(text, value, from);
    if found.Some? {
      var next := found.value + |value|;
      assert Scanned(text, value, from, found.value);
      if next <= s {
        ScannedExactly(text, value, next, s);
        forall i: nat | from <= i < s ensures Scanned(text, value, from, i) <==> i == found.value || (next <= i && Scanned(text, value, next, i)) {
          if Scanned(text, value, next, i) { ScannedIsBehind(text, value, next, i); }
        }
        assert Clear(text, value, from, s) <==> Clear(text, value, next, s);
      } else if found.value != s {
        if Scanned(text, value, next, s) { ScannedIsBehind(text, value, next, s); }
        assert found.value < s ==> !Clear(text, value, from, s);
      } else {
        forall i: nat | from <= i < s ensures !Scanned(text, value, from, i) {
          if Scanned(text, value, from, i) { ScannedIsBehind(text, value, from, i); }
        }
      }
    }
  }

  lemma {:induction false} ScannedIsBehind(text: string, value: string, from: nat, s: nat)
    requires value != "" && from <= |text| && Scanned(text, value, from, s)
    ensures from <= s && OccursAt(text, value, s)
    decreases |text| - from
  {
    var found := Find(text, value, from).value;
    if found != s { ScannedIsBehind(text, value, found + |value|, s); }
  }

  /** No earlier occurrence of the value reaches into the one at `s`. */
  ghost predicate Free(text: string, value: string, s: nat) {
    forall i: nat :: i < s < i + |value| ==> !OccursAt(text, value, i)
  }

  lemma {:induction false} FreeIsScanned(text: string, value: string, s: nat)
    requires value != "" && OccursAt(text, value, s) && Free(text, value, s)
    ensures Scanned(text, value, 0, s)
  {
    ScannedExactly(text, value, 0, s);
    forall i: nat | i < s && Scanned(text, value, 0, i) ensures i + |value| <= s {
      ScannedIsBehind(text, value, 0, i);
    }
  }

  /** Some end of the value is also a beginning of it. */
  ghost predicate Bordered(value: string) {
    exists p: nat :: 0 < p < |value| && value[p..] == value[..|value| - p]
  }

  /** The scan reaches every occurrence in every text if and only if the value has no border. */
  lemma {:induction false} ScanIsCompleteExact(value: string)
    requires value != ""
    ensures (forall text: string, s: nat :: OccursAt(text, value, s) ==> Scanned(text, value, 0, s)) <==> !Bordered(value)
  {
    if Bordered(value) {
      var p: nat :| 0 < p < |value| && value[p..] == value[..|value| - p];
      BorderIsMissed(value, p);
      assert !(OccursAt(value[..p] + value, value, p) ==> Scanned(value[..p] + value, value, 0, p));
    } else {
      forall text: string, s: nat | OccursAt(text, value, s) ensures Scanned(text, value, 0, s) {
        forall i: nat | i < s < i + |value| ensures !OccursAt(text, value, i) {
          if OccursAt(text, value, i) { OverlapIsBorder(text, value, i, s); }
        }
        FreeIsScanned(text, value, s);
      }
    }
  }

  lemma {:induction false} OverlapIsBorder(text: string, value: string, i: nat, s: nat)
    requires OccursAt(text, value, i) && OccursAt(text, value, s) && i < s < i + |value|
    ensures Bordered(value)
  {
    var p := s - i;
    assert value[p..] == text[s..i + |value|] == value[..|value| - p];
  }

  /** The value twice, the second time on the end of the first. */
  lemma {:induction false} BorderIsMissed(value: string, p: nat)
    requires 0 < p < |value| && value[p..] == value[..|value| - p]
    ensures var text := value[..p] + value;
            OccursAt(text, value, 0) && OccursAt(text, value, p) && !Scanned(text, value, 0, p)
  {
    var text := value[..p] + value;
    assert text[..|value|] == value[..p] + value[..|value| - p] == value;
    assert text[p..p + |value|] == value;
    assert Find(text, value, 0) == Some(0);
    if Scanned(text, value, 0, p) {
      ScannedIsBehind(text, value, |value|, p);
    }
  }

  lemma {:induction false} ScannedIsCopied(cfg: Config, text: string, entities: seq<Entity>, k: Known, from: nat, s: nat)
    requires k.value != "" && from <= |text| && Scanned(text, k.value, from, s)
    requires s + |k.value| <= |text| && CopyAt(cfg, text, entities, k, s) != []
    ensures Copy(k, s) in CopiesOf(cfg, text, entities, k, from)
    decreases |text| - from
  {
    var found := Find(text, k.value, from).value;
    if found != s {
      ScannedIsCopied(cfg, text, entities, k, found + |k.value|, s);
    }
  }

  lemma {:induction false} CopiesHold(cfg: Config, text: string, entities: seq<Entity>, known: seq<Known>, i: nat, c: Entity)
    requires Values(known) && i < |known| && c in CopiesOf(cfg, text, entities, known[i], 0)
    ensures c in Copies(cfg, text, entities, known)
    decreases |known|
  {
    var n := |known| - 1;
    if i < n { CopiesHold(cfg, text, entities, known[..n], i, c); }
  }

  lemma {:induction false} ScannedIsCovered(cfg: Config, text: string, entities: seq<Entity>, known: seq<Known>, i: nat, s: nat) returns (f: Entity)
    requires Values(known) && Merge.InText(text, entities) && i < |known|
    requires Scanned(text, known[i].value, 0, s)
    requires s + |known[i].value| <= |text| && StandsAlone(cfg, text, s, s + |known[i].value|)
    ensures f in WithCopies(cfg, text, entities, known) && f.start <= s && s + |known[i].value| <= f.end
  {
    var k := known[i];
    var end := s + |k.value|;
    if CoveredAs(entities, k.entityType, s, end) {
      var j :| 0 <= j < |entities| && entities[j].entityType == k.entityType && entities[j].start <= s && end <= entities[j].end;
      f := RedactedSurvives(cfg, text, entities, known, entities[j]);
    } else {
      var c := Copy(k, s);
      ScannedIsCopied(cfg, text, entities, k, 0, s);
      CopiesHold(cfg, text, entities, known, i, c);
      var all := entities + Copies(cfg, text, entities, known);
      CopiesInText(cfg, text, entities, known);
      var priorities := TypePriorities(cfg, all);
      var merged := Merge.Union(all, cfg.resolution, text, priorities);
      Merge.UnionIsMerge(all, cfg.resolution, text, priorities);
      assert c in all && Merge.Kept(c, merged, priorities);
      f :| f in merged && Merge.Inside(c, f)
           && Merge.Priority(priorities, f.entityType) >= Merge.Priority(priorities, c.entityType);
    }
  }

  /** Every occurrence of a known value that no earlier one overlaps and that is no part of a
      longer identifier ends up whole inside a span the anonymizer is given. */
  lemma {:induction false} KnownIsCovered(cfg: Config, text: string, entities: seq<Entity>, known: seq<Known>, i: nat, s: nat) returns (f: Entity)
    requires Values(known) && Merge.InText(text, entities) && i < |known|
    requires OccursAt(text, known[i].value, s) && Free(text, known[i].value, s)
    requires StandsAlone(cfg, text, s, s + |known[i].value|)
    ensures f in WithCopies(cfg, text, entities, known) && f.start <= s && s + |known[i].value| <= f.end
  {
    FreeIsScanned(text, known[i].value, s);
    f := ScannedIsCovered(cfg, text, entities, known, i, s);
  }

  /** A value with a border, known and propagated, of which one occurrence lies in no span. */
  lemma {:induction false} OverlappedIsMissed(cfg: Config, entityType: string)
    requires cfg.isDigit('1') && !cfg.isDigit('-') && !cfg.isAlnum('-')
    ensures TokenShaped(cfg, "-abcd12-") && OccursAt("-abcd12-abcd12-", "-abcd12-", 7)
    ensures StandsAlone(cfg, "-abcd12-abcd12-", 7, 15)
    ensures forall f :: f in WithCopies(cfg, "-abcd12-abcd12-", [], [Known("-abcd12-", entityType)]) ==> !(f.start <= 7 && 15 <= f.end)
  {
    var value, text := "-abcd12-", "-abcd12-abcd12-";
    var k := Known(value, entityType);
    assert value[5] == '1' && value[0] == '-' && value[7..] == value[..1];
    assert text == value[..7] + value;
    BorderIsMissed(value, 7);
    assert Find(text, value, 0) == Some(0);
    forall i: nat | 8 <= i ensures !OccursAt(text, value, i) {}
    assert Find(text, value, 8) == None;
    assert CopiesOf(cfg, text, [], k, 0) == CopyAt(cfg, text, [], k, 0) + [];
    assert [k][..0] == [];
    assert Copies(cfg, text, [], [k]) == [Copy(k, 0)];
    OneCopy(cfg, text, k);
  }

  lemma {:induction false} OneCopy(cfg: Config, text: string, k: Known)
    requires k.value != "" && |k.value| <= |text| && Copies(cfg, text, [], [k]) == [Copy(k, 0)]
    ensures WithCopies(cfg, text, [], [k]) == [Copy(k, 0)]
  {
    var copies := [Copy(k, 0)];
    assert [] + copies == copies;
    Merge.SortKeepsDisjoint(copies);
    Merge.UnionOfDisjoint(copies, cfg.resolution, text, TypePriorities(cfg, copies));
  }

  // ----- the code -----

  datatype Sent = Blocked(types: set<string>) | Failed | Forwarded(text: string)

  /** What the anonymizer is given is disjoint and not empty. */
  lemma {:induction false} FinalSeparate(cfg: Config, text: string, raw: seq<Entity>, st: MapState)
    requires Merge.InText(text, raw) && Merge.Solid(raw) && Values(st.known)
    requires cfg.secretRules.Some? ==> MatchesInText(text, cfg.secretRules.value(text))
    ensures Anonymization.Separate(text, Final(cfg, text, raw, st).0)
  {
    RedactedInText(cfg, text, raw);
    FinalIsMerged(cfg, text, raw, st);
    var redacted, copies, final := Redacted(cfg, text, raw), CopiesFor(cfg, text, raw, st), Final(cfg, text, raw, st).0;
    var all := redacted + copies;
    if copies != [] {
      forall i | 0 <= i < |all| ensures all[i].start < all[i].end {
        if i >= |redacted| { assert all[i] in copies; }
      }
      Merge.UnionIsMerge(all, cfg.resolution, text, TypePriorities(cfg, all));
      Merge.MergedIsSolid(all, final, TypePriorities(cfg, all));
    }
  }

  /** The copies before `from` have been collected. */
  ghost predicate Collected(cfg: Config, text: string, entities: seq<Entity>, k: Known, from: nat, copies: seq<Entity>)
    requires k.value != ""
  {
    from <= |text| && copies + CopiesOf(cfg, text, entities, k, from) == CopiesOf(cfg, text, entities, k, 0)
  }

  /** One occurrence further. */
  lemma {:induction false} CollectedNext(cfg: Config, text: string, entities: seq<Entity>, k: Known, from: nat, copies: seq<Entity>, start: nat)
    requires k.value != "" && Collected(cfg, text, entities, k, from, copies) && Find(text, k.value, from) == Some(start)
    ensures start + |k.value| <= |text|
    ensures Collected(cfg, text, entities, k, start + |k.value|, copies + CopyAt(cfg, text, entities, k, start))
  {
    var rest := CopiesOf(cfg, text, entities, k, start + |k.value|);
    NextCopy(cfg, text, entities, k, from, start);
    AppendAssociates(copies, CopyAt(cfg, text, entities, k, start), rest);
  }

  lemma {:induction false} NextCopy(cfg: Config, text: string, entities: seq<Entity>, k: Known, from: nat, start: nat)
    requires k.value != "" && from <= |text| && Find(text, k.value, from) == Some(start)
    ensures CopiesOf(cfg, text, entities, k, from)
         == CopyAt(cfg, text, entities, k, start) + CopiesOf(cfg, text, entities, k, start + |k.value|)
  {
  }

  lemma {:induction false} CopiesDone(cfg: Config, text: string, entities: seq<Entity>, k: Known, from: nat)
    requires from <= |text| && k.value != "" && Find(text, k.value, from) == None
    ensures CopiesOf(cfg, text, entities, k, from) == []
  {
  }

  class PIIEngine {
    const config: Config
    const anonymizer: Anonymization.Anonymizer

    constructor (config: Config)
      ensures this.config == config && anonymizer.config == config.anonymization
    {
      this.config := config;
      var a := new Anonymization.Anonymizer(config.anonymization);
      anonymizer := a;
    }

    method DetectAll(text: string, raw: seq<Entity>) returns (entities: seq<Entity>)
      requires Merge.InText(text, raw)
      ensures entities == Redacted(config, text, raw)
    {
      var merged := Merge.MergeEntities(raw, config.strategy, config.resolution, text, TypePriorities(config, raw));
      var verdict := AllowList.ApplyAllowList(text, merged, raw, config.rules, Protected(config));
      entities := verdict.redacted;
    }

    method RememberMatches(text: string, entities: seq<Entity>, matches: seq<Match>, mapping: PIIMapping)
      requires MatchesInText(text, matches)
      modifies mapping
      ensures mapping.State() == RememberAll(config, text, entities, matches, old(mapping.State()))
    {
      ghost var all := RememberAll(config, text, entities, matches, mapping.State());
      for i := 0 to |matches|
        invariant MatchesInText(text, matches[i..])
        invariant RememberAll(config, text, entities, matches[i..], mapping.State()) == all
      {
        var m := matches[i];
        assert matches[i..][0] == m && matches[i..][1..] == matches[i + 1..];
        var value := text[m.start..m.end];
        if TokenShaped(config, value) && CoversMatch(entities, m.start, m.end) {
          mapping.Remember(value, m.entityType);
        }
      }
    }

    /** The loop over the occurrences of one known value. */
    method FindCopies(text: string, entities: seq<Entity>, k: Known) returns (copies: seq<Entity>)
      requires k.value != ""
      ensures copies == CopiesOf(config, text, entities, k, 0)
    {
      copies := [];
      var start := Find(text, k.value, 0);
      ghost var from: nat := 0;
      while start != None
        invariant from <= |text| && start == Find(text, k.value, from)
        invariant Collected(config, text, entities, k, from, copies)
        decreases |text| - from
      {
        CollectedNext(config, text, entities, k, from, copies, start.value);
        var one := CopyAt(config, text, entities, k, start.value);
        copies := copies + one;
        var end := start.value + |k.value|;
        from := end;
        start := Find(text, k.value, end);
      }
      CopiesDone(config, text, entities, k, from);
      assert copies + [] == copies;
    }

    method AddKnownValues(text: string, entities: seq<Entity>, mapping: PIIMapping) returns (r: seq<Entity>)
      requires Merge.InText(text, entities) && Values(mapping.known)
      requires config.secretRules.Some? ==> MatchesInText(text, config.secretRules.value(text))
      modifies mapping
      ensures (r, mapping.State()) == WithKnownValues(config, text, entities, old(mapping.State()))
    {
      if config.secretRules == None {
        return entities;
      }
      var matches := config.secretRules.value(text);
      RememberedValues(config, text, entities, matches, mapping.State());
      RememberMatches(text, entities, matches, mapping);
      var known := mapping.known;
      var copies := [];
      for i := 0 to |known|
        invariant mapping.known == known && mapping.State() == RememberAll(config, text, entities, matches, old(mapping.State()))
        invariant Values(known[..i]) && copies == Copies(config, text, entities, known[..i])
      {
        assert known[..i + 1][..i] == known[..i];
        var more := FindCopies(text, entities, known[i]);
        copies := copies + more;
      }
      assert known[..|known|] == known;
      if copies == [] {
        return entities;
      }
      CopiesInText(config, text, entities, known);
      r := Merge.MergeEntities(entities + copies, Merge.UnionAll, config.resolution, text,
                               TypePriorities(config, entities + copies));
    }

    /**
     One text of a request. Nothing is forwarded when the gate rejects it; otherwise the
     anonymizer swaps every final span.
     */
    method AnonymizeText(text: string, raw: seq<Entity>, mapping: PIIMapping) returns (r: Sent)
      requires Merge.InText(text, raw) && Merge.Solid(raw) && Values(mapping.known)
      requires config.secretRules.Some? ==> MatchesInText(text, config.secretRules.value(text))
      requires anonymizer.config == config.anonymization
      modifies mapping
      ensures Rejected(config, text, raw, old(mapping.State())) ==>
                r == Blocked(BlockedTypes(config, Final(config, text, raw, old(mapping.State())).0))
                && mapping.State() == Final(config, text, raw, old(mapping.State())).1
      ensures !Rejected(config, text, raw, old(mapping.State())) ==>
                var f := Final(config, text, raw, old(mapping.State()));
                && Anonymization.Separate(text, f.0)
                && var o := Anonymization.Anonymized(config.anonymization, text, f.0, f.1);
                   && mapping.State() == o.after
                   && r == if o.text.Some? then Forwarded(o.text.value) else Failed
      ensures Values(mapping.known) && mapping.known == Final(config, text, raw, old(mapping.State())).1.known
    {
      RedactedInText(config, text, raw);
      FinalSeparate(config, text, raw, mapping.State());
      var detected := DetectAll(text, raw);
      if config.secretRules.Some? {
        RememberedValues(config, text, detected, config.secretRules.value(text), mapping.State());
      }
      var entities := AddKnownValues(text, detected, mapping);
      var hit := BlockedTypes(config, entities);
      if hit != {} {
        return Blocked(hit);
      }
      KnownStays(config.anonymization, text, entities, mapping.State());
      var sent := anonymizer.Anonymize(text, entities, mapping);
      r := if sent == None then Failed else Forwarded(sent.value);
    }
  }

  lemma {:induction false} AppendAssociates<T>(a: seq<T>, b: seq<T>, c: seq<T>)
    ensures a + (b + c) == (a + b) + c
  {
  }

  // ----- anonymizing leaves the known values alone -----

  lemma {:induction false} KnownStays(cfg: Anonymization.Config, text: string, entities: seq<Entity>, st: MapState)
    requires Anonymization.Separate(text, entities)
    ensures Anonymization.Anonymized(cfg, text, entities, st).after.known == st.known
  {
    Anonymization.PiecesDescend(text, entities, st);
    Literals.FindLiteralsExact(text, 0);
    SwapsKeepKnown(text, entities, Literals.FindLiterals(text), st.WithReserved(Anonymization.Reservable(text, st)));
    ReplaceKeepsKnown(cfg, text, Anonymization.PiecesOf(text, entities, st), Anonymization.Shield(text, entities, st).after);
  }

  lemma {:induction false} SwapsKeepKnown(text: string, entities: seq<Entity>, found: seq<Literals.Span>, st: MapState)
    requires Anonymization.AllLiterals(text, found)
    ensures Anonymization.SwapLiterals(text, entities, found, st).after.known == st.known
    decreases |found|
  {
    if found != [] {
      SwapsKeepKnown(text, entities, found[1..], Anonymization.SwapOne(text, entities, found[0], st).after);
    }
  }

  lemma {:induction false} ReplaceKeepsKnown(cfg: Anonymization.Config, text: string, pieces: seq<Anonymization.Piece>, st: MapState)
    requires Anonymization.Descending(pieces, |text|)
    ensures Anonymization.ReplaceAll(cfg, text, pieces, st).after.known == st.known
    decreases |pieces|
  {
    if pieces != [] {
      var p := pieces[0];
      var issued := Anonymization.Issue(cfg, text[p.start..p.end], p.item, st);
      ReplaceKeepsKnown(cfg, text[..p.start], pieces[1..], issued.after);
    }
  }
}
