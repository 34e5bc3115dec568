/**
 privaite/pii/engine.py: which values a request learns, and what becomes of them in its later texts.
 */
module Propagation {
  import opened Wrappers
  import opened Entities
  import opened Mapping
  import opened Engine
  import Merge

  // ----- what is learned -----

  predicate IsKnown(known: seq<Known>, value: string) {
    exists i :: 0 <= i < |known| && known[i].value == value
  }

  /** A value of eight or more characters, with a digit and with something else. */
  predicate LooksSecret(cfg: Config, value: string) {
    && 8 <= |value|
    && (exists i :: 0 <= i < |value| && cfg.isDigit(value[i]))
    && (exists i :: 0 <= i < |value| && !cfg.isDigit(value[i]))
  }

  /** A match of the secret rules that lies in a detected span, and is such a value. */
  ghost predicate Teaches(cfg: Config, text: string, entities: seq<Entity>, m: Match, value: string) {
    && m.start <= m.end <= |text| && text[m.start..m.end] == value && LooksSecret(cfg, value)
    && exists e :: e in entities && e.start <= m.start && m.end <= e.end
  }

  lemma {:induction false} TeachesExactly(cfg: Config, text: string, entities: seq<Entity>, m: Match)
    requires m.start <= m.end <= |text|
    ensures TokenShaped(cfg, text[m.start..m.end]) && CoversMatch(entities, m.start, m.end)
       <==> Teaches(cfg, text, entities, m, text[m.start..m.end])
  {
    if e :| e in entities && e.start <= m.start && m.end <= e.end {
      var i :| 0 <= i < |entities| && entities[i] == e;
    }
    if CoversMatch(entities, m.start, m.end) {
      var i :| 0 <= i < |entities| && entities[i].start <= m.start && m.end <= entities[i].end;
      assert entities[i] in entities;
    }
  }

  /** The first match that teaches a value. */
  ghost predicate FirstToTeach(cfg: Config, text: string, entities: seq<Entity>, matches: seq<Match>, value: string, n: int) {
    && 0 <= n < |matches| && Teaches(cfg, text, entities, matches[n], value)
    && forall j :: 0 <= j < n ==> !Teaches(cfg, text, entities, matches[j], value)
  }

  lemma {:induction false} RememberedExactly(st: MapState, value: string, entityType: string, v: string)
    ensures var st' := st.Remembered(value, entityType);
            && (IsKnown(st'.known, v) <==> IsKnown(st.known, v) || v == value)
            && (!IsKnown(st.known, value) ==> Known(value, entityType) in st'.known)
            && st.known <= st'.known
  {
    var st' := st.Remembered(value, entityType);
    if !IsKnown(st.known, value) {
      assert st'.known[|st.known|] == Known(value, entityType);
    }
    if IsKnown(st.known, v) {
      var i :| 0 <= i < |st.known| && st.known[i].value == v;
      assert st'.known[i].value == v;
    }
  }

  /** A value is known after a text if and only if it was before, or a match in the text teaches it. */
  lemma {:induction false} LearnedExactly(cfg: Config, text: string, entities: seq<Entity>, matches: seq<Match>, st: MapState, value: string)
    requires MatchesInText(text, matches)
    ensures IsKnown(RememberAll(cfg, text, entities, matches, st).known, value)
       <==> IsKnown(st.known, value) || exists n :: 0 <= n < |matches| && Teaches(cfg, text, entities, matches[n], value)
    decreases |matches|
  {
    if matches != [] {
      var m, rest := matches[0], matches[1..];
      var v := text[m.start..m.end];
      TeachesExactly(cfg, text, entities, m);
      RememberedExactly(st, v, m.entityType, value);
      var st' := if TokenShaped(cfg, v) && CoversMatch(entities, m.start, m.end) then st.Remembered(v, m.entityType) else st;
      LearnedExactly(cfg, text, entities, rest, st', value);
      if n :| 0 <= n < |rest| && Teaches(cfg, text, entities, rest[n], value) {
        assert matches[n + 1] == rest[n];
      }
      if n :| 0 <= n < |matches| && Teaches(cfg, text, entities, matches[n], value) {
        assert n > 0 ==> rest[n - 1] == matches[n];
      }
    }
  }

  /** Under the type of the first match that teaches it. */
  lemma {:induction false} LearnedType(cfg: Config, text: string, entities: seq<Entity>, matches: seq<Match>, st: MapState, value: string, n: int)
    requires MatchesInText(text, matches) && !IsKnown(st.known, value) && FirstToTeach(cfg, text, entities, matches, value, n)
    ensures Known(value, matches[n].entityType) in RememberAll(cfg, text, entities, matches, st).known
    decreases |matches|
  {
    var m, rest := matches[0], matches[1..];
    var v := text[m.start..m.end];
    TeachesExactly(cfg, text, entities, m);
    RememberedExactly(st, v, m.entityType, value);
    var st' := if TokenShaped(cfg, v) && CoversMatch(entities, m.start, m.end) then st.Remembered(v, m.entityType) else st;
    if n == 0 {
      StaysKnown(cfg, text, entities, rest, st');
      assert Known(value, m.entityType) in st'.known;
    } else {
      assert v == value ==> st' == st;
      assert FirstToTeach(cfg, text, entities, rest, value, n - 1);
      LearnedType(cfg, text, entities, rest, st', value, n - 1);
    }
  }

  /** No value is known twice, so none has two types. */
  ghost predicate OneTypeEach(known: seq<Known>) {
    forall i, j :: 0 <= i < j < |known| ==> known[i].value != known[j].value
  }

  lemma {:induction false} LearnedOnce(cfg: Config, text: string, entities: seq<Entity>, matches: seq<Match>, st: MapState)
    requires MatchesInText(text, matches) && OneTypeEach(st.known)
    ensures OneTypeEach(RememberAll(cfg, text, entities, matches, st).known)
    decreases |matches|
  {
    if matches != [] {
      var m := matches[0];
      var v := text[m.start..m.end];
      var st' := if TokenShaped(cfg, v) && CoversMatch(entities, m.start, m.end) then st.Remembered(v, m.entityType) else st;
      assert OneTypeEach(st'.known);
      LearnedOnce(cfg, text, entities, matches[1..], st');
    }
  }

  lemma {:induction false} StaysKnown(cfg: Config, text: string, entities: seq<Entity>, matches: seq<Match>, st: MapState)
    requires MatchesInText(text, matches)
    ensures st.known <= RememberAll(cfg, text, entities, matches, st).known
    decreases |matches|
  {
    if matches != [] {
      var m := matches[0];
      var v := text[m.start..m.end];
      var st' := if TokenShaped(cfg, v) && CoversMatch(entities, m.start, m.end) then st.Remembered(v, m.entityType) else st;
      StaysKnown(cfg, text, entities, matches[1..], st');
    }
  }

  // ----- the copies -----

  /** No letter or digit next to an end that is a letter or digit itself. */
  predicate Apart(cfg: Config, text: string, start: nat, end: nat)
    requires start < end <= |text|
  {
    && (start == 0 || !cfg.isAlnum(text[start - 1]) || !cfg.isAlnum(text[start]))
    && (end == |text| || !cfg.isAlnum(text[end - 1]) || !cfg.isAlnum(text[end]))
  }

  lemma {:induction false} ApartExactly(cfg: Config, text: string, start: nat, end: nat)
    requires start < end <= |text|
    ensures StandsAlone(cfg, text, start, end) <==> Apart(cfg, text, start, end)
  {
  }

  /** A copy is made of an occurrence the scan reaches, that stands apart, and that no detection of the
      same type covers. */
  ghost predicate IsCopy(cfg: Config, text: string, entities: seq<Entity>, k: Known, c: Entity) {
    && k.value != "" && 0 <= c.start < c.end <= |text| && c.end == c.start + |k.value|
    && Scanned(text, k.value, 0, c.start) && Apart(cfg, text, c.start, c.end)
    && (forall e :: e in entities && e.entityType == k.entityType ==> !(e.start <= c.start && c.end <= e.end))
    && c == Entity(k.entityType, k.value, c.start, c.end, 1.0, "known")
  }

  lemma {:induction false} CopyAtExactly(cfg: Config, text: string, entities: seq<Entity>, k: Known, start: nat)
    requires start + |k.value| <= |text| && k.value != ""
    ensures CopyAt(cfg, text, entities, k, start) != [] <==>
            Apart(cfg, text, start, start + |k.value|)
            && forall e :: e in entities && e.entityType == k.entityType ==> !(e.start <= start && start + |k.value| <= e.end)
  {
    var end := start + |k.value|;
    if e :| e in entities && e.entityType == k.entityType && e.start <= start && end <= e.end {
      var i :| 0 <= i < |entities| && entities[i] == e;
      assert CoveredAs(entities, k.entityType, start, end);
    }
    if CoveredAs(entities, k.entityType, start, end) {
      var i :| 0 <= i < |entities| && entities[i].entityType == k.entityType && entities[i].start <= start && end <= entities[i].end;
      assert entities[i] in entities;
    }
  }

  lemma {:induction false} InEither<T>(c: T, a: seq<T>, b: seq<T>)
    requires c in a + b
    ensures c in a || c in b
  {
  }

  /** A copy that the scan of the text behind `from` makes at a place. */
  ghost predicate MadeAt(cfg: Config, text: string, entities: seq<Entity>, k: Known, from: nat, c: Entity, s: nat)
    requires k.value != "" && from <= |text|
  {
    Scanned(text, k.value, from, s) && s + |k.value| <= |text| && CopyAt(cfg, text, entities, k, s) == [c]
  }

  lemma {:induction false} MadeHere(cfg: Config, text: string, entities: seq<Entity>, k: Known, from: nat, c: Entity, s: nat)
    requires k.value != "" && from <= |text| && Find(text, k.value, from) == Some(s) && c in CopyAt(cfg, text, entities, k, s)
    ensures MadeAt(cfg, text, entities, k, from, c, s)
  {
  }

  lemma {:induction false} MadeBehind(cfg: Config, text: string, entities: seq<Entity>, k: Known, from: nat, c: Entity, found: nat, next: nat, s: nat)
    requires k.value != "" && from <= |text| && Find(text, k.value, from) == Some(found)
    requires next == found + |k.value| && MadeAt(cfg, text, entities, k, next, c, s)
    ensures MadeAt(cfg, text, entities, k, from, c, s)
  {
  }

  lemma {:induction false} CopyIsMade(cfg: Config, text: string, entities: seq<Entity>, k: Known, from: nat, c: Entity) returns (s: nat)
    requires from <= |text| && k.value != "" && c in CopiesOf(cfg, text, entities, k, from)
    ensures MadeAt(cfg, text, entities, k, from, c, s)
    decreases |text| - from
  {
    var found := Find(text, k.value, from).value;
    var next := found + |k.value|;
    NextCopy(cfg, text, entities, k, from, found);
    InEither(c, CopyAt(cfg, text, entities, k, found), CopiesOf(cfg, text, entities, k, next));
    if c in CopyAt(cfg, text, entities, k, found) {
      s := found;
      MadeHere(cfg, text, entities, k, from, c, found);
    } else {
      s := CopyIsMade(cfg, text, entities, k, next, c);
      MadeBehind(cfg, text, entities, k, from, c, found, next, s);
    }
  }

  lemma {:induction false} CopiesAreCopies(cfg: Config, text: string, entities: seq<Entity>, k: Known, c: Entity)
    requires k.value != "" && c in CopiesOf(cfg, text, entities, k, 0)
    ensures IsCopy(cfg, text, entities, k, c)
  {
    var s := CopyIsMade(cfg, text, entities, k, 0, c);
    CopyAtExactly(cfg, text, entities, k, s);
  }

  lemma {:induction false} CopyIsTaken(cfg: Config, text: string, entities: seq<Entity>, k: Known, c: Entity)
    requires k.value != "" && IsCopy(cfg, text, entities, k, c)
    ensures c in CopiesOf(cfg, text, entities, k, 0)
  {
    CopyAtExactly(cfg, text, entities, k, c.start);
    ScannedIsCopied(cfg, text, entities, k, 0, c.start);
  }

  lemma {:induction false} CopiesOfExactly(cfg: Config, text: string, entities: seq<Entity>, k: Known, c: Entity)
    requires k.value != ""
    ensures c in CopiesOf(cfg, text, entities, k, 0) <==> IsCopy(cfg, text, entities, k, c)
  {
    if c in CopiesOf(cfg, text, entities, k, 0) { CopiesAreCopies(cfg, text, entities, k, c); }
    if IsCopy(cfg, text, entities, k, c) { CopyIsTaken(cfg, text, entities, k, c); }
  }

  /** The copies in a text are these and no others. */
  lemma {:induction false} CopiesExactly(cfg: Config, text: string, entities: seq<Entity>, known: seq<Known>, c: Entity)
    requires Values(known)
    ensures c in Copies(cfg, text, entities, known) <==> exists k :: k in known && IsCopy(cfg, text, entities, k, c)
    decreases |known|
  {
    if known != [] {
      var n := |known| - 1;
      CopiesExactly(cfg, text, entities, known[..n], c);
      CopiesOfExactly(cfg, text, entities, known[n], c);
      LastOrBefore(known);
    }
  }

  lemma {:induction false} LastOrBefore(known: seq<Known>)
    requires known != []
    ensures forall k :: k in known <==> k in known[..|known| - 1] || k == known[|known| - 1]
  {
    assert known == known[..|known| - 1] + [known[|known| - 1]];
  }

  // ----- one text after another -----

  /** What a text teaches is replaced in the text that comes after it: wherever the value stands
      apart, and no earlier occurrence reaches into it, it lies in a span the anonymizer is given. */
  lemma {:induction false} LearnedIsReplaced(cfg: Config, text: string, raw: seq<Entity>, st: MapState, n: nat, value: string,
                                             next: string, more: seq<Entity>, later: MapState, s: nat) returns (f: Entity)
    requires cfg.secretRules.Some? && Merge.InText(text, raw) && Values(st.known)
    requires MatchesInText(text, cfg.secretRules.value(text)) && n < |cfg.secretRules.value(text)|
    requires Teaches(cfg, text, Redacted(cfg, text, raw), cfg.secretRules.value(text)[n], value)
    requires MatchesInText(next, cfg.secretRules.value(next)) && Merge.InText(next, more)
    requires Values(later.known) && forall k :: k in Final(cfg, text, raw, st).1.known ==> k in later.known
    requires OccursAt(next, value, s) && Free(next, value, s) && Apart(cfg, next, s, s + |value|)
    ensures f in Final(cfg, next, more, later).0 && f.start <= s && s + |value| <= f.end
  {
    var k := LearnedIsKnown(cfg, text, raw, st, n, value);
    f := KnownIsReplaced(cfg, next, more, later, k, value, s);
  }

  lemma {:induction false} LearnedIsKnown(cfg: Config, text: string, raw: seq<Entity>, st: MapState, n: nat, value: string) returns (k: Known)
    requires cfg.secretRules.Some? && Merge.InText(text, raw) && Values(st.known)
    requires MatchesInText(text, cfg.secretRules.value(text)) && n < |cfg.secretRules.value(text)|
    requires Teaches(cfg, text, Redacted(cfg, text, raw), cfg.secretRules.value(text)[n], value)
    ensures k in Final(cfg, text, raw, st).1.known && k.value == value
  {
    FinalIs(cfg, text, raw, st);
    var matches, entities := cfg.secretRules.value(text), Redacted(cfg, text, raw);
    LearnedExactly(cfg, text, entities, matches, st, value);
    var learned := RememberAll(cfg, text, entities, matches, st).known;
    var i :| 0 <= i < |learned| && learned[i].value == value;
    k := learned[i];
  }

  lemma {:induction false} PlaceAfter(before: seq<Known>, after: seq<Known>, k: Known) returns (j: nat)
    requires before <= after && k in before
    ensures j < |after| && after[j] == k
  {
    j :| 0 <= j < |before| && before[j] == k;
  }

  lemma {:induction false} FinalIs(cfg: Config, text: string, raw: seq<Entity>, st: MapState)
    requires cfg.secretRules.Some? && Merge.InText(text, raw) && Values(st.known)
    requires MatchesInText(text, cfg.secretRules.value(text))
    ensures var known := RememberAll(cfg, text, Redacted(cfg, text, raw), cfg.secretRules.value(text), st).known;
            && Values(known) && st.known <= known && Merge.InText(text, Redacted(cfg, text, raw))
            && Final(cfg, text, raw, st).0 == WithCopies(cfg, text, Redacted(cfg, text, raw), known)
            && Final(cfg, text, raw, st).1.known == known
  {
    RedactedInText(cfg, text, raw);
    RememberedValues(cfg, text, Redacted(cfg, text, raw), cfg.secretRules.value(text), st);
  }

  lemma {:induction false} OnceKnown(cfg: Config, text: string, entities: seq<Entity>, before: seq<Known>, known: seq<Known>, k: Known, s: nat) returns (f: Entity)
    requires Values(known) && Merge.InText(text, entities) && before <= known && k in before
    requires OccursAt(text, k.value, s) && Free(text, k.value, s) && StandsAlone(cfg, text, s, s + |k.value|)
    ensures f in WithCopies(cfg, text, entities, known) && f.start <= s && s + |k.value| <= f.end
  {
    var j := PlaceAfter(before, known, k);
    f := KnownIsCovered(cfg, text, entities, known, j, s);
  }

  lemma {:induction false} KnownIsReplaced(cfg: Config, text: string, raw: seq<Entity>, st: MapState, k: Known, value: string, s: nat) returns (f: Entity)
    requires cfg.secretRules.Some? && Merge.InText(text, raw) && Values(st.known) && k in st.known
    requires MatchesInText(text, cfg.secretRules.value(text)) && k.value == value != ""
    requires OccursAt(text, value, s) && Free(text, value, s) && Apart(cfg, text, s, s + |value|)
    ensures f in Final(cfg, text, raw, st).0 && f.start <= s && s + |value| <= f.end
  {
    FinalIs(cfg, text, raw, st);
    ApartExactly(cfg, text, s, s + |value|);
    var entities := Redacted(cfg, text, raw);
    var known := RememberAll(cfg, text, entities, cfg.secretRules.value(text), st).known;
    f := OnceKnown(cfg, text, entities, st.known, known, k, s);
  }
}
