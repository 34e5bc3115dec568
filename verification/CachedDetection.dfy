/**
 privaite/pii/engine.py with privaite/pii/cache.py: detection through the cache. Only places and
 labels are kept; the values are taken from the live text again.
 */
module CachedDetection {
  import opened Wrappers
  import opened Entities
  import Merge
  import AllowList
  import Engine
  import opened Lru
  import opened DetectionCaching

  // ----- spans without values -----

  datatype Span = Span(start: int, end: int, entityType: string, score: real, source: string)

  function SpansOf(entities: seq<Entity>): seq<Span> {
    seq(|entities|, i requires 0 <= i < |entities| =>
      Span(entities[i].start, entities[i].end, entities[i].entityType, entities[i].score, entities[i].source))
  }

  function TextAt(text: string, start: int, end: int): string {
    if 0 <= start <= end <= |text| then text[start..end] else ""
  }

  function EntitiesOf(spans: seq<Span>, text: string): seq<Entity> {
    seq(|spans|, i requires 0 <= i < |spans| =>
      Entity(spans[i].entityType, TextAt(text, spans[i].start, spans[i].end), spans[i].start, spans[i].end, spans[i].score, spans[i].source))
  }

  /** The entities come back as they were if and only if each quotes the text it lies on. */
  lemma {:induction false} RebuiltIffQuoting(entities: seq<Entity>, text: string)
    requires Merge.InText(text, entities)
    ensures EntitiesOf(SpansOf(entities), text) == entities <==> Merge.Quotes(text, entities)
  {
    var rebuilt := EntitiesOf(SpansOf(entities), text);
    forall i | 0 <= i < |entities|
      ensures rebuilt[i] == entities[i] <==> entities[i].text == text[entities[i].start..entities[i].end]
    {
    }
    if Merge.Quotes(text, entities) {
      assert rebuilt == entities;
    }
  }

  /** What the cache keeps of a report. */
  datatype Cached = Cached(redacted: seq<Span>, allowed: seq<Span>, notAllowed: seq<Span>)

  function Strip(v: AllowList.Verdict): Cached {
    Cached(SpansOf(v.redacted), SpansOf(v.allowed), SpansOf(v.notAllowed))
  }

  function Rebuild(c: Cached, text: string): AllowList.Verdict {
    AllowList.Verdict(EntitiesOf(c.redacted, text), EntitiesOf(c.allowed, text), EntitiesOf(c.notAllowed, text))
  }

  // ----- detection -----

  /** What a report is asked for: the configuration in force, the language, and the text. */
  datatype Query = Query(cfg: Engine.Config, language: string, text: string)

  /** What the detectors answer, together; None when one of them fails. */
  type Detectors = Query -> Option<seq<Entity>>

  /** Detections lie in their text. They need not quote it. */
  ghost predicate InBounds(detect: Detectors) {
    forall q {:trigger detect(q)} :: detect(q).Some? ==> Merge.InText(q.text, detect(q).value)
  }

  ghost function Report(detect: Detectors, q: Query): Option<AllowList.Verdict>
    requires InBounds(detect)
  {
    match detect(q)
    case None => None
    case Some(raw) => Some(ReportOf(q.cfg, q.text, raw))
  }

  ghost function ReportOf(cfg: Engine.Config, text: string, raw: seq<Entity>): AllowList.Verdict
    requires Merge.InText(text, raw)
  {
    AllowList.Applied(text, Engine.MergedOf(cfg, text, raw), raw, cfg.rules, Engine.Protected(cfg))
  }

  ghost predicate AllQuote(text: string, entities: seq<Entity>) {
    Merge.InText(text, entities) && Merge.Quotes(text, entities)
  }

  lemma {:induction false} PartQuotes(text: string, part: seq<Entity>, whole: seq<Entity>)
    requires AllQuote(text, whole) && forall e :: e in part ==> e in whole
    ensures AllQuote(text, part)
  {
    forall i | 0 <= i < |part|
      ensures 0 <= part[i].start <= part[i].end <= |text| && part[i].text == text[part[i].start..part[i].end]
    {
      assert part[i] in part;
      var j :| 0 <= j < |whole| && whole[j] == part[i];
    }
  }

  lemma {:induction false} InTheWayIsRaw(text: string, merged: seq<Entity>, raw: seq<Entity>, rules: seq<AllowList.Rule>, protected: set<string>, n: nat)
    requires Merge.InText(text, raw) && n <= |raw|
    ensures forall e :: e in AllowList.InTheWay(text, merged, raw, rules, protected, n) ==> e in raw
  {
    if n > 0 {
      InTheWayIsRaw(text, merged, raw, rules, protected, n - 1);
    }
  }

  lemma {:induction false} MergedQuotes(cfg: Engine.Config, text: string, raw: seq<Entity>)
    requires AllQuote(text, raw)
    ensures AllQuote(text, Engine.MergedOf(cfg, text, raw))
  {
    var taken := Merge.Considered(raw, cfg.strategy);
    Merge.ConsideredAreTaken(raw, cfg.strategy);
    PartQuotes(text, taken, raw);
    Merge.SortInText(taken, text);
    Merge.SortSorts(taken);
    PartQuotes(text, Merge.Sort(taken), taken);
    Merge.UnionQuotes(Merge.Sort(taken), if cfg.strategy == Merge.UnionAll then cfg.resolution else Merge.HighestScore,
                      text, Engine.TypePriorities(cfg, raw));
  }

  /** A report quotes its text when the detections do. */
  lemma {:induction false} ReportQuotes(cfg: Engine.Config, text: string, raw: seq<Entity>)
    requires AllQuote(text, raw)
    ensures var v := ReportOf(cfg, text, raw);
            AllQuote(text, v.redacted) && AllQuote(text, v.allowed) && AllQuote(text, v.notAllowed)
  {
    var rules, protected := cfg.rules, Engine.Protected(cfg);
    var merged := Engine.MergedOf(cfg, text, raw);
    MergedQuotes(cfg, text, raw);
    if rules != [] && merged != [] {
      AllowList.SelectElements(text, merged, raw, rules, protected, false);
      AllowList.SelectElements(text, merged, raw, rules, protected, true);
      PartQuotes(text, AllowList.Select(text, merged, raw, rules, protected, false), merged);
      PartQuotes(text, AllowList.Select(text, merged, raw, rules, protected, true), merged);
      InTheWayIsRaw(text, merged, raw, rules, protected, |raw|);
      PartQuotes(text, AllowList.InTheWay(text, merged, raw, rules, protected, |raw|), raw);
    }
  }

  lemma {:induction false} PartInText(text: string, part: seq<Entity>, whole: seq<Entity>)
    requires Merge.InText(text, whole) && forall e :: e in part ==> e in whole
    ensures Merge.InText(text, part)
  {
    forall i | 0 <= i < |part| ensures 0 <= part[i].start <= part[i].end <= |text| {
      assert part[i] in part;
      var j :| 0 <= j < |whole| && whole[j] == part[i];
    }
  }

  lemma {:induction false} ReportInText(cfg: Engine.Config, text: string, raw: seq<Entity>)
    requires Merge.InText(text, raw)
    ensures var v := ReportOf(cfg, text, raw);
            Merge.InText(text, v.redacted) && Merge.InText(text, v.allowed) && Merge.InText(text, v.notAllowed)
  {
    var rules, protected := cfg.rules, Engine.Protected(cfg);
    var merged := Engine.MergedOf(cfg, text, raw);
    if rules != [] && merged != [] {
      AllowList.SelectElements(text, merged, raw, rules, protected, false);
      AllowList.SelectElements(text, merged, raw, rules, protected, true);
      PartInText(text, AllowList.Select(text, merged, raw, rules, protected, false), merged);
      PartInText(text, AllowList.Select(text, merged, raw, rules, protected, true), merged);
      InTheWayIsRaw(text, merged, raw, rules, protected, |raw|);
      PartInText(text, AllowList.InTheWay(text, merged, raw, rules, protected, |raw|), raw);
    }
  }

  /** All a report lists quotes the text. */
  ghost predicate Quoted(text: string, v: AllowList.Verdict) {
    AllQuote(text, v.redacted) && AllQuote(text, v.allowed) && AllQuote(text, v.notAllowed)
  }

  /** A report comes back from the cache as it was if and only if all it lists quotes the text;
      its places and labels always do. */
  lemma {:induction false} ReportIsRebuiltExactly(cfg: Engine.Config, text: string, raw: seq<Entity>)
    requires Merge.InText(text, raw)
    ensures var v := ReportOf(cfg, text, raw);
            && (Rebuild(Strip(v), text) == v <==> Quoted(text, v))
            && Strip(Rebuild(Strip(v), text)) == Strip(v)
  {
    ReportInText(cfg, text, raw);
    var v := ReportOf(cfg, text, raw);
    RebuiltIffQuoting(v.redacted, text);
    RebuiltIffQuoting(v.allowed, text);
    RebuiltIffQuoting(v.notAllowed, text);
    PlacesStay(v.redacted, text);
    PlacesStay(v.allowed, text);
    PlacesStay(v.notAllowed, text);
  }

  lemma {:induction false} PlacesStay(entities: seq<Entity>, text: string)
    ensures SpansOf(EntitiesOf(SpansOf(entities), text)) == SpansOf(entities)
  {
  }

  /** A report that does not come back: a detector on a Hugging Face pipeline strips the blank off
      the word it reports, and leaves the offsets as they are. */
  lemma {:induction false} StrippedIsNotRebuilt(cfg: Engine.Config)
    requires cfg.strategy == Merge.UnionAll && cfg.rules == []
    ensures var raw := [Entity("PERSON", "Ann", 0, 4, 0.9, "bert_ner")];
            Merge.InText(" Ann", raw) && Rebuild(Strip(ReportOf(cfg, " Ann", raw)), " Ann") != ReportOf(cfg, " Ann", raw)
  {
    var e := Entity("PERSON", "Ann", 0, 4, 0.9, "bert_ner");
    assert " Ann"[0..4] == " Ann";
    MisquotedAlone(cfg, " Ann", e);
  }

  lemma {:induction false} MisquotedAlone(cfg: Engine.Config, text: string, e: Entity)
    requires cfg.strategy == Merge.UnionAll && cfg.rules == []
    requires 0 <= e.start < e.end <= |text| && e.text != text[e.start..e.end]
    ensures Merge.InText(text, [e]) && Rebuild(Strip(ReportOf(cfg, text, [e])), text) != ReportOf(cfg, text, [e])
  {
    var raw := [e];
    Merge.SortKeepsDisjoint(raw);
    Merge.UnionOfDisjoint(raw, cfg.resolution, text, Engine.TypePriorities(cfg, raw));
    assert ReportOf(cfg, text, raw).redacted == raw;
    assert raw[0].text != text[raw[0].start..raw[0].end];
    ReportIsRebuiltExactly(cfg, text, raw);
  }

  // ----- through the cache -----

  ghost predicate Injective<K(!new)>(keyOf: Query -> K) {
    forall a, b :: keyOf(a) == keyOf(b) ==> a == b
  }

  /** An entry holds the report of the query its key stands for. */
  ghost predicate Faithful<K(!new)>(detect: Detectors, keyOf: Query -> K, k: K, kept: Cached)
    requires InBounds(detect)
  {
    exists q :: keyOf(q) == k && Report(detect, q).Some? && kept == Strip(Report(detect, q).value)
  }

  /** Every store in a history of requests, however they interleave, keeps the report of its query. */
  ghost predicate Honest<K(!new)>(detect: Detectors, keyOf: Query -> K, ops: seq<Op<K, Cached>>)
    requires InBounds(detect)
  {
    forall i :: 0 <= i < |ops| && ops[i].Put? ==> Faithful(detect, keyOf, ops[i].key, ops[i].detection)
  }

  lemma {:induction false} FaithfulIsReport<K(!new)>(detect: Detectors, keyOf: Query -> K, q: Query, kept: Cached)
    requires InBounds(detect) && Injective(keyOf) && Faithful(detect, keyOf, keyOf(q), kept)
    ensures Report(detect, q).Some? && kept == Strip(Report(detect, q).value)
  {
    var t :| keyOf(t) == keyOf(q) && Report(detect, t).Some? && kept == Strip(Report(detect, t).value);
  }

  /** What a lookup makes of a report: the same places and labels, and the same report if and only
      if all it lists quotes the text. */
  ghost predicate Serves(detect: Detectors, q: Query, kept: Cached)
    requires InBounds(detect)
  {
    && Report(detect, q).Some? && Strip(Rebuild(kept, q.text)) == Strip(Report(detect, q).value)
    && (Rebuild(kept, q.text) == Report(detect, q).value <==> Quoted(q.text, Report(detect, q).value))
  }

  /**
   After any history of lookups and stores, by any number of requests, evictions and expiries
   included, what a lookup serves for a query has the places and labels of its report, and is its
   report exactly when that quotes the text.
   */
  lemma {:induction false} CacheIsTransparent<K(!new)>(detect: Detectors, keyOf: Query -> K, ops: seq<Op<K, Cached>>,
                                    limits: Limits, q: Query, now: real)
    requires InBounds(detect) && Injective(keyOf) && Honest(detect, keyOf, ops)
    ensures var served := Got(After(ops, limits), keyOf(q), now, limits.ttl);
            served.Some? ==> Serves(detect, q, served.value)
  {
    var served := Got(After(ops, limits), keyOf(q), now, limits.ttl);
    if served.Some? {
      ServedIsLastPut(ops, limits, keyOf(q), now);
      LastPutIsLast(ops, keyOf(q));
      var p := LastPut(ops, keyOf(q));
      assert Faithful(detect, keyOf, ops[p].key, ops[p].detection);
      FaithfulIsReport(detect, keyOf, q, served.value);
      ReportIsRebuiltExactly(q.cfg, q.text, detect(q).value);
    }
  }

  /** One detection with a cache: the report of the query, or what the cache makes of it, and an
      honest history after it. */
  method DetectAllDetailed<K(!new)>(detect: Detectors, keyOf: Query -> K, cache: DetectionCache<K, Cached>,
                                    q: Query, before: real, after: real, ghost ops: seq<Op<K, Cached>>)
    returns (r: Option<AllowList.Verdict>, ghost ops': seq<Op<K, Cached>>)
    requires InBounds(detect) && Injective(keyOf) && Honest(detect, keyOf, ops)
    requires cache.Valid() && cache.entries == After(ops, cache.limits)
    modifies cache
    ensures cache.Valid() && cache.entries == After(ops', cache.limits)
    ensures ops <= ops' && Honest(detect, keyOf, ops')
    ensures r.Some? <==> Report(detect, q).Some?
    ensures r.Some? ==> Strip(r.value) == Strip(Report(detect, q).value)
    ensures r == Report(detect, q)
       <==> (Got(After(ops, cache.limits), keyOf(q), before, cache.limits.ttl).Some? ==>
               Report(detect, q).Some? && Quoted(q.text, Report(detect, q).value))
  {
    var k := keyOf(q);
    CacheIsTransparent(detect, keyOf, ops, cache.limits, q, before);
    var cached := cache.Get(k, before);
    ops' := ops + [Op<K, Cached>.Get(k, before)];
    assert ops'[..|ops|] == ops;
    if cached.Some? {
      return Some(Rebuild(cached.value, q.text)), ops';
    }
    var raw := detect(q);
    if raw == None {
      return None, ops';
    }
    var merged := Merge.MergeEntities(raw.value, q.cfg.strategy, q.cfg.resolution, q.text, Engine.TypePriorities(q.cfg, raw.value));
    var report := AllowList.ApplyAllowList(q.text, merged, raw.value, q.cfg.rules, Engine.Protected(q.cfg));
    cache.Put(k, Strip(report), after);
    ghost var got := ops';
    ops' := ops' + [Op<K, Cached>.Put(k, after, Strip(report))];
    assert ops'[..|got|] == got;
    assert Faithful(detect, keyOf, k, Strip(report)) by { assert keyOf(q) == k; }
    r := Some(report);
  }
}
