/**
 What a request's mapping keeps under every method, over every run: privaite/pii/anonymizer.py
 with privaite/pii/mapping.py.
 */
module Invariants {
  import opened Wrappers
  import opened Literals
  import opened Entities
  import opened Mapping
  import opened Anonymization
  import opened RoundTrip

  /** No value is sent as its own fake. */
  ghost predicate NoSelf(st: MapState) {
    forall f :: f in st.toOriginal ==> st.toOriginal[f] != f
  }

  /** Every value has one fake and every fake one value, and no fake is empty. */
  ghost predicate Inverse(st: MapState) {
    Mutual(st) && "" !in st.toOriginal
  }

  /** A value that stands in one of the maps. */
  ghost predicate Held(st: MapState, v: string) {
    v in st.toFake || v in st.toOriginal.Values
  }

  /** The fake generator proposes no empty fake. */
  ghost predicate NonBlank(cfg: Config) {
    forall t, original, n: nat {:trigger cfg.generate(t, original, n)} :: cfg.generate(t, original, n) != ""
  }

  // ----- the retries -----

  /** The retries take the first usable of the eleven proposals, and give up only when none is. */
  lemma {:induction false} RetryIsExact(cfg: Config, t: string, original: string, st: MapState, v: nat) returns (n: nat)
    requires v <= 10
    ensures v <= n <= 11
    ensures forall m: nat :: v <= m < n ==> Unusable(cfg.generate(t, original, m), original, st)
    ensures var r := FirstUsable(cfg, t, original, st, v);
            && (r == None <==> n == 11)
            && (r.Some? ==> r.value == cfg.generate(t, original, n) && !Unusable(r.value, original, st))
    decreases 10 - v
  {
    if !Unusable(cfg.generate(t, original, v), original, st) {
      n := v;
    } else if v == 10 {
      n := v + 1;
    } else {
      n := RetryIsExact(cfg, t, original, st, v + 1);
    }
  }

  // ----- one span -----

  /** A value that is detected reversibly: as a placeholder only under a type the scanner knows,
      and if it looks like a placeholder itself, one that cannot be issued any more. */
  ghost predicate Issuable(cfg: Config, original: string, item: Item, st: MapState) {
    item.Detected? && cfg.MethodFor(item.entityType) == Placeholder ==>
      TypeShaped(item.entityType) && (IsLiteral(original) ==> st.Taken(original))
  }

  /** What is taken stays taken. */
  ghost predicate Grown(st: MapState, after: MapState) {
    forall s :: st.Taken(s) ==> after.Taken(s)
  }

  ghost predicate Revertible(cfg: Config, item: Item) {
    item.Detected? && !cfg.Irreversible(item.entityType)
  }

  /** A span brings its own value into the maps, and only under a method that can be undone. */
  lemma {:induction false} IssueKeeps(cfg: Config, original: string, item: Item, st: MapState)
    ensures Grown(st, Issue(cfg, original, item, st).after)
    ensures forall v :: Held(Issue(cfg, original, item, st).after, v) ==> Held(st, v) || (Revertible(cfg, item) && v == original)
    ensures NonBlank(cfg) && Inverse(st) ==> Inverse(Issue(cfg, original, item, st).after)
    ensures Issuable(cfg, original, item, st) && NoSelf(st) ==> NoSelf(Issue(cfg, original, item, st).after)
  {
    if Revertible(cfg, item) {
      var t := item.entityType;
      var fake := MakeFake(cfg, t, original, st);
      if fake.Some? {
        if cfg.MethodFor(t) == Placeholder {
          PlaceholderIsWritten(t, original, st);
          if Issuable(cfg, original, item, st) { FreshIsNeither(t, original, st); }
        } else {
          var n := RetryIsExact(cfg, t, original, st, 0);
        }
        AddedKeeps(st, original, fake.value, t);
      }
    }
  }

  lemma {:induction false} AddedKeeps(st: MapState, original: string, fake: string, entityType: string)
    requires fake !in st.toOriginal
    ensures var after := st.Added(original, fake, entityType);
            && Grown(st, after)
            && (forall v :: Held(after, v) ==> Held(st, v) || v == original)
            && (Inverse(st) && fake != "" && original !in st.toFake ==> Inverse(after))
            && (NoSelf(st) && fake != original ==> NoSelf(after))
  {
  }

  lemma {:induction false} PlaceholderIsWritten(t: string, original: string, st: MapState)
    ensures st.FreshPlaceholder(t) != ""
  {
  }

  lemma {:induction false} FreshIsNeither(t: string, original: string, st: MapState)
    requires TypeShaped(t) && (IsLiteral(original) ==> st.Taken(original))
    ensures st.FreshPlaceholder(t) != original && st.FreshPlaceholder(t) != "" && !st.Taken(st.FreshPlaceholder(t))
  {
    var n := st.FreshFrom(t, st.Count(t) + 1);
    NumberedIsLiteral(t, n);
    LiteralEdges(Numbered(t, n));
  }

  /** Where the maps come apart: only a value whose fake was empty, and is issued another. */
  lemma {:induction false} IssueKeepsMutualExactly(cfg: Config, original: string, t: string, st: MapState)
    requires Mutual(st) && !cfg.Irreversible(t)
    ensures Mutual(Issue(cfg, original, Detected(t), st).after) <==>
            !(original in st.toFake && st.toFake[original] == "" && MakeFake(cfg, t, original, st).Some?)
  {
    var after := Issue(cfg, original, Detected(t), st).after;
    var fake := MakeFake(cfg, t, original, st);
    if fake.Some? && (original !in st.toFake || st.toFake[original] == "") {
      MadeIsNew(cfg, t, original, st);
      if original in st.toFake {
        assert st.toOriginal[""] == original && after.toOriginal[""] == original;
        assert after.toFake[original] == fake.value != "";
      }
    }
  }

  lemma {:induction false} MadeIsNew(cfg: Config, t: string, original: string, st: MapState)
    requires !cfg.Irreversible(t) && MakeFake(cfg, t, original, st).Some?
    ensures MakeFake(cfg, t, original, st).value !in st.toOriginal
  {
  }

  // ----- one text -----

  ghost predicate AllIssuable(cfg: Config, text: string, pieces: seq<Piece>, st: MapState) {
    forall p :: p in pieces ==> p.start <= p.end <= |text| && Issuable(cfg, text[p.start..p.end], p.item, st)
  }

  /** A value that a piece of the text puts into the mapping. */
  ghost predicate Brought(cfg: Config, text: string, pieces: seq<Piece>, v: string) {
    exists p :: p in pieces && p.start <= p.end <= |text| && Revertible(cfg, p.item) && v == text[p.start..p.end]
  }

  /** What a text keeps and gains, piece by piece. */
  lemma {:induction false} ReplaceAllKeeps(cfg: Config, text: string, pieces: seq<Piece>, st: MapState)
    requires Descending(pieces, |text|)
    ensures forall v :: Held(ReplaceAll(cfg, text, pieces, st).after, v) ==> Held(st, v) || Brought(cfg, text, pieces, v)
    ensures NonBlank(cfg) && Inverse(st) ==> Inverse(ReplaceAll(cfg, text, pieces, st).after)
    ensures AllIssuable(cfg, text, pieces, st) && NoSelf(st) ==> NoSelf(ReplaceAll(cfg, text, pieces, st).after)
    decreases |pieces|
  {
    if pieces != [] {
      var p, left := pieces[0], text[..pieces[0].start];
      assert p in pieces;
      var original := text[p.start..p.end];
      var issued := Issue(cfg, original, p.item, st);
      IssueKeeps(cfg, original, p.item, st);
      assert Revertible(cfg, p.item) ==> Brought(cfg, text, pieces, original);
      if issued.text.Some? {
        if AllIssuable(cfg, text, pieces, st) { IssuableOnTheLeft(cfg, text, pieces, st, issued.after); }
        ReplaceAllKeeps(cfg, left, pieces[1..], issued.after);
        forall v | Brought(cfg, left, pieces[1..], v) ensures Brought(cfg, text, pieces, v) {
          BroughtOnTheLeft(cfg, text, pieces, v);
        }
      }
    }
  }

  lemma {:induction false} IssuableOnTheLeft(cfg: Config, text: string, pieces: seq<Piece>, st: MapState, later: MapState)
    requires pieces != [] && Descending(pieces, |text|) && AllIssuable(cfg, text, pieces, st)
    requires Grown(st, later)
    ensures AllIssuable(cfg, text[..pieces[0].start], pieces[1..], later)
  {
    var left := text[..pieces[0].start];
    DescendingBounds(pieces[1..], pieces[0].start);
    forall p | p in pieces[1..] ensures p.start <= p.end <= |left| && Issuable(cfg, left[p.start..p.end], p.item, later) {
      assert left[p.start..p.end] == text[p.start..p.end];
    }
  }

  lemma {:induction false} BroughtOnTheLeft(cfg: Config, text: string, pieces: seq<Piece>, v: string)
    requires pieces != [] && Descending(pieces, |text|) && Brought(cfg, text[..pieces[0].start], pieces[1..], v)
    ensures Brought(cfg, text, pieces, v)
  {
    var left := text[..pieces[0].start];
    var p :| p in pieces[1..] && p.start <= p.end <= |left| && Revertible(cfg, p.item) && v == left[p.start..p.end];
    assert left[p.start..p.end] == text[p.start..p.end];
  }

  // ----- shielding -----

  /** Shielding gains nothing but literals, and keeps the rest. */
  ghost predicate Shields(st: MapState, after: MapState) {
    && Grown(st, after)
    && (forall v :: Held(after, v) ==> Held(st, v) || IsLiteral(v))
    && (Inverse(st) ==> Inverse(after))
    && (NoSelf(st) ==> NoSelf(after))
  }

  lemma {:induction false} SwapOneKeeps(text: string, entities: seq<Entity>, sp: Span, st: MapState)
    requires LiteralAt(text, sp)
    ensures Shields(st, SwapOne(text, entities, sp, st).after)
  {
    var literal := text[sp.start..sp.end];
    var t := LiteralType(literal);
    if literal in st.toOriginal && literal !in st.toFake {
      LiteralTypeShaped(literal);
      FreshIsNeither(t, literal, st);
    }
  }

  lemma {:induction false} LiteralTypeShaped(literal: string)
    requires IsLiteral(literal)
    ensures TypeShaped(LiteralType(literal))
  {
  }

  lemma {:induction false} SwapLiteralsKeeps(text: string, entities: seq<Entity>, found: seq<Span>, st: MapState)
    requires AllLiterals(text, found)
    ensures Shields(st, SwapLiterals(text, entities, found, st).after)
    decreases |found|
  {
    if found != [] {
      assert found[0] in found;
      var one := SwapOne(text, entities, found[0], st);
      SwapOneKeeps(text, entities, found[0], st);
      SwapLiteralsKeeps(text, entities, found[1..], one.after);
    }
  }

  /** After shielding, no literal of the text can be issued. */
  lemma {:induction false} ShieldKeeps(text: string, entities: seq<Entity>, st: MapState)
    ensures var after := Shield(text, entities, st).after;
            Shields(st, after) && forall s :: s in LiteralsOf(text) ==> after.Taken(s)
  {
    FindLiteralsExact(text, 0);
    var st1 := st.WithReserved(Reservable(text, st));
    SwapLiteralsKeeps(text, entities, FindLiterals(text), st1);
    assert Shields(st, st1);
    forall s | s in LiteralsOf(text) ensures st1.Taken(s) {}
  }

  // ----- runs -----

  /** Every type that is detected and gets placeholders has a name the scanner knows. */
  ghost predicate ShapedTypes(cfg: Config, entities: seq<Entity>) {
    forall i :: 0 <= i < |entities| && cfg.MethodFor(entities[i].entityType) == Placeholder ==> TypeShaped(entities[i].entityType)
  }

  /** A value detected in a text under a type whose method can be undone. */
  ghost predicate DetectedReversibly(cfg: Config, job: Job, v: string) {
    exists i :: 0 <= i < |job.entities| && !cfg.Irreversible(job.entities[i].entityType)
             && 0 <= job.entities[i].start <= job.entities[i].end <= |job.text|
             && v == job.text[job.entities[i].start..job.entities[i].end]
  }

  lemma {:induction false} SwapsAreSwapped(text: string, entities: seq<Entity>, st: MapState)
    requires Separate(text, entities)
    ensures forall p :: p in Shield(text, entities, st).swaps ==> p.item.Swapped?
  {
    PiecesDescend(text, entities, st);
    forall p | p in Shield(text, entities, st).swaps ensures p.item.Swapped? {
      assert IsSwap(entities, FindLiterals(text), p);
    }
  }

  /** What is detected stands where an entity stands. */
  lemma {:induction false} DetectedPiece(text: string, entities: seq<Entity>, st: MapState, p: Piece) returns (i: nat)
    requires Separate(text, entities) && p in PiecesOf(text, entities, st) && p.item.Detected?
    ensures i < |entities| && p == Piece(entities[i].start, entities[i].end, Detected(entities[i].entityType))
  {
    PiecesDescend(text, entities, st);
    SwapsAreSwapped(text, entities, st);
    i :| 0 <= i < |entities| && EntityPieces(entities)[i] == p;
  }

  lemma {:induction false} LiteralSliceTaken(text: string, p: Piece, after: MapState)
    requires p.start < p.end <= |text| && forall s :: s in LiteralsOf(text) ==> after.Taken(s)
    ensures IsLiteral(text[p.start..p.end]) ==> after.Taken(text[p.start..p.end])
  {
    if IsLiteral(text[p.start..p.end]) {
      assert LiteralAt(text, Span(p.start, p.end));
    }
  }

  lemma {:induction false} PiecesIssuable(cfg: Config, text: string, entities: seq<Entity>, st: MapState)
    requires Separate(text, entities) && ShapedTypes(cfg, entities)
    ensures Descending(PiecesOf(text, entities, st), |text|)
    ensures AllIssuable(cfg, text, PiecesOf(text, entities, st), Shield(text, entities, st).after)
  {
    PiecesDescend(text, entities, st);
    ShieldKeeps(text, entities, st);
    var pieces, after := PiecesOf(text, entities, st), Shield(text, entities, st).after;
    forall p | p in pieces ensures p.start <= p.end <= |text| && Issuable(cfg, text[p.start..p.end], p.item, after) {
      LiteralSliceTaken(text, p, after);
      if p.item.Detected? {
        var i := DetectedPiece(text, entities, st, p);
      }
    }
  }

  /** One text, whatever the methods. */
  lemma {:induction false} AnonymizedKeeps(cfg: Config, job: Job, st: MapState)
    requires Separate(job.text, job.entities)
    ensures var after := Anonymized(cfg, job.text, job.entities, st).after;
            && (forall v :: Held(after, v) ==> Held(st, v) || IsLiteral(v) || DetectedReversibly(cfg, job, v))
            && (NonBlank(cfg) && Inverse(st) ==> Inverse(after))
            && (ShapedTypes(cfg, job.entities) && NoSelf(st) ==> NoSelf(after))
  {
    var text, entities := job.text, job.entities;
    var pieces, mid := PiecesOf(text, entities, st), Shield(text, entities, st).after;
    if ShapedTypes(cfg, entities) { PiecesIssuable(cfg, text, entities, st); }
    PiecesDescend(text, entities, st);
    ShieldKeeps(text, entities, st);
    ReplaceAllKeeps(cfg, text, pieces, mid);
    forall v | Brought(cfg, text, pieces, v) ensures DetectedReversibly(cfg, job, v) {
      BroughtIsDetected(cfg, job, st, v);
    }
  }

  lemma {:induction false} BroughtIsDetected(cfg: Config, job: Job, st: MapState, v: string)
    requires Separate(job.text, job.entities) && Brought(cfg, job.text, PiecesOf(job.text, job.entities, st), v)
    ensures DetectedReversibly(cfg, job, v)
  {
    PiecesDescend(job.text, job.entities, st);
    var pieces := PiecesOf(job.text, job.entities, st);
    var p :| p in pieces && p.start <= p.end <= |job.text| && Revertible(cfg, p.item) && v == job.text[p.start..p.end];
    var i := DetectedPiece(job.text, job.entities, st, p);
  }

  ghost predicate SomeJobDetects(cfg: Config, jobs: seq<Job>, v: string) {
    exists i :: 0 <= i < |jobs| && DetectedReversibly(cfg, jobs[i], v)
  }

  ghost predicate AllShaped(cfg: Config, jobs: seq<Job>) {
    forall i :: 0 <= i < |jobs| ==> ShapedTypes(cfg, jobs[i].entities)
  }

  /** The values in the maps after a run are those that were there before it, text that looks like
      a placeholder, and values detected under a type whose method can be undone. */
  ghost predicate Provenance(cfg: Config, st: MapState, jobs: seq<Job>, after: MapState) {
    forall v :: Held(after, v) ==> Held(st, v) || IsLiteral(v) || SomeJobDetects(cfg, jobs, v)
  }

  lemma {:induction false} DetectedInFirst(cfg: Config, jobs: seq<Job>, v: string)
    requires jobs != [] && (DetectedReversibly(cfg, jobs[0], v) || SomeJobDetects(cfg, jobs[1..], v))
    ensures SomeJobDetects(cfg, jobs, v)
  {
    if !DetectedReversibly(cfg, jobs[0], v) {
      var i :| 0 <= i < |jobs[1..]| && DetectedReversibly(cfg, jobs[1..][i], v);
      assert DetectedReversibly(cfg, jobs[i + 1], v);
    }
  }

  /**
   Every run, whatever mix of methods, and whether or not it ends blocked. Where the values in the
   maps come from takes no hypothesis. The maps stay inverse to each other if the generator proposes
   no empty fake, and no value is its own fake if the names of placeholder types have the shape.
   */
  lemma {:induction false} RunKeeps(cfg: Config, jobs: seq<Job>, st: MapState)
    requires WellFormed(jobs)
    ensures Provenance(cfg, st, jobs, Run(cfg, jobs, st).after)
    ensures NonBlank(cfg) && Inverse(st) ==> Inverse(Run(cfg, jobs, st).after)
    ensures AllShaped(cfg, jobs) && NoSelf(st) ==> NoSelf(Run(cfg, jobs, st).after)
    decreases |jobs|
  {
    if jobs != [] {
      var o := Anonymized(cfg, jobs[0].text, jobs[0].entities, st);
      AnonymizedKeeps(cfg, jobs[0], st);
      forall v | DetectedReversibly(cfg, jobs[0], v) || SomeJobDetects(cfg, jobs[1..], v) ensures SomeJobDetects(cfg, jobs, v) {
        DetectedInFirst(cfg, jobs, v);
      }
      if o.text.Some? {
        RunKeeps(cfg, jobs[1..], o.after);
      }
    }
  }

  /** A value that is only ever masked or redacted can not come back: it is in neither map. */
  lemma {:induction false} MaskedNeverComesBack(cfg: Config, jobs: seq<Job>, body: seq<string>, v: string)
    requires WellFormed(jobs)
    requires !IsLiteral(v) && !SomeJobDetects(cfg, jobs, v)
    ensures var after := Run(cfg, jobs, Fresh(body)).after;
            v !in after.toFake && v !in after.toOriginal.Values
  {
    RunKeeps(cfg, jobs, Fresh(body));
    assert !Held(Fresh(body), v);
    assert Held(Run(cfg, jobs, Fresh(body)).after, v) <==> v in Run(cfg, jobs, Fresh(body)).after.toFake || v in Run(cfg, jobs, Fresh(body)).after.toOriginal.Values;
  }

  // ----- the name of a type -----

  ghost predicate AllOfOneType(jobs: seq<Job>, t: string) {
    forall i :: 0 <= i < |jobs| ==> AllOfType(jobs[i].entities, t)
  }

  /** No run that detects only values of type `t` sends one of them as its own fake. */
  ghost predicate NeverSelf(cfg: Config, t: string) {
    forall jobs, body {:trigger Run(cfg, jobs, Fresh(body))} :: WellFormed(jobs) && AllOfOneType(jobs, t) ==> NoSelf(Run(cfg, jobs, Fresh(body)).after)
  }

  /** A text that is detected whole, and is the first placeholder of its type. */
  function OwnFake(t: string): Job {
    Job(Numbered(t, 1), [Entity(t, Numbered(t, 1), 0, |Numbered(t, 1)|, 1.0, "")])
  }

  lemma {:induction false} OwnFakeIsSent(cfg: Config, t: string)
    requires cfg.MethodFor(t) == Placeholder && !TypeShaped(t)
    ensures var job := OwnFake(t);
            Separate(job.text, job.entities) &&
            var o := Anonymized(cfg, job.text, job.entities, EMPTY);
            o.text == Some(job.text) && job.text in o.after.toOriginal && o.after.toOriginal[job.text] == job.text
  {
    var text, entities := OwnFake(t).text, OwnFake(t).entities;
    var st := EMPTY.WithReserved(Reservable(text, EMPTY));
    var p := Piece(0, |text|, Detected(t));
    assert EntityPieces(entities) == [p];
    OnePiece(text, entities, p);
    FirstIsOwn(cfg, t, text, st);
    WholeReplaced(cfg, text, p, st);
    OnlyPiece(cfg, text, entities, EMPTY, p);
  }

  lemma {:induction false} OnlyPiece(cfg: Config, text: string, entities: seq<Entity>, st: MapState, p: Piece)
    requires Separate(text, entities) && PiecesOf(text, entities, st) == [p] && Descending([p], |text|)
    ensures Anonymized(cfg, text, entities, st) == ReplaceAll(cfg, text, [p], Shield(text, entities, st).after)
  {
  }

  lemma {:induction false} FirstIsOwn(cfg: Config, t: string, text: string, st: MapState)
    requires cfg.MethodFor(t) == Placeholder && !TypeShaped(t)
    requires text == Numbered(t, 1) && st == EMPTY.WithReserved(Reservable(text, EMPTY))
    ensures Issue(cfg, text, Detected(t), st) == Outcome(Some(text), st.Added(text, text, t))
  {
    NumberedIsLiteral(t, 1);
    assert !st.Taken(Numbered(t, 1));
  }

  lemma {:induction false} WholeReplaced(cfg: Config, text: string, p: Piece, st: MapState)
    requires p.start == 0 && p.end == |text|
    requires Issue(cfg, text, p.item, st).text.Some?
    ensures Descending([p], |text|)
    ensures ReplaceAll(cfg, text, [p], st) == Issue(cfg, text, p.item, st)
  {
    var fake, after := Issue(cfg, text, p.item, st).text.value, Issue(cfg, text, p.item, st).after;
    assert [p][1..] == [] && text[p.start..p.end] == text && text[..p.start] == "" && text[p.end..] == "";
    assert "" + (fake + "") == fake;
    assert ReplaceAll(cfg, "", [], after) == Outcome(Some(""), after);
  }

  /** No value is its own fake exactly for the type names of the shape the scanner knows. */
  lemma {:induction false} NeverSelfExact(cfg: Config, t: string)
    requires cfg.MethodFor(t) == Placeholder
    ensures NeverSelf(cfg, t) <==> TypeShaped(t)
  {
    if TypeShaped(t) {
      forall jobs, body | WellFormed(jobs) && AllOfOneType(jobs, t) ensures NoSelf(Run(cfg, jobs, Fresh(body)).after) {
        RunKeeps(cfg, jobs, Fresh(body));
      }
    } else {
      UnshapedIsSelf(cfg, t);
    }
  }

  lemma {:induction false} UnshapedIsSelf(cfg: Config, t: string)
    requires cfg.MethodFor(t) == Placeholder && !TypeShaped(t)
    ensures !NeverSelf(cfg, t)
  {
    var jobs := [OwnFake(t)];
    OwnFakeRun(cfg, t);
    assert Fresh([]) == EMPTY && AllOfType(jobs[0].entities, t);
    assert !NoSelf(Run(cfg, jobs, Fresh([])).after);
  }

  lemma {:induction false} OwnFakeRun(cfg: Config, t: string)
    requires cfg.MethodFor(t) == Placeholder && !TypeShaped(t)
    ensures WellFormed([OwnFake(t)]) && !NoSelf(Run(cfg, [OwnFake(t)], EMPTY).after)
  {
    OwnFakeIsSent(cfg, t);
    var jobs := [OwnFake(t)];
    FirstJob(cfg, jobs, EMPTY);
    assert jobs[1..] == [];
  }

  // ----- an empty fake -----

  /** A text that is detected whole. */
  function WholeJob(text: string, t: string): Job {
    Job(text, [Entity(t, text, 0, |text|, 1.0, "")])
  }

  lemma {:induction false} FoundIsLiteral(text: string)
    ensures FindLiterals(text) != [] ==> LiteralsOf(text) != {}
  {
    FindLiteralsExact(text, 0);
    var found := FindLiterals(text);
    if found != [] {
      assert found[0] in found;
      assert text[found[0].start..found[0].end] in LiteralsOf(text);
    }
  }

  lemma {:induction false} NothingToShield(text: string, entities: seq<Entity>, st: MapState)
    requires LiteralsOf(text) == {}
    ensures Shield(text, entities, st) == Shielded([], st)
  {
    FoundIsLiteral(text);
    assert Reservable(text, st) == {} && st.reserved + {} == st.reserved;
  }

  /** A text without literals that is detected whole is swapped for the fake it is issued. */
  lemma {:induction false} WholeIsIssued(cfg: Config, text: string, t: string, st: MapState)
    requires text != "" && LiteralsOf(text) == {} && Issue(cfg, text, Detected(t), st).text.Some?
    ensures var job := WholeJob(text, t);
            Separate(job.text, job.entities) && Anonymized(cfg, job.text, job.entities, st) == Issue(cfg, text, Detected(t), st)
  {
    var entities, p := WholeJob(text, t).entities, Piece(0, |text|, Detected(t));
    assert EntityPieces(entities) == [p];
    NothingToShield(text, entities, st);
    assert [p] + [] == [p];
    SortOne(p);
    WholeReplaced(cfg, text, p, st);
  }

  /** The generator proposes an empty fake first, and then another. */
  lemma {:induction false} EmptyThenOther(cfg: Config, t: string, v: string)
    requires cfg.MethodFor(t) == FakeReplacement && v != ""
    requires cfg.generate(t, v, 0) == "" && cfg.generate(t, v, 1) !in {"", v}
    ensures var first := Issue(cfg, v, Detected(t), EMPTY);
            var second := Issue(cfg, v, Detected(t), first.after);
            && first == Outcome(Some(""), EMPTY.Added(v, "", t))
            && second == Outcome(Some(cfg.generate(t, v, 1)), first.after.Added(v, cfg.generate(t, v, 1), t))
  {
  }

  /** A run in which the maps come apart: a value whose first fake is empty is detected twice. */
  lemma {:induction false} EmptyFakeBreaksRun(cfg: Config, t: string, v: string)
    requires cfg.MethodFor(t) == FakeReplacement && v != "" && LiteralsOf(v) == {}
    requires cfg.generate(t, v, 0) == "" && cfg.generate(t, v, 1) !in {"", v}
    ensures var jobs := [WholeJob(v, t), WholeJob(v, t)];
            WellFormed(jobs) && !Mutual(Run(cfg, jobs, EMPTY).after)
  {
    var first := Issue(cfg, v, Detected(t), EMPTY).after;
    EmptyThenOther(cfg, t, v);
    WholeIsIssued(cfg, v, t, EMPTY);
    WholeIsIssued(cfg, v, t, first);
    var last := Issue(cfg, v, Detected(t), first).after;
    TwoJobs(cfg, WholeJob(v, t), WholeJob(v, t), EMPTY, Issue(cfg, v, Detected(t), EMPTY), Issue(cfg, v, Detected(t), first));
    assert last.toOriginal[""] == v && last.toFake[v] != "";
  }

  lemma {:induction false} TwoJobs(cfg: Config, a: Job, b: Job, st: MapState, mid: Outcome, last: Outcome)
    requires Separate(a.text, a.entities) && Separate(b.text, b.entities)
    requires mid == Anonymized(cfg, a.text, a.entities, st) && mid.text.Some?
    requires last == Anonymized(cfg, b.text, b.entities, mid.after) && last.text.Some?
    ensures WellFormed([a, b]) && Run(cfg, [a, b], st).after == last.after
  {
    var jobs, rest := [a, b], [b];
    assert jobs[1..] == rest && rest[1..] == [];
    FirstJob(cfg, jobs, st);
    FirstJob(cfg, rest, mid.after);
  }

  lemma {:induction false} FirstJob(cfg: Config, jobs: seq<Job>, st: MapState)
    requires jobs != [] && WellFormed(jobs) && Anonymized(cfg, jobs[0].text, jobs[0].entities, st).text.Some?
    ensures Run(cfg, jobs, st).after == Run(cfg, jobs[1..], Anonymized(cfg, jobs[0].text, jobs[0].entities, st).after).after
  {
  }

  // ----- the counts of detections -----

  /** The value is not yet on record for its type: no mask or type name was noted for it, or it has no fake. */
  predicate IsFirst(cfg: Config, original: string, entityType: string, st: MapState) {
    if cfg.Irreversible(entityType) then original !in st.types
    else original !in st.toFake || st.toFake[original] == ""
  }

  /** A detection is counted for its own type, and only when its value is not on record. */
  lemma {:induction false} CountedWhenFirst(cfg: Config, original: string, entityType: string, st: MapState, t: string)
    requires Issue(cfg, original, Detected(entityType), st).text.Some?
    ensures Issue(cfg, original, Detected(entityType), st).after.Count(t)
         == st.Count(t) + if t == entityType && IsFirst(cfg, original, entityType, st) then 1 else 0
  {
  }

  /** So the same value is not counted again, unless its fake is empty. */
  lemma {:induction false} CountedOnce(cfg: Config, original: string, entityType: string, st: MapState)
    requires Issue(cfg, original, Detected(entityType), st).text.Some?
    ensures var o := Issue(cfg, original, Detected(entityType), st);
            IsFirst(cfg, original, entityType, o.after) <==> !cfg.Irreversible(entityType) && o.text == Some("")
  {
  }
}
