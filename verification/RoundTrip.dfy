/**
 The request round trip: whatever the texts of a request are, and wherever detections
 were made in them, restoring each sent text with the final mapping gives it back.
 */
module RoundTrip {
  import opened Wrappers
  import opened Literals
  import opened Entities
  import opened Mapping
  import Containers
  import opened DeAnonymizer
  import opened Streaming
  import opened Anonymization

  /** The two maps are inverses of each other. */
  ghost predicate Mutual(st: MapState) {
    && (forall o :: o in st.toFake ==> st.toFake[o] in st.toOriginal && st.toOriginal[st.toFake[o]] == o)
    && (forall f :: f in st.toOriginal ==> st.toOriginal[f] in st.toFake && st.toFake[st.toOriginal[f]] == f)
  }

  /** The mapping of a request that only ever issued numbered placeholders. */
  ghost predicate Consistent(st: MapState) {
    Mutual(st) && forall f :: f in st.toOriginal ==> IsLiteral(f)
  }

  /** `later` knows everything `st` knows, and has issued nothing `st` had reserved. */
  ghost predicate Extends(st: MapState, later: MapState) {
    && st.reserved <= later.reserved
    && (forall f :: f in st.toOriginal ==> f in later.toOriginal && later.toOriginal[f] == st.toOriginal[f])
    && (forall f :: f in later.toOriginal && f !in st.toOriginal ==> f !in st.reserved)
  }

  lemma {:induction false} ExtendsTransitive(a: MapState, b: MapState, c: MapState)
    requires Extends(a, b) && Extends(b, c)
    ensures Extends(a, c)
  {
  }

  /** `final` may be the mapping of the request at some later time. */
  ghost predicate Later(st: MapState, final: MapState) {
    Consistent(final) && Extends(st, final)
  }

  /** What was sent is restored to `text` from now on. */
  ghost predicate Settled(st: MapState, sent: string, text: string) {
    forall final :: Later(st, final) ==> Restore(final.toOriginal, sent) == text
  }

  lemma {:induction false} SettledLater(a: MapState, b: MapState, sent: string, text: string)
    requires Settled(a, sent, text) && Extends(a, b)
    ensures Settled(b, sent, text)
  {
    forall final | Later(b, final) ensures Restore(final.toOriginal, sent) == text {
      ExtendsTransitive(a, b, final);
      assert Later(a, final);
    }
  }

  lemma {:induction false} ConsistentBrackets(st: MapState)
    requires Consistent(st)
    ensures Bracketing(st.toOriginal)
  {
    forall f | f in st.toOriginal ensures Bracketed(f) { LiteralEdges(f); }
  }

  /** The placeholder method, for a type whose placeholders have the recognised shape. */
  predicate Reversible(cfg: Config, entityType: string) {
    cfg.MethodFor(entityType) == Placeholder && TypeShaped(entityType)
  }

  /** A piece whose fake will restore to the text it stands on. */
  ghost predicate Sound(cfg: Config, text: string, p: Piece, st: MapState)
    requires p.start <= p.end <= |text|
  {
    match p.item
    case Detected(entityType) => Reversible(cfg, entityType)
    case Swapped(fake) => fake in st.toOriginal && st.toOriginal[fake] == text[p.start..p.end]
  }

  /** Issuing a placeholder keeps the maps inverse and answers with a fake for the original. */
  lemma {:induction false} IssueIsSound(cfg: Config, text: string, p: Piece, st: MapState)
    requires p.start <= p.end <= |text| && Consistent(st) && Sound(cfg, text, p, st)
    ensures var original := text[p.start..p.end];
            var o := Issue(cfg, original, p.item, st);
            && Consistent(o.after) && Extends(st, o.after)
            && o.text.Some? && o.text.value in o.after.toOriginal
            && o.after.toOriginal[o.text.value] == original
  {
    var original := text[p.start..p.end];
    if p.item.Detected? {
      if original in st.toFake {
        LiteralEdges(st.toFake[original]);
      } else {
        var fake := NewIssue(cfg, original, p.item.entityType, st);
        NewFakeIsSound(st, original, fake, st.Added(original, fake, p.item.entityType));
      }
    }
  }

  lemma {:induction false} NewIssue(cfg: Config, original: string, t: string, st: MapState) returns (fake: string)
    requires Reversible(cfg, t) && original !in st.toFake
    ensures IsLiteral(fake) && !st.Taken(fake)
    ensures Issue(cfg, original, Detected(t), st) == Outcome(Some(fake), st.Added(original, fake, t))
  {
    fake := st.FreshPlaceholder(t);
    NumberedIsLiteral(t, st.FreshFrom(t, st.Count(t) + 1));
  }

  /** A fake that is not taken, for a value that has none. */
  lemma {:induction false} NewFakeIsSound(st: MapState, original: string, fake: string, after: MapState)
    requires Consistent(st) && original !in st.toFake && !st.Taken(fake) && IsLiteral(fake)
    requires after.toFake == st.toFake[original := fake] && after.toOriginal == st.toOriginal[fake := original]
    requires after.reserved == st.reserved
    ensures Consistent(after) && Extends(st, after)
  {
  }

  ghost predicate Covers(pieces: seq<Piece>, sp: Span) {
    exists p :: p in pieces && p.start < sp.end && sp.start < p.end
  }

  /** Every literal of the text is swapped with a span, or reserved and never issued. */
  ghost predicate Guarded(text: string, pieces: seq<Piece>, st: MapState) {
    forall sp: Span :: LiteralAt(text, sp) ==>
                         Covers(pieces, sp) || (text[sp.start..sp.end] in st.reserved && text[sp.start..sp.end] !in st.toOriginal)
  }

  ghost predicate AllSound(cfg: Config, text: string, pieces: seq<Piece>, st: MapState) {
    forall p :: p in pieces ==> p.start <= p.end <= |text| && Sound(cfg, text, p, st)
  }

  lemma {:induction false} DescendingBounds(pieces: seq<Piece>, n: nat)
    requires Descending(pieces, n)
    ensures forall p :: p in pieces ==> p.start <= p.end <= n
    decreases |pieces|
  {
    if pieces != [] { DescendingBounds(pieces[1..], pieces[0].start); }
  }

  lemma {:induction false} LeftSlice(text: string, n: nat, start: nat, end: nat)
    requires start <= end <= n <= |text|
    ensures text[..n][start..end] == text[start..end]
  {
  }

  /** The part of the text left of the last span still meets the conditions. */
  lemma {:induction false} GuardedPrefix(cfg: Config, text: string, pieces: seq<Piece>, st: MapState, later: MapState)
    requires pieces != [] && Descending(pieces, |text|)
    requires Guarded(text, pieces, st) && AllSound(cfg, text, pieces, st) && Extends(st, later)
    ensures Guarded(text[..pieces[0].start], pieces[1..], later)
    ensures AllSound(cfg, text[..pieces[0].start], pieces[1..], later)
  {
    LeftGuarded(text, pieces, st, later);
    LeftSound(cfg, text, pieces, st, later);
  }

  lemma {:induction false} LeftGuarded(text: string, pieces: seq<Piece>, st: MapState, later: MapState)
    requires pieces != [] && Descending(pieces, |text|) && Guarded(text, pieces, st) && Extends(st, later)
    ensures Guarded(text[..pieces[0].start], pieces[1..], later)
  {
    var left := text[..pieces[0].start];
    forall sp: Span | LiteralAt(left, sp)
      ensures Covers(pieces[1..], sp) || (left[sp.start..sp.end] in later.reserved && left[sp.start..sp.end] !in later.toOriginal)
    {
      LeftSlice(text, pieces[0].start, sp.start, sp.end);
      assert LiteralAt(text, sp);
      if Covers(pieces, sp) { CoveredOnTheLeft(pieces, sp); }
    }
  }

  lemma {:induction false} CoveredOnTheLeft(pieces: seq<Piece>, sp: Span)
    requires pieces != [] && Covers(pieces, sp) && sp.end <= pieces[0].start
    ensures Covers(pieces[1..], sp)
  {
    var p :| p in pieces && p.start < sp.end && sp.start < p.end;
    assert p in pieces[1..];
  }

  lemma {:induction false} LeftSound(cfg: Config, text: string, pieces: seq<Piece>, st: MapState, later: MapState)
    requires pieces != [] && Descending(pieces, |text|) && AllSound(cfg, text, pieces, st) && Extends(st, later)
    ensures AllSound(cfg, text[..pieces[0].start], pieces[1..], later)
  {
    var left := text[..pieces[0].start];
    DescendingBounds(pieces[1..], pieces[0].start);
    forall p | p in pieces[1..] ensures p.start <= p.end <= |left| && Sound(cfg, left, p, later) {
      assert p in pieces;
      LeftSlice(text, pieces[0].start, p.start, p.end);
    }
  }

  /** No span stands right of the last. */
  lemma {:induction false} NoneOnTheRight(pieces: seq<Piece>, n: nat, sp: Span)
    requires pieces != [] && Descending(pieces, n) && pieces[0].end <= sp.start
    ensures !Covers(pieces, sp)
  {
    DescendingBounds(pieces[1..], pieces[0].start);
    forall p | p in pieces ensures !(p.start < sp.end && sp.start < p.end) {
      assert p == pieces[0] || p in pieces[1..];
    }
  }

  /** The rest of the text right of the last span holds nothing that is ever issued. */
  lemma {:induction false} TailIsFixed(text: string, pieces: seq<Piece>, st: MapState, final: MapState)
    requires pieces != [] && Descending(pieces, |text|)
    requires Guarded(text, pieces, st) && Extends(st, final) && Consistent(final)
    ensures Restore(final.toOriginal, text[pieces[0].end..]) == text[pieces[0].end..]
  {
    var from := pieces[0].end;
    var tail := text[from..];
    forall i: nat, n: nat ensures !Holds(final.toOriginal, tail, i, n) {
      if i + n <= |tail| && n > 0 {
        TailHoldsNone(text, pieces, st, final, i, n);
      }
    }
    RestoreFixes(final.toOriginal, tail);
  }

  lemma {:induction false} TailHoldsNone(text: string, pieces: seq<Piece>, st: MapState, final: MapState, i: nat, n: nat)
    requires pieces != [] && Descending(pieces, |text|)
    requires Guarded(text, pieces, st) && Extends(st, final) && Consistent(final)
    requires n > 0 && pieces[0].end + i + n <= |text|
    ensures text[pieces[0].end..][i..i + n] !in final.toOriginal
  {
    var from := pieces[0].end;
    var sp := Span(from + i, from + i + n);
    var s := text[sp.start..sp.end];
    assert text[from..][i..i + n] == s;
    NoneOnTheRight(pieces, |text|, sp);
    assert s in final.toOriginal ==> LiteralAt(text, sp);
  }

  /** A text without swaps, all of whose literals are reserved. */
  lemma {:induction false} ReservedIsFixed(text: string, st: MapState, final: MapState)
    requires LiteralsOf(text) <= st.reserved && LiteralsOf(text) !! st.toOriginal.Keys
    requires Extends(st, final) && Consistent(final)
    ensures Restore(final.toOriginal, text) == text
  {
    forall i: nat, n: nat ensures !Holds(final.toOriginal, text, i, n) {
      if i + n <= |text| && n > 0 {
        assert text[i..i + n] in final.toOriginal ==> LiteralAt(text, Span(i, i + n));
        assert LiteralAt(text, Span(i, i + n)) ==> text[i..i + n] in LiteralsOf(text);
      }
    }
    RestoreFixes(final.toOriginal, text);
  }

  lemma {:induction false} GuardedIsReserved(text: string, st: MapState)
    requires Guarded(text, [], st)
    ensures LiteralsOf(text) <= st.reserved && LiteralsOf(text) !! st.toOriginal.Keys
  {
    forall s | s in LiteralsOf(text) ensures s in st.reserved && s !in st.toOriginal {
      var sp: Span :| LiteralAt(text, sp) && s == text[sp.start..sp.end];
      assert !Covers([], sp);
    }
  }

  /** The last span of a text: its fake and the tail behind it are restored in place. */
  lemma {:induction false} SpanRestores(text: string, pieces: seq<Piece>, st: MapState, left: string, fake: string, final: MapState)
    requires pieces != [] && Descending(pieces, |text|) && Guarded(text, pieces, st)
    requires Consistent(final) && Extends(st, final)
    requires fake in final.toOriginal && final.toOriginal[fake] == text[pieces[0].start..pieces[0].end]
    requires Restore(final.toOriginal, left) == text[..pieces[0].start]
    ensures Restore(final.toOriginal, left + (fake + text[pieces[0].end..])) == text
  {
    var p := pieces[0];
    DescendingBounds(pieces, |text|);
    TailIsFixed(text, pieces, st, final);
    ConsistentBrackets(final);
    RestoreAround(final.toOriginal, left, fake, text[p.end..]);
    Cut(text, p.start, p.end);
  }

  lemma {:induction false} Cut(text: string, start: nat, end: nat)
    requires start <= end <= |text|
    ensures text == text[..start] + (text[start..end] + text[end..])
  {
  }

  /** What the pass sends, restored with any later mapping, is the text. */
  lemma {:induction false} ReplaceAllRestores(cfg: Config, text: string, pieces: seq<Piece>, st: MapState)
    requires Descending(pieces, |text|) && Consistent(st)
    requires Guarded(text, pieces, st) && AllSound(cfg, text, pieces, st)
    ensures var o := ReplaceAll(cfg, text, pieces, st);
            o.text.Some? && Later(st, o.after) && Settled(o.after, o.text.value, text)
    decreases |pieces|
  {
    if pieces == [] {
      GuardedIsReserved(text, st);
      forall final | Later(st, final) ensures Restore(final.toOriginal, text) == text {
        ReservedIsFixed(text, st, final);
      }
    } else {
      var p := pieces[0];
      assert p in pieces;
      IssueIsSound(cfg, text, p, st);
      var issued := Issue(cfg, text[p.start..p.end], p.item, st);
      GuardedPrefix(cfg, text, pieces, st, issued.after);
      ReplaceAllRestores(cfg, text[..p.start], pieces[1..], issued.after);
      var left := ReplaceAll(cfg, text[..p.start], pieces[1..], issued.after);
      ExtendsTransitive(st, issued.after, left.after);
      SpanSettles(text, pieces, st, left.text.value, issued, left.after);
    }
  }

  lemma {:induction false} SpanSettles(text: string, pieces: seq<Piece>, st: MapState, left: string, issued: Outcome, after: MapState)
    requires pieces != [] && Descending(pieces, |text|) && Guarded(text, pieces, st)
    requires Extends(st, issued.after) && Extends(issued.after, after)
    requires issued.text.Some? && issued.text.value in issued.after.toOriginal
    requires issued.after.toOriginal[issued.text.value] == text[pieces[0].start..pieces[0].end]
    requires Settled(after, left, text[..pieces[0].start])
    ensures Settled(after, left + (issued.text.value + text[pieces[0].end..]), text)
  {
    forall final | Later(after, final)
      ensures Restore(final.toOriginal, left + (issued.text.value + text[pieces[0].end..])) == text
    {
      ExtendsTransitive(issued.after, after, final);
      ExtendsTransitive(st, issued.after, final);
      SpanRestores(text, pieces, st, left, issued.text.value, final);
    }
  }

  // ----- shielding -----

  /** A swap of the literal at `sp`, for a fake that restores to it. */
  ghost predicate SwapFor(p: Piece, sp: Span, literal: string, st: MapState) {
    p.start == sp.start && p.end == sp.end && p.item.Swapped? && p.item.fake in st.toOriginal && st.toOriginal[p.item.fake] == literal
  }

  lemma {:induction false} SwapOneIsSound(text: string, entities: seq<Entity>, sp: Span, st: MapState)
    requires LiteralAt(text, sp) && Consistent(st)
    ensures var one := SwapOne(text, entities, sp, st);
            var literal := text[sp.start..sp.end];
            && Consistent(one.after) && Extends(st, one.after)
            && (forall p :: p in one.swaps ==> SwapFor(p, sp, literal, one.after))
            && (literal in st.toOriginal && !Touches(entities, sp.start, sp.end) ==> one.swaps != [])
  {
    var literal := text[sp.start..sp.end];
    if literal in st.toOriginal && !Touches(entities, sp.start, sp.end) {
      if literal in st.toFake {
        OldSwap(text, entities, sp, st);
      } else {
        var fake := NewSwap(text, entities, sp, st);
        NewFakeIsSound(st, literal, fake, st.LiteralAdded(literal, fake));
      }
    } else {
      NoSwap(text, entities, sp, st);
    }
  }

  lemma {:induction false} NoSwap(text: string, entities: seq<Entity>, sp: Span, st: MapState)
    requires LiteralAt(text, sp) && (text[sp.start..sp.end] !in st.toOriginal || Touches(entities, sp.start, sp.end))
    ensures SwapOne(text, entities, sp, st) == Shielded([], st)
  {
  }

  lemma {:induction false} OldSwap(text: string, entities: seq<Entity>, sp: Span, st: MapState)
    requires LiteralAt(text, sp) && text[sp.start..sp.end] in st.toFake
    requires text[sp.start..sp.end] in st.toOriginal && !Touches(entities, sp.start, sp.end)
    ensures SwapOne(text, entities, sp, st)
         == Shielded([Piece(sp.start, sp.end, Swapped(st.toFake[text[sp.start..sp.end]]))], st)
  {
  }

  lemma {:induction false} NewSwap(text: string, entities: seq<Entity>, sp: Span, st: MapState) returns (fake: string)
    requires LiteralAt(text, sp)
    requires text[sp.start..sp.end] in st.toOriginal && !Touches(entities, sp.start, sp.end) && text[sp.start..sp.end] !in st.toFake
    ensures !st.Taken(fake) && IsLiteral(fake)
    ensures SwapOne(text, entities, sp, st)
         == Shielded([Piece(sp.start, sp.end, Swapped(fake))], st.LiteralAdded(text[sp.start..sp.end], fake))
  {
    var t := LiteralType(text[sp.start..sp.end]);
    fake := st.FreshPlaceholder(t);
    NumberedIsLiteral(t, st.FreshFrom(t, st.Count(t) + 1));
  }

  /** Late literals are all swapped, for fakes that restore to them. */
  lemma {:induction false} SwapLiteralsIsSound(text: string, entities: seq<Entity>, found: seq<Span>, st: MapState)
    requires AllLiterals(text, found) && Consistent(st)
    ensures var r := SwapLiterals(text, entities, found, st);
            && Consistent(r.after) && Extends(st, r.after)
            && (forall p :: p in r.swaps ==>
                  p.start <= p.end <= |text| && p.item.Swapped? && p.item.fake in r.after.toOriginal
                  && r.after.toOriginal[p.item.fake] == text[p.start..p.end])
            && (forall sp :: sp in found && text[sp.start..sp.end] in st.toOriginal ==>
                               Touches(entities, sp.start, sp.end) || Covers(r.swaps, sp))
    decreases |found|
  {
    if found != [] {
      var sp := found[0];
      assert sp in found;
      var one := SwapOne(text, entities, sp, st);
      SwapOneIsSound(text, entities, sp, st);
      SwapLiteralsIsSound(text, entities, found[1..], one.after);
      var rest := SwapLiterals(text, entities, found[1..], one.after);
      var r := SwapLiterals(text, entities, found, st);
      ExtendsTransitive(st, one.after, rest.after);
      forall q | q in found && text[q.start..q.end] in st.toOriginal && !Touches(entities, q.start, q.end)
        ensures Covers(r.swaps, q)
      {
        if q == sp {
          assert one.swaps[0] in r.swaps;
        } else {
          assert q in found[1..] && Covers(rest.swaps, q);
          var p :| p in rest.swaps && p.start < q.end && q.start < p.end;
          assert p in r.swaps;
        }
      }
    }
  }

  lemma {:induction false} ReservingIsSound(text: string, st: MapState)
    requires Consistent(st)
    ensures var st1 := st.WithReserved(Reservable(text, st)); Consistent(st1) && Extends(st, st1)
  {
  }

  predicate AllReversible(cfg: Config, entities: seq<Entity>) {
    forall i :: 0 <= i < |entities| ==> Reversible(cfg, entities[i].entityType)
  }

  /** After shielding, the mapping has grown soundly and each late literal has its swap. */
  lemma {:induction false} ShieldIsSound(text: string, entities: seq<Entity>, st: MapState)
    requires Consistent(st)
    ensures var sh := Shield(text, entities, st);
            && Consistent(sh.after) && Extends(st, sh.after)
            && (forall p :: p in sh.swaps ==>
                  p.start <= p.end <= |text| && p.item.Swapped? && p.item.fake in sh.after.toOriginal
                  && sh.after.toOriginal[p.item.fake] == text[p.start..p.end])
            && (forall sp: Span :: LiteralAt(text, sp) ==>
                  if text[sp.start..sp.end] in st.toOriginal
                  then Touches(entities, sp.start, sp.end) || Covers(sh.swaps, sp)
                  else text[sp.start..sp.end] in sh.after.reserved && text[sp.start..sp.end] !in sh.after.toOriginal)
  {
    var st1 := st.WithReserved(Reservable(text, st));
    var found := FindLiterals(text);
    FindLiteralsExact(text, 0);
    ReservingIsSound(text, st);
    SwapLiteralsIsSound(text, entities, found, st1);
    ExtendsTransitive(st, st1, Shield(text, entities, st).after);
    forall sp: Span | LiteralAt(text, sp) ensures sp in found && text[sp.start..sp.end] in LiteralsOf(text) {}
  }

  lemma {:induction false} PiecesAreSound(cfg: Config, text: string, entities: seq<Entity>, st: MapState)
    requires Separate(text, entities) && Consistent(st) && AllReversible(cfg, entities)
    ensures var sh := Shield(text, entities, st);
            var pieces := PiecesOf(text, entities, st);
            && Consistent(sh.after) && Extends(st, sh.after)
            && Descending(pieces, |text|)
            && AllSound(cfg, text, pieces, sh.after) && Guarded(text, pieces, sh.after)
  {
    ShieldIsSound(text, entities, st);
    PiecesDescend(text, entities, st);
    var sh, pieces := Shield(text, entities, st), PiecesOf(text, entities, st);
    forall p | p in pieces ensures p.start <= p.end <= |text| && Sound(cfg, text, p, sh.after) {
      if p in EntityPieces(entities) {
        var i :| 0 <= i < |entities| && EntityPieces(entities)[i] == p;
      }
    }
    forall sp: Span | LiteralAt(text, sp)
      ensures Covers(pieces, sp) || (text[sp.start..sp.end] in sh.after.reserved && text[sp.start..sp.end] !in sh.after.toOriginal)
    {
      if text[sp.start..sp.end] in st.toOriginal {
        LiteralIsCovered(text, entities, st, sp);
      }
    }
  }

  lemma {:induction false} LiteralIsCovered(text: string, entities: seq<Entity>, st: MapState, sp: Span)
    requires Separate(text, entities) && LiteralAt(text, sp)
    requires Touches(entities, sp.start, sp.end) || Covers(Shield(text, entities, st).swaps, sp)
    ensures Covers(PiecesOf(text, entities, st), sp)
  {
    PiecesDescend(text, entities, st);
    var pieces := PiecesOf(text, entities, st);
    if Touches(entities, sp.start, sp.end) {
      var i :| 0 <= i < |entities| && entities[i].start < sp.end && sp.start < entities[i].end;
      var p := EntityPieces(entities)[i];
      assert p in EntityPieces(entities) && p in pieces;
    } else {
      var p :| p in Shield(text, entities, st).swaps && p.start < sp.end && sp.start < p.end;
      assert p in pieces;
    }
  }

  /** One text of a request. */
  lemma {:induction false} AnonymizedRestores(cfg: Config, text: string, entities: seq<Entity>, st: MapState)
    requires Separate(text, entities) && Consistent(st) && AllReversible(cfg, entities)
    ensures var o := Anonymized(cfg, text, entities, st);
            o.text.Some? && Later(st, o.after) && Settled(o.after, o.text.value, text)
  {
    PiecesAreSound(cfg, text, entities, st);
    var sh := Shield(text, entities, st);
    ReplaceAllRestores(cfg, text, PiecesOf(text, entities, st), sh.after);
    ExtendsTransitive(st, sh.after, Anonymized(cfg, text, entities, st).after);
  }

  // ----- runs -----

  datatype Job = Job(text: string, entities: seq<Entity>)

  /** The texts of one request, one after the other, under one mapping. A request whose
      generator is exhausted is blocked. */
  datatype Ran = Ran(sent: seq<string>, blocked: bool, after: MapState)

  ghost predicate WellFormed(jobs: seq<Job>) {
    forall i :: 0 <= i < |jobs| ==> Separate(jobs[i].text, jobs[i].entities)
  }

  ghost function Run(cfg: Config, jobs: seq<Job>, st: MapState): Ran
    requires WellFormed(jobs)
    decreases |jobs|
  {
    if jobs == [] then Ran([], false, st)
    else
      var o := Anonymized(cfg, jobs[0].text, jobs[0].entities, st);
      if o.text.None? then Ran([], true, o.after)
      else
        var rest := Run(cfg, jobs[1..], o.after);
        Ran([o.text.value] + rest.sent, rest.blocked, rest.after)
  }

  ghost predicate JobsReversible(cfg: Config, jobs: seq<Job>) {
    forall i :: 0 <= i < |jobs| ==> AllReversible(cfg, jobs[i].entities)
  }

  ghost predicate AllSettled(st: MapState, sent: seq<string>, jobs: seq<Job>) {
    |sent| == |jobs| && forall i :: 0 <= i < |jobs| ==> Settled(st, sent[i], jobs[i].text)
  }

  /** Every sent text comes back whole, under the mapping as it is at the end of the request
      and under every later one. */
  lemma {:induction false} RunRestores(cfg: Config, jobs: seq<Job>, st: MapState)
    requires WellFormed(jobs) && JobsReversible(cfg, jobs) && Consistent(st)
    ensures var r := Run(cfg, jobs, st);
            !r.blocked && Later(st, r.after) && AllSettled(r.after, r.sent, jobs)
    decreases |jobs|
  {
    if jobs != [] {
      AnonymizedRestores(cfg, jobs[0].text, jobs[0].entities, st);
      var o := Anonymized(cfg, jobs[0].text, jobs[0].entities, st);
      RunRestores(cfg, jobs[1..], o.after);
      var rest := Run(cfg, jobs[1..], o.after);
      ExtendsTransitive(st, o.after, rest.after);
      SettledLater(o.after, rest.after, o.text.value, jobs[0].text);
      AllSettledPrepend(rest.after, o.text.value, rest.sent, jobs);
    }
  }

  lemma {:induction false} AllSettledPrepend(st: MapState, first: string, rest: seq<string>, jobs: seq<Job>)
    requires jobs != [] && Settled(st, first, jobs[0].text) && AllSettled(st, rest, jobs[1..])
    ensures AllSettled(st, [first] + rest, jobs)
  {
    var sent := [first] + rest;
    forall i | 0 <= i < |jobs| ensures Settled(st, sent[i], jobs[i].text) {
      if i > 0 { assert sent[i] == rest[i - 1] && jobs[i] == jobs[1..][i - 1]; }
    }
  }

  function LiteralsOfAll(texts: seq<string>): set<string> {
    if texts == [] then {} else LiteralsOf(texts[0]) + LiteralsOfAll(texts[1..])
  }

  /** The mapping of a request whose whole body was scanned for literals first. */
  function Fresh(body: seq<string>): MapState {
    EMPTY.WithReserved(LiteralsOfAll(body))
  }

  lemma {:induction false} LiteralsOfAllHolds(texts: seq<string>, i: nat)
    requires i < |texts|
    ensures LiteralsOf(texts[i]) <= LiteralsOfAll(texts)
    decreases |texts|
  {
    if i > 0 { LiteralsOfAllHolds(texts[1..], i - 1); }
  }

  lemma {:induction false} LiteralsOfAllAre(texts: seq<string>, s: string)
    requires s in LiteralsOfAll(texts)
    ensures exists i :: 0 <= i < |texts| && s in LiteralsOf(texts[i])
    decreases |texts|
  {
    if s !in LiteralsOf(texts[0]) {
      LiteralsOfAllAre(texts[1..], s);
      var i :| 0 <= i < |texts[1..]| && s in LiteralsOf(texts[1..][i]);
      assert s in LiteralsOf(texts[i + 1]);
    }
  }

  /** What a request reserves, walked as it lies on the heap, is what all its texts hold. */
  lemma {:induction false} ReservedIsFresh(heap: Containers.Heap, value: Containers.Value, body: seq<string>)
    requires forall text :: text in body <==> Containers.Reaches(heap, value, Containers.Text(text))
    ensures forall s :: s in Fresh(body).reserved <==> Containers.Found(heap, Literal, value, s)
  {
    forall s ensures s in LiteralsOfAll(body) <==> Containers.Found(heap, Literal, value, s) {
      if s in LiteralsOfAll(body) {
        LiteralsOfAllAre(body, s);
        var i :| 0 <= i < |body| && s in LiteralsOf(body[i]);
        assert Containers.Reaches(heap, value, Containers.Text(body[i])) && s in Literal(body[i]);
      }
      if Containers.Found(heap, Literal, value, s) {
        var text :| Containers.Reaches(heap, value, Containers.Text(text)) && s in Literal(text);
        var i :| 0 <= i < |body| && body[i] == text;
        LiteralsOfAllHolds(body, i);
      }
    }
  }

  /**
   The round trip of a request. `body` is every string the request holds; `jobs` are the
   texts scrubbed, with any disjoint detections in them. Every sent text is restored to
   the text it stands for, in one piece or streamed in any chunks, and every string that is
   relayed as it is stays as it is.
   */
  lemma {:induction false} RequestRoundTrip(cfg: Config, body: seq<string>, jobs: seq<Job>)
    requires WellFormed(jobs) && JobsReversible(cfg, jobs)
    ensures var r := Run(cfg, jobs, Fresh(body));
            && !r.blocked && |r.sent| == |jobs|
            && (forall i :: 0 <= i < |jobs| ==> Restore(r.after.toOriginal, r.sent[i]) == jobs[i].text)
            && (forall i, chunks :: 0 <= i < |jobs| && Concat(chunks) == r.sent[i] ==>
                                      Streamed(r.after.toOriginal, chunks) == jobs[i].text)
            && (forall i :: 0 <= i < |body| ==> Restore(r.after.toOriginal, body[i]) == body[i])
  {
    RunRestores(cfg, jobs, Fresh(body));
    var r := Run(cfg, jobs, Fresh(body));
    ConsistentBrackets(r.after);
    BracketingSuffices(r.after.toOriginal);
    assert Later(r.after, r.after);
    forall i | 0 <= i < |jobs| ensures Restore(r.after.toOriginal, r.sent[i]) == jobs[i].text {
      assert Settled(r.after, r.sent[i], jobs[i].text);
    }
    forall i, chunks | 0 <= i < |jobs| && Concat(chunks) == r.sent[i]
      ensures Streamed(r.after.toOriginal, chunks) == jobs[i].text
    {
      StreamEqualsBatch(r.after.toOriginal, chunks);
      assert Restore(r.after.toOriginal, r.sent[i]) == jobs[i].text;
    }
    forall i | 0 <= i < |body| ensures Restore(r.after.toOriginal, body[i]) == body[i] {
      LiteralsOfAllHolds(body, i);
      ReservedIsFixed(body[i], Fresh(body), r.after);
    }
  }

  // ----- the shape of the type is what the round trip needs -----

  predicate AllOfType(entities: seq<Entity>, t: string) {
    forall i :: 0 <= i < |entities| ==> entities[i].entityType == t
  }

  /** Every text with detections of type `t` alone comes back whole. */
  ghost predicate RoundTrips(cfg: Config, t: string) {
    forall text, entities ::
      Separate(text, entities) && AllOfType(entities, t) ==>
        var o := Anonymized(cfg, text, entities, EMPTY);
        o.text.Some? && Restore(o.after.toOriginal, o.text.value) == text
  }

  lemma {:induction false} NothingToSwap(text: string, entities: seq<Entity>, found: seq<Span>, st: MapState)
    requires AllLiterals(text, found) && st.toOriginal == map[]
    ensures SwapLiterals(text, entities, found, st) == Shielded([], st)
    decreases |found|
  {
    if found != [] {
      assert found[0] in found;
      NothingToSwap(text, entities, found[1..], st);
    }
  }

  /** With nothing issued yet, one detection at the end of the text is numbered 1. */
  lemma {:induction false} FirstPlaceholder(cfg: Config, t: string, start: string)
    requires cfg.MethodFor(t) == Placeholder && !TypeShaped(t)
    ensures var n := |start|;
            var entities := [Entity(t, "x", n, n + 1, 1.0, "")];
            Separate(start + "x", entities) &&
            var o := Anonymized(cfg, start + "x", entities, EMPTY);
            o.text == Some(start + Numbered(t, 1)) && o.after.toOriginal == map[Numbered(t, 1) := "x"]
  {
    var n := |start|;
    var text := start + "x";
    var entities := [Entity(t, "x", n, n + 1, 1.0, "")];
    var st := EMPTY.WithReserved(Reservable(text, EMPTY));
    var p := Piece(n, n + 1, Detected(t));
    assert EntityPieces(entities) == [p];
    OnePiece(text, entities, p);
    FirstIsFree(cfg, t, text, st);
    ReplaceOne(cfg, start, p, st);
  }

  lemma {:induction false} OnePiece(text: string, entities: seq<Entity>, p: Piece)
    requires Separate(text, entities) && EntityPieces(entities) == [p]
    ensures PiecesOf(text, entities, EMPTY) == [p]
    ensures Shield(text, entities, EMPTY).after == EMPTY.WithReserved(Reservable(text, EMPTY))
  {
    var st := EMPTY.WithReserved(Reservable(text, EMPTY));
    FindLiteralsExact(text, 0);
    NothingToSwap(text, entities, FindLiterals(text), st);
    assert Shield(text, entities, EMPTY) == Shielded([], st);
    assert [p] + [] == [p];
    SortOne(p);
  }

  lemma {:induction false} SortOne(p: Piece)
    ensures SortDescending([p]) == [p]
  {
    assert [p][1..] == [];
  }

  lemma {:induction false} FirstIsFree(cfg: Config, t: string, text: string, st: MapState)
    requires cfg.MethodFor(t) == Placeholder && !TypeShaped(t)
    requires st == EMPTY.WithReserved(Reservable(text, EMPTY))
    ensures Issue(cfg, "x", Detected(t), st) == Outcome(Some(Numbered(t, 1)), st.Added("x", Numbered(t, 1), t))
  {
    NumberedIsLiteral(t, 1);
    assert !st.Taken(Numbered(t, 1));
  }

  lemma {:induction false} ReplaceOne(cfg: Config, start: string, p: Piece, st: MapState)
    requires p.start == |start| && p.end == |start| + 1
    requires Issue(cfg, "x", p.item, st).text.Some?
    ensures Descending([p], |start + "x"|)
    ensures var o := Issue(cfg, "x", p.item, st);
            ReplaceAll(cfg, start + "x", [p], st) == Outcome(Some(start + o.text.value), o.after)
  {
    var text := start + "x";
    assert [p][1..] == [] && text[..p.start] == start && text[p.start..p.end] == "x" && text[p.end..] == "";
    var fake := Issue(cfg, "x", p.item, st).text.value;
    assert fake + "" == fake;
  }

  /** A type no scanner recognises: its first placeholder can already stand in the text. */
  lemma {:induction false} UnshapedTypeFails(cfg: Config, t: string)
    requires cfg.MethodFor(t) == Placeholder && !TypeShaped(t)
    ensures !RoundTrips(cfg, t)
  {
    var fake := Numbered(t, 1);
    var n := |fake|;
    var entities := [Entity(t, "x", n, n + 1, 1.0, "")];
    FirstPlaceholder(cfg, t, fake);
    OnlyKeyTwice(map[fake := "x"], fake);
    assert AllOfType(entities, t);
    assert |fake + "x"| > |"x" + "x"|;
  }

  lemma {:induction false} OnlyKeyTwice(m: Fakes, k: string)
    requires k != "" && m.Keys == {k}
    ensures Restore(m, k + k) == m[k] + m[k]
  {
    var s := k + k;
    assert s[..|k|] == k && s[|k|..] == k;
    LongestIs(m, s, |k|);
    RestoreFake(m, k);
  }

  /** The round trip holds for a type exactly when its name has 1 to 100 characters and no bracket. */
  lemma {:induction false} RoundTripExact(cfg: Config, t: string)
    requires cfg.MethodFor(t) == Placeholder
    ensures RoundTrips(cfg, t) <==> TypeShaped(t)
  {
    if TypeShaped(t) {
      forall text, entities | Separate(text, entities) && AllOfType(entities, t)
        ensures var o := Anonymized(cfg, text, entities, EMPTY);
                o.text.Some? && Restore(o.after.toOriginal, o.text.value) == text
      {
        AnonymizedRestores(cfg, text, entities, EMPTY);
        var o := Anonymized(cfg, text, entities, EMPTY);
        assert Later(o.after, o.after);
      }
    } else {
      UnshapedTypeFails(cfg, t);
    }
  }
}
