/**
 privaite/pii/anonymizer.py: detected values and late placeholder-shaped literals are
 swapped for fakes in one right-to-left pass, numbering through the shared mapping.
 */
module Anonymization {
  import opened Wrappers
  import opened Literals
  import opened Entities
  import opened Mapping

  /** `Placeholder` stands for "placeholder" and for any method name the code does not know. */
  datatype Method = Mask | Redact | FakeReplacement | Placeholder

  datatype Override = Override(means: Method, maskingChar: string)

  /** `generate` is the fake generator, variant 0 being its first proposal. */
  datatype Config = Config(
    means: Method,
    overrides: map<string, Override>,
    generate: (string, string, nat) -> string)
  {
    function MethodFor(entityType: string): Method {
      if entityType in overrides then overrides[entityType].means else means
    }

    function MaskingChar(entityType: string): string {
      if entityType in overrides then overrides[entityType].maskingChar else "*"
    }

    predicate Irreversible(entityType: string) {
      MethodFor(entityType) in {Mask, Redact}
    }
  }

  const MAX_RETRIES := 10

  function Repeat(s: string, n: nat): string {
    if n == 0 then "" else s + Repeat(s, n - 1)
  }

  /** What stands at a span of the text once it is swapped. */
  datatype Item = Detected(entityType: string) | Swapped(fake: string)

  datatype Piece = Piece(start: nat, end: nat, item: Item)

  /** The detections of a text as its callers deliver them: non-empty, in bounds, disjoint. */
  predicate Separate(text: string, entities: seq<Entity>) {
    && (forall i :: 0 <= i < |entities| ==> 0 <= entities[i].start < entities[i].end <= |text|)
    && (forall i, j :: 0 <= i < j < |entities| ==>
                         entities[i].end <= entities[j].start || entities[j].end <= entities[i].start)
  }

  /** Offsets as any caller may deliver them: not negative. */
  predicate Offsets(entities: seq<Entity>) {
    forall i :: 0 <= i < |entities| ==> 0 <= entities[i].start && 0 <= entities[i].end
  }

  predicate Touches(entities: seq<Entity>, start: int, end: int) {
    exists i :: 0 <= i < |entities| && entities[i].start < end && start < entities[i].end
  }

  // ----- fakes -----

  predicate Unusable(fake: string, original: string, st: MapState) {
    fake == original || fake in st.toOriginal
  }

  /** The first usable proposal among variants `v` .. MAX_RETRIES. */
  function FirstUsable(cfg: Config, entityType: string, original: string, st: MapState, v: nat): (r: Option<string>)
    requires v <= MAX_RETRIES
    ensures r.Some? ==> !Unusable(r.value, original, st)
    ensures r.Some? ==> exists n: nat :: v <= n <= MAX_RETRIES && r.value == cfg.generate(entityType, original, n)
    decreases MAX_RETRIES - v
  {
    var fake := cfg.generate(entityType, original, v);
    if !Unusable(fake, original, st) then Some(fake)
    else if v == MAX_RETRIES then None
    else FirstUsable(cfg, entityType, original, st, v + 1)
  }

  ghost function MakeFake(cfg: Config, entityType: string, original: string, st: MapState): Option<string> {
    match cfg.MethodFor(entityType)
    case Mask => Some(Repeat(cfg.MaskingChar(entityType), |original|))
    case Redact => Some("[" + entityType + "]")
    case FakeReplacement => FirstUsable(cfg, entityType, original, st, 0)
    case Placeholder => Some(st.FreshPlaceholder(entityType))
  }

  /** The result of swapping some text: None when the generator is exhausted, and the mapping after it. */
  datatype Outcome = Outcome(text: Option<string>, after: MapState) {
    /** The same with an untouched tail behind it. */
    function Then(tail: string): Outcome {
      Outcome(if text.Some? then Some(text.value + tail) else None, after)
    }
  }

  /** The fake one span is swapped for. */
  ghost function Issue(cfg: Config, original: string, item: Item, st: MapState): Outcome {
    match item
    case Swapped(fake) => Outcome(Some(fake), st)
    case Detected(entityType) =>
      if cfg.Irreversible(entityType) then
        Outcome(MakeFake(cfg, entityType, original, st), st.Noted(original, entityType))
      else if original in st.toFake && st.toFake[original] != "" then
        Outcome(Some(st.toFake[original]), st)
      else
        var fake := MakeFake(cfg, entityType, original, st);
        if fake.None? then Outcome(None, st)
        else Outcome(fake, st.Added(original, fake.value, entityType))
  }

  // ----- the pass -----

  /** Right to left, apart, and inside the first `n` characters. */
  predicate Descending(pieces: seq<Piece>, n: nat) {
    pieces == [] || (pieces[0].start <= pieces[0].end <= n && Descending(pieces[1..], pieces[0].start))
  }

  /** The swapped text: what the pass makes of the part before the last span, that span's
      fake, and the untouched rest. */
  ghost function ReplaceAll(cfg: Config, text: string, pieces: seq<Piece>, st: MapState): Outcome
    requires Descending(pieces, |text|)
    decreases |pieces|
  {
    if pieces == [] then Outcome(Some(text), st)
    else
      var p := pieces[0];
      var issued := Issue(cfg, text[p.start..p.end], p.item, st);
      if issued.text.None? then issued
      else
        ReplaceAll(cfg, text[..p.start], pieces[1..], issued.after)
          .Then(issued.text.value + text[p.end..])
  }

  /** Python's sorted(..., reverse=True) on the starts: stable. */
  function Insert(p: Piece, sorted: seq<Piece>): seq<Piece> {
    if sorted == [] || sorted[0].start <= p.start then [p] + sorted
    else [sorted[0]] + Insert(p, sorted[1..])
  }

  function SortDescending(pieces: seq<Piece>): seq<Piece> {
    if pieces == [] then [] else Insert(pieces[0], SortDescending(pieces[1..]))
  }

  predicate PiecesApart(p: Piece, q: Piece) { p.end <= q.start || q.end <= p.start }

  predicate AllApart(pieces: seq<Piece>) {
    forall i, j :: 0 <= i < j < |pieces| ==> PiecesApart(pieces[i], pieces[j])
  }

  predicate InText(pieces: seq<Piece>, n: nat) {
    forall i :: 0 <= i < |pieces| ==> pieces[i].start < pieces[i].end <= n
  }

  lemma {:induction false} InsertKeeps(p: Piece, sorted: seq<Piece>, n: nat)
    requires Descending(sorted, n) && InText(sorted, n)
    requires p.start < p.end <= n
    requires forall q :: q in sorted ==> PiecesApart(p, q)
    ensures var r := Insert(p, sorted);
            && Descending(r, n) && InText(r, n)
            && forall q :: q in r <==> q == p || q in sorted
    decreases |sorted|
  {
    if sorted == [] || sorted[0].start <= p.start {
      assert ([p] + sorted)[1..] == sorted;
      if sorted != [] { assert PiecesApart(p, sorted[0]); }
    } else {
      assert PiecesApart(p, sorted[0]);
      DescendingInText(sorted[1..], sorted[0].start, n);
      InsertKeeps(p, sorted[1..], sorted[0].start);
      var r := [sorted[0]] + Insert(p, sorted[1..]);
      assert r[1..] == Insert(p, sorted[1..]);
      assert sorted == [sorted[0]] + sorted[1..];
    }
  }

  lemma {:induction false} DescendingInText(pieces: seq<Piece>, n: nat, m: nat)
    requires Descending(pieces, n) && InText(pieces, m)
    ensures InText(pieces, n)
    decreases |pieces|
  {
    if pieces != [] {
      DescendingInText(pieces[1..], pieces[0].start, m);
      assert pieces == [pieces[0]] + pieces[1..];
    }
  }

  lemma {:induction false} SortDescends(pieces: seq<Piece>, n: nat)
    requires InText(pieces, n) && AllApart(pieces)
    ensures var r := SortDescending(pieces);
            && Descending(r, n) && InText(r, n)
            && forall q :: q in r <==> q in pieces
    decreases |pieces|
  {
    if pieces != [] {
      SortDescends(pieces[1..], n);
      assert pieces == [pieces[0]] + pieces[1..];
      InsertKeeps(pieces[0], SortDescending(pieces[1..]), n);
    }
  }

  // ----- shielding -----

  /** The swaps of late literals, in text order, and the mapping that has issued them. */
  datatype Shielded = Shielded(swaps: seq<Piece>, after: MapState) {
    /** The same, with more swaps on their left. */
    function After(left: seq<Piece>): Shielded { Shielded(left + swaps, after) }
  }

  lemma {:induction false} SwapsAfter(s: Shielded, b: seq<Piece>, a: seq<Piece>)
    ensures s.After(b).After(a) == s.After(a + b)
  {
    assert a + (b + s.swaps) == (a + b) + s.swaps;
  }

  /** One literal: left alone when nothing has taken it or a detection covers part of it. */
  ghost function SwapOne(text: string, entities: seq<Entity>, sp: Span, st: MapState): Shielded
    requires LiteralAt(text, sp)
  {
    var literal := text[sp.start..sp.end];
    if literal !in st.toOriginal || Touches(entities, sp.start, sp.end) then Shielded([], st)
    else if literal in st.toFake then
      Shielded([Piece(sp.start, sp.end, Swapped(st.toFake[literal]))], st)
    else
      var fake := st.FreshPlaceholder(LiteralType(literal));
      Shielded([Piece(sp.start, sp.end, Swapped(fake))], st.LiteralAdded(literal, fake))
  }

  ghost predicate AllLiterals(text: string, found: seq<Span>) {
    forall sp :: sp in found ==> LiteralAt(text, sp)
  }

  ghost function SwapLiterals(text: string, entities: seq<Entity>, found: seq<Span>, st: MapState): Shielded
    requires AllLiterals(text, found)
    decreases |found|
  {
    if found == [] then Shielded([], st)
    else
      var one := SwapOne(text, entities, found[0], st);
      SwapLiterals(text, entities, found[1..], one.after).After(one.swaps)
  }

  /** The literals of a text that nothing has taken yet. */
  function Reservable(text: string, st: MapState): set<string> {
    set s | s in LiteralsOf(text) && s !in st.toOriginal
  }

  ghost function Shield(text: string, entities: seq<Entity>, st: MapState): Shielded {
    FindLiteralsExact(text, 0);
    SwapLiterals(text, entities, FindLiterals(text), st.WithReserved(Reservable(text, st)))
  }

  function EntityPieces(entities: seq<Entity>): (pieces: seq<Piece>)
    requires Offsets(entities)
    ensures |pieces| == |entities|
    ensures forall i :: 0 <= i < |pieces| ==>
                          pieces[i] == Piece(entities[i].start, entities[i].end, Detected(entities[i].entityType))
  {
    seq(|entities|, i requires 0 <= i < |entities| =>
      Piece(entities[i].start, entities[i].end, Detected(entities[i].entityType)))
  }

  ghost function PiecesOf(text: string, entities: seq<Entity>, st: MapState): seq<Piece>
    requires Offsets(entities)
  {
    SortDescending(EntityPieces(entities) + Shield(text, entities, st).swaps)
  }

  predicate Ascending(found: seq<Span>) {
    found == [] || ((forall sp :: sp in found[1..] ==> found[0].end <= sp.start) && Ascending(found[1..]))
  }

  lemma {:induction false} FoundAscend(text: string, i: nat)
    requires i <= |text|
    ensures Ascending(FindLiterals(text, i))
    decreases |text| - i
  {
    if i < |text| {
      if text[i] != '<' {
        FoundAscend(text, i + 1);
      } else {
        var j := NextBracket(text, i + 1);
        if j < |text| && LiteralAt(text, Span(i, j + 1)) {
          FoundAscend(text, j + 1);
          var rest := FindLiterals(text, j + 1);
          assert ([Span(i, j + 1)] + rest)[1..] == rest;
        } else {
          FoundAscend(text, i + 1);
        }
      }
    }
  }

  ghost predicate IsSwap(entities: seq<Entity>, found: seq<Span>, p: Piece) {
    p.item.Swapped? && Span(p.start, p.end) in found && !Touches(entities, p.start, p.end)
  }

  /** The swaps are literals that no detection touches, apart from each other. */
  lemma {:induction false} SwapsAreLiterals(text: string, entities: seq<Entity>, found: seq<Span>, st: MapState)
    requires AllLiterals(text, found) && Ascending(found)
    ensures forall p :: p in SwapLiterals(text, entities, found, st).swaps ==> IsSwap(entities, found, p)
    ensures AllApart(SwapLiterals(text, entities, found, st).swaps)
    decreases |found|
  {
    if found != [] {
      var one := SwapOne(text, entities, found[0], st);
      SwapsAreLiterals(text, entities, found[1..], one.after);
      var rest := SwapLiterals(text, entities, found[1..], one.after).swaps;
      forall p | p in rest ensures found[0].end <= p.start {
        assert Span(p.start, p.end) in found[1..];
      }
      forall p | p in one.swaps + rest ensures IsSwap(entities, found, p) {
        assert p in rest ==> IsSwap(entities, found[1..], p);
      }
      AllApartPrepend(one.swaps, rest);
    }
  }

  lemma {:induction false} AllApartPrepend(a: seq<Piece>, b: seq<Piece>)
    requires AllApart(a) && AllApart(b)
    requires forall p, q :: p in a && q in b ==> PiecesApart(p, q)
    ensures AllApart(a + b)
  {
    forall i, j | 0 <= i < j < |a + b| ensures PiecesApart((a + b)[i], (a + b)[j]) {
      if i < |a| <= j {
        assert a[i] in a && b[j - |a|] in b;
      }
    }
  }

  lemma {:induction false} PiecesDescend(text: string, entities: seq<Entity>, st: MapState)
    requires Separate(text, entities)
    ensures var pieces := PiecesOf(text, entities, st);
            && Descending(pieces, |text|) && InText(pieces, |text|)
            && forall p :: p in pieces <==> p in EntityPieces(entities) || p in Shield(text, entities, st).swaps
    ensures forall p :: p in Shield(text, entities, st).swaps ==> IsSwap(entities, FindLiterals(text), p)
  {
    FindLiteralsExact(text, 0);
    FoundAscend(text, 0);
    var st1 := st.WithReserved(Reservable(text, st));
    SwapsAreLiterals(text, entities, FindLiterals(text), st1);
    PiecesDescendFrom(text, entities, Shield(text, entities, st).swaps);
  }

  lemma {:induction false} PiecesDescendFrom(text: string, entities: seq<Entity>, swaps: seq<Piece>)
    requires Separate(text, entities)
    requires AllApart(swaps)
    requires forall p :: p in swaps ==> IsSwap(entities, FindLiterals(text), p)
    ensures var pieces := SortDescending(EntityPieces(entities) + swaps);
            && Descending(pieces, |text|) && InText(pieces, |text|)
            && forall p :: p in pieces <==> p in EntityPieces(entities) || p in swaps
  {
    var a := EntityPieces(entities);
    forall p | p in swaps ensures p.start < p.end <= |text| {
      var sp := Span(p.start, p.end);
      assert sp in FindLiterals(text);
    }
    forall p, q | p in a && q in swaps ensures PiecesApart(p, q) {
      var i :| 0 <= i < |a| && a[i] == p;
      assert !Touches(entities, q.start, q.end);
      assert entities[i].start == p.start && entities[i].end == p.end;
    }
    AllApartPrepend(a, swaps);
    var all := a + swaps;
    forall i | 0 <= i < |all| ensures all[i].start < all[i].end <= |text| {
      assert i >= |a| ==> all[i] in swaps;
    }
    SortDescends(all, |text|);
  }

  // ----- the pass for any offsets -----

  function Upto(text: string, i: nat): string {
    if i < |text| then text[..i] else text
  }

  function From(text: string, i: nat): string {
    if i < |text| then text[i..] else ""
  }

  function Slice(text: string, i: nat, j: nat): string {
    if i < j then From(Upto(text, j), i) else ""
  }

  /** One span after the other on the text as it is by then. An offset past the end of that text
      means its end. */
  ghost function Spliced(cfg: Config, text: string, pieces: seq<Piece>, st: MapState): Outcome
    decreases |pieces|
  {
    if pieces == [] then Outcome(Some(text), st)
    else
      var p := pieces[0];
      var issued := Issue(cfg, Slice(text, p.start, p.end), p.item, st);
      if issued.text.None? then issued
      else Spliced(cfg, Upto(text, p.start) + issued.text.value + From(text, p.end), pieces[1..], issued.after)
  }

  /** Where the spans are apart and taken from right to left, every offset still points into the
      untouched part of the text. */
  lemma {:induction false} SplicedIsReplaced(cfg: Config, text: string, bound: nat, tail: string, pieces: seq<Piece>, st: MapState)
    requires bound <= |text| && Descending(pieces, bound)
    ensures Spliced(cfg, text[..bound] + tail, pieces, st) == ReplaceAll(cfg, text[..bound], pieces, st).Then(tail)
    decreases |pieces|
  {
    if pieces != [] {
      var p, current := pieces[0], text[..bound] + tail;
      SlicesAt(text, bound, tail, p.start, p.end);
      assert text[..bound][p.start..p.end] == text[p.start..p.end];
      var issued := Issue(cfg, text[p.start..p.end], p.item, st);
      if issued.text.Some? {
        var more := issued.text.value + text[p.end..bound] + tail;
        SplicedIsReplaced(cfg, text, p.start, more, pieces[1..], issued.after);
        ReplaceStep(cfg, text, bound, pieces, st, issued, tail);
        Joined(text[..p.start], issued.text.value, text[p.end..bound], tail);
      }
    }
  }

  lemma {:induction false} Joined(a: string, b: string, c: string, d: string)
    ensures a + b + (c + d) == a + (b + c + d)
  {
  }

  /** What the offsets of a span mean while the text after `bound` is already swapped. */
  lemma {:induction false} SlicesAt(text: string, bound: nat, tail: string, start: nat, end: nat)
    requires start <= end <= bound <= |text|
    ensures var current := text[..bound] + tail;
            && Upto(current, start) == text[..start] && Slice(current, start, end) == text[start..end]
            && From(current, end) == text[end..bound] + tail
  {
    var current := text[..bound] + tail;
    assert end < |current| ==> current[end..] == text[end..bound] + tail;
    assert start < |current| ==> current[..start] == text[..start];
    assert end < |current| ==> current[..end] == text[..end];
    assert start < end ==> text[..end][start..] == text[start..end];
  }

  /** What `anonymize` computes for one text, whatever the detections. */
  ghost function AnonymizedAny(cfg: Config, text: string, entities: seq<Entity>, st: MapState): Outcome
    requires Offsets(entities)
  {
    Spliced(cfg, text, PiecesOf(text, entities, st), Shield(text, entities, st).after)
  }

  /** The same for detections that are apart, and not empty. */
  ghost function Anonymized(cfg: Config, text: string, entities: seq<Entity>, st: MapState): Outcome
    requires Separate(text, entities)
  {
    PiecesDescend(text, entities, st);
    ReplaceAll(cfg, text, PiecesOf(text, entities, st), Shield(text, entities, st).after)
  }

  lemma {:induction false} SeparateIsReplaced(cfg: Config, text: string, entities: seq<Entity>, st: MapState)
    requires Separate(text, entities)
    ensures AnonymizedAny(cfg, text, entities, st) == Anonymized(cfg, text, entities, st)
  {
    PiecesDescend(text, entities, st);
    var pieces, after := PiecesOf(text, entities, st), Shield(text, entities, st).after;
    SplicedIsReplaced(cfg, text, |text|, "", pieces, after);
    assert text[..|text|] == text && text + "" == text;
    ThenNothing(ReplaceAll(cfg, text, pieces, after));
  }

  // ----- the code -----

  lemma {:induction false} LiteralHoldsItself(literal: string)
    requires IsLiteral(literal)
    ensures LiteralsOf(literal) == {literal}
  {
    var whole := Span(0, |literal|);
    assert literal[0..|literal|] == literal;
    assert LiteralAt(literal, whole);
    forall sp: Span | LiteralAt(literal, sp) ensures literal[sp.start..sp.end] == literal {
      LiteralsApart(literal, sp, whole);
    }
  }

  /** The literals among the first spans found. */
  ghost function LiteralsAmong(text: string, found: seq<Span>, st: MapState): set<string>
    requires AllLiterals(text, found)
  {
    set sp | sp in found && text[sp.start..sp.end] !in st.toOriginal :: text[sp.start..sp.end]
  }

  lemma {:induction false} AmongAll(text: string, st: MapState)
    requires AllLiterals(text, FindLiterals(text))
    ensures LiteralsAmong(text, FindLiterals(text), st) == Reservable(text, st)
  {
    FindLiteralsExact(text, 0);
    forall s | s in Reservable(text, st) ensures s in LiteralsAmong(text, FindLiterals(text), st) {
      var sp: Span :| LiteralAt(text, sp) && s == text[sp.start..sp.end];
      assert sp in FindLiterals(text);
    }
  }

  lemma {:induction false} AmongNext(text: string, found: seq<Span>, i: nat, st: MapState)
    requires AllLiterals(text, found) && i < |found| && LiteralAt(text, found[i])
    ensures AllLiterals(text, found[..i]) && AllLiterals(text, found[..i + 1])
    ensures var literal := text[found[i].start..found[i].end];
            LiteralsAmong(text, found[..i + 1], st) ==
            LiteralsAmong(text, found[..i], st) + if literal in st.toOriginal then {} else {literal}
  {
    assert found[..i + 1] == found[..i] + [found[i]];
  }

  class Anonymizer {
    const config: Config

    constructor (config: Config)
      ensures this.config == config
    {
      this.config := config;
    }

    method MakePlaceholder(entityType: string, original: string, mapping: PIIMapping)
      returns (r: Option<string>)
      ensures r == MakeFake(config, entityType, original, mapping.State())
    {
      var means := config.MethodFor(entityType);
      if means == Mask {
        return Some(Repeat(config.MaskingChar(entityType), |original|));
      }
      if means == Redact {
        return Some("[" + entityType + "]");
      }
      if means == FakeReplacement {
        var fake := config.generate(entityType, original, 0);
        var retries := 0;
        while (fake == original || mapping.GetOriginal(fake) != None) && retries < MAX_RETRIES
          invariant 0 <= retries <= MAX_RETRIES
          invariant fake == config.generate(entityType, original, retries)
          invariant FirstUsable(config, entityType, original, mapping.State(), 0)
                 == FirstUsable(config, entityType, original, mapping.State(), retries)
          decreases MAX_RETRIES - retries
        {
          retries := retries + 1;
          fake := config.generate(entityType, original, retries);
        }
        if fake == original || mapping.GetOriginal(fake) != None {
          return None;
        }
        return Some(fake);
      }
      var placeholder := mapping.NumberedPlaceholder(entityType);
      return Some(placeholder);
    }

    method ReserveLiterals(text: string, found: seq<Span>, mapping: PIIMapping)
      requires found == FindLiterals(text) && AllLiterals(text, found)
      modifies mapping
      ensures mapping.State() == old(mapping.State()).WithReserved(Reservable(text, old(mapping.State())))
    {
      ghost var st := mapping.State();
      for i := 0 to |found|
        invariant AllLiterals(text, found[..i])
        invariant mapping.State() == st.WithReserved(LiteralsAmong(text, found[..i], st))
      {
        var literal := text[found[i].start..found[i].end];
        assert found[i] in found;
        AmongNext(text, found, i, st);
        if mapping.GetOriginal(literal) == None {
          LiteralHoldsItself(literal);
          mapping.ReserveText(literal);
        }
      }
      assert found[..|found|] == found;
      AmongAll(text, st);
    }

    method SwapLiteral(text: string, entities: seq<Entity>, sp: Span, mapping: PIIMapping)
      returns (swap: seq<Piece>)
      requires LiteralAt(text, sp)
      modifies mapping
      ensures Shielded(swap, mapping.State()) == SwapOne(text, entities, sp, old(mapping.State()))
    {
      var literal := text[sp.start..sp.end];
      if mapping.GetOriginal(literal) == None || Touches(entities, sp.start, sp.end) {
        return [];
      }
      var fake := mapping.GetFake(literal);
      if fake != None {
        return [Piece(sp.start, sp.end, Swapped(fake.value))];
      }
      var fresh' := mapping.NumberedPlaceholder(LiteralType(literal));
      mapping.AddLiteral(literal, fresh');
      return [Piece(sp.start, sp.end, Swapped(fresh'))];
    }

    method ShieldLiterals(text: string, entities: seq<Entity>, mapping: PIIMapping) returns (swaps: seq<Piece>)
      modifies mapping
      ensures Shielded(swaps, mapping.State()) == Shield(text, entities, old(mapping.State()))
    {
      FindLiteralsExact(text, 0);
      var found := FindLiterals(text);
      ReserveLiterals(text, found, mapping);
      ghost var all := SwapLiterals(text, entities, found, mapping.State());
      swaps := [];
      for i := 0 to |found|
        invariant all == SwapLiterals(text, entities, found[i..], mapping.State()).After(swaps)
      {
        assert found[i] in found && found[i..][0] == found[i] && found[i..][1..] == found[i + 1..];
        ghost var one := SwapOne(text, entities, found[i], mapping.State());
        SwapsAfter(SwapLiterals(text, entities, found[i + 1..], one.after), one.swaps, swaps);
        var swap := SwapLiteral(text, entities, found[i], mapping);
        swaps := swaps + swap;
      }
    }

    /** One span: the fake it is swapped for. */
    method IssueFake(original: string, item: Item, mapping: PIIMapping) returns (fake: Option<string>)
      modifies mapping
      ensures Outcome(fake, mapping.State()) == Issue(config, original, item, old(mapping.State()))
    {
      if item.Swapped? {
        return Some(item.fake);
      }
      if config.Irreversible(item.entityType) {
        fake := MakePlaceholder(item.entityType, original, mapping);
        mapping.Note(original, item.entityType);
        return;
      }
      var existing := mapping.GetFake(original);
      if existing != None && existing.value != "" {
        return existing;
      }
      fake := MakePlaceholder(item.entityType, original, mapping);
      if fake != None {
        mapping.Add(original, fake.value, item.entityType);
      }
    }

    /** The swapped text, or None when the fake generator is exhausted. */
    method Anonymize(text: string, entities: seq<Entity>, mapping: PIIMapping) returns (r: Option<string>)
      requires Offsets(entities)
      modifies mapping
      ensures Outcome(r, mapping.State()) == AnonymizedAny(config, text, entities, old(mapping.State()))
      ensures Separate(text, entities) ==>
                Outcome(r, mapping.State()) == Anonymized(config, text, entities, old(mapping.State()))
    {
      if Separate(text, entities) {
        SeparateIsReplaced(config, text, entities, mapping.State());
      }
      var swaps := ShieldLiterals(text, entities, mapping);
      r := ReplacePieces(text, SortDescending(EntityPieces(entities) + swaps), mapping);
    }

    method ReplacePieces(text: string, pieces: seq<Piece>, mapping: PIIMapping) returns (r: Option<string>)
      modifies mapping
      ensures Outcome(r, mapping.State()) == Spliced(config, text, pieces, old(mapping.State()))
    {
      ghost var all := Spliced(config, text, pieces, mapping.State());
      var current := text;
      for i := 0 to |pieces|
        invariant all == Spliced(config, current, pieces[i..], mapping.State())
      {
        var p := pieces[i];
        assert pieces[i..][0] == p && pieces[i..][1..] == pieces[i + 1..];
        var fake := IssueFake(Slice(current, p.start, p.end), p.item, mapping);
        if fake == None {
          return None;
        }
        current := Upto(current, p.start) + fake.value + From(current, p.end);
      }
      return Some(current);
    }
  }

  lemma {:induction false} ReplaceStep(cfg: Config, text: string, bound: nat, pieces: seq<Piece>, st: MapState, issued: Outcome, tail: string)
    requires bound <= |text| && pieces != [] && Descending(pieces, bound)
    requires issued == Issue(cfg, text[pieces[0].start..pieces[0].end], pieces[0].item, st) && issued.text.Some?
    ensures ReplaceAll(cfg, text[..bound], pieces, st).Then(tail)
         == ReplaceAll(cfg, text[..pieces[0].start], pieces[1..], issued.after)
              .Then(issued.text.value + text[pieces[0].end..bound] + tail)
  {
    var p := pieces[0];
    assert text[..bound][p.start..p.end] == text[p.start..p.end];
    assert text[..bound][..p.start] == text[..p.start];
    assert text[..bound][p.end..] == text[p.end..bound];
    ThenThen(ReplaceAll(cfg, text[..p.start], pieces[1..], issued.after), issued.text.value + text[p.end..bound], tail);
  }

  lemma {:induction false} ThenNothing(o: Outcome)
    ensures o.Then("") == o
  {
    if o.text.Some? { assert o.text.value + "" == o.text.value; }
  }

  lemma {:induction false} ThenThen(o: Outcome, a: string, b: string)
    ensures o.Then(a).Then(b) == o.Then(a + b)
  {
    if o.text.Some? { assert o.text.value + a + b == o.text.value + (a + b); }
  }
}
