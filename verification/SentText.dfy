/**
 privaite/pii/anonymizer.py: what stands in the text that is sent, span by span.
 */
module SentText {
  import opened Wrappers
  import opened Literals
  import opened Entities
  import opened Mapping
  import opened Anonymization
  import opened RoundTrip

  // ----- the fake of one span -----

  /** The configuration gives a type this method, by an override of its own or by default. */
  ghost predicate Chosen(cfg: Config, t: string, means: Method, maskingChar: string) {
    if t in cfg.overrides then cfg.overrides[t] == Override(means, maskingChar) else cfg.means == means && maskingChar == "*"
  }

  /** The mask written over and over, once for every character of the value. */
  ghost predicate Covers(mask: string, original: string, s: string) {
    |s| == |mask| * |original| && forall i :: 0 <= i < |s| ==> s[i] == mask[i % |mask|]
  }

  lemma {:induction false} RepeatCovers(mask: string, n: nat)
    ensures |Repeat(mask, n)| == |mask| * n
    ensures forall i :: 0 <= i < |Repeat(mask, n)| ==> Repeat(mask, n)[i] == mask[i % |mask|]
    decreases n
  {
    if n > 0 {
      RepeatCovers(mask, n - 1);
      assert |mask| * n == |mask| + |mask| * (n - 1);
      forall i | 0 <= i < |Repeat(mask, n)| ensures Repeat(mask, n)[i] == mask[i % |mask|] {
        if i < |mask| { Small(i, |mask|); } else { Wraps(i, |mask|); }
      }
    }
  }

  lemma {:induction false} Small(i: nat, n: nat)
    requires i < n
    ensures i % n == i
  {
  }

  lemma {:induction false} Wraps(i: nat, n: nat)
    requires 0 < n <= i
    ensures i % n == (i - n) % n
  {
    var q, r := (i - n) / n, (i - n) % n;
    assert i == (q + 1) * n + r;
    DivMod(i, n, q + 1, r);
  }

  lemma {:induction false} DivMod(i: nat, n: nat, q: nat, r: nat)
    requires 0 < n && r < n && i == q * n + r
    ensures i % n == r
  {
    var d := i / n - q;
    assert i == (i / n) * n + i % n;
    assert d * n == r - i % n;
    if d >= 1 { Product(d, n); } else if d <= -1 { Product(-d, n); }
  }

  lemma {:induction false} Product(a: int, b: int)
    requires a >= 1 && b > 0
    ensures a * b >= b
  {
  }

  /** What stands for a detected value: its mask, the name of its type, or the fake the mapping has
      for it. */
  ghost predicate StandsFor(cfg: Config, t: string, original: string, fake: string, after: MapState) {
    && (forall c :: Chosen(cfg, t, Mask, c) ==> Covers(c, original, fake))
    && (forall c :: Chosen(cfg, t, Redact, c) ==> fake == "[" + t + "]")
    && (forall c :: Chosen(cfg, t, Placeholder, c) || Chosen(cfg, t, FakeReplacement, c) ==>
          original in after.toFake && (fake == "" || after.toFake[original] == fake))
  }

  ghost predicate Stands(cfg: Config, item: Item, original: string, fake: string, after: MapState) {
    match item
    case Swapped(f) => fake == f
    case Detected(t) => StandsFor(cfg, t, original, fake, after)
  }

  /** Every detected span is given what stands for it. */
  lemma {:induction false} IssuedStands(cfg: Config, original: string, item: Item, st: MapState)
    requires Issue(cfg, original, item, st).text.Some?
    ensures var o := Issue(cfg, original, item, st); Stands(cfg, item, original, o.text.value, o.after)
  {
    if item.Detected? {
      RepeatCovers(cfg.MaskingChar(item.entityType), |original|);
    }
  }

  /** A mask or a type name is always there to give, and the maps are left alone. */
  lemma {:induction false} MaskingNeverFails(cfg: Config, original: string, t: string, c: string, st: MapState)
    requires Chosen(cfg, t, Mask, c) || Chosen(cfg, t, Redact, c)
    ensures var o := Issue(cfg, original, Detected(t), st);
            o.text.Some? && o.after.toFake == st.toFake && o.after.toOriginal == st.toOriginal
  {
  }

  /** A value that has no fake yet gets the next free number of its type, or a proposal that is
      neither the value nor taken. */
  lemma {:induction false} NewFakeIs(cfg: Config, original: string, t: string, c: string, st: MapState)
    requires original !in st.toFake
    ensures var o := Issue(cfg, original, Detected(t), st);
            && (Chosen(cfg, t, Placeholder, c) ==>
                  exists n: nat :: n > st.Count(t) && o.text == Some("<" + t + "_" + Decimal(n) + ">") && !st.Taken(o.text.value))
            && (Chosen(cfg, t, FakeReplacement, c) && o.text.Some? ==>
                  o.text.value != original && o.text.value !in st.toOriginal
                  && exists n: nat :: n <= MAX_RETRIES && o.text.value == cfg.generate(t, original, n))
  {
    if Chosen(cfg, t, Placeholder, c) {
      var n := st.FreshFrom(t, st.Count(t) + 1);
      assert Numbered(t, n) == "<" + t + "_" + Decimal(n) + ">";
    }
  }

  /** A value that has a fake keeps it. */
  lemma {:induction false} OldFakeStays(cfg: Config, original: string, t: string, c: string, st: MapState)
    requires Chosen(cfg, t, Placeholder, c) || Chosen(cfg, t, FakeReplacement, c)
    requires original in st.toFake && st.toFake[original] != ""
    ensures Issue(cfg, original, Detected(t), st) == Outcome(Some(st.toFake[original]), st)
  {
  }

  // ----- the fakes stay -----

  /** No fake that is there is changed. */
  ghost predicate Keeps(st: MapState, after: MapState) {
    forall v :: v in st.toFake ==> v in after.toFake && (st.toFake[v] == "" || after.toFake[v] == st.toFake[v])
  }

  lemma {:induction false} IssueKeepsFakes(cfg: Config, original: string, item: Item, st: MapState)
    ensures Keeps(st, Issue(cfg, original, item, st).after)
  {
  }

  lemma {:induction false} ReplaceKeepsFakes(cfg: Config, text: string, pieces: seq<Piece>, st: MapState)
    requires Descending(pieces, |text|)
    ensures Keeps(st, ReplaceAll(cfg, text, pieces, st).after)
    decreases |pieces|
  {
    if pieces != [] {
      var p := pieces[0];
      var issued := Issue(cfg, text[p.start..p.end], p.item, st);
      IssueKeepsFakes(cfg, text[p.start..p.end], p.item, st);
      if issued.text.Some? { ReplaceKeepsFakes(cfg, text[..p.start], pieces[1..], issued.after); }
    }
  }

  lemma {:induction false} StandsLater(cfg: Config, item: Item, original: string, fake: string, st: MapState, after: MapState)
    requires Stands(cfg, item, original, fake, st) && Keeps(st, after)
    ensures Stands(cfg, item, original, fake, after)
  {
  }

  // ----- one text -----

  /** A text with a string in the place of each span, the last span first. */
  ghost function Layout(text: string, bound: nat, pieces: seq<Piece>, fakes: seq<string>): string
    requires bound <= |text| && Descending(pieces, bound) && |fakes| == |pieces|
    decreases |pieces|
  {
    if pieces == [] then text[..bound]
    else Layout(text, pieces[0].start, pieces[1..], fakes[1..]) + fakes[0] + text[pieces[0].end..bound]
  }

  ghost predicate AllStand(cfg: Config, text: string, pieces: seq<Piece>, fakes: seq<string>, after: MapState) {
    |fakes| == |pieces| && forall k :: 0 <= k < |pieces| ==> StandsAt(cfg, text, pieces[k], fakes[k], after)
  }

  ghost predicate StandsAt(cfg: Config, text: string, p: Piece, fake: string, after: MapState) {
    p.start <= p.end <= |text| && Stands(cfg, p.item, text[p.start..p.end], fake, after)
  }

  lemma {:induction false} AllStandPrepend(cfg: Config, text: string, pieces: seq<Piece>, fake: string, fakes: seq<string>, after: MapState)
    requires pieces != [] && StandsAt(cfg, text, pieces[0], fake, after)
    requires AllStand(cfg, text[..pieces[0].start], pieces[1..], fakes, after) && pieces[0].start <= |text|
    ensures AllStand(cfg, text, pieces, [fake] + fakes, after)
  {
    forall k | 0 <= k < |pieces| ensures StandsAt(cfg, text, pieces[k], ([fake] + fakes)[k], after) {
      if k > 0 {
        var left, p := text[..pieces[0].start], pieces[1..][k - 1];
        assert StandsAt(cfg, left, p, fakes[k - 1], after);
        assert left[p.start..p.end] == text[p.start..p.end];
      }
    }
  }

  /** The text of a part is laid out as in the whole. */
  lemma {:induction false} LayoutOfPart(text: string, n: nat, bound: nat, pieces: seq<Piece>, fakes: seq<string>)
    requires bound <= n <= |text| && Descending(pieces, bound) && |fakes| == |pieces|
    ensures Layout(text[..n], bound, pieces, fakes) == Layout(text, bound, pieces, fakes)
    decreases |pieces|
  {
    assert text[..n][..bound] == text[..bound];
    if pieces != [] {
      LayoutOfPart(text, n, pieces[0].start, pieces[1..], fakes[1..]);
      assert text[..n][pieces[0].end..bound] == text[pieces[0].end..bound];
    }
  }

  /** What is sent is the text with a string in the place of each span that stands for it. */
  lemma {:induction false} ReplacedIsLaidOut(cfg: Config, text: string, pieces: seq<Piece>, st: MapState) returns (fakes: seq<string>)
    requires Descending(pieces, |text|) && ReplaceAll(cfg, text, pieces, st).text.Some?
    ensures AllStand(cfg, text, pieces, fakes, ReplaceAll(cfg, text, pieces, st).after)
    ensures ReplaceAll(cfg, text, pieces, st).text.value == Layout(text, |text|, pieces, fakes)
    decreases |pieces|
  {
    if pieces == [] {
      fakes := [];
      assert text[..|text|] == text;
    } else {
      var p, left := pieces[0], text[..pieces[0].start];
      var issued := Issue(cfg, text[p.start..p.end], p.item, st);
      IssuedStands(cfg, text[p.start..p.end], p.item, st);
      ReplaceKeepsFakes(cfg, left, pieces[1..], issued.after);
      var rest := ReplacedIsLaidOut(cfg, left, pieces[1..], issued.after);
      var o := ReplaceAll(cfg, left, pieces[1..], issued.after);
      StandsLater(cfg, p.item, text[p.start..p.end], issued.text.value, issued.after, o.after);
      fakes := [issued.text.value] + rest;
      assert fakes[1..] == rest;
      AllStandPrepend(cfg, text, pieces, issued.text.value, rest, o.after);
      LayoutOfPart(text, p.start, p.start, pieces[1..], rest);
      LaidOutNext(o.text.value, issued.text.value, text[p.end..], text[p.end..|text|]);
    }
  }

  lemma {:induction false} LaidOutNext(left: string, fake: string, tail: string, tail': string)
    requires tail == tail'
    ensures left + (fake + tail) == left + fake + tail'
  {
  }

  /** What is sent for a text: a string in the place of each detection, and of each literal that is
      swapped, that stands for it, and the rest of the text as it is. */
  ghost predicate LaidOut(cfg: Config, text: string, entities: seq<Entity>, sent: string, after: MapState, pieces: seq<Piece>, fakes: seq<string>) {
    && Descending(pieces, |text|) && AllStand(cfg, text, pieces, fakes, after) && sent == Layout(text, |text|, pieces, fakes)
    && (forall e :: e in entities ==> IsPieceOf(e, pieces))
    && (forall p :: p in pieces ==> if p.item.Detected? then ComesFrom(p, entities) else StandsOnLiteral(text, entities, p))
  }

  ghost predicate IsPieceOf(e: Entity, pieces: seq<Piece>) {
    0 <= e.start <= e.end && Piece(e.start, e.end, Detected(e.entityType)) in pieces
  }

  ghost predicate ComesFrom(p: Piece, entities: seq<Entity>) {
    exists e :: e in entities && p == Piece(p.start, p.end, Detected(e.entityType)) && e.start == p.start && e.end == p.end
  }

  ghost predicate StandsOnLiteral(text: string, entities: seq<Entity>, p: Piece) {
    LiteralAt(text, Span(p.start, p.end)) && !Touches(entities, p.start, p.end)
  }

  lemma {:induction false} SentIsLaidOut(cfg: Config, text: string, entities: seq<Entity>, st: MapState) returns (pieces: seq<Piece>, fakes: seq<string>)
    requires Separate(text, entities) && Anonymized(cfg, text, entities, st).text.Some?
    ensures var o := Anonymized(cfg, text, entities, st); LaidOut(cfg, text, entities, o.text.value, o.after, pieces, fakes)
  {
    PiecesDescend(text, entities, st);
    pieces := PiecesOf(text, entities, st);
    fakes := ReplacedIsLaidOut(cfg, text, pieces, Shield(text, entities, st).after);
    PiecesComeFrom(text, entities, st);
  }

  lemma {:induction false} PiecesComeFrom(text: string, entities: seq<Entity>, st: MapState)
    requires Separate(text, entities)
    ensures forall e :: e in entities ==> IsPieceOf(e, PiecesOf(text, entities, st))
    ensures forall p :: p in PiecesOf(text, entities, st) ==>
              if p.item.Detected? then ComesFrom(p, entities) else StandsOnLiteral(text, entities, p)
  {
    PiecesDescend(text, entities, st);
    FindLiteralsExact(text, 0);
    var own := EntityPieces(entities);
    forall e | e in entities ensures IsPieceOf(e, PiecesOf(text, entities, st)) {
      var i :| 0 <= i < |entities| && entities[i] == e;
      assert own[i] in own;
    }
    forall p | p in PiecesOf(text, entities, st)
      ensures if p.item.Detected? then ComesFrom(p, entities) else StandsOnLiteral(text, entities, p)
    {
      if p in own {
        var i :| 0 <= i < |own| && own[i] == p;
        assert entities[i] in entities;
      } else {
        assert IsSwap(entities, FindLiterals(text), p);
      }
    }
  }

  // ----- runs -----

  /** Each sent text of a run is that of its job under the mapping at its turn, and the fakes it
      holds are those the run ends with. */
  lemma {:induction false} SentAtItsTurn(cfg: Config, jobs: seq<Job>, st: MapState, i: nat) returns (turn: MapState)
    requires WellFormed(jobs) && i < |Run(cfg, jobs, st).sent|
    ensures i < |jobs| && Anonymized(cfg, jobs[i].text, jobs[i].entities, turn).text == Some(Run(cfg, jobs, st).sent[i])
    ensures Keeps(Anonymized(cfg, jobs[i].text, jobs[i].entities, turn).after, Run(cfg, jobs, st).after)
    decreases |jobs|, 1
  {
    assert jobs != [];
    RunParts(cfg, jobs, st);
    var o := Anonymized(cfg, jobs[0].text, jobs[0].entities, st);
    if i == 0 {
      turn := st;
      RunKeepsFakes(cfg, jobs[1..], o.after);
    } else {
      turn := LaterTurn(cfg, jobs, st, i, Run(cfg, jobs[1..], o.after), o.text.value);
    }
  }

  lemma {:induction false} LaterTurn(cfg: Config, jobs: seq<Job>, st: MapState, i: nat, rest: Ran, first: string) returns (turn: MapState)
    requires WellFormed(jobs) && jobs != [] && WellFormed(jobs[1..]) && i > 0
    requires rest == Run(cfg, jobs[1..], Anonymized(cfg, jobs[0].text, jobs[0].entities, st).after)
    requires Run(cfg, jobs, st).sent == [first] + rest.sent && Run(cfg, jobs, st).after == rest.after && i < |[first] + rest.sent|
    ensures i < |jobs| && Anonymized(cfg, jobs[i].text, jobs[i].entities, turn).text == Some(Run(cfg, jobs, st).sent[i])
    ensures Keeps(Anonymized(cfg, jobs[i].text, jobs[i].entities, turn).after, Run(cfg, jobs, st).after)
    decreases |jobs|, 0
  {
    turn := SentAtItsTurn(cfg, jobs[1..], Anonymized(cfg, jobs[0].text, jobs[0].entities, st).after, i - 1);
    assert jobs[1..][i - 1] == jobs[i] && ([first] + rest.sent)[i] == rest.sent[i - 1];
  }

  lemma {:induction false} RunParts(cfg: Config, jobs: seq<Job>, st: MapState)
    requires WellFormed(jobs) && jobs != []
    ensures WellFormed(jobs[1..])
    ensures var o, r := Anonymized(cfg, jobs[0].text, jobs[0].entities, st), Run(cfg, jobs, st);
            var rest := Run(cfg, jobs[1..], o.after);
            && (o.text.None? ==> r.sent == [])
            && (o.text.Some? ==> r.sent == [o.text.value] + rest.sent && r.after == rest.after)
  {
  }

  lemma {:induction false} RunKeepsFakes(cfg: Config, jobs: seq<Job>, st: MapState)
    requires WellFormed(jobs)
    ensures Keeps(st, Run(cfg, jobs, st).after)
    decreases |jobs|
  {
    if jobs != [] {
      var o := Anonymized(cfg, jobs[0].text, jobs[0].entities, st);
      AnonymizedKeepsFakes(cfg, jobs[0].text, jobs[0].entities, st);
      if o.text.Some? { RunKeepsFakes(cfg, jobs[1..], o.after); }
    }
  }

  lemma {:induction false} AnonymizedKeepsFakes(cfg: Config, text: string, entities: seq<Entity>, st: MapState)
    requires Separate(text, entities)
    ensures Keeps(st, Anonymized(cfg, text, entities, st).after)
  {
    PiecesDescend(text, entities, st);
    FindLiteralsExact(text, 0);
    SwapsKeepFakes(text, entities, FindLiterals(text), st.WithReserved(Reservable(text, st)));
    ReplaceKeepsFakes(cfg, text, PiecesOf(text, entities, st), Shield(text, entities, st).after);
  }

  lemma {:induction false} SwapsKeepFakes(text: string, entities: seq<Entity>, found: seq<Span>, st: MapState)
    requires AllLiterals(text, found)
    ensures Keeps(st, SwapLiterals(text, entities, found, st).after)
    decreases |found|
  {
    if found != [] {
      assert found[0] in found;
      SwapsKeepFakes(text, entities, found[1..], SwapOne(text, entities, found[0], st).after);
    }
  }

  lemma {:induction false} AllStandLater(cfg: Config, text: string, pieces: seq<Piece>, fakes: seq<string>, st: MapState, after: MapState)
    requires AllStand(cfg, text, pieces, fakes, st) && Keeps(st, after)
    ensures AllStand(cfg, text, pieces, fakes, after)
  {
    forall k | 0 <= k < |pieces| ensures StandsAt(cfg, text, pieces[k], fakes[k], after) {
      assert StandsAt(cfg, text, pieces[k], fakes[k], st);
      StandsLater(cfg, pieces[k].item, text[pieces[k].start..pieces[k].end], fakes[k], st, after);
    }
  }

  /**
   A request, whatever the methods: the text sent for each job has in the place of every detection
   the mask of its value, the name of its type, or the fake that the final mapping has for it, and is
   the text otherwise, but for literals that are swapped.
   */
  lemma {:induction false} RunIsLaidOut(cfg: Config, jobs: seq<Job>, st: MapState, i: nat) returns (pieces: seq<Piece>, fakes: seq<string>)
    requires WellFormed(jobs) && i < |Run(cfg, jobs, st).sent| && i < |jobs|
    ensures LaidOut(cfg, jobs[i].text, jobs[i].entities, Run(cfg, jobs, st).sent[i], Run(cfg, jobs, st).after, pieces, fakes)
  {
    var turn := SentAtItsTurn(cfg, jobs, st, i);
    var o := Anonymized(cfg, jobs[i].text, jobs[i].entities, turn);
    pieces, fakes := SentIsLaidOut(cfg, jobs[i].text, jobs[i].entities, turn);
    AllStandLater(cfg, jobs[i].text, pieces, fakes, o.after, Run(cfg, jobs, st).after);
  }
}
