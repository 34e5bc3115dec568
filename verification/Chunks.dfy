/**
 privaite/pii/detector_base.py: cutting a long text into overlapping chunks, preferably at blanks.
 */
module Chunks {
  datatype Chunk = Chunk(offset: int, text: string)

  /** The last blank in a range, or -1. */
  function LastBlank(text: string, lo: int, hi: int): (i: int)
    requires 0 <= lo && hi <= |text|
    ensures i == -1 || (lo <= i < hi && text[i] == ' ')
    ensures forall j :: lo <= j < hi && i < j ==> text[j] != ' '
    decreases hi - lo
  {
    if hi <= lo then -1 else if text[hi - 1] == ' ' then hi - 1 else LastBlank(text, lo, hi - 1)
  }

  /** Where a search in a string starts when it is asked to start at `from`: a negative place counts
      from the end. */
  function From(text: string, from: int): nat {
    if from >= 0 then from else if from + |text| >= 0 then from + |text| else 0
  }

  /** Where the chunk that starts at `start` ends. */
  function EndOf(text: string, max: nat, overlap: nat, start: nat): (end: int)
    requires start <= |text|
    ensures start <= end <= |text|
  {
    if start + max >= |text| then |text|
    else
      var cut := LastBlank(text, From(text, start + max - overlap), start + max);
      if cut > start then cut else start + max
  }

  function NextStart(end: int, overlap: nat, start: nat): nat {
    if end - overlap > start then end - overlap else start + 1
  }

  function ChunksFrom(text: string, max: nat, overlap: nat, start: nat): seq<Chunk>
    decreases |text| - start
  {
    if start >= |text| then []
    else
      var end := EndOf(text, max, overlap, start);
      [Chunk(start, text[start..end])]
      + if end >= |text| then [] else ChunksFrom(text, max, overlap, NextStart(end, overlap, start))
  }

  function Chunked(text: string, max: nat, overlap: nat): seq<Chunk>
  {
    if |text| <= max then [Chunk(0, text)] else ChunksFrom(text, max, overlap, 0)
  }

  /** One chunk further. */
  lemma {:induction false} NextChunk(text: string, max: nat, overlap: nat, start: nat, before: seq<Chunk>)
    requires start < |text| && EndOf(text, max, overlap, start) < |text|
    ensures var end := EndOf(text, max, overlap, start);
            (before + [Chunk(start, text[start..end])]) + ChunksFrom(text, max, overlap, NextStart(end, overlap, start))
            == before + ChunksFrom(text, max, overlap, start)
  {
    var end := EndOf(text, max, overlap, start);
    var first, rest := [Chunk(start, text[start..end])], ChunksFrom(text, max, overlap, NextStart(end, overlap, start));
    assert (before + first) + rest == before + (first + rest);
  }

  method ChunkText(text: string, max: nat, overlap: nat) returns (chunks: seq<Chunk>)
    ensures chunks == Chunked(text, max, overlap)
  {
    if |text| <= max {
      return [Chunk(0, text)];
    }
    chunks := [];
    var start := 0;
    while start < |text|
      invariant 0 <= start
      invariant chunks + ChunksFrom(text, max, overlap, start) == ChunksFrom(text, max, overlap, 0)
      decreases |text| - start
    {
      var end := if start + max < |text| then start + max else |text|;
      if end < |text| {
        var cut := LastBlank(text, From(text, start + max - overlap), end);
        if cut > start {
          end := cut;
        }
      }
      assert end == EndOf(text, max, overlap, start);
      ghost var before := chunks;
      chunks := chunks + [Chunk(start, text[start..end])];
      if end >= |text| {
        return;
      }
      NextChunk(text, max, overlap, start, before);
      start := NextStart(end, overlap, start);
    }
  }

  // ----- what the chunks hold -----

  function End(c: Chunk): int {
    c.offset + |c.text|
  }

  /** The text at its offset, and no more than the model takes. */
  ghost predicate IsPiece(text: string, max: nat, c: Chunk) {
    0 <= c.offset < End(c) <= |text| && c.text == text[c.offset..End(c)] && |c.text| <= max
  }

  /** The next chunk starts further on, and where this one reaches or before. */
  ghost predicate Meets(chunks: seq<Chunk>, i: int)
    requires 0 <= i < |chunks| - 1
  {
    chunks[i].offset < chunks[i + 1].offset <= End(chunks[i])
  }

  ghost predicate NoGaps(chunks: seq<Chunk>) {
    forall i {:trigger Meets(chunks, i)} :: 0 <= i < |chunks| - 1 ==> Meets(chunks, i)
  }

  lemma {:induction false} FirstMeets(first: Chunk, rest: seq<Chunk>)
    requires NoGaps(rest) && (rest != [] ==> first.offset < rest[0].offset <= End(first))
    ensures NoGaps([first] + rest)
  {
    var chunks := [first] + rest;
    forall i | 0 <= i < |chunks| - 1 ensures Meets(chunks, i) {
      if i > 0 { assert Meets(rest, i - 1); }
    }
  }

  /** Each chunk is the text at its offset and fits the model, and together they leave no gap. */
  lemma {:induction false} ChunksTile(text: string, max: nat, overlap: nat, start: nat)
    requires 0 < max && start < |text|
    ensures var chunks := ChunksFrom(text, max, overlap, start);
            && chunks != [] && chunks[0].offset == start && End(chunks[|chunks| - 1]) == |text|
            && (forall c :: c in chunks ==> IsPiece(text, max, c))
            && NoGaps(chunks)
    decreases |text| - start
  {
    var end := EndOf(text, max, overlap, start);
    var first, next := Chunk(start, text[start..end]), NextStart(end, overlap, start);
    assert IsPiece(text, max, first);
    if end < |text| {
      ChunksTile(text, max, overlap, next);
      FirstMeets(first, ChunksFrom(text, max, overlap, next));
    } else {
      FirstMeets(first, []);
    }
  }

  /** A chunk ends with the text, or at the last blank within the overlap, or, where there is none, when
      it is full. */
  ghost predicate EndsWell(text: string, max: nat, overlap: nat, c: Chunk) {
    var full := c.offset + max;
    || (full >= |text| && End(c) == |text|)
    || (full < |text| && IsLastBlank(text, full - overlap, full, End(c)) && End(c) > c.offset)
    || (full < |text| && End(c) == full && !BlankBehind(text, full - overlap, full, c.offset))
  }

  ghost predicate IsLastBlank(text: string, lo: int, hi: int, i: int) {
    0 <= lo <= i < hi <= |text| && text[i] == ' ' && forall j :: i < j < hi ==> text[j] != ' '
  }

  ghost predicate BlankBehind(text: string, lo: int, hi: int, start: int) {
    exists i :: IsLastBlank(text, lo, hi, i) && i > start
  }

  /** The next chunk goes back by the overlap, or on by one character where that is no way forward. */
  ghost predicate Follows(chunks: seq<Chunk>, overlap: nat, i: int)
    requires 0 <= i < |chunks| - 1
  {
    var back := End(chunks[i]) - overlap;
    chunks[i + 1].offset == if back > chunks[i].offset then back else chunks[i].offset + 1
  }

  ghost predicate AllFollow(chunks: seq<Chunk>, overlap: nat) {
    forall i {:trigger Follows(chunks, overlap, i)} :: 0 <= i < |chunks| - 1 ==> Follows(chunks, overlap, i)
  }

  lemma {:induction false} ChunkEndsWell(text: string, max: nat, overlap: nat, start: nat)
    requires overlap <= max && start < |text|
    ensures EndsWell(text, max, overlap, Chunk(start, text[start..EndOf(text, max, overlap, start)]))
  {
    var full := start + max;
    if full < |text| {
      var lo := full - overlap;
      var cut := LastBlank(text, lo, full);
      if cut > start {
        assert IsLastBlank(text, lo, full, cut);
      } else {
        forall i | lo <= i < full && text[i] == ' ' ensures i <= start {}
      }
    }
  }

  lemma {:induction false} FirstFollows(first: Chunk, rest: seq<Chunk>, overlap: nat)
    requires AllFollow(rest, overlap)
    requires rest != [] ==> Follows([first] + rest, overlap, 0)
    ensures AllFollow([first] + rest, overlap)
  {
    var chunks := [first] + rest;
    forall i | 0 <= i < |chunks| - 1 ensures Follows(chunks, overlap, i) {
      if i > 0 { assert Follows(rest, overlap, i - 1); }
    }
  }

  /** Which chunks a text is cut into. */
  lemma {:induction false} ChunksAreCut(text: string, max: nat, overlap: nat, start: nat)
    requires 0 < max && overlap <= max && start < |text|
    ensures var chunks := ChunksFrom(text, max, overlap, start);
            && (forall c :: c in chunks ==> EndsWell(text, max, overlap, c)) && AllFollow(chunks, overlap)
            && chunks != [] && chunks[0].offset == start
    decreases |text| - start
  {
    var end := EndOf(text, max, overlap, start);
    var first, next := Chunk(start, text[start..end]), NextStart(end, overlap, start);
    ChunkEndsWell(text, max, overlap, start);
    if end < |text| {
      ChunksAreCut(text, max, overlap, next);
      FirstFollows(first, ChunksFrom(text, max, overlap, next), overlap);
    } else {
      FirstFollows(first, [], overlap);
    }
  }

  ghost predicate Whole(chunks: seq<Chunk>, a: int, b: int) {
    exists c :: c in chunks && c.offset <= a && b <= End(c)
  }

  /** With room for two overlaps in a chunk, no stretch as short as the overlap is cut by all
      chunks; nor is a single character by chunks of one. */
  lemma {:induction false} ShortIsWhole(text: string, max: nat, overlap: nat, start: nat, a: int, b: int)
    requires 2 * overlap <= max || overlap == max == 1
    requires 0 < max && start < |text|
    requires start <= a <= b <= |text| && b - a <= overlap
    ensures Whole(ChunksFrom(text, max, overlap, start), a, b)
    decreases |text| - start
  {
    var chunks, end := ChunksFrom(text, max, overlap, start), EndOf(text, max, overlap, start);
    var next := NextStart(end, overlap, start);
    assert chunks[0] == Chunk(start, text[start..end]);
    if b <= end {
      assert chunks[0] in chunks;
    } else {
      ShortIsWhole(text, max, overlap, next, a, b);
      var c :| c in ChunksFrom(text, max, overlap, next) && c.offset <= a && b <= End(c);
      assert c in chunks;
    }
  }

  /** The earliest place at which the first chunk can be cut. */
  function EarliestCut(max: nat, overlap: nat): int {
    if overlap < max then max - overlap else 1
  }

  /** A text whose first chunk is cut there. */
  function Awkward(max: nat, overlap: nat): string {
    seq(2 * max + 1, i => if i == EarliestCut(max, overlap) then ' ' else 'a')
  }

  lemma {:induction false} EarlyCut(max: nat, overlap: nat)
    requires overlap <= max < 2 * overlap && overlap > 1
    ensures !Whole(Chunked(Awkward(max, overlap), max, overlap), 0, overlap)
  {
    var text, cut := Awkward(max, overlap), EarliestCut(max, overlap);
    assert text[cut] == ' ';
    assert EndOf(text, max, overlap, 0) == cut;
    assert NextStart(cut, overlap, 0) == 1;
    var chunks, rest := Chunked(text, max, overlap), ChunksFrom(text, max, overlap, 1);
    assert chunks == [Chunk(0, text[0..cut])] + rest;
    ChunksStartLater(text, max, overlap, 1);
  }

  /** A stretch longer than a chunk is whole in none. */
  lemma {:induction false} LongIsCut(text: string, max: nat, overlap: nat)
    requires 0 < max < overlap == |text|
    ensures !Whole(Chunked(text, max, overlap), 0, overlap)
  {
    ChunksTile(text, max, overlap, 0);
  }

  lemma {:induction false} ChunksStartLater(text: string, max: nat, overlap: nat, start: nat)
    requires 0 < max && start < |text|
    ensures forall c :: c in ChunksFrom(text, max, overlap, start) ==> c.offset >= start
    decreases |text| - start
  {
    var end := EndOf(text, max, overlap, start);
    if end < |text| {
      ChunksStartLater(text, max, overlap, NextStart(end, overlap, start));
    }
  }

  /** Every short stretch of a text is whole in some chunk. */
  ghost predicate KeepsShort(text: string, max: nat, overlap: nat) {
    forall a, b {:trigger Whole(Chunked(text, max, overlap), a, b)} :: 0 <= a <= b <= |text| && b - a <= overlap ==> Whole(Chunked(text, max, overlap), a, b)
  }

  lemma {:induction false} ShortIsKept(text: string, max: nat, overlap: nat)
    requires 0 < max && (2 * overlap <= max || overlap == max == 1)
    ensures KeepsShort(text, max, overlap)
  {
    forall a, b | 0 <= a <= b <= |text| && b - a <= overlap ensures Whole(Chunked(text, max, overlap), a, b) {
      if |text| <= max {
        assert Chunk(0, text) in Chunked(text, max, overlap);
      } else {
        ShortIsWhole(text, max, overlap, 0, a, b);
      }
    }
  }

  /**
   A value as long as the overlap is whole in some chunk, whatever the text and its blanks, if
   and only if a chunk has room for two overlaps, or chunks and overlap are single characters.
   */
  lemma {:induction false} OverlapIsEnough(max: nat, overlap: nat)
    requires 0 < max
    ensures (forall text {:trigger KeepsShort(text, max, overlap)} :: KeepsShort(text, max, overlap))
       <==> (2 * overlap <= max || overlap == max == 1)
  {
    if 2 * overlap <= max || overlap == max == 1 {
      forall text ensures KeepsShort(text, max, overlap) {
        ShortIsKept(text, max, overlap);
      }
    } else if overlap <= max {
      EarlyCut(max, overlap);
      assert !KeepsShort(Awkward(max, overlap), max, overlap);
    } else {
      var text := seq(overlap, _ => 'a');
      LongIsCut(text, max, overlap);
      assert !KeepsShort(text, max, overlap);
    }
  }
}
