/**
 privaite/pii/detector_minilm.py: a span takes the marks right after it, and the whole of a word
 it starts or ends in.
 */
module WholeWords {
  import opened Windows

  const WORD_REACH := 64

  /** The end of the run of characters from `i` on that `p` holds of. */
  function RunEnd(text: string, i: int, p: char -> bool): (r: int)
    requires 0 <= i <= |text|
    ensures i <= r <= |text| && (r < |text| ==> !p(text[r]))
    ensures forall k :: i <= k < r ==> p(text[k])
    decreases |text| - i
  {
    if i < |text| && p(text[i]) then RunEnd(text, i + 1, p) else i
  }

  function RunStart(text: string, i: int, p: char -> bool): (r: int)
    requires 0 <= i <= |text|
    ensures 0 <= r <= i && (r > 0 ==> !p(text[r - 1]))
    ensures forall k :: r <= k < i ==> p(text[k])
    decreases i
  {
    if i > 0 && p(text[i - 1]) then RunStart(text, i - 1, p) else i
  }

  /** Position `i` cuts a word in two. */
  predicate CutsWord(text: string, i: int, word: char -> bool) {
    0 < i < |text| && word(text[i - 1]) && word(text[i])
  }

  function WholeWord(text: string, s: Offset, word: char -> bool): Offset
    requires 0 <= s.lo < s.hi <= |text|
  {
    Offset(if CutsWord(text, s.lo, word) && s.lo - RunStart(text, s.lo, word) <= WORD_REACH then RunStart(text, s.lo, word) else s.lo,
           if CutsWord(text, s.hi, word) && RunEnd(text, s.hi, word) - s.hi <= WORD_REACH then RunEnd(text, s.hi, word) else s.hi)
  }

  function Extended(text: string, s: Offset, mark: char -> bool, word: char -> bool): Offset
    requires 0 <= s.lo < s.hi <= |text|
  {
    WholeWord(text, Offset(s.lo, RunEnd(text, s.hi, mark)), word)
  }

  /** An end is moved to the edge of the word it cuts in two, if that is no more than 64 characters away. */
  ghost predicate Reaches(text: string, from: int, to: int, edge: int, word: char -> bool) {
    var cuts := 0 < from < |text| && word(text[from - 1]) && word(text[from]);
    to == if cuts && -64 <= edge - from <= 64 then edge else from
  }

  /** What a span becomes: over all the marks behind it, and then to the edges of the words it cuts. */
  lemma {:induction false} ExtendedExactly(text: string, s: Offset, mark: char -> bool, word: char -> bool)
    requires 0 <= s.lo < s.hi <= |text|
    ensures var r := Extended(text, s, mark, word);
            exists end, lo, hi ::
              && s.hi <= end <= |text| && (forall k :: s.hi <= k < end ==> mark(text[k])) && (end < |text| ==> !mark(text[end]))
              && (0 < s.lo && word(text[s.lo - 1]) && word(text[s.lo]) ==> lo < s.lo && RunsTo(text, lo, s.lo, word))
              && (end < |text| && word(text[end - 1]) && word(text[end]) ==> end < hi && RunsFrom(text, end, hi, word))
              && Reaches(text, s.lo, r.lo, lo, word) && Reaches(text, end, r.hi, hi, word)
  {
    var end := RunEnd(text, s.hi, mark);
    var lo, hi := RunStart(text, s.lo, word), RunEnd(text, end, word);
    assert RunsTo(text, lo, s.lo, word) && RunsFrom(text, end, hi, word);
  }

  /** The characters before a place, back to the first that is not one. */
  ghost predicate RunsTo(text: string, lo: int, i: int, p: char -> bool) {
    0 <= lo <= i <= |text| && (forall k :: lo <= k < i ==> p(text[k])) && (lo > 0 ==> !p(text[lo - 1]))
  }

  /** The characters from a place on, up to the first that is not one. */
  ghost predicate RunsFrom(text: string, i: int, hi: int, p: char -> bool) {
    0 <= i <= hi <= |text| && (forall k :: i <= k < hi ==> p(text[k])) && (hi < |text| ==> !p(text[hi]))
  }

  /** A span only grows, over marks and word characters, and afterwards cuts no word in two, but
      one of which more than the reach lies on the other side. */
  lemma {:induction false} ExtendedOnlyGrows(text: string, s: Offset, mark: char -> bool, word: char -> bool)
    requires 0 <= s.lo < s.hi <= |text|
    ensures var r := Extended(text, s, mark, word);
            && 0 <= r.lo <= s.lo && s.hi <= r.hi <= |text|
            && (forall k :: r.lo <= k < s.lo ==> word(text[k]))
            && (forall k :: s.hi <= k < r.hi ==> mark(text[k]) || word(text[k]))
            && (CutsWord(text, r.lo, word) ==> r.lo - RunStart(text, r.lo, word) > WORD_REACH)
            && (CutsWord(text, r.hi, word) ==> RunEnd(text, r.hi, word) - r.hi > WORD_REACH)
  {
  }

  method RunForward(text: string, i: int, p: char -> bool) returns (end: int)
    requires 0 <= i <= |text|
    ensures end == RunEnd(text, i, p)
  {
    end := i;
    while end < |text| && p(text[end])
      invariant i <= end <= |text| && RunEnd(text, i, p) == RunEnd(text, end, p)
    {
      end := end + 1;
    }
  }

  method RunBackward(text: string, i: int, p: char -> bool) returns (start: int)
    requires 0 <= i <= |text|
    ensures start == RunStart(text, i, p)
  {
    start := i;
    while start > 0 && p(text[start - 1])
      invariant 0 <= start <= i && RunStart(text, i, p) == RunStart(text, start, p)
    {
      start := start - 1;
    }
  }

  method ExtendOne(text: string, s: Offset, mark: char -> bool, word: char -> bool) returns (r: Offset)
    requires 0 <= s.lo < s.hi <= |text|
    ensures r == Extended(text, s, mark, word)
  {
    var end := RunForward(text, s.hi, mark);
    var first, last := s.lo, end;
    if CutsWord(text, s.lo, word) {
      var wordStart := RunBackward(text, s.lo, word);
      if s.lo - wordStart <= WORD_REACH {
        first := wordStart;
      }
    }
    if CutsWord(text, end, word) {
      var wordEnd := RunForward(text, end, word);
      if wordEnd - end <= WORD_REACH {
        last := wordEnd;
      }
    }
    return Offset(first, last);
  }

  /** The spans of a text, extended in place. */
  method ExtendSpans(text: string, spans: array<Offset>, mark: char -> bool, word: char -> bool)
    requires forall i :: 0 <= i < spans.Length ==> 0 <= spans[i].lo < spans[i].hi <= |text|
    modifies spans
    ensures forall i :: 0 <= i < spans.Length ==> 0 <= old(spans[i]).lo < old(spans[i]).hi <= |text|
    ensures forall i :: 0 <= i < spans.Length ==> spans[i] == Extended(text, old(spans[i]), mark, word)
  {
    ghost var before := spans[..];
    for n := 0 to spans.Length
      invariant forall i :: n <= i < spans.Length ==> spans[i] == before[i]
      invariant forall i :: 0 <= i < n ==> spans[i] == Extended(text, before[i], mark, word)
    {
      spans[n] := ExtendOne(text, spans[n], mark, word);
    }
  }
}
