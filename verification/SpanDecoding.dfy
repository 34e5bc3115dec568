/**
 privaite/pii/detector_onnx.py: from labelled tokens to spans of the text. A run of tokens
 that belong together becomes one span, snapped to the value it covers.
 */
module SpanDecoding {
  import opened Wrappers
  import opened Windows
  import opened Stitching
  import opened TextCoverage

  // ----- labels -----

  datatype Prefix = Single | Begin | Inside | End | Outside

  datatype Tag = Tag(prefix: Prefix, etype: string)

  function PrefixOf(s: string): Prefix {
    if s == "S" then Single else if s == "B" then Begin else if s == "I" then Inside else if s == "E" then End else Outside
  }

  function Dash(mark: string): (i: nat)
    ensures i <= |mark| && (i < |mark| <==> '-' in mark)
  {
    if mark == "" || mark[0] == '-' then 0 else 1 + Dash(mark[1..])
  }

  /** The only labels with a reading are "O" and those with a dash. */
  predicate WellFormed(mark: string) {
    mark == "O" || '-' in mark
  }

  function TagOf(mark: string): Tag {
    if mark == "O" || Dash(mark) == |mark| then Tag(Outside, "O")
    else Tag(PrefixOf(mark[..Dash(mark)]), mark[Dash(mark) + 1..])
  }

  predicate Marks(tag: Tag) {
    tag.prefix != Outside
  }

  // ----- groups of tokens -----

  /** The tokens from `first` to `last`, both included. */
  datatype Group = Group(etype: string, first: nat, last: nat)

  datatype Decoded = Decoded(closed: seq<Group>, open: Option<Group>) {
    function All(): seq<Group> {
      closed + if open.Some? then [open.value] else []
    }
  }

  function Step(d: Decoded, tag: Tag, i: nat): Decoded {
    var one := Group(tag.etype, i, i);
    if tag.prefix == Single then Decoded(d.All() + [one], None)
    else if tag.prefix == Begin then Decoded(d.All(), Some(one))
    else if tag.prefix == Inside || tag.prefix == End then
      if d.open.Some? && d.open.value.etype == tag.etype then
        var grown := d.open.value.(last := i);
        if tag.prefix == End then Decoded(d.closed + [grown], None) else Decoded(d.closed, Some(grown))
      else Decoded(d.All(), Some(one))
    else Decoded(d.All(), None)
  }

  function Decode(labels: seq<string>): Decoded {
    if labels == [] then Decoded([], None)
    else Step(Decode(labels[..|labels| - 1]), TagOf(labels[|labels| - 1]), |labels| - 1)
  }

  /** A token that takes the next one in no longer: a single, or an end that is not also the start. */
  ghost predicate Sealed(labels: seq<string>, first: int, i: int)
    requires 0 <= first <= i < |labels|
  {
    TagOf(labels[i]).prefix == Single || (TagOf(labels[i]).prefix == End && i > first)
  }

  ghost predicate Continues(mark: string, etype: string) {
    TagOf(mark).prefix in {Inside, End} && TagOf(mark).etype == etype
  }

  /** Token `i` goes on with the group that starts at `first` and reaches to the token before it. */
  ghost predicate Joins(labels: seq<string>, first: int, etype: string, i: int)
    requires 0 <= first < i < |labels|
  {
    Continues(labels[i], etype) && !Sealed(labels, first, i - 1)
  }

  /** A group is one token that marks something and all those that go on with it. */
  ghost predicate IsGroup(labels: seq<string>, g: Group) {
    && g.first <= g.last < |labels|
    && Marks(TagOf(labels[g.first])) && TagOf(labels[g.first]).etype == g.etype
    && (forall i :: g.first < i <= g.last ==> Joins(labels, g.first, g.etype, i))
  }

  ghost predicate IsWhole(labels: seq<string>, g: Group)
    requires IsGroup(labels, g)
  {
    g.last + 1 < |labels| ==> !Joins(labels, g.first, g.etype, g.last + 1)
  }

  ghost predicate Ordered(gs: seq<Group>) {
    forall i, j :: 0 <= i < j < |gs| ==> gs[i].last < gs[j].first
  }

  /** The groups of a token sequence: in order, each as long as it can be, and every token that
      marks something in one of them. */
  ghost predicate Partitions(labels: seq<string>, gs: seq<Group>) {
    && Ordered(gs)
    && (forall g :: g in gs ==> IsGroup(labels, g) && IsWhole(labels, g))
    && (forall i :: 0 <= i < |labels| && Marks(TagOf(labels[i])) ==> InSome(gs, i))
  }

  /** Groups of the first `n` tokens. */
  ghost predicate Bounded(gs: seq<Group>, n: int) {
    forall g :: g in gs ==> g.first <= g.last < n
  }

  ghost predicate InSome(gs: seq<Group>, i: int) {
    exists g :: g in gs && g.first <= i <= g.last
  }

  ghost predicate IsOpen(labels: seq<string>, g: Group) {
    IsGroup(labels, g) && g.last == |labels| - 1 && !Sealed(labels, g.first, g.last)
  }

  /** The decoder so far: only its open group can still grow. */
  ghost predicate Sound(labels: seq<string>, d: Decoded) {
    && Partitions(labels, d.All())
    && (d.open.Some? ==> IsOpen(labels, d.open.value))
    && (forall g :: g in d.closed && g.last == |labels| - 1 ==> IsGroup(labels, g) && Sealed(labels, g.first, g.last))
  }

  lemma {:induction false} OneMore(labels: seq<string>, mark: string, g: Group)
    requires IsGroup(labels, g) && IsWhole(labels, g)
    ensures IsGroup(labels + [mark], g)
    ensures IsWhole(labels + [mark], g) <==>
            g.last + 1 < |labels| || Sealed(labels, g.first, g.last) || !Continues(mark, g.etype)
  {
    var more := labels + [mark];
    forall i | 0 <= i < |labels| ensures more[i] == labels[i] {}
    forall i | g.first < i <= g.last ensures Joins(more, g.first, g.etype, i) {
      assert Joins(labels, g.first, g.etype, i);
    }
    if g.last + 1 < |labels| {
      assert Joins(more, g.first, g.etype, g.last + 1) <==> Joins(labels, g.first, g.etype, g.last + 1);
    }
  }

  /** A mark that does not go on with the open group closes it. */
  lemma {:induction false} StepCloses(labels: seq<string>, mark: string, d: Decoded)
    requires Sound(labels, d)
    requires d.open.Some? ==> !Continues(mark, d.open.value.etype)
    ensures AllWhole(labels + [mark], d.All()) && Bounded(d.All(), |labels|)
  {
    forall g | g in d.All() ensures g.first <= g.last < |labels| && IsGroup(labels + [mark], g) && IsWhole(labels + [mark], g) {
      OneMore(labels, mark, g);
      assert g in d.closed || (d.open.Some? && g == d.open.value);
    }
  }

  lemma {:induction false} OneIsGroup(labels: seq<string>, n: nat)
    requires |labels| == n + 1 && Marks(TagOf(labels[n]))
    ensures var one := Group(TagOf(labels[n]).etype, n, n); IsGroup(labels, one) && IsWhole(labels, one)
  {
  }

  ghost predicate AllHeld(labels: seq<string>, n: nat, gs: seq<Group>)
    requires n <= |labels|
  {
    forall i :: 0 <= i < n && Marks(TagOf(labels[i])) ==> InSome(gs, i)
  }

  ghost predicate AllWhole(labels: seq<string>, gs: seq<Group>) {
    forall g :: g in gs ==> IsGroup(labels, g) && IsWhole(labels, g)
  }

  /** Closed groups, and perhaps the group of the new token alone. */
  lemma {:induction false} StepPartitions(labels: seq<string>, mark: string, gs: seq<Group>, more: seq<Group>)
    requires Ordered(gs) && AllHeld(labels, |labels|, gs) && AllWhole(labels + [mark], gs) && Bounded(gs, |labels|)
    requires more == if Marks(TagOf(mark)) then gs + [Group(TagOf(mark).etype, |labels|, |labels|)] else gs
    ensures Partitions(labels + [mark], more)
  {
    var n, next := |labels|, labels + [mark];
    assert next[n] == mark;
    HeldMore(labels, next, gs, more);
    if Marks(TagOf(mark)) {
      var one := Group(TagOf(mark).etype, n, n);
      OneAfter(gs, one);
      OneIsGroup(next, n);
      StillInSome([one], more, n) by { assert one in [one]; }
    }
  }

  lemma {:induction false} HeldMore(labels: seq<string>, next: seq<string>, gs: seq<Group>, more: seq<Group>)
    requires labels <= next && AllHeld(labels, |labels|, gs) && forall g :: g in gs ==> g in more
    ensures AllHeld(next, |labels|, more)
  {
    forall i | 0 <= i < |labels| && Marks(TagOf(next[i])) ensures InSome(more, i) {
      assert next[i] == labels[i];
      StillInSome(gs, more, i);
    }
  }

  lemma {:induction false} OneAfter(gs: seq<Group>, one: Group)
    requires Ordered(gs) && forall g :: g in gs ==> g.last < one.first
    ensures Ordered(gs + [one])
    ensures forall g :: g in gs + [one] <==> g in gs || g == one
  {
    assert (gs + [one])[|gs|] == one;
  }

  lemma {:induction false} StillInSome(gs: seq<Group>, more: seq<Group>, i: int)
    requires (forall g :: g in gs ==> g in more) && InSome(gs, i)
    ensures InSome(more, i)
  {
    var g :| g in gs && g.first <= i <= g.last;
    assert g in more;
  }

  lemma {:induction false} StepGrows(labels: seq<string>, mark: string, d: Decoded)
    requires Sound(labels, d) && d.open.Some? && Continues(mark, d.open.value.etype)
    ensures Partitions(labels + [mark], d.closed + [d.open.value.(last := |labels|)])
  {
    var n, more, open, grown := |labels|, labels + [mark], d.open.value, d.open.value.(last := |labels|);
    var gs := d.closed + [grown];
    assert open in d.All();
    OneMore(labels, mark, open);
    forall i | grown.first < i <= n ensures Joins(more, grown.first, grown.etype, i) {
      if i < n { assert Joins(more, open.first, open.etype, i); }
    }
    forall g | g in d.closed ensures IsGroup(more, g) && IsWhole(more, g) {
      assert g in d.All();
      OneMore(labels, mark, g);
    }
    GrownInOrder(d.closed, open, grown);
    forall i | 0 <= i <= n && Marks(TagOf(more[i])) ensures InSome(gs, i) {
      assert grown in gs;
      if i < n {
        assert more[i] == labels[i];
        GrownHolds(d.closed, open, grown, i);
      }
    }
  }

  lemma {:induction false} GrownInOrder(gs: seq<Group>, open: Group, grown: Group)
    requires Ordered(gs + [open]) && grown.first == open.first
    ensures Ordered(gs + [grown])
  {
    forall i, j | 0 <= i < j < |gs + [grown]| ensures (gs + [grown])[i].last < (gs + [grown])[j].first {
      assert (gs + [open])[i].last < (gs + [open])[j].first;
    }
  }

  lemma {:induction false} GrownHolds(gs: seq<Group>, open: Group, grown: Group, i: int)
    requires InSome(gs + [open], i) && grown.first == open.first && open.last <= grown.last
    ensures InSome(gs + [grown], i)
  {
    var g :| g in gs + [open] && g.first <= i <= g.last;
    assert (if g in gs then g else grown) in gs + [grown];
  }

  lemma {:induction false} StepSound(labels: seq<string>, mark: string, d: Decoded)
    requires Sound(labels, d)
    ensures Sound(labels + [mark], Step(d, TagOf(mark), |labels|))
  {
    var e, next := Step(d, TagOf(mark), |labels|), labels + [mark];
    assert next[|labels|] == mark;
    if d.open.Some? && Continues(mark, d.open.value.etype) {
      StepGrows(labels, mark, d);
      assert e.All() == d.closed + [d.open.value.(last := |labels|)];
    } else {
      StepCloses(labels, mark, d);
      StepPartitions(labels, mark, d.All(), e.All());
    }
    StepSeals(labels, mark, d, e, next);
  }

  lemma {:induction false} StepSeals(labels: seq<string>, mark: string, d: Decoded, e: Decoded, next: seq<string>)
    requires Sound(labels, d) && e == Step(d, TagOf(mark), |labels|) && next == labels + [mark]
    requires forall g :: g in e.All() ==> IsGroup(next, g)
    ensures e.open.Some? ==> IsOpen(next, e.open.value)
    ensures forall g :: g in e.closed && g.last == |labels| ==> IsGroup(next, g) && Sealed(next, g.first, g.last)
  {
    assert next[|labels|] == mark;
    forall g | g in d.All() ensures g.last < |labels| {
      assert IsGroup(labels, g);
    }
  }

  /** Decoding finds the groups. */
  lemma {:induction false} GroupsFound(labels: seq<string>)
    ensures Sound(labels, Decode(labels))
    decreases |labels|
  {
    if labels != [] {
      var n := |labels| - 1;
      GroupsFound(labels[..n]);
      StepSound(labels[..n], labels[n], Decode(labels[..n]));
      assert labels[..n] + [labels[n]] == labels;
    }
  }

  function Groups(labels: seq<string>): seq<Group> {
    Decode(labels).All()
  }

  /** Every token that marks something is in exactly one group, one of its own type; every other
      token is in none. */
  lemma {:induction false} EveryMarkInOneGroup(labels: seq<string>)
    ensures Partitions(labels, Groups(labels))
    ensures forall i :: 0 <= i < |labels| ==> (Marks(TagOf(labels[i])) <==> InSome(Groups(labels), i))
    ensures forall g, i :: g in Groups(labels) && g.first <= i <= g.last ==> i < |labels| && TagOf(labels[i]).etype == g.etype
    ensures forall g, h :: g in Groups(labels) && h in Groups(labels) && g != h ==> g.last < h.first || h.last < g.first
  {
    GroupsFound(labels);
    forall g, i | g in Groups(labels) && g.first <= i <= g.last
      ensures i < |labels| && Marks(TagOf(labels[i])) && TagOf(labels[i]).etype == g.etype
    {
      if i > g.first { assert Joins(labels, g.first, g.etype, i); }
    }
  }

  // ----- snapping a span to its value -----

  /** The characters the snapping looks at. */
  datatype Chars = Chars(space: char -> bool, word: char -> bool)

  predicate Separator(c: char) {
    c == '/' || c == '\\'
  }

  /** Past the characters at the front of a range that `p` holds of. */
  function SkipFront(text: string, lo: int, hi: int, p: char -> bool): (r: int)
    requires 0 <= lo <= hi <= |text|
    ensures lo <= r <= hi && (r < hi ==> !p(text[r]))
    ensures forall i :: lo <= i < r ==> p(text[i])
    decreases hi - lo
  {
    if lo < hi && p(text[lo]) then SkipFront(text, lo + 1, hi, p) else lo
  }

  function SkipBack(text: string, lo: int, hi: int, p: char -> bool): (r: int)
    requires 0 <= lo <= hi <= |text|
    ensures lo <= r <= hi && (r > lo ==> !p(text[r - 1]))
    ensures forall i :: r <= i < hi ==> p(text[i])
    decreases hi - lo
  {
    if lo < hi && p(text[hi - 1]) then SkipBack(text, lo, hi - 1, p) else hi
  }

  /** The end of the word a span ends in. */
  function WordEnd(text: string, end: int, word: char -> bool): (r: int)
    requires 0 < end <= |text|
    ensures end <= r <= |text| && (r < |text| ==> !word(text[r]) || !word(text[r - 1]))
    ensures forall i :: end <= i < r ==> word(text[i])
    decreases |text| - end
  {
    if end < |text| && word(text[end]) && word(text[end - 1]) then WordEnd(text, end + 1, word) else end
  }

  function Snap(chars: Chars, bearing: bool, text: string, lo: int, hi: int): Option<Offset>
    requires 0 <= lo && hi <= |text|
  {
    if lo >= hi then None
    else
      var start := SkipFront(text, lo, hi, chars.space);
      var end := SkipBack(text, start, hi, chars.space);
      if start >= end then None
      else if bearing then Some(Offset(start, end))
      else
        var trimmed := SkipFront(text, start, end, Separator);
        var first := if trimmed < end then trimmed else start;
        if first > 0 && Separator(text[first - 1]) then Some(Offset(first, WordEnd(text, end, chars.word)))
        else Some(Offset(first, end))
  }

  /** Only blanks and, for a type that cannot begin with one, leading separators are left out. */
  ghost predicate Loses(chars: Chars, bearing: bool, text: string, lo: int, span: Offset, p: int) {
    0 <= p < |text| &&
    (chars.space(text[p])
     || (!bearing && lo <= p < span.lo <= |text| && forall i :: p <= i < span.lo ==> Separator(text[i])))
  }

  lemma {:induction false} SnapKeepsTheValue(chars: Chars, bearing: bool, text: string, lo: int, hi: int)
    requires 0 <= lo && hi <= |text|
    ensures Snap(chars, bearing, text, lo, hi) == None <==> forall p :: lo <= p < hi ==> chars.space(text[p])
    ensures Snap(chars, bearing, text, lo, hi).Some? ==>
              var s := Snap(chars, bearing, text, lo, hi).value;
              && lo <= s.lo < hi && s.lo < s.hi <= |text|
              && (forall p :: lo <= p < hi ==> s.lo <= p < s.hi || Loses(chars, bearing, text, lo, s, p))
              && (forall p :: hi <= p < s.hi ==> !bearing && chars.word(text[p]))
  {
    if lo < hi {
      var start := SkipFront(text, lo, hi, chars.space);
      var end := SkipBack(text, start, hi, chars.space);
      if start < hi {
        assert !chars.space(text[start]);
      }
    }
  }

  /** Where a span starts: behind the blanks, and for a type that cannot begin with one behind the
      separators, unless there is nothing else up to `end`. */
  ghost predicate StartsAt(chars: Chars, bearing: bool, text: string, lo: int, end: int, start: int, first: int)
    requires 0 <= lo <= start <= first < end <= |text|
  {
    && (forall p :: lo <= p < start ==> chars.space(text[p])) && !chars.space(text[start])
    && (bearing ==> first == start)
    && (forall p :: start <= p < first ==> Separator(text[p]))
    && (!bearing && Separator(text[first]) ==> first == start && forall p :: start <= p < end ==> Separator(text[p]))
  }

  /** Where it ends: before the blanks, and right behind a separator at the end of its last word. */
  ghost predicate EndsAt(chars: Chars, bearing: bool, text: string, hi: int, end: int, first: int, last: int)
    requires 0 <= first < end <= hi <= |text| && end <= last <= |text|
  {
    && (forall p :: end <= p < hi ==> chars.space(text[p])) && !chars.space(text[end - 1])
    && if !bearing && first > 0 && Separator(text[first - 1])
       then (forall p :: end <= p < last ==> chars.word(text[p])) && (end < last ==> chars.word(text[end - 1]))
            && (last == |text| || !chars.word(text[last]) || !chars.word(text[last - 1]))
       else last == end
  }

  /** The snapped span, place by place. */
  lemma {:induction false} SnapExactly(chars: Chars, bearing: bool, text: string, lo: int, hi: int) returns (start: int, end: int)
    requires 0 <= lo < hi <= |text| && Snap(chars, bearing, text, lo, hi).Some?
    ensures var s := Snap(chars, bearing, text, lo, hi).value;
            && lo <= start <= s.lo < end <= hi && end <= s.hi <= |text|
            && StartsAt(chars, bearing, text, lo, end, start, s.lo) && EndsAt(chars, bearing, text, hi, end, s.lo, s.hi)
  {
    start := SkipFront(text, lo, hi, chars.space);
    end := SkipBack(text, start, hi, chars.space);
    WordEndExactly(text, end, chars.word);
  }

  lemma {:induction false} WordEndExactly(text: string, end: int, word: char -> bool)
    requires 0 < end <= |text|
    ensures end < WordEnd(text, end, word) ==> word(text[end - 1])
  {
  }

  // ----- decoding -----

  datatype FoundSpan = FoundSpan(etype: string, text: string, lo: int, hi: int, score: real)

  function Indices(g: Group): seq<nat>
    requires g.first <= g.last
  {
    seq(g.last - g.first + 1, i requires 0 <= i => g.first + i)
  }

  function Sum(scores: seq<real>, indices: seq<nat>): real
    requires forall k :: 0 <= k < |indices| ==> indices[k] < |scores|
  {
    if indices == [] then 0.0
    else
      var n := |indices| - 1;
      Sum(scores, indices[..n]) + scores[indices[n]]
  }

  function Mean(scores: seq<real>, indices: seq<nat>): real
    requires indices != [] && forall k :: 0 <= k < |indices| ==> indices[k] < |scores|
  {
    Sum(scores, indices) / |indices| as real
  }

  lemma {:induction false} SumBetween(scores: seq<real>, indices: seq<nat>, least: real, most: real)
    requires forall k :: 0 <= k < |indices| ==> indices[k] < |scores| && least <= scores[indices[k]] <= most
    ensures least * |indices| as real <= Sum(scores, indices) <= most * |indices| as real
    decreases |indices|
  {
    if indices != [] {
      var n := |indices| - 1;
      SumBetween(scores, indices[..n], least, most);
      assert least * |indices| as real == least * n as real + least && most * |indices| as real == most * n as real + most;
    }
  }

  /** The score of a group lies between the scores of its tokens. */
  lemma {:induction false} MeanBetween(scores: seq<real>, indices: seq<nat>, least: real, most: real)
    requires indices != [] && forall k :: 0 <= k < |indices| ==> indices[k] < |scores| && least <= scores[indices[k]] <= most
    ensures least <= Mean(scores, indices) <= most
  {
    SumBetween(scores, indices, least, most);
    var n, mean := |indices| as real, Mean(scores, indices);
    assert mean * n == Sum(scores, indices);
    NotNegative(mean - least, n);
    NotNegative(most - mean, n);
  }

  lemma {:induction false} NotNegative(x: real, n: real)
    requires n > 0.0 && x * n >= 0.0
    ensures x >= 0.0
  {
  }

  /** What the decoder is given besides the labels. */
  datatype Scene = Scene(scores: seq<real>, offsets: seq<Offset>, text: string, chars: Chars, bearing: set<string>) {
    ghost predicate Valid() {
      |scores| == |offsets| && InText(offsets, text)
    }

    /** The span for a stretch of the text, if it has anything but blanks. */
    function SpanFor(etype: string, lo: int, hi: int, score: real): seq<FoundSpan>
      requires 0 <= lo && hi <= |text|
    {
      SnapKeepsTheValue(chars, etype in bearing, text, lo, hi);
      match Snap(chars, etype in bearing, text, lo, hi)
      case None => []
      case Some(s) => [FoundSpan(etype, text[s.lo..s.hi], s.lo, s.hi, score)]
    }

    function SpansFor(g: Group): seq<FoundSpan>
      requires Valid() && g.first <= g.last < |offsets|
    {
      assert offsets[g.first] in offsets && offsets[g.last] in offsets;
      SpanFor(g.etype, offsets[g.first].lo, offsets[g.last].hi, Mean(scores, Indices(g)))
    }

    function Spans(gs: seq<Group>): seq<FoundSpan>
      requires Valid() && forall g :: g in gs ==> g.first <= g.last < |offsets|
    {
      if gs == [] then []
      else
        var n := |gs| - 1;
        assert gs[n] in gs;
        Spans(gs[..n]) + SpansFor(gs[n])
    }
  }

  /** A character of the text is in a reported span of a type, or may be left out of it. */
  ghost predicate Reported(scene: Scene, spans: seq<FoundSpan>, etype: string, p: int) {
    && 0 <= p < |scene.text|
    && (scene.chars.space(scene.text[p]) || exists s :: s in spans && s.etype == etype && Near(scene, s, p))
  }

  /** In the span, or in the run of separators before it that its type cannot begin with. */
  ghost predicate Near(scene: Scene, s: FoundSpan, p: int) {
    || s.lo <= p < s.hi
    || (s.etype !in scene.bearing && 0 <= p < s.lo <= |scene.text| && forall i :: p <= i < s.lo ==> Separator(scene.text[i]))
  }

  lemma {:induction false} StretchReported(scene: Scene, etype: string, lo: int, hi: int, score: real, p: int)
    requires 0 <= lo <= p < hi <= |scene.text|
    ensures Reported(scene, scene.SpanFor(etype, lo, hi, score), etype, p)
  {
    SnapKeepsTheValue(scene.chars, etype in scene.bearing, scene.text, lo, hi);
    if !scene.chars.space(scene.text[p]) {
      var s := scene.SpanFor(etype, lo, hi, score)[0];
      assert s in scene.SpanFor(etype, lo, hi, score) && Near(scene, s, p);
    }
  }

  lemma {:induction false} GroupReported(scene: Scene, g: Group, p: int)
    requires scene.Valid() && g.first <= g.last < |scene.offsets|
    requires scene.offsets[g.first].lo <= p < scene.offsets[g.last].hi
    ensures Reported(scene, scene.SpansFor(g), g.etype, p)
  {
    assert scene.offsets[g.first] in scene.offsets && scene.offsets[g.last] in scene.offsets;
    StretchReported(scene, g.etype, scene.offsets[g.first].lo, scene.offsets[g.last].hi, Mean(scene.scores, Indices(g)), p);
  }

  lemma {:induction false} SpansHold(scene: Scene, gs: seq<Group>, g: Group, s: FoundSpan)
    requires scene.Valid() && Bounded(gs, |scene.offsets|) && g in gs && s in scene.SpansFor(g)
    ensures s in scene.Spans(gs)
    decreases |gs|
  {
    var n := |gs| - 1;
    assert gs[n] in gs;
    if g != gs[n] {
      SpansHold(scene, gs[..n], g, s);
    }
  }

  /**
   Nothing the model marked is lost: for tokens that go forward through the text, every character
   of a token with a mark lies in a reported span of the token's own type, but for blanks and,
   for the types that cannot begin with one, separators right before the span.
   */
  lemma {:induction false} MarkedTextIsReported(scene: Scene, labels: seq<string>, i: int, p: int)
    requires scene.Valid() && |labels| == |scene.offsets| && Monotone(scene.offsets)
    requires 0 <= i < |labels| && Marks(TagOf(labels[i])) && scene.offsets[i].lo <= p < scene.offsets[i].hi
    ensures Bounded(Groups(labels), |labels|)
    ensures Reported(scene, scene.Spans(Groups(labels)), TagOf(labels[i]).etype, p)
  {
    EveryMarkInOneGroup(labels);
    var g :| g in Groups(labels) && g.first <= i <= g.last;
    GroupReported(scene, g, p);
    if !scene.chars.space(scene.text[p]) {
      var s :| s in scene.SpansFor(g) && s.etype == g.etype && Near(scene, s, p);
      SpansHold(scene, Groups(labels), g, s);
    }
  }

  /** A reported span is the text of a group, blanks and separators cut off, and perhaps the rest
      of the word it ends in. */
  ghost predicate ComesFrom(scene: Scene, s: FoundSpan, g: Group)
    requires g.first <= g.last < |scene.offsets|
  {
    && s.etype == g.etype && 0 <= s.lo < s.hi <= |scene.text| && s.text == scene.text[s.lo..s.hi]
    && scene.offsets[g.first].lo <= s.lo < scene.offsets[g.last].hi
    && (forall p :: scene.offsets[g.last].hi <= p < s.hi ==> s.etype !in scene.bearing && scene.chars.word(scene.text[p]))
  }

  lemma {:induction false} SpanComesFrom(scene: Scene, g: Group, s: FoundSpan)
    requires scene.Valid() && g.first <= g.last < |scene.offsets| && s in scene.SpansFor(g)
    ensures ComesFrom(scene, s, g)
  {
    assert scene.offsets[g.first] in scene.offsets && scene.offsets[g.last] in scene.offsets;
    SnapKeepsTheValue(scene.chars, g.etype in scene.bearing, scene.text, scene.offsets[g.first].lo, scene.offsets[g.last].hi);
  }

  lemma {:induction false} EverySpanComesFromAGroup(scene: Scene, gs: seq<Group>, s: FoundSpan) returns (g: Group)
    requires scene.Valid() && forall g :: g in gs ==> g.first <= g.last < |scene.offsets|
    requires s in scene.Spans(gs)
    ensures g in gs && ComesFrom(scene, s, g)
    decreases |gs|
  {
    var n := |gs| - 1;
    assert gs[n] in gs;
    if s in scene.SpansFor(gs[n]) {
      g := gs[n];
      SpanComesFrom(scene, g, s);
    } else {
      g := EverySpanComesFromAGroup(scene, gs[..n], s);
    }
  }

  // ----- the loops -----

  method TrimBlanks(text: string, lo: int, hi: int, space: char -> bool) returns (start: int, end: int)
    requires 0 <= lo < hi <= |text|
    ensures start == SkipFront(text, lo, hi, space) && end == SkipBack(text, start, hi, space)
  {
    start, end := lo, hi;
    while start < end && space(text[start])
      invariant lo <= start <= end && SkipFront(text, lo, hi, space) == SkipFront(text, start, hi, space)
    {
      start := start + 1;
    }
    while end > start && space(text[end - 1])
      invariant start <= end <= hi && SkipBack(text, start, hi, space) == SkipBack(text, start, end, space)
    {
      end := end - 1;
    }
  }

  method ExtendWord(text: string, from: int, word: char -> bool) returns (end: int)
    requires 0 < from <= |text|
    ensures end == WordEnd(text, from, word)
  {
    end := from;
    while end < |text| && word(text[end]) && word(text[end - 1])
      invariant from <= end <= |text| && WordEnd(text, from, word) == WordEnd(text, end, word)
    {
      end := end + 1;
    }
  }

  method TrimSeparators(text: string, start: int, end: int) returns (trimmed: int)
    requires 0 <= start <= end <= |text|
    ensures trimmed == SkipFront(text, start, end, Separator)
  {
    trimmed := start;
    while trimmed < end && Separator(text[trimmed])
      invariant start <= trimmed <= end && SkipFront(text, start, end, Separator) == SkipFront(text, trimmed, end, Separator)
    {
      trimmed := trimmed + 1;
    }
  }

  method AppendSpan(scene: Scene, spans: seq<FoundSpan>, etype: string, lo: int, hi: int, score: real) returns (r: seq<FoundSpan>)
    requires 0 <= lo && hi <= |scene.text|
    ensures r == spans + scene.SpanFor(etype, lo, hi, score)
  {
    if lo >= hi {
      return spans;
    }
    var start, end := TrimBlanks(scene.text, lo, hi, scene.chars.space);
    if start >= end {
      return spans;
    }
    if etype !in scene.bearing {
      var trimmed := TrimSeparators(scene.text, start, end);
      if trimmed < end {
        start := trimmed;
      }
      if start > 0 && Separator(scene.text[start - 1]) {
        end := ExtendWord(scene.text, end, scene.chars.word);
      }
    }
    r := spans + [FoundSpan(etype, scene.text[start..end], start, end, score)];
  }

  method MeanOf(scores: seq<real>, indices: seq<nat>) returns (mean: real)
    requires indices != [] && forall k :: 0 <= k < |indices| ==> indices[k] < |scores|
    ensures mean == Mean(scores, indices)
  {
    var sum := 0.0;
    for n := 0 to |indices|
      invariant sum == Sum(scores, indices[..n])
    {
      assert indices[..n + 1][..n] == indices[..n];
      sum := sum + scores[indices[n]];
    }
    assert indices[..|indices|] == indices;
    mean := sum / |indices| as real;
  }

  /** The tokens gathered so far are those of the open group. */
  ghost predicate Gathers(current: seq<nat>, ctype: Option<string>, open: Option<Group>) {
    match open
    case None => current == [] && ctype == None
    case Some(g) => g.first <= g.last && current == Indices(g) && ctype == Some(g.etype)
  }

  lemma {:induction false} IndicesEnds(g: Group)
    requires g.first <= g.last
    ensures Indices(g) != [] && Indices(g)[0] == g.first && Indices(g)[|Indices(g)| - 1] == g.last
    ensures forall k :: 0 <= k < |Indices(g)| ==> Indices(g)[k] <= g.last
  {
  }

  method Flush(scene: Scene, spans: seq<FoundSpan>, current: seq<nat>, ctype: Option<string>, ghost open: Option<Group>)
    returns (r: seq<FoundSpan>)
    requires scene.Valid() && Gathers(current, ctype, open) && (open.Some? ==> open.value.last < |scene.offsets|)
    ensures r == if open.Some? then spans + scene.SpansFor(open.value) else spans
  {
    if current == [] || ctype == None {
      if open.Some? { IndicesEnds(open.value); }
      return spans;
    }
    IndicesEnds(open.value);
    var first, last := current[0], current[|current| - 1];
    var mean := MeanOf(scene.scores, current);
    assert scene.offsets[first] in scene.offsets && scene.offsets[last] in scene.offsets;
    r := AppendSpan(scene, spans, ctype.value, scene.offsets[first].lo, scene.offsets[last].hi, mean);
  }

  lemma {:induction false} SpansNext(scene: Scene, gs: seq<Group>, g: Group)
    requires scene.Valid() && Bounded(gs + [g], |scene.offsets|)
    ensures g in gs + [g] && g.first <= g.last < |scene.offsets| && Bounded(gs, |scene.offsets|)
    ensures scene.Spans(gs + [g]) == scene.Spans(gs) + scene.SpansFor(g)
  {
    assert (gs + [g])[|gs|] == g;
    forall h | h in gs ensures h in gs + [g] {}
    assert (gs + [g])[..|gs|] == gs;
  }

  /** The decoder's variables say what the decoder's state is. */
  ghost predicate Keeps(scene: Scene, d: Decoded, n: int, spans: seq<FoundSpan>, current: seq<nat>, ctype: Option<string>) {
    && scene.Valid() && 0 <= n <= |scene.offsets| && Bounded(d.All(), n) && Bounded(d.closed, n)
    && (d.open.Some? ==> d.open.value.first <= d.open.value.last == n - 1)
    && spans == scene.Spans(d.closed) && Gathers(current, ctype, d.open)
  }

  /** Everything gathered so far has become a span. */
  ghost function Closed(d: Decoded): Decoded {
    Decoded(d.All(), None)
  }

  method FlushOpen(scene: Scene, ghost d: Decoded, ghost n: int, spans: seq<FoundSpan>, current: seq<nat>, ctype: Option<string>)
    returns (r: seq<FoundSpan>)
    requires Keeps(scene, d, n, spans, current, ctype)
    ensures Keeps(scene, Closed(d), n, r, [], None)
  {
    r := Flush(scene, spans, current, ctype, d.open);
    if d.open.Some? { SpansNext(scene, d.closed, d.open.value); } else { assert d.All() == d.closed; }
    assert Closed(d).All() == d.All() + [];
  }

  lemma {:induction false} OneIndex(etype: string, n: nat, scores: seq<real>)
    requires n < |scores|
    ensures Indices(Group(etype, n, n)) == [n] && Mean(scores, [n]) == scores[n]
  {
    assert [n][..0] == [];
    assert Sum(scores, []) == 0.0 && |[n]| as real == 1.0;
    assert Sum(scores, [n]) == scores[n];
  }

  lemma {:induction false} GrownIndices(g: Group, n: nat)
    requires g.first <= g.last == n - 1
    ensures Indices(g.(last := n)) == Indices(g) + [n]
  {
  }

  /** A token that goes on with the open group. */
  lemma {:induction false} KeepsGrown(scene: Scene, d: Decoded, n: nat, spans: seq<FoundSpan>, current: seq<nat>, ctype: Option<string>)
    requires Keeps(scene, d, n, spans, current, ctype) && n < |scene.offsets| && d.open.Some?
    ensures Keeps(scene, Decoded(d.closed, Some(d.open.value.(last := n))), n + 1, spans, current + [n], ctype)
  {
    GrownIndices(d.open.value, n);
  }

  /** A token that opens a group. */
  lemma {:induction false} KeepsOpened(scene: Scene, closed: seq<Group>, n: nat, spans: seq<FoundSpan>, etype: string)
    requires Keeps(scene, Decoded(closed, None), n, spans, [], None) && n < |scene.offsets|
    ensures Keeps(scene, Decoded(closed, Some(Group(etype, n, n))), n + 1, spans, [n], Some(etype))
  {
    OneIndex(etype, n, scene.scores);
    assert closed + [] == closed;
  }

  /** A token that is in no group. */
  lemma {:induction false} KeepsIdle(scene: Scene, closed: seq<Group>, n: nat, spans: seq<FoundSpan>)
    requires Keeps(scene, Decoded(closed, None), n, spans, [], None) && n < |scene.offsets|
    ensures Keeps(scene, Decoded(closed, None), n + 1, spans, [], None)
  {
  }

  /** A token that is a group. */
  lemma {:induction false} KeepsSingle(scene: Scene, closed: seq<Group>, n: nat, spans: seq<FoundSpan>, etype: string)
    requires Keeps(scene, Decoded(closed, None), n, spans, [], None) && n < |scene.offsets|
    ensures InText(scene.offsets, scene.text) && 0 <= scene.offsets[n].lo && scene.offsets[n].hi <= |scene.text|
    ensures Keeps(scene, Decoded(closed + [Group(etype, n, n)], None), n + 1,
                  spans + scene.SpanFor(etype, scene.offsets[n].lo, scene.offsets[n].hi, scene.scores[n]), [], None)
  {
    var one := Group(etype, n, n);
    assert scene.offsets[n] in scene.offsets;
    OneIndex(etype, n, scene.scores);
    assert closed + [] == closed && (closed + [one]) + [] == closed + [one];
    SpansNext(scene, closed, one);
  }

  /** One token. */
  method Take(scene: Scene, tag: Tag, n: nat, ghost d: Decoded, spans: seq<FoundSpan>, current: seq<nat>, ctype: Option<string>)
    returns (spans': seq<FoundSpan>, current': seq<nat>, ctype': Option<string>)
    requires Keeps(scene, d, n, spans, current, ctype) && n < |scene.offsets|
    ensures Keeps(scene, Step(d, tag, n), n + 1, spans', current', ctype')
  {
    if (tag.prefix == Inside || tag.prefix == End) && ctype == Some(tag.etype) {
      KeepsGrown(scene, d, n, spans, current, ctype);
      spans', current', ctype' := spans, current + [n], ctype;
      if tag.prefix == End {
        spans' := FlushOpen(scene, Decoded(d.closed, Some(d.open.value.(last := n))), n + 1, spans', current', ctype');
        current', ctype' := [], None;
      }
      return;
    }
    spans' := FlushOpen(scene, d, n, spans, current, ctype);
    current', ctype' := [], None;
    if tag.prefix == Single {
      KeepsSingle(scene, d.All(), n, spans', tag.etype);
      spans' := AppendSpan(scene, spans', tag.etype, scene.offsets[n].lo, scene.offsets[n].hi, scene.scores[n]);
    } else if tag.prefix != Outside {
      KeepsOpened(scene, d.All(), n, spans', tag.etype);
      current', ctype' := [n], Some(tag.etype);
    } else {
      KeepsIdle(scene, d.All(), n, spans');
    }
  }

  lemma {:induction false} DecodeNext(labels: seq<string>, n: nat)
    requires n < |labels|
    ensures Decode(labels[..n + 1]) == Step(Decode(labels[..n]), TagOf(labels[n]), n)
  {
    assert labels[..n + 1][..n] == labels[..n];
  }

  predicate Readable(labels: seq<string>) {
    forall i :: 0 <= i < |labels| ==> WellFormed(labels[i])
  }

  lemma {:induction false} ReadableNext(labels: seq<string>, n: nat)
    requires n < |labels|
    ensures Readable(labels[..n + 1]) <==> Readable(labels[..n]) && WellFormed(labels[n])
    ensures !WellFormed(labels[n]) ==> !Readable(labels)
  {
  }

  lemma {:induction false} GroupsBounded(labels: seq<string>)
    ensures Bounded(Groups(labels), |labels|)
  {
    EveryMarkInOneGroup(labels);
  }

  lemma {:induction false} KeepsStart(scene: Scene, d: Decoded)
    requires scene.Valid() && d == Decode([])
    ensures Keeps(scene, d, 0, [], [], None)
  {
  }

  lemma {:induction false} KeepsEnd(labels: seq<string>, d: Decoded)
    requires d == Decode(labels[..|labels|])
    ensures d.All() == Groups(labels) && labels[..|labels|] == labels
  {
    assert labels[..|labels|] == labels;
  }

  /** The spans of a labelled text; None for a label that cannot be read. */
  method DecodeBioesSpans(labels: seq<string>, scene: Scene) returns (r: Option<seq<FoundSpan>>)
    requires scene.Valid() && |labels| == |scene.offsets|
    ensures r.Some? <==> Readable(labels)
    ensures Bounded(Groups(labels), |scene.offsets|)
    ensures r.Some? ==> r.value == scene.Spans(Groups(labels))
  {
    GroupsBounded(labels);
    var spans: seq<FoundSpan> := [];
    var current: seq<nat> := [];
    var ctype: Option<string> := None;
    ghost var d, readable := Decode([]), true;
    KeepsStart(scene, d);
    for n := 0 to |labels|
      invariant d == Decode(labels[..n]) && Keeps(scene, d, n, spans, current, ctype)
      invariant readable && readable == Readable(labels[..n])
    {
      ReadableNext(labels, n);
      if !WellFormed(labels[n]) {
        return None;
      }
      DecodeNext(labels, n);
      spans, current, ctype := Take(scene, TagOf(labels[n]), n, d, spans, current, ctype);
      d := Step(d, TagOf(labels[n]), n);
    }
    KeepsEnd(labels, d);
    spans := FlushOpen(scene, d, |labels|, spans, current, ctype);
    return Some(spans);
  }

  /**
   The whole scan of a long text: its tokens pass the text check, the windows are run and
   stitched, and the labels decoded. A character that may not be left out is then either in a
   token without a mark, or in a reported span of the type it was marked with.
   */
  lemma {:induction false} ScanReports(tokens: seq<Offset>, text: string, ignorable: char -> bool, ranges: seq<Offset>, window: int,
                                       overlap: int, rows: seq<Row>, stitched: Row, scene: Scene, p: int)
    requires Covered(tokens, text, ignorable) && RowsOf(tokens, ranges, window, overlap, rows) && rows != []
    requires Cuttable(rows, Shares(rows, overlap)) && stitched == Stitched(rows, Shares(rows, overlap), |rows|)
    requires scene.offsets == stitched.offsets && scene.scores == stitched.scores && scene.text == text
    requires 0 <= p < |text| && !ignorable(text[p])
    ensures scene.Valid() && |stitched.labels| == |scene.offsets|
    ensures exists i :: ToldFor(scene, stitched.labels, i, p)
  {
    StitchedIsValid(rows, Shares(rows, overlap), |rows|);
    ScanLosesNoText(tokens, text, ignorable, ranges, window, overlap, rows);
    var i := HeldIsTold(scene, stitched.labels, p);
  }

  lemma {:induction false} HeldIsTold(scene: Scene, labels: seq<string>, p: int) returns (i: int)
    requires scene.Valid() && |labels| == |scene.offsets| && Monotone(scene.offsets) && Held(scene.offsets, p)
    ensures ToldFor(scene, labels, i, p)
  {
    var t :| t in scene.offsets && t.lo <= p < t.hi;
    i :| 0 <= i < |scene.offsets| && scene.offsets[i] == t;
    GroupsBounded(labels);
    if Marks(TagOf(labels[i])) {
      MarkedTextIsReported(scene, labels, i, p);
    }
  }

  /** Token `i` holds the character, and if it is marked the character is reported. */
  ghost predicate ToldFor(scene: Scene, labels: seq<string>, i: int, p: int)
    requires scene.Valid() && |labels| == |scene.offsets|
  {
    && 0 <= i < |labels| && scene.offsets[i].lo <= p < scene.offsets[i].hi && Bounded(Groups(labels), |labels|)
    && (Marks(TagOf(labels[i])) ==> Reported(scene, scene.Spans(Groups(labels)), TagOf(labels[i]).etype, p))
  }
}
