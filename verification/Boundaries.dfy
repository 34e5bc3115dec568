/**
 privaite/pii/boundaries.py: a detected span is given back the syntax around its value, and
 nothing of the value.
 */
module Boundaries {
  import opened Wrappers
  import opened Windows
  import opened Entities
  import opened Scanners

  /** What counts as white space, and two more patterns, as foreign code: `emailField` gives the
      start of the name and of the value on a line that assigns an address; `path` the inside of a
      line that is a path. */
  datatype Syntax = Syntax(
    isSpace: char -> bool,
    emailField: string -> Option<(int, int)>,
    path: string -> Option<Offset>)

  const NAME_REACH := 512
  const URI_REACH := 2048

  /** Python's find and rfind of one character in a range; -1 when it is not there. */
  function Find(text: string, c: char, lo: int, hi: int): (i: int)
    requires 0 <= lo && hi <= |text|
    ensures i == -1 || (lo <= i < hi && text[i] == c)
    ensures forall j :: lo <= j < hi && (i == -1 || j < i) ==> text[j] != c
    decreases hi - lo
  {
    if lo >= hi then -1 else if text[lo] == c then lo else Find(text, c, lo + 1, hi)
  }

  function RFind(text: string, c: char, lo: int, hi: int): (i: int)
    requires 0 <= lo && hi <= |text|
    ensures i == -1 || (lo <= i < hi && text[i] == c)
    ensures forall j :: lo <= j < hi && i < j ==> text[j] != c
    decreases hi - lo
  {
    if lo >= hi then -1 else if text[hi - 1] == c then hi - 1 else RFind(text, c, lo, hi - 1)
  }

  function Max(a: int, b: int): int {
    if a < b then b else a
  }

  /** Where the line of `index` starts, as far back as is read. */
  function LineStart(text: string, index: int): (start: int)
    requires 0 <= index <= |text|
    ensures 0 <= start <= index
  {
    RFind(text, '\n', Max(0, index - NAME_REACH), index) + 1
  }

  /** A long word with a digit can be a token written before an "=". */
  predicate LooksLikeToken(key: string) {
    |key| >= 16 && '_' !in key && exists i :: 0 <= i < |key| && IsDigit(key[i])
  }

  /** Where the value starts, when the line of `index` assigns an upper-case name. */
  function EnvValueStart(syn: Syntax, text: string, index: int): Option<int>
    requires 0 <= index <= |text|
  {
    var lineStart := LineStart(text, index);
    if lineStart == 0 && Max(0, index - NAME_REACH) > 0 then None
    else
      match AssignmentOn(text, syn.isSpace, lineStart)
      case None => None
      case Some(a) => if LooksLikeToken(text[a.lo..a.hi]) then None else Some(a.value)
  }

  /** The line of `index` starts at `s`, as far back as is read. */
  ghost predicate LineBegins(text: string, index: int, s: int) {
    && 0 <= s <= index <= |text| && (s > 0 ==> s - 1 >= index - 512 && CharAt(text, s - 1, '\n')) && (s == 0 ==> index <= 512)
    && forall k :: s <= k < index ==> text[k] != '\n'
  }

  /** That line assigns a name, which does not look like a token. */
  ghost predicate NamesAt(syn: Syntax, text: string, s: int, a: Assignment) {
    && Prefix(text, s, a.lo) && IsAssignment(text, syn.isSpace, a)
    && !(a.hi - a.lo >= 16 && (forall k :: a.lo <= k < a.hi ==> text[k] != '_') && exists k :: a.lo <= k < a.hi && '0' <= text[k] <= '9')
  }

  /** The value of such a name starts at `v`. */
  ghost predicate Names(syn: Syntax, text: string, index: int, v: int) {
    exists s, a :: LineBegins(text, index, s) && NamesAt(syn, text, s, a) && a.value == v
  }

  lemma {:induction false} LineBeginsExactly(text: string, index: int, s: int)
    requires 0 <= index <= |text|
    ensures LineBegins(text, index, s) <==> s == LineStart(text, index) && !(s == 0 && Max(0, index - NAME_REACH) > 0)
  {
    var floor := Max(0, index - NAME_REACH);
    var at := RFind(text, '\n', floor, index);
    if LineBegins(text, index, s) {
      assert s > 0 ==> text[s - 1] == '\n';
      assert at >= 0 ==> at < s;
    }
  }

  lemma {:induction false} TokensExactly(text: string, a: Assignment)
    requires 0 <= a.lo <= a.hi <= |text|
    ensures LooksLikeToken(text[a.lo..a.hi]) <==>
            && a.hi - a.lo >= 16 && (forall k :: a.lo <= k < a.hi ==> text[k] != '_')
            && exists k :: a.lo <= k < a.hi && '0' <= text[k] <= '9'
  {
    var key := text[a.lo..a.hi];
    assert forall k :: a.lo <= k < a.hi ==> key[k - a.lo] == text[k];
    if k :| a.lo <= k < a.hi && '0' <= text[k] <= '9' { assert IsDigit(key[k - a.lo]); }
    if i :| 0 <= i < |key| && IsDigit(key[i]) { assert '0' <= text[a.lo + i] <= '9'; }
    if '_' in key {
      var i :| 0 <= i < |key| && key[i] == '_';
      assert text[a.lo + i] == '_';
    }
  }

  /** A value starts where a name is assigned on the line, and only there. */
  lemma {:induction false} NamedExactly(syn: Syntax, text: string, index: int, v: int)
    requires 0 <= index <= |text| && syn.isSpace(' ') && syn.isSpace('\t')
    ensures EnvValueStart(syn, text, index) == Some(v) <==> Names(syn, text, index, v)
  {
    var s := LineStart(text, index);
    LineBeginsExactly(text, index, s);
    if EnvValueStart(syn, text, index) == Some(v) {
      var a := AssignmentOn(text, syn.isSpace, s).value;
      AssignedExactly(text, syn.isSpace, s, a);
      TokensExactly(text, a);
      assert LineBegins(text, index, s) && NamesAt(syn, text, s, a) && a.value == v;
    }
    if Names(syn, text, index, v) { ValueIsFound(syn, text, index, v); }
  }

  lemma {:induction false} ValueIsFound(syn: Syntax, text: string, index: int, v: int)
    requires 0 <= index <= |text| && syn.isSpace(' ') && syn.isSpace('\t') && Names(syn, text, index, v)
    ensures EnvValueStart(syn, text, index) == Some(v)
  {
    var s, a :| LineBegins(text, index, s) && NamesAt(syn, text, s, a) && a.value == v;
    LineBeginsExactly(text, index, s);
    AssignedExactly(text, syn.isSpace, s, a);
    TokensExactly(text, a);
  }

  // ----- the userinfo of a URI -----

  predicate HasScheme(text: string, lo: int, hi: int)
    requires 0 <= lo && hi <= |text|
  {
    exists i {:trigger SlashesAt(text, i)} :: lo <= i && i + 3 <= hi && SlashesAt(text, i)
  }

  predicate HasQuery(text: string, lo: int, hi: int)
    requires 0 <= lo <= hi <= |text|
  {
    exists i :: lo <= i < hi && (text[i] == '?' || text[i] == '#')
  }

  /** The password among the authorities read, first to last. */
  function InAuthorities(syn: Syntax, text: string, start: int, end: int, high: int, uris: seq<Offset>): Offset
    requires 0 <= start < end <= high <= |text|
    requires forall u :: u in uris ==> 0 <= u.lo <= u.hi <= high
  {
    if uris == [] || uris[0].lo > start then Offset(start, end)
    else
      assert uris[0] in uris;
      var first, last := uris[0].lo, uris[0].hi;
      var at := RFind(text, '@', first, last);
      if !(first <= start <= at) then InAuthorities(syn, text, start, end, high, uris[1..])
      else if last == high && high < |text| && HostChar(syn.isSpace)(text[high]) then Offset(start, end)
      else if start == at then Offset(Min(start + 1, end), end)
      else
        Offset(if start == Find(text, ':', first, at) && start + 1 < end then start + 1 else start,
               if at < end && !HasQuery(text, at, end) then at else end)
  }

  function Low(start: int): int {
    Max(0, start - URI_REACH)
  }

  function High(text: string, end: int): int {
    Min(|text|, end + URI_REACH)
  }

  /** The authorities of the URIs around a span. */
  function UrisAround(syn: Syntax, text: string, start: int, end: int): (uris: seq<Offset>)
    requires 0 <= start < end <= |text|
    ensures forall u :: u in uris ==> Low(start) < u.lo - 3 && IsAuthority(text, syn.isSpace, High(text, end), u)
    ensures Apart(uris)
  {
    AuthoritiesAre(text, syn.isSpace, Low(start), High(text, end));
    Authorities(text, syn.isSpace, Low(start), High(text, end))
  }

  /** Where the password lies in a span that begins between the slashes and the host of a URI; any
      other span stays as it is. */
  function PasswordBounds(syn: Syntax, text: string, start: int, end: int): Offset
    requires 0 <= start < end <= |text|
  {
    if !HasScheme(text, Low(start), start) || Find(text, '@', start, High(text, end)) < 0 then Offset(start, end)
    else InAuthorities(syn, text, start, end, High(text, end), UrisAround(syn, text, start, end))
  }

  /** The last "@" of an authority, or -1. */
  function LastAt(text: string, u: Offset): int
    requires 0 <= u.lo <= u.hi <= |text|
  {
    RFind(text, '@', u.lo, u.hi)
  }

  /** The span starts in the userinfo of this authority, which is read to its end. */
  ghost predicate StartsIn(syn: Syntax, text: string, start: int, end: int, u: Offset)
    requires 0 <= start < end <= |text|
  {
    && u in UrisAround(syn, text, start, end)
    && 0 <= u.lo <= u.hi <= |text| && u.lo <= start <= LastAt(text, u)
    && !(u.hi == High(text, end) < |text| && HostChar(syn.isSpace)(text[u.hi]))
  }

  /** What is given back of a span that starts in a userinfo: the separator it starts with, be it the
      last "@" or the first ":"; and otherwise all from the last "@" on, unless a query or a
      fragment follows. */
  ghost predicate GivenBack(text: string, start: int, end: int, u: Offset, p: int)
    requires 0 <= start < end <= |text| && 0 <= u.lo <= u.hi <= |text|
  {
    var at := LastAt(text, u);
    || (p == start && (start == at || (start == Find(text, ':', u.lo, at) && start + 1 < end)))
    || (start < at <= p < end && !HasQuery(text, at, end))
  }

  ghost predicate InUserinfo(syn: Syntax, text: string, start: int, end: int, p: int)
    requires 0 <= start < end <= |text|
  {
    exists u :: StartsIn(syn, text, start, end, u) && GivenBack(text, start, end, u, p)
  }

  /** An authority before the one the span starts in is passed over. */
  lemma {:induction false} AuthorityIsFound(syn: Syntax, text: string, start: int, end: int, high: int, uris: seq<Offset>, u: Offset)
    requires 0 <= start < end <= high <= |text| && Apart(uris)
    requires forall x :: x in uris ==> 0 <= x.lo <= x.hi <= high
    requires u in uris && u.lo <= start <= LastAt(text, u)
    ensures InAuthorities(syn, text, start, end, high, uris) == InAuthorities(syn, text, start, end, high, [u])
    decreases |uris|
  {
    if uris[0] != u {
      var k :| 0 <= k < |uris| && uris[k] == u;
      assert uris[0].hi + 4 <= uris[k].lo;
      AuthorityIsFound(syn, text, start, end, high, uris[1..], u);
    }
  }

  lemma {:induction false} NoneIsFound(syn: Syntax, text: string, start: int, end: int, high: int, uris: seq<Offset>)
    requires 0 <= start < end <= high <= |text|
    requires forall x :: x in uris ==> 0 <= x.lo <= x.hi <= high
    requires forall x :: x in uris ==> !(x.lo <= start <= LastAt(text, x))
    ensures InAuthorities(syn, text, start, end, high, uris) == Offset(start, end)
    decreases |uris|
  {
    if uris != [] && uris[0].lo <= start {
      assert uris[0] in uris;
      NoneIsFound(syn, text, start, end, high, uris[1..]);
    }
  }

  /** A span that starts in a userinfo passes the two quick tests. */
  lemma {:induction false} UserinfoIsSeen(syn: Syntax, text: string, start: int, end: int, u: Offset)
    requires 0 <= start < end <= |text| && u in UrisAround(syn, text, start, end) && u.lo <= start <= LastAt(text, u)
    ensures HasScheme(text, Low(start), start) && Find(text, '@', start, High(text, end)) >= 0
  {
    assert SlashesAt(text, u.lo - 3);
  }

  lemma {:induction false} AtMostOne(syn: Syntax, text: string, start: int, end: int, u: Offset, w: Offset)
    requires 0 <= start < end <= |text| && u in UrisAround(syn, text, start, end) && w in UrisAround(syn, text, start, end)
    requires u.lo <= start <= LastAt(text, u) && w.lo <= start <= LastAt(text, w)
    ensures u == w
  {
    var uris := UrisAround(syn, text, start, end);
    var j :| 0 <= j < |uris| && uris[j] == u;
    var k :| 0 <= k < |uris| && uris[k] == w;
  }

  lemma {:induction false} OneAuthority(syn: Syntax, text: string, start: int, end: int, u: Offset, p: int)
    requires 0 <= start <= p < end <= |text| && u in UrisAround(syn, text, start, end) && u.lo <= start <= LastAt(text, u)
    ensures var r := InAuthorities(syn, text, start, end, High(text, end), [u]);
            start <= r.lo <= r.hi <= end && (!(r.lo <= p < r.hi) <==> StartsIn(syn, text, start, end, u) && GivenBack(text, start, end, u, p))
  {
    assert [u][1..] == [];
  }

  /** A secret gives back exactly that: the authority is the one it starts in, and no other part
      of it is left out. */
  lemma {:induction false} PasswordTrims(syn: Syntax, text: string, start: int, end: int, p: int)
    requires 0 <= start <= p < end <= |text|
    ensures var r := PasswordBounds(syn, text, start, end);
            start <= r.lo <= r.hi <= end && (!(r.lo <= p < r.hi) <==> InUserinfo(syn, text, start, end, p))
  {
    var uris, high := UrisAround(syn, text, start, end), High(text, end);
    if u :| u in uris && u.lo <= start <= LastAt(text, u) {
      UserinfoIsSeen(syn, text, start, end, u);
      AuthorityIsFound(syn, text, start, end, high, uris, u);
      OneAuthority(syn, text, start, end, u, p);
      forall w | StartsIn(syn, text, start, end, w) ensures w == u {
        AtMostOne(syn, text, start, end, u, w);
      }
    } else {
      NoneIsFound(syn, text, start, end, high, uris);
    }
  }

  // ----- one span -----

  const ENV_VALUE_TYPES: set<string> := {"EMAIL_ADDRESS", "SECRET", "URL"}
  const DELIMITED_TYPES: set<string> := {"EMAIL_ADDRESS", "PHONE_NUMBER", "URL"}

  predicate CharAt(text: string, i: int, c: char) {
    0 <= i < |text| && text[i] == c
  }

  /** Whether an even number of backslashes stands before. */
  function Unescaped(text: string, index: int): bool
    requires 0 <= index <= |text|
  {
    index == 0 || text[index - 1] != '\\' || !Unescaped(text, index - 1)
  }

  /** A span inside a pair of delimiters, without them. */
  function InsidePair(text: string, s: Offset, opening: char, closing: char): Offset {
    var left := if CharAt(text, s.lo, opening) then s.lo else s.lo - 1;
    var right := if CharAt(text, s.hi - 1, closing) then s.hi - 1 else s.hi;
    if 0 <= left < right < |text| && text[left] == opening && text[right] == closing
       && Unescaped(text, left) && Unescaped(text, right) && Find(text, '\n', left, right) < 0
    then Offset(Max(s.lo, left + 1), Min(s.hi, right)) else s
  }

  function AfterName(syn: Syntax, text: string, s: Offset): Offset
    requires 0 <= s.lo < s.hi <= |text|
  {
    match EnvValueStart(syn, text, s.lo)
    case Some(v) => if s.lo < v < s.hi then Offset(v, s.hi) else s
    case None => s
  }

  /** An address without the punctuation after it. */
  function EmailEnd(text: string, lo: int, hi: int): (end: int)
    requires 0 <= lo < hi <= |text|
    ensures lo < end <= hi
    decreases hi
  {
    if hi - 1 > lo && text[hi - 1] in {',', ';', '.'} then EmailEnd(text, lo, hi - 1) else hi
  }

  /** The line of a span, from the start of its first line to the end of its last. */
  function LineOf(text: string, s: Offset): Offset
    requires 0 <= s.lo < s.hi <= |text|
  {
    var from := if Find(text, '\n', s.lo, s.hi) < 0 then s.lo else s.hi;
    var end := Find(text, '\n', from, |text|);
    Offset(RFind(text, '\n', 0, s.lo) + 1, if end < 0 then |text| else end)
  }

  function AfterField(syn: Syntax, text: string, line: Offset, s: Offset): Offset
    requires 0 <= line.lo <= line.hi <= |text| && 0 <= s.lo < s.hi <= |text|
  {
    match syn.emailField(text[line.lo..line.hi])
    case None => s
    case Some(m) =>
      var value := line.lo + m.1;
      if line.lo + m.0 <= s.lo < value < s.hi && Find(text, '@', value, s.hi) >= 0 then Offset(value, s.hi) else s
  }

  predicate Within(a: Offset, b: Offset) {
    b.lo <= a.lo && a.hi <= b.hi
  }

  function WithoutPairs(text: string, s: Offset): Offset {
    InsidePair(text, InsidePair(text, InsidePair(text, s, '"', '"'), '\'', '\''), '<', '>')
  }

  /** Without the punctuation and the field name of an address, or the wrapper of a path. */
  function Unwrapped(syn: Syntax, text: string, e: Entity, s: Offset): (r: Offset)
    requires 0 <= s.lo < s.hi <= |text| && 0 <= e.start < e.end <= |text|
    ensures Within(r, s)
  {
    var line := LineOf(text, Offset(e.start, e.end));
    if e.entityType == "EMAIL_ADDRESS" then AfterField(syn, text, line, Offset(s.lo, EmailEnd(text, s.lo, s.hi)))
    else if e.entityType != "URL" then s
    else match syn.path(text[line.lo..line.hi])
      case None => s
      case Some(p) => Offset(Max(s.lo, line.lo + p.lo), Min(s.hi, line.lo + p.hi))
  }

  function Delimited(syn: Syntax, text: string, e: Entity, s: Offset): Offset
    requires 0 <= s.lo < s.hi <= |text| && 0 <= e.start < e.end <= |text|
  {
    WithoutPairs(text, Unwrapped(syn, text, e, s))
  }

  /** The place of a span without its wrapper. */
  function Bounds(syn: Syntax, text: string, e: Entity): Offset
    requires 0 <= e.start < e.end <= |text|
  {
    var whole := Offset(e.start, e.end);
    var s := if e.entityType in ENV_VALUE_TYPES then AfterName(syn, text, whole) else whole;
    if e.entityType == "SECRET" then PasswordBounds(syn, text, s.lo, s.hi) else Delimited(syn, text, e, s)
  }

  function RefineBoundary(syn: Syntax, text: string, e: Entity): Entity
  {
    if (e.entityType !in DELIMITED_TYPES && e.entityType != "SECRET") || !(0 <= e.start < e.end <= |text|) then e
    else
      var s := Bounds(syn, text, e);
      if 0 <= s.lo < s.hi <= |text| && s != Offset(e.start, e.end)
      then e.(start := s.lo, end := s.hi, text := text[s.lo..s.hi]) else e
  }

  lemma {:induction false} PairWithin(text: string, s: Offset, opening: char, closing: char)
    ensures Within(InsidePair(text, s, opening, closing), s)
  {
  }

  lemma {:induction false} DelimitedWithin(syn: Syntax, text: string, e: Entity, s: Offset)
    requires 0 <= s.lo < s.hi <= |text| && 0 <= e.start < e.end <= |text|
    ensures Within(Delimited(syn, text, e, s), s)
  {
    WithinPairs(text, Unwrapped(syn, text, e, s));
  }

  lemma {:induction false} WithinPairs(text: string, s: Offset)
    ensures Within(WithoutPairs(text, s), s)
  {
    PairWithin(text, s, '"', '"');
    PairWithin(text, InsidePair(text, s, '"', '"'), '\'', '\'');
    PairWithin(text, InsidePair(text, InsidePair(text, s, '"', '"'), '\'', '\''), '<', '>');
  }

  /** Refining only ever shrinks a span, and leaves something of it. */
  lemma {:induction false} RefinedWithin(syn: Syntax, text: string, e: Entity)
    requires 0 <= e.start < e.end <= |text|
    ensures var r := RefineBoundary(syn, text, e);
            && e.start <= r.start < r.end <= e.end && r.entityType == e.entityType && r.score == e.score && r.source == e.source
            && (e.text == text[e.start..e.end] ==> r.text == text[r.start..r.end])
  {
    var whole := Offset(e.start, e.end);
    var s := if e.entityType in ENV_VALUE_TYPES then AfterName(syn, text, whole) else whole;
    if e.entityType == "SECRET" { PasswordTrims(syn, text, s.lo, s.hi, s.lo); } else { DelimitedWithin(syn, text, e, s); }
  }

  // ----- a model's span -----

  /** Whether an upper-case name is assigned on the line of a place. */
  function AssignsOn(syn: Syntax, text: string): int -> bool {
    (i: int) => 0 <= i <= |text| && EnvValueStart(syn, text, i).Some?
  }

  /** The stretches of a span, cut at the line breaks before an assignment. */
  function Pieces(text: string, assigns: int -> bool, start: int, from: int, end: int): (pieces: seq<Offset>)
    requires 0 <= start <= from <= end <= |text|
    ensures pieces != []
    decreases end - from
  {
    var cut := Find(text, '\n', from, end - 1);
    if cut < 0 then [Offset(start, end)]
    else if assigns(cut + 1) then [Offset(start, cut)] + Pieces(text, assigns, cut + 1, cut + 1, end)
    else Pieces(text, assigns, start, cut + 1, end)
  }

  function TrimBreaks(text: string, lo: int, hi: int): (end: int)
    requires 0 <= lo <= hi <= |text|
    ensures lo <= end <= hi && forall p :: end <= p < hi ==> IsBreak(text[p])
    decreases hi
  {
    if hi > lo && IsBreak(text[hi - 1]) then TrimBreaks(text, lo, hi - 1) else hi
  }

  function RefinePiece(syn: Syntax, text: string, e: Entity, piece: Offset): seq<Entity>
    requires 0 <= piece.lo <= piece.hi <= |text|
  {
    var end := TrimBreaks(text, piece.lo, piece.hi);
    if end <= piece.lo then []
    else
      var value := EnvValueStart(syn, text, piece.lo);
      if value.Some? && end <= value.value then []
      else if e.entityType == "SECRET" && PasswordBounds(syn, text, piece.lo, end).lo >= PasswordBounds(syn, text, piece.lo, end).hi then []
      else [RefineBoundary(syn, text, e.(start := piece.lo, end := end, text := text[piece.lo..end]))]
  }

  predicate AllInText(pieces: seq<Offset>, n: int) {
    forall k :: 0 <= k < |pieces| ==> 0 <= pieces[k].lo <= pieces[k].hi <= n
  }

  function RefinePieces(syn: Syntax, text: string, e: Entity, pieces: seq<Offset>): seq<Entity>
    requires AllInText(pieces, |text|)
  {
    if pieces == [] then []
    else RefinePieces(syn, text, e, pieces[..|pieces| - 1]) + RefinePiece(syn, text, e, pieces[|pieces| - 1])
  }

  /** Consecutive stretches of a range, a line break between any two. */
  ghost predicate Tiles(text: string, pieces: seq<Offset>, start: int, end: int) {
    && pieces != [] && AllInText(pieces, |text|) && pieces[0].lo == start && pieces[|pieces| - 1].hi == end
    && forall k {:trigger BreakAfter(text, pieces, k)} :: 0 <= k < |pieces| - 1 ==> BreakAfter(text, pieces, k)
  }

  ghost predicate BreakAfter(text: string, pieces: seq<Offset>, k: int)
    requires 0 <= k < |pieces| - 1
  {
    CharAt(text, pieces[k].hi, '\n') && pieces[k + 1].lo == pieces[k].hi + 1
  }

  lemma {:induction false} PiecesTile(text: string, assigns: int -> bool, start: int, from: int, end: int)
    requires 0 <= start <= from <= end <= |text|
    ensures Tiles(text, Pieces(text, assigns, start, from, end), start, end)
    decreases end - from
  {
    var cut := Find(text, '\n', from, end - 1);
    if cut < 0 {
      OneTile(text, start, end);
    } else {
      if assigns(cut + 1) {
        var rest := Pieces(text, assigns, cut + 1, cut + 1, end);
        PiecesTile(text, assigns, cut + 1, cut + 1, end);
        TileBefore(text, start, cut, rest, end);
      } else {
        PiecesTile(text, assigns, start, cut + 1, end);
      }
    }
  }

  lemma {:induction false} OneTile(text: string, start: int, end: int)
    requires 0 <= start <= end <= |text|
    ensures Tiles(text, [Offset(start, end)], start, end)
  {
  }

  lemma {:induction false} TileBefore(text: string, start: int, cut: int, rest: seq<Offset>, end: int)
    requires 0 <= start <= cut < |text| && text[cut] == '\n' && Tiles(text, rest, cut + 1, end)
    ensures Tiles(text, [Offset(start, cut)] + rest, start, end)
  {
    var pieces := [Offset(start, cut)] + rest;
    forall k | 0 <= k < |pieces| - 1 ensures BreakAfter(text, pieces, k) {
      if k > 0 { assert BreakAfter(text, rest, k - 1); }
    }
  }

  /** One after the other, inside a range, and none empty. */
  ghost predicate Ordered(entities: seq<Entity>, start: int, end: int) {
    && (forall i :: 0 <= i < |entities| ==> start <= entities[i].start < entities[i].end <= end)
    && (forall i, j :: 0 <= i < j < |entities| ==> entities[i].end <= entities[j].start)
  }

  lemma {:induction false} PieceWithin(syn: Syntax, text: string, e: Entity, piece: Offset)
    requires 0 <= piece.lo <= piece.hi <= |text|
    ensures Ordered(RefinePiece(syn, text, e, piece), piece.lo, piece.hi)
    ensures forall r :: r in RefinePiece(syn, text, e, piece) ==> r.text == text[r.start..r.end]
  {
    var end := TrimBreaks(text, piece.lo, piece.hi);
    if end > piece.lo {
      RefinedWithin(syn, text, e.(start := piece.lo, end := end, text := text[piece.lo..end]));
    }
  }

  lemma {:induction false} PiecesOrdered(syn: Syntax, text: string, e: Entity, pieces: seq<Offset>, start: int, end: int)
    requires Tiles(text, pieces, start, end)
    ensures Ordered(RefinePieces(syn, text, e, pieces), start, end)
    ensures forall r :: r in RefinePieces(syn, text, e, pieces) ==> r.text == text[r.start..r.end]
    decreases |pieces|
  {
    var n := |pieces| - 1;
    var front, last := pieces[..n], pieces[n];
    PieceWithin(syn, text, e, last);
    if n > 0 {
      FrontTiles(text, pieces, start, end);
      PiecesOrdered(syn, text, e, front, start, pieces[n - 1].hi);
      OrderedAfter(RefinePieces(syn, text, e, front), start, pieces[n - 1].hi, RefinePiece(syn, text, e, last), last.lo, end);
    } else {
      assert RefinePieces(syn, text, e, front) == [];
      assert RefinePieces(syn, text, e, pieces) == RefinePiece(syn, text, e, last);
    }
  }

  lemma {:induction false} FrontTiles(text: string, pieces: seq<Offset>, start: int, end: int)
    requires Tiles(text, pieces, start, end) && |pieces| > 1
    ensures Tiles(text, pieces[..|pieces| - 1], start, pieces[|pieces| - 2].hi)
    ensures pieces[|pieces| - 2].hi < pieces[|pieces| - 1].lo && start <= pieces[|pieces| - 2].hi
  {
    var n := |pieces| - 1;
    var front := pieces[..n];
    assert BreakAfter(text, pieces, n - 1);
    forall k | 0 <= k < |front| - 1 ensures BreakAfter(text, front, k) {
      assert BreakAfter(text, pieces, k);
    }
    StartFirst(text, front, start);
  }

  lemma {:induction false} StartFirst(text: string, pieces: seq<Offset>, start: int)
    requires pieces != [] && Tiles(text, pieces, start, pieces[|pieces| - 1].hi)
    ensures start <= pieces[|pieces| - 1].lo
    decreases |pieces|
  {
    if |pieces| > 1 {
      var n := |pieces| - 1;
      var front := pieces[..n];
      forall k | 0 <= k < |front| - 1 ensures BreakAfter(text, front, k) {
        assert BreakAfter(text, pieces, k);
      }
      StartFirst(text, front, start);
      assert BreakAfter(text, pieces, n - 1);
    }
  }

  lemma {:induction false} OrderedAfter(a: seq<Entity>, start: int, middle: int, b: seq<Entity>, from: int, end: int)
    requires Ordered(a, start, middle) && Ordered(b, from, end) && start <= middle <= from
    requires middle <= end
    ensures Ordered(a + b, start, end)
  {
  }

  /** The stretches of a whole span. */
  function Stretches(syn: Syntax, text: string, e: Entity): seq<Offset>
    requires 0 <= e.start < e.end <= |text|
  {
    Pieces(text, AssignsOn(syn, text), e.start, e.start, e.end)
  }

  function Refined(syn: Syntax, text: string, e: Entity): seq<Entity>
  {
    if e.start == e.end then []
    else if e.entityType !in ENV_VALUE_TYPES || !(0 <= e.start < e.end <= |text|) then [RefineBoundary(syn, text, e)]
    else
      PiecesTile(text, AssignsOn(syn, text), e.start, e.start, e.end);
      RefinePieces(syn, text, e, Stretches(syn, text, e))
  }

  /** A refined span is in pieces: in order, apart, none empty, all inside it. */
  lemma {:induction false} RefinedIsOrdered(syn: Syntax, text: string, e: Entity)
    requires 0 <= e.start < e.end <= |text|
    ensures Ordered(Refined(syn, text, e), e.start, e.end)
  {
    if e.entityType in ENV_VALUE_TYPES {
      PiecesTile(text, AssignsOn(syn, text), e.start, e.start, e.end);
      PiecesOrdered(syn, text, e, Stretches(syn, text, e), e.start, e.end);
    } else {
      RefinedWithin(syn, text, e);
    }
  }

  method RefineSpans(syn: Syntax, text: string, e: Entity) returns (refined: seq<Entity>)
    ensures refined == Refined(syn, text, e)
  {
    if e.start == e.end {
      return [];
    }
    if e.entityType !in ENV_VALUE_TYPES || !(0 <= e.start < e.end <= |text|) {
      return [RefineBoundary(syn, text, e)];
    }
    PiecesTile(text, AssignsOn(syn, text), e.start, e.start, e.end);
    var pieces := CutPieces(text, AssignsOn(syn, text), e.start, e.end);
    refined := [];
    for n := 0 to |pieces|
      invariant AllInText(pieces[..n], |text|) && refined == RefinePieces(syn, text, e, pieces[..n])
    {
      RefineNext(syn, text, e, pieces, n);
      var piece := RefineOne(syn, text, e, pieces[n]);
      refined := refined + piece;
    }
    assert pieces[..|pieces|] == pieces;
  }

  lemma {:induction false} RefineNext(syn: Syntax, text: string, e: Entity, pieces: seq<Offset>, n: nat)
    requires AllInText(pieces, |text|) && n < |pieces|
    ensures RefinePieces(syn, text, e, pieces[..n + 1]) == RefinePieces(syn, text, e, pieces[..n]) + RefinePiece(syn, text, e, pieces[n])
  {
    assert pieces[..n + 1][..n] == pieces[..n];
  }

  method RefineOne(syn: Syntax, text: string, e: Entity, piece: Offset) returns (refined: seq<Entity>)
    requires 0 <= piece.lo <= piece.hi <= |text|
    ensures refined == RefinePiece(syn, text, e, piece)
  {
    var end := piece.hi;
    while end > piece.lo && IsBreak(text[end - 1])
      invariant piece.lo <= end <= piece.hi && TrimBreaks(text, piece.lo, piece.hi) == TrimBreaks(text, piece.lo, end)
    {
      end := end - 1;
    }
    if end <= piece.lo {
      return [];
    }
    var value := EnvValueStart(syn, text, piece.lo);
    if value.Some? && end <= value.value {
      return [];
    }
    if e.entityType == "SECRET" {
      var password := PasswordBounds(syn, text, piece.lo, end);
      if password.lo >= password.hi {
        return [];
      }
    }
    return [RefineBoundary(syn, text, e.(start := piece.lo, end := end, text := text[piece.lo..end]))];
  }

  method CutPieces(text: string, assigns: int -> bool, first: int, end: int) returns (pieces: seq<Offset>)
    requires 0 <= first < end <= |text|
    ensures pieces == Pieces(text, assigns, first, first, end)
  {
    pieces := [];
    var start, from := first, first;
    var cut := Find(text, '\n', start, end - 1);
    while cut >= 0
      invariant first <= start <= from <= end && cut == Find(text, '\n', from, end - 1)
      invariant pieces + Pieces(text, assigns, start, from, end) == Pieces(text, assigns, first, first, end)
      decreases end - from
    {
      if assigns(cut + 1) {
        NextPiece(text, assigns, start, from, end, cut, pieces);
        pieces := pieces + [Offset(start, cut)];
        start := cut + 1;
      }
      from := cut + 1;
      cut := Find(text, '\n', from, end - 1);
    }
    pieces := pieces + [Offset(start, end)];
  }

  lemma {:induction false} NextPiece(text: string, assigns: int -> bool, start: int, from: int, end: int, cut: int, pieces: seq<Offset>)
    requires 0 <= start <= from <= end <= |text| && cut == Find(text, '\n', from, end - 1) >= 0
    requires assigns(cut + 1)
    ensures pieces + Pieces(text, assigns, start, from, end) == (pieces + [Offset(start, cut)]) + Pieces(text, assigns, cut + 1, cut + 1, end)
  {
    Moved(pieces, Offset(start, cut), Pieces(text, assigns, cut + 1, cut + 1, end));
  }

  lemma {:induction false} Moved<T>(a: seq<T>, x: T, b: seq<T>)
    ensures a + ([x] + b) == (a + [x]) + b
  {
  }
}
