/**
 privaite/pii/boundaries.py: the two patterns a secret is refined with, an upper-case name
 assigned at the start of a line, and the authority of a URI.
 */
module Scanners {
  import opened Wrappers
  import opened Windows

  /** The first place from `i` on, before `hi`, that does not hold such a character. */
  function RunEnd(text: string, i: int, hi: int, ok: char -> bool): (r: int)
    requires 0 <= i <= hi <= |text|
    ensures i <= r <= hi && (forall k :: i <= k < r ==> ok(text[k])) && (r < hi ==> !ok(text[r]))
    decreases hi - i
  {
    if i < hi && ok(text[i]) then RunEnd(text, i + 1, hi, ok) else i
  }

  // ----- an assigned name -----

  predicate IsBlank(c: char) {
    c == ' ' || c == '\t'
  }

  predicate IsDigit(c: char) {
    '0' <= c <= '9'
  }

  predicate IsUpper(c: char) {
    'A' <= c <= 'Z'
  }

  predicate IsNameChar(c: char) {
    IsUpper(c) || IsDigit(c) || c == '_'
  }

  predicate IsBreak(c: char) {
    c == '\n' || c == '\r'
  }

  /** What a read tool puts behind the number of a line. */
  predicate IsMark(c: char) {
    c == ':' || c == '|' || c == '\t' || c == '\U{2192}'
  }

  /** No line break in a stretch of a text. */
  ghost predicate OnOneLine(text: string, lo: int, hi: int) {
    0 <= lo <= hi <= |text| && forall k :: lo <= k < hi ==> !IsBreak(text[k])
  }

  function Blanks(text: string, i: int): (r: int)
    requires 0 <= i <= |text|
    ensures i <= r && OnOneLine(text, i, r) && forall k :: i <= k < r ==> IsBlank(text[k])
  {
    RunEnd(text, i, |text|, IsBlank)
  }

  /** Behind the number of a line, if it has one; none where digits have no mark behind them. */
  function AfterNumber(text: string, i: int): (r: Option<int>)
    requires 0 <= i <= |text|
    ensures r.Some? ==> i <= r.value && OnOneLine(text, i, r.value)
  {
    var d := RunEnd(text, i, |text|, IsDigit);
    if d == i then Some(i)
    else if d < |text| && IsMark(text[d]) then Some(Blanks(text, d + 1)) else None
  }

  function AfterSign(text: string, i: int): (r: int)
    requires 0 <= i <= |text|
    ensures i <= r && OnOneLine(text, i, r)
  {
    if i < |text| && (text[i] == '+' || text[i] == '-') then Blanks(text, i + 1) else i
  }

  predicate StandsAt(text: string, i: int, word: string) {
    0 <= i && i + |word| <= |text| && text[i..i + |word|] == word
  }

  /** The length of the shell or container keyword that stands here. */
  function KeywordAt(text: string, i: int): nat {
    if StandsAt(text, i, "export") then 6
    else if StandsAt(text, i, "env") || StandsAt(text, i, "ENV") || StandsAt(text, i, "ARG") then 3
    else 0
  }

  /** Behind a keyword and its blanks, if they stand here. */
  function AfterKeyword(text: string, i: int): (r: Option<int>)
    requires 0 <= i <= |text|
    ensures r.Some? ==> i <= r.value && OnOneLine(text, i, r.value)
  {
    var n := KeywordAt(text, i);
    if n > 0 && i + n < |text| && IsBlank(text[i + n]) then
      KeywordIsOneLine(text, i);
      Some(Blanks(text, i + n))
    else None
  }

  lemma {:induction false} KeywordIsOneLine(text: string, i: int)
    requires 0 <= i && KeywordAt(text, i) > 0
    ensures OnOneLine(text, i, i + KeywordAt(text, i))
  {
    var n := KeywordAt(text, i);
    var word := text[i..i + n];
    assert word in {"export", "env", "ENV", "ARG"};
    forall k | i <= k < i + n ensures !IsBreak(text[k]) {
      assert word[k - i] == text[k];
    }
  }

  /** A name `[lo, hi)` and the place of its value. */
  datatype Assignment = Assignment(lo: int, hi: int, value: int)

  /** A name of two or more upper-case characters, "=", and a value that does not start with one. */
  function AssignedAt(text: string, isSpace: char -> bool, i: int): (r: Option<Assignment>)
    requires 0 <= i <= |text|
    ensures r.Some? ==> r.value.lo == i && IsAssignment(text, isSpace, r.value)
  {
    var hi := RunEnd(text, i, |text|, IsNameChar);
    var eq := Blanks(text, hi);
    if hi < i + 2 || !IsUpper(text[i]) || eq == |text| || text[eq] != '=' then None
    else
      var value := Blanks(text, eq + 1);
      assert Assigns(text, Assignment(i, hi, value), eq);
      if value == |text| || isSpace(text[value]) || text[value] == '=' then None else Some(Assignment(i, hi, value))
  }

  ghost predicate IsAssignment(text: string, isSpace: char -> bool, a: Assignment) {
    && 0 <= a.lo && a.lo + 2 <= a.hi < a.value < |text|
    && 'A' <= text[a.lo] <= 'Z'
    && (forall k :: a.lo <= k < a.hi ==> 'A' <= text[k] <= 'Z' || '0' <= text[k] <= '9' || text[k] == '_')
    && (exists eq {:trigger Assigns(text, a, eq)} :: Assigns(text, a, eq))
    && !isSpace(text[a.value]) && text[a.value] != '='
  }

  /** Nothing but blanks and the sign at `eq` stand between a name and its value. */
  ghost predicate Assigns(text: string, a: Assignment, eq: int) {
    && 0 <= a.hi <= eq < a.value <= |text| && text[eq] == '='
    && forall k :: a.hi <= k < a.value && k != eq ==> text[k] == ' ' || text[k] == '\t'
  }

  /** The assignment on the line that starts at `i`: behind blanks, a number, a sign and a keyword,
      where they are there. A keyword with no assignment behind it can be the name itself. */
  function AssignmentOn(text: string, isSpace: char -> bool, i: int): (r: Option<Assignment>)
    requires 0 <= i <= |text|
    ensures r.Some? ==> i <= r.value.lo && OnOneLine(text, i, r.value.lo) && IsAssignment(text, isSpace, r.value)
  {
    match AfterNumber(text, Blanks(text, i))
    case None => None
    case Some(n) =>
      var s := AfterSign(text, n);
      var k := AfterKeyword(text, s);
      if k.Some? && AssignedAt(text, isSpace, k.value).Some? then AssignedAt(text, isSpace, k.value)
      else AssignedAt(text, isSpace, s)
  }

  // ----- what stands before a name -----

  ghost predicate BlankRun(text: string, i: int, j: int) {
    0 <= i <= j <= |text| && forall k :: i <= k < j ==> text[k] == ' ' || text[k] == '\t'
  }

  ghost predicate DigitRun(text: string, i: int, j: int) {
    0 <= i < j <= |text| && forall k :: i <= k < j ==> '0' <= text[k] <= '9'
  }

  /** Blanks, and perhaps the number of a line with a mark behind it, and blanks. */
  ghost predicate NumberPart(text: string, i: int, n: int) {
    BlankRun(text, i, n) || exists d, e :: Numbered(text, i, d, e, n)
  }

  ghost predicate Numbered(text: string, i: int, d: int, e: int, n: int) {
    BlankRun(text, i, d) && DigitRun(text, d, e) && e < |text| && text[e] in {':', '|', '\t', '\U{2192}'} && BlankRun(text, e + 1, n)
  }

  /** Nothing, or a sign and blanks. */
  ghost predicate SignPart(text: string, n: int, g: int) {
    g == n || (0 <= n < |text| && (text[n] == '+' || text[n] == '-') && BlankRun(text, n + 1, g))
  }

  /** Nothing, or a keyword and blanks. */
  ghost predicate KeywordPart(text: string, g: int, lo: int) {
    g == lo || exists word :: word in {"export", "env", "ENV", "ARG"} && IsKeyword(text, g, lo, word)
  }

  ghost predicate IsKeyword(text: string, g: int, lo: int, word: string) {
    0 <= g && g + |word| < lo <= |text| && text[g..g + |word|] == word && BlankRun(text, g + |word|, lo)
  }

  /** What may stand on a line before a name. */
  ghost predicate Prefix(text: string, i: int, lo: int) {
    exists n, g :: NumberPart(text, i, n) && SignPart(text, n, g) && KeywordPart(text, g, lo)
  }

  lemma {:induction false} NumberIsPart(text: string, i: int)
    requires 0 <= i <= |text| && AfterNumber(text, Blanks(text, i)).Some?
    ensures NumberPart(text, i, AfterNumber(text, Blanks(text, i)).value)
  {
    var d := Blanks(text, i);
    var e := RunEnd(text, d, |text|, IsDigit);
    if e > d { assert Numbered(text, i, d, e, AfterNumber(text, d).value); }
  }

  lemma {:induction false} KeywordIsPart(text: string, g: int)
    requires 0 <= g <= |text| && AfterKeyword(text, g).Some?
    ensures KeywordPart(text, g, AfterKeyword(text, g).value)
  {
    var word := text[g..g + KeywordAt(text, g)];
    assert word in {"export", "env", "ENV", "ARG"} && IsKeyword(text, g, AfterKeyword(text, g).value, word);
  }

  /** Only that stands before an assigned name. */
  lemma {:induction false} AssignedBehindPrefix(text: string, isSpace: char -> bool, i: int)
    requires 0 <= i <= |text| && AssignmentOn(text, isSpace, i).Some?
    ensures Prefix(text, i, AssignmentOn(text, isSpace, i).value.lo)
  {
    var n := AfterNumber(text, Blanks(text, i)).value;
    var s, lo := AfterSign(text, n), AssignmentOn(text, isSpace, i).value.lo;
    NumberIsPart(text, i);
    assert SignPart(text, n, s);
    if lo != s { KeywordIsPart(text, s); }
    assert KeywordPart(text, s, lo);
  }

  /** The run of such characters ends where a character is not one. */
  lemma {:induction false} RunEndIs(text: string, i: int, hi: int, ok: char -> bool, r: int)
    requires 0 <= i <= r <= hi <= |text| && (forall k :: i <= k < r ==> ok(text[k])) && (r < hi ==> !ok(text[r]))
    ensures RunEnd(text, i, hi, ok) == r
  {
  }

  /** A character that a name, a keyword or a sign begins with. */
  predicate Begins(c: char) {
    'A' <= c <= 'Z' || c == 'e' || c == '+' || c == '-'
  }

  lemma {:induction false} BlanksAre(text: string, i: int, j: int)
    requires BlankRun(text, i, j) && (j < |text| ==> !IsBlank(text[j]))
    ensures Blanks(text, i) == j
  {
    RunEndIs(text, i, |text|, IsBlank, j);
  }

  lemma {:induction false} NumberIs(text: string, i: int, n: int)
    requires 0 <= i <= |text| && NumberPart(text, i, n) && n < |text| && Begins(text[n])
    ensures AfterNumber(text, Blanks(text, i)) == Some(n)
  {
    if BlankRun(text, i, n) {
      BlanksAre(text, i, n);
    } else {
      var d, e :| Numbered(text, i, d, e, n);
      BlanksAre(text, i, d);
      RunEndIs(text, d, |text|, IsDigit, e);
      BlanksAre(text, e + 1, n);
    }
  }

  lemma {:induction false} SignIs(text: string, n: int, g: int)
    requires 0 <= n <= g < |text| && SignPart(text, n, g) && Begins(text[g]) && (g == n ==> text[g] != '+' && text[g] != '-')
    ensures AfterSign(text, n) == g
  {
    if g != n { BlanksAre(text, n + 1, g); }
  }

  lemma {:induction false} AssignedIs(text: string, isSpace: char -> bool, a: Assignment)
    requires isSpace(' ') && isSpace('\t') && IsAssignment(text, isSpace, a)
    ensures AssignedAt(text, isSpace, a.lo) == Some(a)
  {
    var eq :| Assigns(text, a, eq);
    RunEndIs(text, a.lo, |text|, IsNameChar, a.hi);
    BlanksAre(text, a.hi, eq);
    BlanksAre(text, eq + 1, a.value);
  }

  lemma {:induction false} WordStands(text: string, g: int, word: string)
    requires word in {"export", "env", "ENV", "ARG"} && StandsAt(text, g, word)
    ensures KeywordAt(text, g) == |word| && (text[g] == 'e' || text[g] == 'E' || text[g] == 'A')
  {
    assert text[g] == word[0] && text[g + 1] == word[1];
    if StandsAt(text, g, "export") { assert text[g..g + 6][1] == text[g + 1]; }
    if StandsAt(text, g, "env") { assert text[g..g + 3][1] == text[g + 1]; }
  }

  lemma {:induction false} KeywordIs(text: string, g: int, lo: int, word: string)
    requires word in {"export", "env", "ENV", "ARG"} && IsKeyword(text, g, lo, word) && lo < |text| && !IsBlank(text[lo])
    ensures AfterKeyword(text, g) == Some(lo) && Begins(text[g]) && text[g] != '+' && text[g] != '-'
  {
    WordStands(text, g, word);
    BlanksAre(text, g + |word|, lo);
    assert text[g + |word|] == ' ' || text[g + |word|] == '\t';
  }

  lemma {:induction false} KeywordHasLetters(text: string, i: int)
    requires 0 <= i && KeywordAt(text, i) > 0
    ensures forall k :: i <= k < i + KeywordAt(text, i) ==> 'A' <= text[k] <= 'z'
  {
    var word := text[i..i + KeywordAt(text, i)];
    assert word in {"export", "env", "ENV", "ARG"};
    assert forall k :: i <= k < i + |word| ==> text[k] == word[k - i];
  }

  /** A keyword that is the name itself has no name behind it. */
  lemma {:induction false} NameIsNoKeyword(text: string, isSpace: char -> bool, a: Assignment)
    requires IsAssignment(text, isSpace, a) && AfterKeyword(text, a.lo).Some?
    ensures AssignedAt(text, isSpace, AfterKeyword(text, a.lo).value) == None
  {
    var eq :| Assigns(text, a, eq);
    KeywordHasLetters(text, a.lo);
    assert text[a.hi] == '=' || IsBlank(text[a.hi]);
    BlanksAre(text, a.hi, eq);
  }

  /** An assignment is found on a line if and only if it stands there, behind what may stand before it. */
  lemma {:induction false} AssignedExactly(text: string, isSpace: char -> bool, i: int, a: Assignment)
    requires 0 <= i <= |text| && isSpace(' ') && isSpace('\t')
    ensures AssignmentOn(text, isSpace, i) == Some(a) <==> Prefix(text, i, a.lo) && IsAssignment(text, isSpace, a)
  {
    if AssignmentOn(text, isSpace, i) == Some(a) { AssignedBehindPrefix(text, isSpace, i); }
    if Prefix(text, i, a.lo) && IsAssignment(text, isSpace, a) { AssignmentIsFound(text, isSpace, i, a); }
  }

  lemma {:induction false} AssignmentIsFound(text: string, isSpace: char -> bool, i: int, a: Assignment)
    requires 0 <= i <= |text| && isSpace(' ') && isSpace('\t') && Prefix(text, i, a.lo) && IsAssignment(text, isSpace, a)
    ensures AssignmentOn(text, isSpace, i) == Some(a)
  {
    var n, g :| NumberPart(text, i, n) && SignPart(text, n, g) && KeywordPart(text, g, a.lo);
    AssignedIs(text, isSpace, a);
    if g != a.lo {
      var word :| word in {"export", "env", "ENV", "ARG"} && IsKeyword(text, g, a.lo, word);
      KeywordIs(text, g, a.lo, word);
    } else if AfterKeyword(text, g).Some? {
      NameIsNoKeyword(text, isSpace, a);
    }
    SignIs(text, n, g);
    NumberIs(text, i, n);
  }

  // ----- the authorities of the URIs in a range -----

  /** Letters of a scheme. Without regard to case, four more match than those of ASCII. */
  predicate IsLetter(c: char) {
    'a' <= c <= 'z' || 'A' <= c <= 'Z' || c in {'\U{130}', '\U{131}', '\U{17F}', '\U{212A}'}
  }

  predicate IsSchemeChar(c: char) {
    IsLetter(c) || IsDigit(c) || c == '+' || c == '.' || c == '-'
  }

  const MAX_SCHEME := 32

  predicate SlashesAt(text: string, i: int) {
    0 <= i && i + 3 <= |text| && text[i] == ':' && text[i + 1] == '/' && text[i + 2] == '/'
  }

  /** The characters of an authority, as the pattern takes them. */
  function HostChar(isSpace: char -> bool): char -> bool {
    (c: char) => !isSpace(c) && c !in {'/', '?', '#', '"', '\'', '<', '>'}
  }

  predicate EndsHost(isSpace: char -> bool, c: char) {
    isSpace(c) || c == '/' || c == '?' || c == '#' || c == '"' || c == '\'' || c == '<' || c == '>'
  }

  /** The authority of the URI whose scheme starts here. */
  function UriAt(text: string, isSpace: char -> bool, i: int, high: int): (r: Option<Offset>)
    requires 0 <= i < high <= |text|
    ensures r.Some? ==> i + 4 <= r.value.lo && IsAuthority(text, isSpace, high, r.value)
  {
    if !IsLetter(text[i]) then None
    else
      var colon := RunEnd(text, i + 1, high, IsSchemeChar);
      if colon - i > MAX_SCHEME || colon + 3 > high || !SlashesAt(text, colon) then None
      else Some(Offset(colon + 3, RunEnd(text, colon + 3, high, HostChar(isSpace))))
  }

  /** Behind "://", as far as the characters of an authority go. */
  ghost predicate IsAuthority(text: string, isSpace: char -> bool, high: int, u: Offset) {
    && 3 < u.lo <= u.hi <= high <= |text| && SlashesAt(text, u.lo - 3) && IsSchemeChar(text[u.lo - 4])
    && (forall k :: u.lo <= k < u.hi ==> !EndsHost(isSpace, text[k])) && (u.hi < high ==> EndsHost(isSpace, text[u.hi]))
  }

  /** Those of all URIs that start from `from` on, one after the other. */
  function Authorities(text: string, isSpace: char -> bool, from: int, high: int): seq<Offset>
    requires 0 <= from && high <= |text|
    decreases high - from
  {
    if from >= high then []
    else match UriAt(text, isSpace, from, high)
      case None => Authorities(text, isSpace, from + 1, high)
      case Some(u) => [u] + Authorities(text, isSpace, u.hi, high)
  }

  ghost predicate AuthorityFrom(text: string, isSpace: char -> bool, from: int, high: int, u: Offset) {
    from + 4 <= u.lo && IsAuthority(text, isSpace, high, u)
  }

  ghost predicate Apart(uris: seq<Offset>) {
    forall j, k :: 0 <= j < k < |uris| ==> uris[j].hi + 4 <= uris[k].lo
  }

  /** They are authorities, apart and in order. */
  lemma {:induction false} AuthoritiesAre(text: string, isSpace: char -> bool, from: int, high: int)
    requires 0 <= from && high <= |text|
    ensures forall u :: u in Authorities(text, isSpace, from, high) ==> AuthorityFrom(text, isSpace, from, high, u)
    ensures Apart(Authorities(text, isSpace, from, high))
    decreases high - from
  {
    if from < high {
      match UriAt(text, isSpace, from, high)
      case None => AuthoritiesAre(text, isSpace, from + 1, high);
      case Some(u) =>
        AuthoritiesAre(text, isSpace, u.hi, high);
        ApartBefore(u, Authorities(text, isSpace, u.hi, high));
    }
  }

  lemma {:induction false} ApartBefore(u: Offset, rest: seq<Offset>)
    requires Apart(rest) && forall r :: r in rest ==> u.hi + 4 <= r.lo
    ensures Apart([u] + rest)
  {
    var all := [u] + rest;
    forall j, k | 0 <= j < k < |all| ensures all[j].hi + 4 <= all[k].lo {
      if j == 0 { assert all[k] in rest; } else { assert all[j] == rest[j - 1] && all[k] == rest[k - 1]; }
    }
  }

  /** A scheme of at most 32 characters, which begins with a letter, stands before `c`, and begins at
      `from` or behind it. */
  ghost predicate SchemeBefore(text: string, from: int, c: int) {
    exists i :: IsScheme(text, from, i, c)
  }

  ghost predicate IsScheme(text: string, from: int, i: int, c: int) {
    0 <= from <= i < c <= |text| && c - i <= 32 && IsLetter(text[i]) && forall k :: i < k < c ==> IsSchemeChar(text[k])
  }

  /** The colon of a URI lies in the authority of another. */
  ghost predicate Swallowed(uris: seq<Offset>, u: Offset) {
    exists w :: w in uris && w.lo <= u.lo - 3 < w.hi
  }

  /** What may stand in a scheme is no white space. */
  ghost predicate SchemesAreWords(isSpace: char -> bool) {
    forall c :: IsSchemeChar(c) || c == ':' ==> !isSpace(c)
  }

  lemma {:induction false} UriIs(text: string, isSpace: char -> bool, i: int, high: int, u: Offset)
    requires 0 <= i < high <= |text| && IsAuthority(text, isSpace, high, u) && IsScheme(text, i, i, u.lo - 3)
    ensures UriAt(text, isSpace, i, high) == Some(u)
  {
    RunEndIs(text, i + 1, high, IsSchemeChar, u.lo - 3);
    RunEndIs(text, u.lo, high, HostChar(isSpace), u.hi);
  }

  lemma {:induction false} UriHasScheme(text: string, isSpace: char -> bool, i: int, high: int)
    requires 0 <= i < high <= |text| && UriAt(text, isSpace, i, high).Some?
    ensures IsScheme(text, i, i, UriAt(text, isSpace, i, high).value.lo - 3)
  {
  }

  /** Two schemes that overlap stand before the same colon. */
  lemma {:induction false} OneColon(text: string, from: int, i: int, c: int, d: int)
    requires IsScheme(text, from, from, d) && IsScheme(text, from, i, c) && i <= d && c < |text| && d < |text| && text[c] == text[d] == ':'
    ensures c == d
  {
    assert i != d;
    assert !IsSchemeChar(':');
  }

  /** A URI that begins in the authority of another one ends in it too, or at least its colon does. */
  lemma {:induction false} ColonIsInside(text: string, isSpace: char -> bool, high: int, w: Offset, i: int, c: int)
    requires SchemesAreWords(isSpace) && IsAuthority(text, isSpace, high, w) && c < high
    requires IsScheme(text, w.lo, i, c) && text[c] == ':' && i < w.hi
    ensures c < w.hi
  {
    forall k | w.lo <= k <= c && i <= k ensures !EndsHost(isSpace, text[k]) {
      assert k == i ==> IsSchemeChar(text[k]);
    }
  }

  /** A URI that begins before the end of the one found is that one, or its colon lies in there. */
  lemma {:induction false} FoundOrInside(text: string, isSpace: char -> bool, from: int, high: int, w: Offset, u: Offset, i: int)
    requires 0 <= from < high <= |text| && SchemesAreWords(isSpace) && UriAt(text, isSpace, from, high) == Some(w)
    requires IsAuthority(text, isSpace, high, u) && IsScheme(text, from, i, u.lo - 3) && i < w.hi
    ensures u == w || w.lo <= u.lo - 3 < w.hi
  {
    UriHasScheme(text, isSpace, from, high);
    if i <= w.lo - 3 {
      OneColon(text, from, i, u.lo - 3, w.lo - 3);
      SameAuthority(text, isSpace, high, u, w);
    } else {
      assert IsScheme(text, w.lo, i, u.lo - 3);
      ColonIsInside(text, isSpace, high, w, i, u.lo - 3);
    }
  }

  /** Every URI of a range is found, unless its colon lies in the authority of another. */
  lemma {:induction false} AuthorityIsThere(text: string, isSpace: char -> bool, from: int, high: int, u: Offset, i: int)
    requires 0 <= from && high <= |text| && SchemesAreWords(isSpace)
    requires IsAuthority(text, isSpace, high, u) && IsScheme(text, from, i, u.lo - 3)
    ensures u in Authorities(text, isSpace, from, high) || Swallowed(Authorities(text, isSpace, from, high), u)
    decreases high - from
  {
    match UriAt(text, isSpace, from, high)
    case None =>
      if i == from { UriIs(text, isSpace, from, high, u); }
      AuthorityIsThere(text, isSpace, from + 1, high, u, i);
    case Some(w) =>
      if i < w.hi {
        FoundOrInside(text, isSpace, from, high, w, u, i);
        assert Authorities(text, isSpace, from, high)[0] == w;
      } else {
        AuthorityIsThere(text, isSpace, w.hi, high, u, i);
        StillThere(w, Authorities(text, isSpace, w.hi, high), u);
      }
  }

  lemma {:induction false} SameAuthority(text: string, isSpace: char -> bool, high: int, u: Offset, w: Offset)
    requires IsAuthority(text, isSpace, high, u) && IsAuthority(text, isSpace, high, w) && u.lo == w.lo
    ensures u == w
  {
  }

  lemma {:induction false} StillThere(w: Offset, rest: seq<Offset>, u: Offset)
    requires u in rest || Swallowed(rest, u)
    ensures u in [w] + rest || Swallowed([w] + rest, u)
  {
    if x :| x in rest && x.lo <= u.lo - 3 < x.hi { assert x in [w] + rest; }
  }

  lemma {:induction false} AuthorityHasScheme(text: string, isSpace: char -> bool, from: int, high: int, u: Offset)
    requires 0 <= from && high <= |text| && u in Authorities(text, isSpace, from, high)
    ensures SchemeBefore(text, from, u.lo - 3)
    decreases high - from
  {
    match UriAt(text, isSpace, from, high)
    case None =>
      AuthorityHasScheme(text, isSpace, from + 1, high, u);
      var i :| IsScheme(text, from + 1, i, u.lo - 3);
      assert IsScheme(text, from, i, u.lo - 3);
    case Some(w) =>
      UriHasScheme(text, isSpace, from, high);
      if u != w {
        AuthorityHasScheme(text, isSpace, w.hi, high, u);
        var i :| IsScheme(text, w.hi, i, u.lo - 3);
        assert IsScheme(text, from, i, u.lo - 3);
      } else {
        assert IsScheme(text, from, from, u.lo - 3);
      }
  }

  lemma {:induction false} NoneIsSwallowed(uris: seq<Offset>, u: Offset)
    requires Apart(uris) && u in uris && forall w :: w in uris ==> w.lo <= w.hi
    ensures !Swallowed(uris, u)
  {
    var j :| 0 <= j < |uris| && uris[j] == u;
    forall w | w in uris ensures !(w.lo <= u.lo - 3 < w.hi) {
      var k :| 0 <= k < |uris| && uris[k] == w;
    }
  }

  /** The authorities found in a range are those of all URIs in it, but those whose colon lies in another. */
  lemma {:induction false} AuthoritiesExactly(text: string, isSpace: char -> bool, from: int, high: int, u: Offset)
    requires 0 <= from && high <= |text| && SchemesAreWords(isSpace)
    ensures u in Authorities(text, isSpace, from, high) <==>
            && IsAuthority(text, isSpace, high, u) && SchemeBefore(text, from, u.lo - 3)
            && !Swallowed(Authorities(text, isSpace, from, high), u)
  {
    var uris := Authorities(text, isSpace, from, high);
    AuthoritiesAre(text, isSpace, from, high);
    if u in uris {
      assert AuthorityFrom(text, isSpace, from, high, u);
      AuthorityHasScheme(text, isSpace, from, high, u);
      forall w | w in uris ensures w.lo <= w.hi { assert AuthorityFrom(text, isSpace, from, high, w); }
      NoneIsSwallowed(uris, u);
    }
    if IsAuthority(text, isSpace, high, u) && SchemeBefore(text, from, u.lo - 3) {
      var i :| IsScheme(text, from, i, u.lo - 3);
      AuthorityIsThere(text, isSpace, from, high, u, i);
    }
  }
}
