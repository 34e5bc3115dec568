/**
 privaite/pii/boundaries.py: no character of a value is uncovered. What a span gives back is said
 here character by character.
 */
module RefinedValues {
  import opened Wrappers
  import opened Windows
  import opened Entities
  import opened Scanners
  import opened Boundaries

  // ----- delimiters -----

  /** The backslashes before a place are `n`. */
  ghost predicate BackslashesBefore(text: string, i: int, n: nat) {
    && n <= i <= |text| && (forall j :: i - n <= j < i ==> text[j] == '\\')
    && (n < i ==> !CharAt(text, i - n - 1, '\\'))
  }

  lemma {:induction false} CountedBackslashes(text: string, i: int) returns (n: nat)
    requires 0 <= i <= |text|
    ensures BackslashesBefore(text, i, n)
    decreases i
  {
    n := 0;
    if i > 0 && text[i - 1] == '\\' {
      n := CountedBackslashes(text, i - 1);
      n := n + 1;
    }
  }

  /** A place is unescaped if and only if their number is even. */
  lemma {:induction false} UnescapedExactly(text: string, i: int, n: nat)
    requires BackslashesBefore(text, i, n)
    ensures Unescaped(text, i) <==> n % 2 == 0
    decreases n
  {
    if n > 0 { UnescapedExactly(text, i - 1, n - 1); }
  }

  predicate Encloses(opening: char, closing: char) {
    (opening == closing == '"') || (opening == closing == '\'') || (opening == '<' && closing == '>')
  }

  /** A place that no backslash escapes. */
  ghost predicate Plain(text: string, i: int) {
    exists n: nat :: n % 2 == 0 && BackslashesBefore(text, i, n)
  }

  lemma {:induction false} PlainExactly(text: string, i: int)
    requires 0 <= i <= |text|
    ensures Unescaped(text, i) <==> Plain(text, i)
  {
    var n := CountedBackslashes(text, i);
    UnescapedExactly(text, i, n);
    if m: nat :| m % 2 == 0 && BackslashesBefore(text, i, m) { UnescapedExactly(text, i, m); }
  }

  /** Two matching delimiters, neither escaped, on one line. */
  ghost predicate IsPair(text: string, l: int, r: int) {
    && 0 <= l < r < |text| && Encloses(text[l], text[r]) && Plain(text, l) && Plain(text, r)
    && forall k :: l < k < r ==> text[k] != '\n'
  }

  /** Two such delimiters, each at an end of the span or just beyond it. */
  ghost predicate AtEnds(text: string, s: Offset, opening: char, closing: char, l: int, r: int) {
    && IsPair(text, l, r) && text[l] == opening && text[r] == closing
    && (l == s.lo || (l == s.lo - 1 && !CharAt(text, s.lo, opening)))
    && (r == s.hi - 1 || (r == s.hi && !CharAt(text, s.hi - 1, closing)))
  }

  lemma {:induction false} PairExactly(text: string, l: int, r: int)
    requires 0 <= l < r < |text| && Encloses(text[l], text[r])
    ensures IsPair(text, l, r) <==> Unescaped(text, l) && Unescaped(text, r) && Find(text, '\n', l, r) < 0
  {
    PlainExactly(text, l);
    PlainExactly(text, r);
  }

  /** A span loses the two delimiters around it, and nothing else. */
  lemma {:induction false} PairTrims(text: string, s: Offset, opening: char, closing: char, p: int)
    requires s.lo <= p < s.hi && Encloses(opening, closing)
    ensures var r := InsidePair(text, s, opening, closing);
            !(r.lo <= p < r.hi) <==> exists i, j :: AtEnds(text, s, opening, closing, i, j) && (p == i || p == j)
  {
    var left := if CharAt(text, s.lo, opening) then s.lo else s.lo - 1;
    var right := if CharAt(text, s.hi - 1, closing) then s.hi - 1 else s.hi;
    if 0 <= left < right < |text| && text[left] == opening && text[right] == closing {
      PairExactly(text, left, right);
      if IsPair(text, left, right) { assert AtEnds(text, s, opening, closing, left, right); }
    }
  }

  /** A delimiter of a pair that lies in a span, up to one place beyond either end. */
  ghost predicate IsDelimiter(text: string, start: int, end: int, p: int) {
    exists i, j :: IsPair(text, i, j) && start - 1 <= i && j <= end && (p == i || p == j)
  }

  lemma {:induction false} PairLeavesDelimiter(text: string, s: Offset, opening: char, closing: char, start: int, end: int, p: int)
    requires s.lo <= p < s.hi && Encloses(opening, closing) && start <= s.lo && s.hi <= end
    ensures var r := InsidePair(text, s, opening, closing);
            Within(r, s) && (r.lo <= p < r.hi || IsDelimiter(text, start, end, p))
  {
    PairTrims(text, s, opening, closing, p);
  }

  lemma {:induction false} PairsLeaveDelimiters(text: string, s: Offset, start: int, end: int, p: int)
    requires s.lo <= p < s.hi && start <= s.lo && s.hi <= end
    ensures var r := WithoutPairs(text, s); r.lo <= p < r.hi || IsDelimiter(text, start, end, p)
  {
    var a := InsidePair(text, s, '"', '"');
    var b := InsidePair(text, a, '\'', '\'');
    PairLeavesDelimiter(text, s, '"', '"', start, end, p);
    if a.lo <= p < a.hi {
      PairLeavesDelimiter(text, a, '\'', '\'', start, end, p);
      if b.lo <= p < b.hi { PairLeavesDelimiter(text, b, '<', '>', start, end, p); }
    }
  }

  // ----- lines -----

  /** The line on which a span starts, up to the end of the one on which it ends. */
  ghost predicate IsLine(text: string, start: int, end: int, line: Offset) {
    && 0 <= line.lo <= start < end <= line.hi <= |text|
    && (line.lo > 0 ==> CharAt(text, line.lo - 1, '\n')) && (line.hi < |text| ==> CharAt(text, line.hi, '\n'))
    && (forall k :: line.lo <= k < start ==> text[k] != '\n') && (forall k :: end <= k < line.hi ==> text[k] != '\n')
  }

  lemma {:induction false} LineExactly(text: string, start: int, end: int, line: Offset)
    requires 0 <= start < end <= |text|
    ensures IsLine(text, start, end, line) <==> line == LineOf(text, Offset(start, end))
  {
    LineIs(text, start, end);
  }

  lemma {:induction false} LineIs(text: string, start: int, end: int)
    requires 0 <= start < end <= |text|
    ensures IsLine(text, start, end, LineOf(text, Offset(start, end)))
  {
  }

  // ----- what may be given back -----

  /** In the assignment of a name on the line a span starts on. */
  ghost predicate InName(syn: Syntax, text: string, start: int, p: int)
    requires 0 <= start <= |text|
  {
    var value := EnvValueStart(syn, text, start);
    value.Some? && p < value.value
  }

  lemma {:induction false} NameTrims(syn: Syntax, text: string, s: Offset, p: int)
    requires 0 <= s.lo <= p < s.hi <= |text|
    ensures var r := AfterName(syn, text, s);
            !(r.lo <= p < r.hi) <==> InName(syn, text, s.lo, p) && !InName(syn, text, s.lo, s.hi - 1)
  {
  }

  /** In a run of "," and ";" and "." at the end. */
  predicate InEndingRun(text: string, end: int, p: int) {
    0 <= p < end <= |text| && forall q :: p <= q < end ==> text[q] == ',' || text[q] == ';' || text[q] == '.'
  }

  lemma {:induction false} EndingTrims(text: string, lo: int, hi: int, p: int)
    requires 0 <= lo <= p < hi <= |text|
    ensures p >= EmailEnd(text, lo, hi) <==> lo < p && InEndingRun(text, hi, p)
    decreases hi
  {
    if hi - 1 > lo && text[hi - 1] in {',', ';', '.'} && p < hi - 1 {
      EndingTrims(text, lo, hi - 1, p);
    }
  }

  /** In front of the value of an address field whose name starts no later than the span, and that has
      an "@" in the span. */
  ghost predicate InField(syn: Syntax, text: string, line: Offset, s: Offset, p: int)
    requires 0 <= line.lo <= line.hi <= |text|
  {
    var field := syn.emailField(text[line.lo..line.hi]);
    && field.Some? && line.lo + field.value.0 <= s.lo && p < line.lo + field.value.1 < s.hi
    && exists q :: line.lo + field.value.1 <= q < s.hi && CharAt(text, q, '@')
  }

  lemma {:induction false} FieldTrims(syn: Syntax, text: string, line: Offset, s: Offset, p: int)
    requires 0 <= line.lo <= line.hi <= |text| && 0 <= s.lo <= p < s.hi <= |text|
    ensures var r := AfterField(syn, text, line, s);
            !(r.lo <= p < r.hi) <==> InField(syn, text, line, s, p)
  {
    var field := syn.emailField(text[line.lo..line.hi]);
    if field.Some? && s.lo < line.lo + field.value.1 < s.hi {
      var at := Find(text, '@', line.lo + field.value.1, s.hi);
      assert at >= 0 ==> CharAt(text, at, '@');
    }
  }

  ghost predicate InAddressField(syn: Syntax, text: string, start: int, end: int, p: int) {
    exists line :: IsLine(text, start, end, line) && exists s :: Within(s, Offset(start, end)) && InField(syn, text, line, s, p)
  }

  /** Outside the inner part of a path that is the whole line. */
  ghost predicate OffPath(syn: Syntax, text: string, line: Offset, p: int)
    requires 0 <= line.lo <= line.hi <= |text|
  {
    var path := syn.path(text[line.lo..line.hi]);
    path.Some? && !(line.lo + path.value.lo <= p < line.lo + path.value.hi)
  }

  ghost predicate OutsidePath(syn: Syntax, text: string, start: int, end: int, p: int) {
    exists line :: IsLine(text, start, end, line) && OffPath(syn, text, line, p)
  }

  /** Structure around a secret in one stretch, of which `end` is where the line breaks behind it
      start: a break, the assignment of a name on the line it starts on, or a part of a URI whose
      userinfo it, or the value of that name, starts in. */
  ghost predicate Structure(syn: Syntax, text: string, start: int, end: int, p: int)
    requires 0 <= start < end <= |text|
  {
    var value := EnvValueStart(syn, text, start);
    || InName(syn, text, start, p)
    || InUserinfo(syn, text, start, end, p)
    || (value.Some? && start < value.value < end && InUserinfo(syn, text, value.value, end, p))
  }

  ghost predicate AddressStructure(syn: Syntax, text: string, start: int, end: int, p: int)
    requires 0 <= start < end <= |text|
  {
    || InName(syn, text, start, p) || InEndingRun(text, end, p)
    || InAddressField(syn, text, start, end, p) || IsDelimiter(text, start, end, p)
  }

  ghost predicate UrlStructure(syn: Syntax, text: string, start: int, end: int, p: int)
    requires 0 <= start < end <= |text|
  {
    InName(syn, text, start, p) || OutsidePath(syn, text, start, end, p) || IsDelimiter(text, start, end, p)
  }

  /** What a span of a type may leave out. */
  ghost predicate LeftOut(syn: Syntax, text: string, entityType: string, start: int, end: int, p: int) {
    0 <= start < end <= |text| &&
    if entityType == "SECRET" then Structure(syn, text, start, end, p)
    else if entityType == "EMAIL_ADDRESS" then AddressStructure(syn, text, start, end, p)
    else if entityType == "URL" then UrlStructure(syn, text, start, end, p)
    else entityType == "PHONE_NUMBER" && IsDelimiter(text, start, end, p)
  }

  lemma {:induction false} SecretKeepsValue(syn: Syntax, text: string, e: Entity, p: int)
    requires 0 <= e.start < e.end <= |text| && e.entityType == "SECRET" && e.start <= p < e.end
    ensures var r := RefineBoundary(syn, text, e); r.start <= p < r.end || Structure(syn, text, e.start, e.end, p)
  {
    var s := AfterName(syn, text, Offset(e.start, e.end));
    if p >= s.lo { PasswordTrims(syn, text, s.lo, s.hi, p); }
  }

  lemma {:induction false} AddressKeepsValue(syn: Syntax, text: string, e: Entity, s: Offset, p: int)
    requires 0 <= e.start <= s.lo <= p < s.hi <= e.end <= |text| && e.entityType == "EMAIL_ADDRESS" && s.hi == e.end
    ensures var r := Delimited(syn, text, e, s);
            r.lo <= p < r.hi || InEndingRun(text, e.end, p) || InAddressField(syn, text, e.start, e.end, p) || IsDelimiter(text, e.start, e.end, p)
  {
    var line := LineOf(text, Offset(e.start, e.end));
    LineIs(text, e.start, e.end);
    EndingTrims(text, s.lo, s.hi, p);
    var t := Offset(s.lo, EmailEnd(text, s.lo, s.hi));
    if p < t.hi {
      FieldTrims(syn, text, line, t, p);
      var u := AfterField(syn, text, line, t);
      if u.lo <= p < u.hi { PairsLeaveDelimiters(text, u, e.start, e.end, p); }
    }
  }

  lemma {:induction false} PathTrims(syn: Syntax, text: string, e: Entity, s: Offset, line: Offset, p: int)
    requires 0 <= e.start < e.end <= |text| && 0 <= s.lo <= p < s.hi <= |text| && e.entityType == "URL"
    requires IsLine(text, e.start, e.end, line)
    ensures var r := Unwrapped(syn, text, e, s); !(r.lo <= p < r.hi) <==> OffPath(syn, text, line, p)
  {
    LineExactly(text, e.start, e.end, line);
  }

  lemma {:induction false} UrlKeepsValue(syn: Syntax, text: string, e: Entity, s: Offset, p: int)
    requires 0 <= e.start <= s.lo <= p < s.hi <= e.end <= |text| && e.entityType == "URL"
    ensures var r := Delimited(syn, text, e, s);
            r.lo <= p < r.hi || OutsidePath(syn, text, e.start, e.end, p) || IsDelimiter(text, e.start, e.end, p)
  {
    LineIs(text, e.start, e.end);
    PathTrims(syn, text, e, s, LineOf(text, Offset(e.start, e.end)), p);
    var t := Unwrapped(syn, text, e, s);
    if t.lo <= p < t.hi { PairsLeaveDelimiters(text, t, e.start, e.end, p); }
  }

  lemma {:induction false} BoundsAreKept(syn: Syntax, text: string, e: Entity, p: int)
    requires 0 <= e.start <= p < e.end <= |text|
    ensures var r := RefineBoundary(syn, text, e);
            || r.start <= p < r.end
            || (e.entityType in DELIMITED_TYPES + {"SECRET"} && !(Bounds(syn, text, e).lo <= p < Bounds(syn, text, e).hi))
  {
  }

  lemma {:induction false} NothingToUnwrap(syn: Syntax, text: string, e: Entity)
    requires 0 <= e.start < e.end <= |text| && e.entityType == "PHONE_NUMBER"
    ensures Bounds(syn, text, e) == WithoutPairs(text, Offset(e.start, e.end))
  {
    assert e.entityType !in ENV_VALUE_TYPES;
  }

  lemma {:induction false} PhoneBounds(syn: Syntax, text: string, e: Entity, p: int)
    requires 0 <= e.start <= p < e.end <= |text| && e.entityType == "PHONE_NUMBER"
    ensures var r := Bounds(syn, text, e); r.lo <= p < r.hi || IsDelimiter(text, e.start, e.end, p)
  {
    NothingToUnwrap(syn, text, e);
    PairsLeaveDelimiters(text, Offset(e.start, e.end), e.start, e.end, p);
  }

  lemma {:induction false} UrlBounds(syn: Syntax, text: string, e: Entity, p: int)
    requires 0 <= e.start <= p < e.end <= |text| && e.entityType == "URL"
    ensures var r := Bounds(syn, text, e); r.lo <= p < r.hi || UrlStructure(syn, text, e.start, e.end, p)
  {
    var s := AfterName(syn, text, Offset(e.start, e.end));
    NameTrims(syn, text, Offset(e.start, e.end), p);
    if s.lo <= p { UrlKeepsValue(syn, text, e, s, p); }
  }

  lemma {:induction false} AddressBounds(syn: Syntax, text: string, e: Entity, p: int)
    requires 0 <= e.start <= p < e.end <= |text| && e.entityType == "EMAIL_ADDRESS"
    ensures var r := Bounds(syn, text, e); r.lo <= p < r.hi || AddressStructure(syn, text, e.start, e.end, p)
  {
    var s := AfterName(syn, text, Offset(e.start, e.end));
    NameTrims(syn, text, Offset(e.start, e.end), p);
    if s.lo <= p { AddressKeepsValue(syn, text, e, s, p); }
  }

  /** A refined span of any type leaves out nothing else. */
  lemma {:induction false} BoundaryKeepsValue(syn: Syntax, text: string, e: Entity, p: int)
    requires 0 <= e.start <= p < e.end <= |text|
    ensures var r := RefineBoundary(syn, text, e); r.start <= p < r.end || LeftOut(syn, text, e.entityType, e.start, e.end, p)
  {
    BoundsAreKept(syn, text, e, p);
    if e.entityType == "SECRET" { SecretKeepsValue(syn, text, e, p); }
    if e.entityType == "EMAIL_ADDRESS" { AddressBounds(syn, text, e, p); }
    if e.entityType == "URL" { UrlBounds(syn, text, e, p); }
    if e.entityType == "PHONE_NUMBER" { PhoneBounds(syn, text, e, p); }
  }

  // ----- and what is given back -----

  /** A step takes these characters of a span, and no others. */
  ghost predicate Takes(s: Offset, r: Offset, taken: int -> bool) {
    Within(r, s) && forall p {:trigger taken(p)} :: s.lo <= p < s.hi ==> (taken(p) <==> !(r.lo <= p < r.hi))
  }

  ghost function NameTaken(syn: Syntax, text: string, s: Offset): int -> bool
    requires 0 <= s.lo < s.hi <= |text|
  {
    p => InName(syn, text, s.lo, p) && !InName(syn, text, s.lo, s.hi - 1)
  }

  ghost function UserinfoTaken(syn: Syntax, text: string, s: Offset): int -> bool
    requires 0 <= s.lo < s.hi <= |text|
  {
    p => InUserinfo(syn, text, s.lo, s.hi, p)
  }

  ghost function EndingTaken(text: string, s: Offset): int -> bool {
    p => s.lo < p && InEndingRun(text, s.hi, p)
  }

  ghost function FieldTaken(syn: Syntax, text: string, line: Offset, s: Offset): int -> bool
    requires 0 <= line.lo <= line.hi <= |text|
  {
    p => InField(syn, text, line, s, p)
  }

  ghost function PathTaken(syn: Syntax, text: string, line: Offset): int -> bool
    requires 0 <= line.lo <= line.hi <= |text|
  {
    p => OffPath(syn, text, line, p)
  }

  ghost function PairTaken(text: string, s: Offset, opening: char, closing: char): int -> bool {
    p => exists i, j :: AtEnds(text, s, opening, closing, i, j) && (p == i || p == j)
  }

  /** The pairs around a span are taken one kind after the other. */
  ghost predicate LosesPairs(text: string, s: Offset, r: Offset) {
    exists a, b :: && Takes(s, a, PairTaken(text, s, '"', '"')) && Takes(a, b, PairTaken(text, a, '\'', '\''))
                   && Takes(b, r, PairTaken(text, b, '<', '>'))
  }

  ghost predicate InText(text: string, s: Offset) {
    0 <= s.lo < s.hi <= |text|
  }

  ghost predicate LosesName(syn: Syntax, text: string, s: Offset, r: Offset) {
    InText(text, s) && InText(text, r) && Takes(s, r, NameTaken(syn, text, s))
  }

  /** What each type loses, step by step. */
  ghost predicate SecretLoses(syn: Syntax, text: string, s: Offset, r: Offset) {
    exists a :: LosesName(syn, text, s, a) && Takes(a, r, UserinfoTaken(syn, text, a))
  }

  ghost predicate AddressLoses(syn: Syntax, text: string, s: Offset, r: Offset) {
    exists line, a, b, c ::
      && IsLine(text, s.lo, s.hi, line) && LosesName(syn, text, s, a) && Takes(a, b, EndingTaken(text, a))
      && Takes(b, c, FieldTaken(syn, text, line, b)) && LosesPairs(text, c, r)
  }

  ghost predicate UrlLoses(syn: Syntax, text: string, s: Offset, r: Offset) {
    exists line, a, b ::
      IsLine(text, s.lo, s.hi, line) && LosesName(syn, text, s, a) && Takes(a, b, PathTaken(syn, text, line)) && LosesPairs(text, b, r)
  }

  ghost predicate Loses(syn: Syntax, text: string, entityType: string, s: Offset, r: Offset) {
    if entityType == "SECRET" then SecretLoses(syn, text, s, r)
    else if entityType == "EMAIL_ADDRESS" then AddressLoses(syn, text, s, r)
    else if entityType == "URL" then UrlLoses(syn, text, s, r)
    else if entityType == "PHONE_NUMBER" then LosesPairs(text, s, r)
    else r == s
  }

  lemma {:induction false} PairIsTaken(text: string, s: Offset, opening: char, closing: char)
    requires Encloses(opening, closing)
    ensures Takes(s, InsidePair(text, s, opening, closing), PairTaken(text, s, opening, closing))
  {
    PairWithin(text, s, opening, closing);
    forall p | s.lo <= p < s.hi
      ensures PairTaken(text, s, opening, closing)(p) <==> !(InsidePair(text, s, opening, closing).lo <= p < InsidePair(text, s, opening, closing).hi)
    {
      PairTrims(text, s, opening, closing, p);
    }
  }

  lemma {:induction false} PairsAreTaken(text: string, s: Offset)
    ensures LosesPairs(text, s, WithoutPairs(text, s))
  {
    var a := InsidePair(text, s, '"', '"');
    var b := InsidePair(text, a, '\'', '\'');
    PairIsTaken(text, s, '"', '"');
    PairIsTaken(text, a, '\'', '\'');
    PairIsTaken(text, b, '<', '>');
  }

  lemma {:induction false} NameIsTaken(syn: Syntax, text: string, s: Offset)
    requires InText(text, s)
    ensures LosesName(syn, text, s, AfterName(syn, text, s))
  {
    var r := AfterName(syn, text, s);
    forall p | s.lo <= p < s.hi ensures NameTaken(syn, text, s)(p) <==> !(r.lo <= p < r.hi) {
      NameTrims(syn, text, s, p);
    }
  }

  lemma {:induction false} SecretIsTaken(syn: Syntax, text: string, e: Entity)
    requires InText(text, Offset(e.start, e.end)) && e.entityType == "SECRET"
    ensures SecretLoses(syn, text, Offset(e.start, e.end), Bounds(syn, text, e))
  {
    var s := Offset(e.start, e.end);
    var a := AfterName(syn, text, s);
    var r := PasswordBounds(syn, text, a.lo, a.hi);
    NameIsTaken(syn, text, s);
    PasswordTrims(syn, text, a.lo, a.hi, a.lo);
    forall p | a.lo <= p < a.hi ensures UserinfoTaken(syn, text, a)(p) <==> !(r.lo <= p < r.hi) {
      PasswordTrims(syn, text, a.lo, a.hi, p);
    }
    assert Takes(a, r, UserinfoTaken(syn, text, a));
  }

  lemma {:induction false} EndingIsTaken(text: string, s: Offset)
    requires InText(text, s)
    ensures Takes(s, Offset(s.lo, EmailEnd(text, s.lo, s.hi)), EndingTaken(text, s))
  {
    forall p | s.lo <= p < s.hi ensures EndingTaken(text, s)(p) <==> p >= EmailEnd(text, s.lo, s.hi) {
      EndingTrims(text, s.lo, s.hi, p);
    }
  }

  lemma {:induction false} FieldIsTaken(syn: Syntax, text: string, line: Offset, s: Offset)
    requires InText(text, s) && 0 <= line.lo <= line.hi <= |text|
    ensures Takes(s, AfterField(syn, text, line, s), FieldTaken(syn, text, line, s))
  {
    var r := AfterField(syn, text, line, s);
    forall p | s.lo <= p < s.hi ensures FieldTaken(syn, text, line, s)(p) <==> !(r.lo <= p < r.hi) {
      FieldTrims(syn, text, line, s, p);
    }
  }

  lemma {:induction false} AddressIsTaken(syn: Syntax, text: string, e: Entity)
    requires InText(text, Offset(e.start, e.end)) && e.entityType == "EMAIL_ADDRESS"
    ensures AddressLoses(syn, text, Offset(e.start, e.end), Bounds(syn, text, e))
  {
    var s := Offset(e.start, e.end);
    var line, a := LineOf(text, s), AfterName(syn, text, s);
    var b := Offset(a.lo, EmailEnd(text, a.lo, a.hi));
    var c := AfterField(syn, text, line, b);
    LineIs(text, e.start, e.end);
    NameIsTaken(syn, text, s);
    EndingIsTaken(text, a);
    FieldIsTaken(syn, text, line, b);
    PairsAreTaken(text, c);
    assert Bounds(syn, text, e) == WithoutPairs(text, c);
  }

  lemma {:induction false} UrlIsTaken(syn: Syntax, text: string, e: Entity)
    requires InText(text, Offset(e.start, e.end)) && e.entityType == "URL"
    ensures UrlLoses(syn, text, Offset(e.start, e.end), Bounds(syn, text, e))
  {
    var s := Offset(e.start, e.end);
    var line, a := LineOf(text, s), AfterName(syn, text, s);
    var b := Unwrapped(syn, text, e, a);
    LineIs(text, e.start, e.end);
    NameIsTaken(syn, text, s);
    forall p | a.lo <= p < a.hi ensures PathTaken(syn, text, line)(p) <==> !(b.lo <= p < b.hi) {
      PathTrims(syn, text, e, a, line, p);
    }
    assert Takes(a, b, PathTaken(syn, text, line));
    PairsAreTaken(text, b);
    assert Bounds(syn, text, e) == WithoutPairs(text, b);
  }

  /** What is left of a span. */
  ghost predicate Leaves(e: Entity, r: Offset, b: Entity) {
    if r.lo < r.hi then b.start == r.lo && b.end == r.hi else b == e
  }

  lemma {:induction false} BoundsAreLeft(syn: Syntax, text: string, e: Entity)
    requires InText(text, Offset(e.start, e.end)) && e.entityType in DELIMITED_TYPES + {"SECRET"}
    requires Within(Bounds(syn, text, e), Offset(e.start, e.end))
    ensures Leaves(e, Bounds(syn, text, e), RefineBoundary(syn, text, e))
  {
  }

  lemma {:induction false} SecretIsLeft(syn: Syntax, text: string, e: Entity)
    requires InText(text, Offset(e.start, e.end)) && e.entityType == "SECRET"
    ensures Leaves(e, Bounds(syn, text, e), RefineBoundary(syn, text, e))
  {
    var a := AfterName(syn, text, Offset(e.start, e.end));
    PasswordTrims(syn, text, a.lo, a.hi, a.lo);
    BoundsAreLeft(syn, text, e);
  }

  lemma {:induction false} DelimitedIsLeft(syn: Syntax, text: string, e: Entity)
    requires InText(text, Offset(e.start, e.end)) && e.entityType in DELIMITED_TYPES
    ensures Leaves(e, Bounds(syn, text, e), RefineBoundary(syn, text, e))
  {
    var s := Offset(e.start, e.end);
    DelimitedWithin(syn, text, e, if e.entityType in ENV_VALUE_TYPES then AfterName(syn, text, s) else s);
    assert e.entityType != "SECRET";
    BoundsAreLeft(syn, text, e);
  }

  lemma {:induction false} PhoneIsTaken(syn: Syntax, text: string, e: Entity)
    requires InText(text, Offset(e.start, e.end)) && e.entityType == "PHONE_NUMBER"
    ensures LosesPairs(text, Offset(e.start, e.end), Bounds(syn, text, e))
  {
    NothingToUnwrap(syn, text, e);
    PairsAreTaken(text, Offset(e.start, e.end));
  }

  /** A span loses just what its type does, in that order, unless nothing would be left of it; of any
      other type it loses nothing. */
  lemma {:induction false} BoundaryExactly(syn: Syntax, text: string, e: Entity) returns (r: Offset)
    requires InText(text, Offset(e.start, e.end))
    ensures Loses(syn, text, e.entityType, Offset(e.start, e.end), r) && Leaves(e, r, RefineBoundary(syn, text, e))
  {
    r := if e.entityType in DELIMITED_TYPES + {"SECRET"} then Bounds(syn, text, e) else Offset(e.start, e.end);
    if e.entityType == "SECRET" {
      SecretIsTaken(syn, text, e);
      SecretIsLeft(syn, text, e);
    } else if e.entityType in DELIMITED_TYPES {
      DelimitedIsLeft(syn, text, e);
      if e.entityType == "EMAIL_ADDRESS" { AddressIsTaken(syn, text, e); }
      if e.entityType == "URL" { UrlIsTaken(syn, text, e); }
      if e.entityType == "PHONE_NUMBER" { PhoneIsTaken(syn, text, e); }
    }
  }

  // ----- a model's span -----

  /** One of the stretches, and not the last, ends here. */
  ghost predicate CutAt(pieces: seq<Offset>, c: int) {
    exists k :: 0 <= k < |pieces| - 1 && pieces[k].hi == c
  }

  lemma {:induction false} CutsAre(text: string, assigns: int -> bool, start: int, from: int, end: int, c: int)
    requires 0 <= start <= from <= end <= |text| && CutAt(Pieces(text, assigns, start, from, end), c)
    ensures from <= c < end - 1 && text[c] == '\n' && assigns(c + 1)
    decreases end - from
  {
    var cut := Find(text, '\n', from, end - 1);
    if assigns(cut + 1) {
      var pieces, rest := Pieces(text, assigns, start, from, end), Pieces(text, assigns, cut + 1, cut + 1, end);
      var k :| 0 <= k < |pieces| - 1 && pieces[k].hi == c;
      if k > 0 {
        assert rest[k - 1].hi == c;
        CutsAre(text, assigns, cut + 1, cut + 1, end, c);
      }
    } else {
      CutsAre(text, assigns, start, cut + 1, end, c);
    }
  }

  lemma {:induction false} CutIsThere(text: string, assigns: int -> bool, start: int, from: int, end: int, c: int)
    requires 0 <= start <= from <= c < end - 1 && end <= |text| && text[c] == '\n' && assigns(c + 1)
    ensures CutAt(Pieces(text, assigns, start, from, end), c)
    decreases end - from
  {
    var cut := Find(text, '\n', from, end - 1);
    if assigns(cut + 1) {
      var pieces, rest := Pieces(text, assigns, start, from, end), Pieces(text, assigns, cut + 1, cut + 1, end);
      assert pieces[0].hi == cut;
      if cut < c {
        CutIsThere(text, assigns, cut + 1, cut + 1, end, c);
        var k :| 0 <= k < |rest| - 1 && rest[k].hi == c;
        assert pieces[k + 1] == rest[k];
      }
    } else {
      CutIsThere(text, assigns, start, cut + 1, end, c);
    }
  }

  /** The stretches of a range end at a line break exactly where the line behind it is one that `assigns`. */
  lemma {:induction false} PiecesExactly(text: string, assigns: int -> bool, start: int, end: int, c: int)
    requires 0 <= start <= end <= |text|
    ensures CutAt(Pieces(text, assigns, start, start, end), c) <==> start <= c < end - 1 && text[c] == '\n' && assigns(c + 1)
  {
    if CutAt(Pieces(text, assigns, start, start, end), c) { CutsAre(text, assigns, start, start, end, c); }
    if start <= c < end - 1 && text[c] == '\n' && assigns(c + 1) { CutIsThere(text, assigns, start, start, end, c); }
  }

  /** For the stretches of a span, that is a line that assigns an upper-case name. */
  lemma {:induction false} AssignsExactly(syn: Syntax, text: string, i: int)
    requires 0 <= i <= |text|
    ensures AssignsOn(syn, text)(i) <==> EnvValueStart(syn, text, i).Some?
    ensures forall e: Entity :: 0 <= e.start < e.end <= |text| ==>
              Stretches(syn, text, e) == Pieces(text, AssignsOn(syn, text), e.start, e.start, e.end)
  {
  }

  lemma {:induction false} TrimExactly(text: string, lo: int, hi: int, p: int)
    requires 0 <= lo <= p < hi <= |text|
    ensures p >= TrimBreaks(text, lo, hi) <==> forall q :: p <= q < hi ==> text[q] == '\n' || text[q] == '\r'
    decreases hi
  {
    if text[hi - 1] == '\n' || text[hi - 1] == '\r' {
      if p < hi - 1 { TrimExactly(text, lo, hi - 1, p); }
    }
  }

  /** All of a secret is structure of a URI. */
  ghost predicate AllGivenBack(syn: Syntax, text: string, start: int, end: int)
    requires 0 <= start < end <= |text|
  {
    forall p :: start <= p < end ==> InUserinfo(syn, text, start, end, p)
  }

  lemma {:induction false} GivenBackExactly(syn: Syntax, text: string, start: int, end: int)
    requires 0 <= start < end <= |text|
    ensures AllGivenBack(syn, text, start, end) <==> PasswordBounds(syn, text, start, end).lo >= PasswordBounds(syn, text, start, end).hi
  {
    var r := PasswordBounds(syn, text, start, end);
    PasswordTrims(syn, text, start, end, start);
    if r.lo < r.hi {
      PasswordTrims(syn, text, start, end, r.lo);
    } else {
      forall p | start <= p < end ensures InUserinfo(syn, text, start, end, p) {
        PasswordTrims(syn, text, start, end, p);
      }
    }
  }

  /** The rest of a stretch, without the breaks at its end, holds no value: nothing is left, it ends in the
      name on its line, or it is a secret that is all given back. */
  ghost predicate NoValue(syn: Syntax, text: string, entityType: string, start: int, end: int)
    requires 0 <= start <= end <= |text|
  {
    end == start || InName(syn, text, start, end - 1) || (entityType == "SECRET" && AllGivenBack(syn, text, start, end))
  }

  /** A stretch is dropped exactly then. */
  lemma {:induction false} DroppedExactly(syn: Syntax, text: string, e: Entity, piece: Offset)
    requires 0 <= piece.lo <= piece.hi <= |text|
    ensures RefinePiece(syn, text, e, piece) == [] <==>
            NoValue(syn, text, e.entityType, piece.lo, TrimBreaks(text, piece.lo, piece.hi))
  {
    var end := TrimBreaks(text, piece.lo, piece.hi);
    if end > piece.lo { GivenBackExactly(syn, text, piece.lo, end); }
  }

  /** And otherwise the rest of it is refined as one span. */
  lemma {:induction false} StretchIsRefined(syn: Syntax, text: string, e: Entity, piece: Offset)
    requires 0 <= piece.lo <= piece.hi <= |text| && RefinePiece(syn, text, e, piece) != []
    ensures var end := TrimBreaks(text, piece.lo, piece.hi);
            RefinePiece(syn, text, e, piece) == [RefineBoundary(syn, text, e.(start := piece.lo, end := end, text := text[piece.lo..end]))]
  {
  }

  ghost predicate HeldBy(entities: seq<Entity>, p: int) {
    exists r :: r in entities && r.start <= p < r.end
  }

  lemma {:induction false} HeldByMore(a: seq<Entity>, b: seq<Entity>, p: int)
    ensures HeldBy(a, p) || HeldBy(b, p) ==> HeldBy(a + b, p)
  {
    if HeldBy(a, p) {
      var r :| r in a && r.start <= p < r.end;
      assert r in a + b;
    } else if HeldBy(b, p) {
      var r :| r in b && r.start <= p < r.end;
      assert r in a + b;
    }
  }

  lemma {:induction false} HeldByOne(r: Entity, p: int)
    ensures HeldBy([r], p) <==> r.start <= p < r.end
  {
    if r.start <= p < r.end { assert r in [r]; }
  }

  /** At the end of a stretch, where the line breaks are, or left out of the rest of it. */
  ghost predicate InPiece(syn: Syntax, text: string, entityType: string, piece: Offset, p: int) {
    && 0 <= piece.lo <= p < piece.hi <= |text|
    && var end := TrimBreaks(text, piece.lo, piece.hi);
    p >= end || LeftOut(syn, text, entityType, piece.lo, end, p)
  }

  lemma {:induction false} NameIsLeftOut(syn: Syntax, text: string, entityType: string, start: int, end: int, p: int)
    requires 0 <= start < end <= |text| && entityType in ENV_VALUE_TYPES && InName(syn, text, start, p)
    ensures LeftOut(syn, text, entityType, start, end, p)
  {
    assert entityType == "SECRET" || entityType == "EMAIL_ADDRESS" || entityType == "URL";
  }

  lemma {:induction false} NoValueIsLeftOut(syn: Syntax, text: string, entityType: string, start: int, end: int, p: int)
    requires 0 <= start <= p < end <= |text| && entityType in ENV_VALUE_TYPES && NoValue(syn, text, entityType, start, end)
    ensures LeftOut(syn, text, entityType, start, end, p)
  {
    if InName(syn, text, start, end - 1) {
      NameIsLeftOut(syn, text, entityType, start, end, p);
    } else {
      assert InUserinfo(syn, text, start, end, p);
    }
  }

  /** A stretch that is dropped has no value in it. */
  lemma {:induction false} DroppedHasNoValue(syn: Syntax, text: string, e: Entity, piece: Offset, p: int)
    requires 0 <= piece.lo <= p < piece.hi <= |text| && e.entityType in ENV_VALUE_TYPES && RefinePiece(syn, text, e, piece) == []
    ensures InPiece(syn, text, e.entityType, piece, p)
  {
    var end := TrimBreaks(text, piece.lo, piece.hi);
    DroppedExactly(syn, text, e, piece);
    if p < end { NoValueIsLeftOut(syn, text, e.entityType, piece.lo, end, p); }
  }

  /** A character of a stretch is covered, or may be left out. */
  lemma {:induction false} PieceKeepsValue(syn: Syntax, text: string, e: Entity, piece: Offset, p: int)
    requires 0 <= piece.lo <= p < piece.hi <= |text| && e.entityType in ENV_VALUE_TYPES
    ensures InPiece(syn, text, e.entityType, piece, p) || HeldBy(RefinePiece(syn, text, e, piece), p)
  {
    var end := TrimBreaks(text, piece.lo, piece.hi);
    if RefinePiece(syn, text, e, piece) == [] {
      DroppedHasNoValue(syn, text, e, piece, p);
    } else if p < end {
      var whole := e.(start := piece.lo, end := end, text := text[piece.lo..end]);
      BoundaryKeepsValue(syn, text, whole, p);
      HeldByOne(RefineBoundary(syn, text, whole), p);
    }
  }

  /** A character of the range is covered, or may be left out of its stretch, or a line break between
      two stretches. */
  ghost predicate Accounted(syn: Syntax, text: string, entityType: string, entities: seq<Entity>, pieces: seq<Offset>, p: int) {
    || HeldBy(entities, p)
    || (exists k :: 0 <= k < |pieces| && InPiece(syn, text, entityType, pieces[k], p))
    || (CharAt(text, p, '\n') && exists k :: 0 <= k < |pieces| && pieces[k].hi == p)
  }

  lemma {:induction false} AccountedMore(syn: Syntax, text: string, entityType: string, a: seq<Entity>, b: seq<Entity>, pieces: seq<Offset>, p: int)
    requires pieces != [] && Accounted(syn, text, entityType, a, pieces[..|pieces| - 1], p)
    ensures Accounted(syn, text, entityType, a + b, pieces, p)
  {
    var front := pieces[..|pieces| - 1];
    HeldByMore(a, b, p);
    if k :| 0 <= k < |front| && InPiece(syn, text, entityType, front[k], p) {
      assert InPiece(syn, text, entityType, pieces[k], p);
    } else if k :| 0 <= k < |front| && front[k].hi == p {
      assert pieces[k].hi == p;
    }
  }

  /** Before the last stretch: in an earlier one, or the line break between them. */
  lemma {:induction false} NotInLast(text: string, pieces: seq<Offset>, start: int, end: int, p: int)
    requires Boundaries.Tiles(text, pieces, start, end) && start <= p < pieces[|pieces| - 1].lo
    ensures |pieces| > 1 && Boundaries.Tiles(text, pieces[..|pieces| - 1], start, pieces[|pieces| - 2].hi)
    ensures p < pieces[|pieces| - 2].hi || (CharAt(text, p, '\n') && pieces[|pieces| - 2].hi == p)
  {
    FrontTiles(text, pieces, start, end);
    assert BreakAfter(text, pieces, |pieces| - 2);
  }

  lemma {:induction false} PiecesKeepValue(syn: Syntax, text: string, e: Entity, pieces: seq<Offset>, start: int, end: int, p: int)
    requires Boundaries.Tiles(text, pieces, start, end) && start <= p < end && e.entityType in ENV_VALUE_TYPES
    ensures Accounted(syn, text, e.entityType, RefinePieces(syn, text, e, pieces), pieces, p)
    decreases |pieces|
  {
    var n := |pieces| - 1;
    var front, last := RefinePieces(syn, text, e, pieces[..n]), RefinePiece(syn, text, e, pieces[n]);
    if pieces[n].lo <= p {
      PieceKeepsValue(syn, text, e, pieces[n], p);
      HeldByMore(front, last, p);
    } else {
      NotInLast(text, pieces, start, end, p);
      if p < pieces[n - 1].hi {
        PiecesKeepValue(syn, text, e, pieces[..n], start, pieces[n - 1].hi, p);
        AccountedMore(syn, text, e.entityType, front, last, pieces, p);
      } else {
        assert pieces[n - 1].hi == p;
      }
    }
  }

  /** No character of a value is uncovered: what is left out of a secret, an address or a URL is a
      line break at the end of a stretch or before one, or what its type may leave out of a stretch. */
  lemma {:induction false} RefinedKeepsValue(syn: Syntax, text: string, e: Entity, p: int)
    requires 0 <= e.start <= p < e.end <= |text| && e.entityType in ENV_VALUE_TYPES
    ensures Accounted(syn, text, e.entityType, Refined(syn, text, e), Stretches(syn, text, e), p)
  {
    PiecesTile(text, AssignsOn(syn, text), e.start, e.start, e.end);
    PiecesKeepValue(syn, text, e, Stretches(syn, text, e), e.start, e.end, p);
  }

  /** Only secrets, addresses and URLs are cut into stretches; any other span is refined as one, and an
      empty one is dropped. */
  lemma {:induction false} OthersAreNotCut(syn: Syntax, text: string, e: Entity)
    ensures e.start == e.end ==> Refined(syn, text, e) == []
    ensures e.start != e.end && e.entityType !in {"SECRET", "EMAIL_ADDRESS", "URL"} ==> Refined(syn, text, e) == [RefineBoundary(syn, text, e)]
  {
  }
}
