/**
 The shape of a numbered placeholder (`<PERSON_1>`), as PLACEHOLDER_LITERAL in
 privaite/pii/mapping.py describes it: `<`, a type of 1 to 100 characters without
 brackets, `_`, digits, `>`.
 */
module Literals {

  predicate IsBracket(c: char) { c == '<' || c == '>' }

  predicate IsDigit(c: char) { '0' <= c <= '9' }

  predicate Bracketless(s: string) {
    forall i :: 0 <= i < |s| ==> !IsBracket(s[i])
  }

  predicate AllDigits(s: string) {
    forall i :: 0 <= i < |s| ==> IsDigit(s[i])
  }

  /** The text between the brackets, split by the regular expression at `k`: a type of
      `k` characters, an underscore, and a non-empty run of digits. */
  predicate SplitsAt(body: string, k: nat) {
    && 1 <= k <= 100
    && k + 1 < |body|
    && body[k] == '_'
    && AllDigits(body[k + 1..])
  }

  /** Index of the last underscore, or |s| when there is none. */
  function LastUnderscore(s: string): (k: nat)
    ensures k <= |s|
    ensures k < |s| ==> s[k] == '_'
    ensures forall i :: k < i < |s| ==> s[i] != '_'
    ensures k == |s| ==> forall i :: 0 <= i < |s| ==> s[i] != '_'
  {
    if s == "" then 0
    else if s[|s| - 1] == '_' then |s| - 1
    else
      var k := LastUnderscore(s[..|s| - 1]);
      if k == |s| - 1 then |s| else k
  }

  predicate IsBody(body: string) {
    Bracketless(body) && SplitsAt(body, LastUnderscore(body))
  }

  /** The scanner looks at one split only, and it is the only one the expression allows:
      digits hold no underscore, so the type part is the same whatever the match order. */
  lemma {:induction false} SplitIsUnique(body: string, k: nat)
    requires SplitsAt(body, k)
    ensures k == LastUnderscore(body)
  {
    DigitsAreNotUnderscores(body, k + 1);
  }

  lemma {:induction false} DigitsAreNotUnderscores(s: string, from: nat)
    requires from <= |s| && AllDigits(s[from..])
    ensures forall i :: from <= i < |s| ==> s[i] != '_'
  {
    forall i | from <= i < |s| ensures s[i] != '_' { assert s[i] == s[from..][i - from]; }
  }

  /** A complete placeholder-shaped string. */
  predicate IsLiteral(s: string) {
    && |s| >= 2
    && s[0] == '<'
    && s[|s| - 1] == '>'
    && IsBody(s[1..|s| - 1])
  }

  /** Group 1 of the match: the type part. */
  function LiteralType(s: string): (t: string)
    requires IsLiteral(s)
    ensures TypeShaped(t)
  {
    var body := s[1..|s| - 1];
    body[..LastUnderscore(body)]
  }

  /** The entity types whose placeholders the scanner recognises. */
  predicate TypeShaped(t: string) {
    1 <= |t| <= 100 && Bracketless(t)
  }

  function DigitChar(d: nat): char
    requires d < 10
  {
    '0' + d as char
  }

  /** Decimal notation of a number. */
  function Decimal(n: nat): (s: string)
    ensures |s| > 0 && AllDigits(s)
  {
    if n < 10 then [DigitChar(n)] else Decimal(n / 10) + [DigitChar(n % 10)]
  }

  lemma {:induction false} DecimalInjective(a: nat, b: nat)
    requires Decimal(a) == Decimal(b)
    ensures a == b
  {
    var s, t := Decimal(a), Decimal(b);
    if a >= 10 { assert |Decimal(a / 10)| > 0; }
    if b >= 10 { assert |Decimal(b / 10)| > 0; }
    assert s[|s| - 1] == DigitChar(a % 10) && t[|t| - 1] == DigitChar(b % 10);
    if a >= 10 {
      assert s[..|s| - 1] == Decimal(a / 10);
      assert t[..|t| - 1] == Decimal(b / 10);
      DecimalInjective(a / 10, b / 10);
    }
  }

  /** The placeholder with number `n` for type `t`. */
  function Numbered(t: string, n: nat): (s: string)
    ensures |s| == |t| + |Decimal(n)| + 3
  {
    "<" + t + "_" + Decimal(n) + ">"
  }

  lemma {:induction false} NumberedBody(t: string, n: nat)
    ensures var s := Numbered(t, n);
            s[0] == '<' && s[|s| - 1] == '>' && s[1..|s| - 1] == t + "_" + Decimal(n)
  {
    var s := Numbered(t, n);
    assert s == ("<" + (t + "_" + Decimal(n))) + ">";
  }

  lemma {:induction false} NumberedInjective(t: string, a: nat, b: nat)
    requires Numbered(t, a) == Numbered(t, b)
    ensures a == b
  {
    NumberedBody(t, a);
    NumberedBody(t, b);
    assert (t + "_" + Decimal(a))[|t| + 1..] == Decimal(a);
    assert (t + "_" + Decimal(b))[|t| + 1..] == Decimal(b);
    DecimalInjective(a, b);
  }

  /** A placeholder is recognised as one exactly when its type has the expected shape. */
  lemma {:induction false} NumberedIsLiteral(t: string, n: nat)
    ensures IsLiteral(Numbered(t, n)) <==> TypeShaped(t)
    ensures TypeShaped(t) ==> LiteralType(Numbered(t, n)) == t
  {
    NumberedBody(t, n);
    var body := t + "_" + Decimal(n);
    assert body[|t|] == '_' && body[|t| + 1..] == Decimal(n);
    assert body[..|t|] == t;
    assert forall i :: 0 <= i < |t| ==> body[i] == t[i];
    if TypeShaped(t) {
      assert SplitsAt(body, |t|);
      SplitIsUnique(body, |t|);
    } else if IsLiteral(Numbered(t, n)) {
      DigitsAreNotUnderscores(body, |t| + 1);
      assert LastUnderscore(body) == |t|;
      assert Bracketless(t) by {
        forall i | 0 <= i < |t| ensures !IsBracket(t[i]) { assert !IsBracket(body[i]); }
      }
    }
  }

  /** Where the first bracket at or after `i` stands, |text| when there is none. */
  function NextBracket(text: string, i: nat): (j: nat)
    requires i <= |text|
    ensures i <= j <= |text|
    ensures forall k :: i <= k < j ==> !IsBracket(text[k])
    ensures j < |text| ==> IsBracket(text[j])
    decreases |text| - i
  {
    if i == |text| || IsBracket(text[i]) then i else NextBracket(text, i + 1)
  }

  datatype Span = Span(start: nat, end: nat)

  /** A span that holds a placeholder-shaped string. */
  predicate LiteralAt(text: string, sp: Span) {
    sp.start < sp.end <= |text| && IsLiteral(text[sp.start..sp.end])
  }

  /** The matches of PLACEHOLDER_LITERAL.finditer from position `i` on. */
  function FindLiterals(text: string, i: nat := 0): (found: seq<Span>)
    requires i <= |text|
    ensures forall k :: 0 <= k < |found| ==>
                          i <= found[k].start < found[k].end <= |text|
    decreases |text| - i
  {
    if i == |text| then []
    else if text[i] != '<' then FindLiterals(text, i + 1)
    else
      var j := NextBracket(text, i + 1);
      if j < |text| && LiteralAt(text, Span(i, j + 1))
      then [Span(i, j + 1)] + FindLiterals(text, j + 1)
      else FindLiterals(text, i + 1)
  }

  /** `<`, a body without brackets, `>`. */
  predicate Bracketed(s: string) {
    && |s| >= 2
    && s[0] == '<'
    && s[|s| - 1] == '>'
    && forall k :: 0 < k < |s| - 1 ==> !IsBracket(s[k])
  }

  /** Only the first and the last character of a literal are brackets. */
  lemma {:induction false} LiteralEdges(s: string)
    requires IsLiteral(s)
    ensures |s| >= 5 && Bracketed(s)
  {
    var body := s[1..|s| - 1];
    assert Bracketless(body);
    forall k | 0 < k < |s| - 1 ensures !IsBracket(s[k]) { assert s[k] == body[k - 1]; }
  }

  /** An occurrence of a literal reaches from its `<` to the next bracket and no further. */
  lemma {:induction false} LiteralReach(text: string, i: nat, e: nat)
    requires i < e <= |text| && IsLiteral(text[i..e])
    ensures i + 4 < e && text[i] == '<' && text[e - 1] == '>'
    ensures forall k :: i < k < e - 1 ==> !IsBracket(text[k])
  {
    var s := text[i..e];
    LiteralEdges(s);
    assert s[0] == text[i] && s[|s| - 1] == text[e - 1];
    forall k | i < k < e - 1 ensures !IsBracket(text[k]) { assert s[k - i] == text[k]; }
  }

  lemma {:induction false} LiteralAtEdges(text: string, sp: Span)
    requires LiteralAt(text, sp)
    ensures sp.start + 4 < sp.end <= |text| && text[sp.start] == '<' && text[sp.end - 1] == '>'
    ensures NextBracket(text, sp.start + 1) == sp.end - 1
  {
    LiteralReach(text, sp.start, sp.end);
  }

  /** A literal that starts at `i` can only end at the next bracket. */
  lemma {:induction false} LiteralAtStart(text: string, i: nat)
    requires i < |text|
    ensures forall sp: Span | sp.start == i && LiteralAt(text, sp) ::
              text[i] == '<' && sp == Span(i, NextBracket(text, i + 1) + 1) && sp.end <= |text|
  {
    forall sp: Span | sp.start == i && LiteralAt(text, sp)
      ensures text[i] == '<' && sp == Span(i, NextBracket(text, i + 1) + 1) && sp.end <= |text|
    {
      LiteralAtEdges(text, sp);
    }
  }

  /** No literal starts inside another one. */
  lemma {:induction false} NoLiteralInside(text: string, i: nat, j: nat)
    requires LiteralAt(text, Span(i, j))
    ensures forall sp: Span | i < sp.start && LiteralAt(text, sp) :: j <= sp.start
  {
    LiteralReach(text, i, j);
    forall sp: Span | i < sp.start && LiteralAt(text, sp) ensures j <= sp.start {
      LiteralAtEdges(text, sp);
    }
  }

  /** The scanner finds every placeholder-shaped substring, and nothing else. */
  lemma {:induction false} FindLiteralsExact(text: string, i: nat)
    requires i <= |text|
    ensures forall sp: Span :: sp in FindLiterals(text, i) <==> i <= sp.start && LiteralAt(text, sp)
    decreases |text| - i
  {
    if i < |text| {
      LiteralAtStart(text, i);
      if text[i] != '<' {
        FindLiteralsExact(text, i + 1);
      } else {
        var j := NextBracket(text, i + 1);
        if j < |text| && LiteralAt(text, Span(i, j + 1)) {
          NoLiteralInside(text, i, j + 1);
          FindLiteralsExact(text, j + 1);
        } else {
          FindLiteralsExact(text, i + 1);
        }
      }
    }
  }

  predicate Apart(a: Span, b: Span) { a.end <= b.start || b.end <= a.start }

  /** Two literals of one text are the same one, or do not touch. */
  lemma {:induction false} LiteralsApart(text: string, a: Span, b: Span)
    requires LiteralAt(text, a) && LiteralAt(text, b)
    ensures a == b || Apart(a, b)
  {
    LiteralReach(text, a.start, a.end);
    LiteralReach(text, b.start, b.end);
  }
}
