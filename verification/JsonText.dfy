/**
 Restoring inside JSON source text (json_escape and json_escaped_mapping in
 privaite/streaming/buffer.py): streamed tool arguments arrive as pieces of a JSON
 string literal, so the originals are spliced in escaped.
 */
module JsonText {
  import opened Wrappers
  import opened Literals
  import opened DeAnonymizer
  import opened Streaming
  import opened Mapping

  /** The characters section 7 of RFC 8259 does not allow unescaped. */
  predicate Escapable(c: char) {
    c == '"' || c == '\\' || c < ' '
  }

  predicate IsHex(c: char) {
    '0' <= c <= '9' || 'a' <= c <= 'f' || 'A' <= c <= 'F'
  }

  function HexDigit(n: nat): (c: char)
    requires n < 16
    ensures IsHex(c)
  {
    if n < 10 then '0' + n as char else 'a' + (n - 10) as char
  }

  function HexValue(c: char): (n: nat)
    requires IsHex(c)
    ensures n < 16
  {
    if '0' <= c <= '9' then (c - '0') as nat
    else if 'a' <= c <= 'f' then (c - 'a') as nat + 10
    else (c - 'A') as nat + 10
  }

  function EscapeChar(c: char): (s: string)
    ensures s != ""
  {
    if c == '"' then "\\\""
    else if c == '\\' then "\\\\"
    else if c == '\n' then "\\n"
    else if c == '\r' then "\\r"
    else if c == '\t' then "\\t"
    else if c == 8 as char then "\\b"
    else if c == 12 as char then "\\f"
    else if c < ' ' then "\\u00" + [HexDigit(c as nat / 16), HexDigit(c as nat % 16)]
    else [c]
  }

  /** json.dumps(value, ensure_ascii=False) without the surrounding quotes. */
  function JsonEscape(value: string): string {
    if value == "" then "" else EscapeChar(value[0]) + JsonEscape(value[1..])
  }

  /** Length of the character or escape sequence that starts a JSON string body, 0 when the
      grammar of section 7 allows none. */
  function UnitLength(b: string): (n: nat)
    requires b != ""
    ensures n <= |b|
  {
    if !Escapable(b[0]) then 1
    else if b[0] != '\\' || |b| < 2 then 0
    else if b[1] in {'"', '\\', '/', 'b', 'f', 'n', 'r', 't'} then 2
    else if b[1] == 'u' && |b| >= 6 && IsHex(b[2]) && IsHex(b[3]) && IsHex(b[4]) && IsHex(b[5]) then 6
    else 0
  }

  /** The text between the quotes of a JSON string literal. */
  predicate ValidBody(b: string)
    decreases |b|
  {
    b == "" || (UnitLength(b) > 0 && ValidBody(b[UnitLength(b)..]))
  }

  /** The character a unit stands for. Surrogate escapes are not characters here. */
  function UnitChar(b: string): Option<char>
    requires b != "" && UnitLength(b) > 0
  {
    if !Escapable(b[0]) then Some(b[0])
    else if b[1] == 'b' then Some(8 as char)
    else if b[1] == 'f' then Some(12 as char)
    else if b[1] == 'n' then Some('\n')
    else if b[1] == 'r' then Some('\r')
    else if b[1] == 't' then Some('\t')
    else if b[1] == 'u' then
      var code := ((HexValue(b[2]) * 16 + HexValue(b[3])) * 16 + HexValue(b[4])) * 16 + HexValue(b[5]);
      if 0xD800 <= code < 0xE000 then None else Some(code as char)
    else Some(b[1])
  }

  /** What a client reads from the body of a JSON string literal. */
  function Decode(b: string): Option<string>
    decreases |b|
  {
    if b == "" then Some("")
    else if UnitLength(b) == 0 || UnitChar(b).None? then None
    else
      var rest := Decode(b[UnitLength(b)..]);
      if rest.None? then None else Some([UnitChar(b).value] + rest.value)
  }

  /** An escaped character is one unit, which stands for it. */
  lemma {:induction false} EscapeCharIsUnit(c: char, rest: string)
    ensures var s := EscapeChar(c) + rest;
            UnitLength(s) == |EscapeChar(c)| && UnitChar(s) == Some(c) && s[UnitLength(s)..] == rest
  {
    var s := EscapeChar(c) + rest;
    if c < ' ' && |EscapeChar(c)| == 6 {
      var e := EscapeChar(c);
      assert e[0] == '\\' && e[1] == 'u' && e[2] == '0' && e[3] == '0';
      assert s[2] == '0' && s[3] == '0' && s[4] == e[4] && s[5] == e[5];
      HexRound(c as nat / 16);
      HexRound(c as nat % 16);
      assert ((0 * 16 + 0) * 16 + c as nat / 16) * 16 + c as nat % 16 == c as nat;
    }
  }

  lemma {:induction false} HexRound(n: nat)
    requires n < 16
    ensures HexValue(HexDigit(n)) == n
  {
  }

  /** Escaping is undone by the client's parse. */
  lemma {:induction false} DecodeEscape(u: string)
    ensures Decode(JsonEscape(u)) == Some(u)
    decreases |u|
  {
    if u != "" {
      EscapeCharIsUnit(u[0], JsonEscape(u[1..]));
      DecodeEscape(u[1..]);
      assert [u[0]] + u[1..] == u;
    }
  }

  lemma {:induction false} EscapeIsValid(u: string)
    ensures ValidBody(JsonEscape(u))
    decreases |u|
  {
    if u != "" {
      EscapeCharIsUnit(u[0], JsonEscape(u[1..]));
      EscapeIsValid(u[1..]);
    }
  }

  // ----- the derived mapping -----

  /** The same fakes, with escaped originals. */
  function Escaped(m: Fakes): (e: Fakes)
    ensures e.Keys == m.Keys
  {
    map k | k in m :: JsonEscape(m[k])
  }

  predicate Unescapable(s: string) {
    forall i :: 0 <= i < |s| ==> !Escapable(s[i])
  }

  /** The fakes appear in JSON source text as they are. */
  ghost predicate PlainFakes(m: Fakes) {
    forall k :: k in m ==> Unescapable(k)
  }

  /** A string without escapes starts an escaped text exactly when it starts the text. */
  lemma {:induction false} EscapePrefix(k: string, u: string)
    requires Unescapable(k)
    ensures k <= JsonEscape(u) <==> k <= u
    ensures k <= u ==> JsonEscape(u)[|k|..] == JsonEscape(u[|k|..])
    decreases |k|
  {
    if k != "" && u != "" {
      var e := JsonEscape(u);
      assert e[0] == EscapeChar(u[0])[0];
      if u[0] == k[0] {
        assert e == [u[0]] + JsonEscape(u[1..]);
        assert e[1..] == JsonEscape(u[1..]);
        EscapePrefix(k[1..], u[1..]);
        assert k <= e <==> k[1..] <= e[1..];
        assert k <= u <==> k[1..] <= u[1..];
        if k <= u {
          assert e[|k|..] == e[1..][|k| - 1..];
          assert u[|k|..] == u[1..][|k| - 1..];
        }
      }
    }
  }

  lemma {:induction false} FakeInEscaped(m: Fakes, u: string, j: nat)
    requires PlainFakes(m) && j <= |JsonEscape(u)| && JsonEscape(u)[..j] in m
    ensures j <= |u| && u[..j] == JsonEscape(u)[..j]
  {
    var k := JsonEscape(u)[..j];
    EscapePrefix(k, u);
    assert k <= u;
    assert u[..|k|] == k;
  }

  lemma {:induction false} LongestEscaped(m: Fakes, u: string)
    requires PlainFakes(m)
    ensures var k := Longest(m, u);
            && Longest(Escaped(m), JsonEscape(u)) == k
            && k <= |JsonEscape(u)| && JsonEscape(u)[..k] == u[..k] && JsonEscape(u)[k..] == JsonEscape(u[k..])
  {
    var e, k := JsonEscape(u), Longest(m, u);
    var key := u[..k];
    assert Unescapable(key);
    EscapePrefix(key, u);
    assert key <= e && e[..k] == key;
    LongestIsMaximal(m, u);
    forall j | k < j <= |e| ensures e[..j] !in Escaped(m) {
      if e[..j] in m { FakeInEscaped(m, u, j); }
    }
    LongestIs(Escaped(m), e, k);
  }

  /** No fake starts inside an escape sequence. */
  lemma {:induction false} NoFakeStarts(m: Fakes, e: string, rest: string, i: nat, n: nat)
    requires Bracketing(m) && '<' !in e && i < |e|
    ensures !Holds(m, e + rest, i, n)
  {
    if 0 < n && i + n <= |e + rest| {
      assert (e + rest)[i..i + n][0] == e[i];
      assert e[i] in e;
    }
  }

  lemma {:induction false} EscapeSequenceIsFixed(m: Fakes, e: string, rest: string)
    requires Bracketing(m) && '<' !in e
    ensures Restore(m, e + rest) == e + Restore(m, rest)
  {
    forall i: nat, n: nat | i < |e| ensures !Holds(m, e + rest, i, n) { NoFakeStarts(m, e, rest, i, n); }
    RestoreSplit(m, e, rest);
    assert e + "" == e;
    forall i: nat, n: nat ensures !Holds(m, e, i, n) {
      if i < |e| { NoFakeStarts(m, e, "", i, n); }
    }
    RestoreFixes(m, e);
  }

  /** Restoring escaped text with escaped originals is escaping the restored text. */
  lemma {:induction false} RestoreCommutes(m: Fakes, u: string)
    requires Bracketing(m) && PlainFakes(m)
    ensures Restore(Escaped(m), JsonEscape(u)) == JsonEscape(Restore(m, u))
    decreases |u|
  {
    if u != "" {
      var k := Longest(m, u);
      LongestEscaped(m, u);
      if k > 0 {
        RestoreCommutes(m, u[k..]);
        EscapeConcat(m[u[..k]], Restore(m, u[k..]));
      } else {
        RestoreCommutes(m, u[1..]);
        EscapeConcat([u[0]], Restore(m, u[1..]));
        EscapeOne(u[0]);
        if u[0] == '<' {
          assert JsonEscape(u) == ['<'] + JsonEscape(u[1..]);
          assert JsonEscape(u)[1..] == JsonEscape(u[1..]);
        } else {
          EscapeSequenceIsFixed(Escaped(m), EscapeChar(u[0]), JsonEscape(u[1..]));
        }
      }
    }
  }

  lemma {:induction false} EscapeOne(c: char)
    ensures JsonEscape([c]) == EscapeChar(c)
  {
    assert [c][1..] == "" && EscapeChar(c) + "" == EscapeChar(c);
  }

  lemma {:induction false} EscapeConcat(a: string, b: string)
    ensures JsonEscape(a + b) == JsonEscape(a) + JsonEscape(b)
    decreases |a|
  {
    if a == "" {
      assert a + b == b;
    } else {
      assert (a + b)[1..] == a[1..] + b;
      EscapeConcat(a[1..], b);
    }
  }

  /** For any text, however its escaped form is cut into chunks, the client that parses the
      restored literal reads the restored text. */
  lemma {:induction false} FragmentsDecodeToRestored(m: Fakes, u: string, chunks: seq<string>)
    requires Bracketing(m) && PlainFakes(m)
    requires Concat(chunks) == JsonEscape(u)
    ensures Streamed(Escaped(m), chunks) == JsonEscape(Restore(m, u))
    ensures Decode(Streamed(Escaped(m), chunks)) == Some(Restore(m, u))
  {
    BracketingSuffices(Escaped(m));
    StreamEqualsBatch(Escaped(m), chunks);
    RestoreCommutes(m, u);
    DecodeEscape(Restore(m, u));
  }

  // ----- any literal, however it is escaped -----

  lemma {:induction false} ValidConcat(a: string, b: string)
    requires ValidBody(a) && ValidBody(b)
    ensures ValidBody(a + b)
    decreases |a|
  {
    if a == "" {
      assert a + b == b;
    } else {
      var n := UnitLength(a);
      assert UnitLength(a + b) == n;
      assert (a + b)[n..] == a[n..] + b;
      ValidConcat(a[n..], b);
    }
  }

  lemma {:induction false} ValidAfterPlain(k: string, b: string)
    requires ValidBody(b) && Unescapable(k) && k <= b
    ensures ValidBody(b[|k|..])
    decreases |k|
  {
    if k != "" {
      ValidAfterPlain(k[1..], b[1..]);
      assert b[1..][|k| - 1..] == b[|k|..];
    }
  }

  /** Whatever valid JSON string body the provider streams, its restored form is one too. */
  lemma {:induction false} RestoredBodyIsValid(m: Fakes, b: string)
    requires Bracketing(m) && PlainFakes(m) && ValidBody(b)
    ensures ValidBody(Restore(Escaped(m), b))
    decreases |b|
  {
    if b != "" {
      var e := Escaped(m);
      var k := Longest(e, b);
      if k > 0 {
        assert b[..k] in m;
        ValidAfterPlain(b[..k], b);
        RestoredBodyIsValid(m, b[k..]);
        EscapeIsValid(m[b[..k]]);
        ValidConcat(JsonEscape(m[b[..k]]), Restore(e, b[k..]));
      } else {
        var n := UnitLength(b);
        RestoredBodyIsValid(m, b[n..]);
        UnitIsValid(b);
        if n > 1 {
          assert b == b[..n] + b[n..];
          EscapeSequenceIsFixed(e, b[..n], b[n..]);
        } else {
          assert b[..1] == [b[0]];
        }
        ValidConcat(b[..n], Restore(e, b[n..]));
      }
    }
  }

  lemma {:induction false} UnitIsValid(b: string)
    requires b != "" && UnitLength(b) > 0
    ensures ValidBody(b[..UnitLength(b)])
    ensures UnitLength(b) > 1 ==> '<' !in b[..UnitLength(b)]
  {
    var n := UnitLength(b);
    var u := b[..n];
    assert u[n..] == "";
    assert n > 1 ==> forall i :: 0 <= i < n ==> u[i] == b[i];
  }

  // ----- the condition on the fakes is needed -----

  /** A fake with an escaped character does not appear in the fragments as it is. */
  lemma {:induction false} EscapedFakeIsLonger(k: string)
    requires !Unescapable(k)
    ensures |JsonEscape(k)| > |k|
    decreases |k|
  {
    if Unescapable(k[1..]) {
      assert forall i :: 1 <= i < |k| ==> k[i] == k[1..][i - 1];
      EscapeGrows(k[1..]);
    } else {
      EscapedFakeIsLonger(k[1..]);
    }
  }

  lemma {:induction false} EscapeGrows(k: string)
    ensures |JsonEscape(k)| >= |k|
    decreases |k|
  {
    if k != "" { EscapeGrows(k[1..]); }
  }

  lemma {:induction false} EscapeKeepsBrackets(k: string)
    ensures forall c :: IsBracket(c) ==> (c in JsonEscape(k) <==> c in k)
    decreases |k|
  {
    if k != "" {
      EscapeKeepsBrackets(k[1..]);
      assert k == [k[0]] + k[1..];
      assert forall c :: IsBracket(c) ==> (c in EscapeChar(k[0]) <==> c == k[0]);
    }
  }

  /** The escaped form of a bracketed string is bracketed. */
  lemma {:induction false} EscapedIsBracketed(k: string)
    requires Bracketed(k)
    ensures Bracketed(JsonEscape(k))
  {
    var n := |k| - 1;
    var body := k[1..n];
    assert k == ['<'] + (body + ['>']);
    EscapeConcat(['<'], body + ['>']);
    EscapeConcat(body, ['>']);
    EscapeOne('<');
    EscapeOne('>');
    EscapeKeepsBrackets(body);
    assert forall c :: IsBracket(c) ==> c !in body;
    var e := JsonEscape(body);
    assert JsonEscape(k) == ['<'] + (e + ['>']);
    assert forall i :: 0 < i <= |e| ==> JsonEscape(k)[i] == e[i - 1];
  }

  /** The longest of the fakes that need escaping. */
  lemma {:induction false} LongestEscapable(keys: set<string>, k: string) returns (best: string)
    requires k in keys && !Unescapable(k)
    ensures best in keys && !Unescapable(best)
    ensures forall x :: x in keys && !Unescapable(x) ==> |x| <= |best|
    decreases |keys|
  {
    if x :| x in keys && !Unescapable(x) && x != k {
      var rest := keys - {k};
      var other := LongestEscapable(rest, x);
      best := if |k| > |other| then k else other;
      assert keys == rest + {k};
    } else {
      best := k;
    }
  }

  lemma {:induction false} EscapedFakeIsNotRestored(m: Fakes, k: string)
    requires Bracketing(m) && k in m && !Unescapable(k)
    requires forall x :: x in m && !Unescapable(x) ==> |x| <= |k|
    ensures Restore(Escaped(m), JsonEscape(k)) == JsonEscape(k)
  {
    var e := JsonEscape(k);
    EscapedFakeIsLonger(k);
    EscapedIsBracketed(k);
    if Unescapable(e) {
      EscapePrefix(e, k);
      assert false;
    }
    assert e !in m;
    forall i: nat, n: nat ensures !Holds(Escaped(m), e, i, n) {
      if i + n <= |e| && e[i..i + n] in m {
        var x := e[i..i + n];
        assert Bracketed(x);
        assert x[0] == e[i] && x[n - 1] == e[i + n - 1];
        assert i == 0 && n == |e|;
        assert e[0..|e|] == e;
      }
    }
    RestoreFixes(Escaped(m), e);
  }

  /** Restoring commutes with escaping exactly when no fake holds a character JSON escapes. */
  lemma {:induction false} RestoreCommutesExact(m: Fakes)
    requires Bracketing(m) && forall k :: k in m ==> m[k] != k
    ensures (forall u :: Restore(Escaped(m), JsonEscape(u)) == JsonEscape(Restore(m, u))) <==> PlainFakes(m)
  {
    if PlainFakes(m) {
      forall u ensures Restore(Escaped(m), JsonEscape(u)) == JsonEscape(Restore(m, u)) { RestoreCommutes(m, u); }
    } else {
      var bad :| bad in m && !Unescapable(bad);
      var k := LongestEscapable(m.Keys, bad);
      EscapedFakeIsNotRestored(m, k);
      RestoreFake(m, k);
      DecodeEscape(k);
      DecodeEscape(m[k]);
      assert Restore(Escaped(m), JsonEscape(k)) != JsonEscape(Restore(m, k));
    }
  }

  method JsonEscapedMapping(mapping: PIIMapping) returns (escaped: PIIMapping)
    ensures fresh(escaped)
    ensures escaped.fakeToOriginal == Escaped(mapping.fakeToOriginal)
  {
    escaped := new PIIMapping();
    var fakes := mapping.fakeToOriginal;
    var todo := fakes.Keys;
    while todo != {}
      invariant todo <= fakes.Keys && mapping.fakeToOriginal == fakes
      invariant escaped.fakeToOriginal.Keys == fakes.Keys - todo
      invariant forall k :: k in escaped.fakeToOriginal ==> escaped.fakeToOriginal[k] == JsonEscape(fakes[k])
      decreases |todo|
    {
      var fake :| fake in todo;
      var original := fakes[fake];
      var entityType := if original in mapping.entityTypes then mapping.entityTypes[original] else "";
      escaped.Add(JsonEscape(original), fake, entityType);
      todo := todo - {fake};
    }
  }
}
