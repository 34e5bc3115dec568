/**
 Restoring inside JSON source text that the provider has escaped in its own way (streamed tool
 arguments, privaite/streaming/buffer.py): what a client reads there.
 */
module JsonReading {
  import opened Wrappers
  import opened Literals
  import opened DeAnonymizer
  import opened Streaming
  import opened JsonText

  /** What a client reads of a literal that can be read. */
  function Reads(b: string): string {
    if Decode(b).Some? then Decode(b).value else ""
  }

  predicate Readable(b: string) {
    Decode(b).Some?
  }

  function Behind(b: string): string
    requires b != ""
  {
    b[UnitLength(b)..]
  }

  /** Every fake a client reads in a literal is written there without escapes. */
  ghost predicate Spelled(keys: set<string>, b: string)
    requires Readable(b)
    decreases |b|
  {
    b == "" || (&& (forall k :: k in keys && k <= Reads(b) ==> k <= b)
                && Spelled(keys, Behind(b)))
  }

  lemma {:induction false} ReadsUnit(b: string)
    requires b != "" && Readable(b)
    ensures 0 < UnitLength(b) && UnitChar(b).Some? && Readable(Behind(b)) && Reads(b) == [UnitChar(b).value] + Reads(Behind(b))
  {
  }

  /** A unit is read the same whatever follows it. */
  lemma {:induction false} UnitBefore(b: string, rest: string)
    requires b != "" && Readable(b) && Readable(rest)
    ensures var n := UnitLength(b);
            Readable(b[..n] + rest) && Reads(b[..n] + rest) == [UnitChar(b).value] + Reads(rest)
  {
    ReadsUnit(b);
    var n := UnitLength(b);
    var s := b[..n] + rest;
    assert s[n..] == rest && forall i :: 0 <= i < n ==> s[i] == b[i];
    assert UnitLength(s) == n && UnitChar(s) == UnitChar(b);
  }

  /** Escaped text is read as the text. */
  lemma {:induction false} ReadsEscaped(u: string, rest: string)
    requires Readable(rest)
    ensures Readable(JsonEscape(u) + rest) && Reads(JsonEscape(u) + rest) == u + Reads(rest)
    decreases |u|
  {
    if u == "" {
      assert "" + rest == rest && "" + Reads(rest) == Reads(rest);
    } else {
      var more := JsonEscape(u[1..]) + rest;
      ReadsEscaped(u[1..], rest);
      EscapeCharIsUnit(u[0], more);
      Shift(EscapeChar(u[0]), JsonEscape(u[1..]), rest);
      Shift([u[0]], u[1..], Reads(rest));
      assert u == [u[0]] + u[1..];
    }
  }

  lemma {:induction false} Shift(a: string, b: string, c: string)
    ensures (a + b) + c == a + (b + c)
  {
  }

  /** Text without escapes is read as it is. */
  lemma {:induction false} ReadsPlain(k: string, b: string)
    requires Readable(b) && Unescapable(k) && k <= b
    ensures Readable(b[|k|..]) && k <= Reads(b) && Reads(b)[|k|..] == Reads(b[|k|..])
    decreases |k|
  {
    if k != "" {
      ReadsUnit(b);
      ReadsPlain(k[1..], b[1..]);
      assert b[1..][|k| - 1..] == b[|k|..];
      assert k == [k[0]] + k[1..] && Reads(b)[|k|..] == Reads(b[1..])[|k| - 1..];
    }
  }

  lemma {:induction false} SpelledBehind(keys: set<string>, k: string, b: string)
    requires Readable(b) && Spelled(keys, b) && Unescapable(k) && k <= b
    ensures Readable(b[|k|..]) && Spelled(keys, b[|k|..])
    decreases |k|
  {
    if k != "" {
      ReadsUnit(b);
      SpelledBehind(keys, k[1..], b[1..]);
      assert b[1..][|k| - 1..] == b[|k|..];
    } else {
      assert b[0..] == b;
    }
  }

  // ----- one step of the restore -----

  /** The one fake that starts a text. */
  lemma {:induction false} OneFake(m: Fakes, k: string, s: string)
    requires Bracketing(m) && k in m && k <= s
    ensures Longest(m, s) == |k| > 0 && s[..|k|] == k && forall x :: x in m && x <= s ==> x == k
  {
    BracketingSuffices(m);
    assert Bracketed(k) && s[..|k|] == k;
    forall x | x in m && x <= s ensures x == k {
      assert Bracketed(x) && (x <= k || k <= x);
    }
    forall j | |k| < j <= |s| ensures s[..j] !in m {
      assert s[..j] <= s;
    }
    LongestIs(m, s, |k|);
  }

  lemma {:induction false} NoFake(m: Fakes, s: string)
    requires Bracketing(m) && Longest(m, s) == 0
    ensures forall k :: k in m ==> !(k <= s)
  {
    forall k | k in m ensures !(k <= s) {
      if k <= s { OneFake(m, k, s); }
    }
  }

  /** A fake in the literal is one in what is read of it. */
  lemma {:induction false} NoneReadNoneWritten(m: Fakes, b: string)
    requires Bracketing(m) && PlainFakes(m) && Readable(b) && Longest(m, Reads(b)) == 0
    ensures Longest(Escaped(m), b) == 0
  {
    NoFake(m, Reads(b));
    var n := Longest(Escaped(m), b);
    if n > 0 { ReadsPlain(b[..n], b); }
  }

  /** Where no fake is written, the next unit is passed on as it is. */
  lemma {:induction false} UnitIsPassed(m: Fakes, b: string)
    requires Bracketing(m) && b != "" && Readable(b) && Longest(Escaped(m), b) == 0
    requires Readable(Restore(Escaped(m), Behind(b)))
    ensures Readable(Restore(Escaped(m), b))
    ensures Reads(Restore(Escaped(m), b)) == [UnitChar(b).value] + Reads(Restore(Escaped(m), Behind(b)))
  {
    var n, e := UnitLength(b), Escaped(m);
    ReadsUnit(b);
    UnitBefore(b, Restore(e, b[n..]));
    if n > 1 {
      UnitHasNoBracket(b);
      assert b == b[..n] + b[n..];
      EscapeSequenceIsFixed(e, b[..n], b[n..]);
    } else {
      assert b[..1] == [b[0]];
    }
  }

  lemma {:induction false} UnitHasNoBracket(b: string)
    requires b != "" && UnitLength(b) > 1
    ensures '<' !in b[..UnitLength(b)]
  {
    var n := UnitLength(b);
    assert forall i :: 0 <= i < n ==> b[..n][i] == b[i];
  }

  // ----- plainly written fakes are enough -----

  lemma {:induction false} SpelledIsRestored(m: Fakes, b: string)
    requires Bracketing(m) && PlainFakes(m) && Readable(b) && Spelled(m.Keys, b)
    ensures Readable(Restore(Escaped(m), b)) && Reads(Restore(Escaped(m), b)) == Restore(m, Reads(b))
    decreases |b|
  {
    var e, u := Escaped(m), Reads(b);
    if b != "" {
      ReadsUnit(b);
      var k := Longest(m, u);
      if k > 0 {
        var fake := u[..k];
        assert fake <= u && fake <= b;
        OneFake(e, fake, b);
        ReadsPlain(fake, b);
        SpelledBehind(m.Keys, fake, b);
        SpelledIsRestored(m, b[k..]);
        ReadsEscaped(m[fake], Restore(e, b[k..]));
      } else {
        NoneReadNoneWritten(m, b);
        SpelledIsRestored(m, Behind(b));
        UnitIsPassed(m, b);
        assert u[1..] == Reads(Behind(b));
      }
    }
  }

  // ----- and needed -----

  /** A mapping in which every fake stands for nothing. */
  function Void(keys: set<string>): (m: Fakes)
    ensures m.Keys == keys
  {
    map k | k in keys :: ""
  }

  lemma {:induction false} SpelledOver(m: Fakes, e: string, b: string)
    requires Bracketing(m) && Readable(b) && Unescapable(e) && '<' !in e && e <= b
    requires Readable(b[|e|..]) && Spelled(m.Keys, b[|e|..])
    ensures Spelled(m.Keys, b)
    decreases |e|
  {
    if e == "" {
      assert b[0..] == b;
    } else {
      ReadsUnit(b);
      assert b[1..][|e| - 1..] == b[|e|..];
      SpelledOver(m, e[1..], b[1..]);
      forall k | k in m.Keys ensures !(k <= Reads(b)) {
        assert Bracketed(k) && Reads(b)[0] == e[0] && e[0] in e;
      }
    }
  }

  lemma {:induction false} SpelledFake(m: Fakes, k: string, b: string)
    requires Bracketing(m) && PlainFakes(m) && Readable(b) && k in m && k <= b
    requires Readable(b[|k|..]) && Spelled(m.Keys, b[|k|..])
    ensures Spelled(m.Keys, b)
  {
    assert Bracketed(k) && Unescapable(k);
    ReadsUnit(b);
    ReadsPlain(k, b);
    OneFake(m, k, Reads(b));
    assert b[1..][|k| - 1..] == b[|k|..];
    InsideHasNoBracket(k);
    SpelledOver(m, k[1..], b[1..]);
  }

  /** A fake that is read but not written takes its own length away from the restored text only. */
  lemma {:induction false} MisspelledStays(m: Fakes, b: string, k: nat)
    requires Bracketing(m) && b != "" && Readable(b) && k == Longest(m, Reads(b)) > 0
    ensures Restore(m, Reads(Behind(b))) == Reads(b)[1..k] + Restore(m, Reads(b)[k..])
  {
    ReadsUnit(b);
    var u := Reads(b);
    InsideHasNoBracket(u[..k]);
    assert u[1..k] == u[..k][1..] && u[1..] == u[1..k] + u[k..];
    EscapeSequenceIsFixed(m, u[1..k], u[k..]);
  }

  lemma {:induction false} InsideHasNoBracket(fake: string)
    requires Bracketed(fake)
    ensures '<' !in fake[1..]
  {
  }

  lemma {:induction false} VoidIsShorter(keys: set<string>, b: string)
    requires Bracketing(Void(keys)) && PlainFakes(Void(keys)) && Readable(b)
    ensures var m := Void(keys);
            && Readable(Restore(Escaped(m), b)) && |Reads(Restore(Escaped(m), b))| >= |Restore(m, Reads(b))|
            && (|Reads(Restore(Escaped(m), b))| == |Restore(m, Reads(b))| ==> Spelled(keys, b))
    decreases |b|
  {
    var m := Void(keys);
    var e, u := Escaped(m), Reads(b);
    if b != "" {
      ReadsUnit(b);
      var n := Longest(e, b);
      if n > 0 {
        var fake := b[..n];
        ReadsPlain(fake, b);
        OneFake(m, fake, u);
        VoidIsShorter(keys, b[n..]);
        ReadsEscaped("", Restore(e, b[n..]));
        if Spelled(keys, b[n..]) { SpelledFake(m, fake, b); }
      } else {
        VoidIsShorter(keys, Behind(b));
        UnitIsPassed(m, b);
        var k := Longest(m, u);
        if k > 0 {
          MisspelledStays(m, b, k);
        } else {
          NoFake(m, u);
          assert u[1..] == Reads(Behind(b));
        }
      }
    }
  }

  /**
   A client reads the restored text, whatever the fakes stand for, if and only if every fake it
   would have read is written without escapes.
   */
  lemma {:induction false} ReadsRestoredExactly(keys: set<string>, b: string)
    requires Bracketing(Void(keys)) && PlainFakes(Void(keys)) && Readable(b)
    ensures (forall m: Fakes {:trigger Escaped(m)} :: m.Keys == keys ==> Decode(Restore(Escaped(m), b)) == Some(Restore(m, Reads(b))))
       <==> Spelled(keys, b)
  {
    if Spelled(keys, b) {
      forall m: Fakes | m.Keys == keys ensures Decode(Restore(Escaped(m), b)) == Some(Restore(m, Reads(b))) {
        assert forall k :: k in m ==> k in Void(keys);
        SpelledIsRestored(m, b);
      }
    } else {
      VoidIsShorter(keys, b);
      assert Decode(Restore(Escaped(Void(keys)), b)) != Some(Restore(Void(keys), Reads(b)));
    }
  }

  /** That is so of every literal the code itself would have written. */
  lemma {:induction false} EscapedIsSpelled(keys: set<string>, u: string)
    requires forall k :: k in keys ==> Unescapable(k)
    ensures Readable(JsonEscape(u)) && Reads(JsonEscape(u)) == u && Spelled(keys, JsonEscape(u))
    decreases |u|
  {
    DecodeEscape(u);
    if u != "" {
      EscapeCharIsUnit(u[0], JsonEscape(u[1..]));
      EscapedIsSpelled(keys, u[1..]);
      forall k | k in keys && k <= u ensures k <= JsonEscape(u) { EscapePrefix(k, u); }
    }
  }

  /** And it does not matter how such a literal is cut into chunks. */
  lemma {:induction false} FragmentsAreRead(m: Fakes, b: string, chunks: seq<string>)
    requires Bracketing(m) && PlainFakes(m) && Readable(b) && Spelled(m.Keys, b) && Concat(chunks) == b
    ensures Decode(Streamed(Escaped(m), chunks)) == Some(Restore(m, Reads(b)))
  {
    BracketingSuffices(Escaped(m));
    StreamEqualsBatch(Escaped(m), chunks);
    SpelledIsRestored(m, b);
  }
}
