/**
 The incremental restore of privaite/streaming/buffer.py, on values: what one `feed`
 emits and what it holds back. The heap trie of TrieBuffer.dfy computes these functions.
 */
module Streaming {
  import opened Literals
  import opened DeAnonymizer

  /** `s` is the start of some fake, so the rest of that fake may still arrive. */
  ghost predicate MayGrow(m: Fakes, s: string) {
    exists k :: k in m && s <= k
  }

  datatype Fed = Fed(out: string, held: string) {
    /** The same, with more text emitted before it. */
    function After(x: string): Fed { Fed(x + out, held) }
  }

  /** The loop of `feed` over a non-empty buffer: emit a match, hold a possible match,
      or let the first character go. */
  ghost function Drain(m: Fakes, buffer: string): Fed
    decreases |buffer|
  {
    if buffer == "" then Fed("", "")
    else
      var k := Longest(m, buffer);
      if k > 0 then Drain(m, buffer[k..]).After(m[buffer[..k]])
      else if MayGrow(m, buffer) then Fed("", buffer)
      else Drain(m, buffer[1..]).After([buffer[0]])
  }

  /** Feeding chunk after chunk, starting with `held` in the buffer. */
  ghost function FeedAll(m: Fakes, held: string, chunks: seq<string>): Fed
    decreases |chunks|
  {
    if chunks == [] then Fed("", held)
    else
      var f := Drain(m, held + chunks[0]);
      FeedAll(m, f.held, chunks[1..]).After(f.out)
  }

  /** Everything a client receives: the fed chunks, then the flush. */
  ghost function Streamed(m: Fakes, chunks: seq<string>): string {
    var f := FeedAll(m, "", chunks);
    f.out + f.held
  }

  function Concat(chunks: seq<string>): string {
    if chunks == [] then "" else chunks[0] + Concat(chunks[1..])
  }

  ghost predicate PrefixFree(keys: set<string>) {
    forall a, b :: a in keys && b in keys && a != "" && a <= b ==> a == b
  }

  /** `b` holds the non-empty string `a` at position `i`, and goes on after it. */
  ghost predicate SitsAt(a: string, b: string, i: nat) {
    a != "" && i + |a| < |b| && b[i..i + |a|] == a
  }

  lemma {:induction false} SitsLast(a: string, b: string, i: nat)
    requires SitsAt(a, b, i)
    ensures b[i + |a| - 1] == a[|a| - 1]
  {
    assert b[i..i + |a|][|a| - 1] == b[i + |a| - 1];
  }

  ghost predicate InProperPrefix(a: string, b: string) {
    exists i: nat :: SitsAt(a, b, i)
  }

  ghost predicate NoKeyInside(keys: set<string>) {
    forall a, b :: a in keys && b in keys ==> !InProperPrefix(a, b)
  }

  /** Issued placeholders satisfy both conditions. */
  lemma {:induction false} BracketingSuffices(m: Fakes)
    requires Bracketing(m)
    ensures PrefixFree(m.Keys) && NoKeyInside(m.Keys)
  {
    forall a, b | a in m && b in m && a != "" && a <= b ensures a == b {
      assert Bracketed(a) && Bracketed(b);
      assert b[|a| - 1] == '>';
    }
    forall a, b | a in m && b in m ensures !InProperPrefix(a, b) {
      assert Bracketed(a) && Bracketed(b);
      if InProperPrefix(a, b) {
        var i: nat :| SitsAt(a, b, i);
        SitsLast(a, b, i);
        assert false;
      }
    }
  }

  // ----- chunk invariance -----

  /** More input does not change a decision already taken. */
  lemma {:induction false} LongestStable(m: Fakes, a: string, b: string)
    requires PrefixFree(m.Keys) && a != ""
    requires Longest(m, a) > 0 || !MayGrow(m, a)
    ensures Longest(m, a + b) == Longest(m, a)
    ensures Longest(m, a) == 0 ==> !MayGrow(m, a + b)
  {
    var s := a + b;
    var k := Longest(m, a);
    LongestIsMaximal(m, a);
    assert forall j :: 0 <= j <= |a| ==> a[..j] == s[..j];
    forall j | k < j <= |s| ensures s[..j] !in m {
      if j > |a| {
        assert a <= s[..j];
        assert a[..k] <= s[..j];
      }
    }
    LongestIs(m, s, k);
    if MayGrow(m, s) {
      var key :| key in m && s <= key;
      assert a <= key;
    }
  }

  /** Draining `s` when its first `d` characters are decided: they give `x`. */
  ghost predicate Decides(m: Fakes, s: string, d: nat, x: string) {
    && 0 < d <= |s|
    && if Longest(m, s) > 0 then d == Longest(m, s) && x == m[s[..d]]
       else d == 1 && x == s[..1] && !MayGrow(m, s)
  }

  lemma {:induction false} DrainDecided(m: Fakes, s: string, d: nat, x: string)
    requires Decides(m, s, d, x)
    ensures Drain(m, s) == Drain(m, s[d..]).After(x)
  {
    assert s[..1] == [s[0]];
  }

  lemma {:induction false} DecidesStable(m: Fakes, a: string, b: string, d: nat, x: string)
    requires PrefixFree(m.Keys) && Decides(m, a, d, x)
    ensures Decides(m, a + b, d, x)
  {
    LongestStable(m, a, b);
    assert (a + b)[..d] == a[..d];
  }

  /** Feeding two pieces one after the other is feeding them together. */
  lemma {:induction false} DrainSplit(m: Fakes, a: string, b: string)
    requires PrefixFree(m.Keys)
    ensures var f := Drain(m, a); Drain(m, a + b) == Drain(m, f.held + b).After(f.out)
    decreases |a|
  {
    if a == "" {
      assert "" + b == b && a + b == b;
      assert Drain(m, b).After("") == Drain(m, b);
    } else if Longest(m, a) == 0 && MayGrow(m, a) {
      assert Drain(m, a + b).After("") == Drain(m, a + b);
    } else {
      var d := if Longest(m, a) > 0 then Longest(m, a) else 1;
      var x := if Longest(m, a) > 0 then m[a[..d]] else a[..d];
      DecidesStable(m, a, b, d, x);
      DrainSplit(m, a[d..], b);
      DrainDecided(m, a, d, x);
      var f := Drain(m, a[d..]);
      DecidedSplit(m, a, b, d, x, f, Drain(m, f.held + b));
    }
  }

  lemma {:induction false} DecidedSplit(m: Fakes, a: string, b: string, d: nat, x: string, f: Fed, g: Fed)
    requires 0 < d <= |a| && Decides(m, a + b, d, x)
    requires Drain(m, a[d..] + b) == g.After(f.out)
    ensures Drain(m, a + b) == g.After(f.After(x).out)
  {
    DrainDecided(m, a + b, d, x);
    assert (a + b)[d..] == a[d..] + b;
    AfterAfter(g, f.out, x);
  }

  lemma {:induction false} AfterAfter(f: Fed, y: string, x: string)
    ensures f.After(y).After(x) == f.After(x + y)
  {
    assert x + (y + f.out) == (x + y) + f.out;
  }

  /** One turn of the loop of `feed`, with `output` emitted so far. */
  lemma {:induction false} DrainTurn(m: Fakes, s: string, output: string, d: nat, x: string)
    requires Decides(m, s, d, x)
    ensures Drain(m, s).After(output) == Drain(m, s[d..]).After(output + x)
  {
    DrainDecided(m, s, d, x);
    AfterAfter(Drain(m, s[d..]), x, output);
  }

  /** Cutting the input into chunks changes nothing. */
  lemma {:induction false} FeedAllIsDrain(m: Fakes, held: string, chunks: seq<string>)
    requires PrefixFree(m.Keys)
    requires Drain(m, held) == Fed("", held)
    ensures FeedAll(m, held, chunks) == Drain(m, held + Concat(chunks))
    decreases |chunks|
  {
    if chunks == [] {
      assert held + "" == held;
    } else {
      var s := held + chunks[0];
      var f := Drain(m, s);
      DrainHeld(m, s);
      FeedAllIsDrain(m, f.held, chunks[1..]);
      DrainSplit(m, s, Concat(chunks[1..]));
      FeedStep(m, held, chunks, f, Drain(m, f.held + Concat(chunks[1..])));
    }
  }

  lemma {:induction false} FeedStep(m: Fakes, held: string, chunks: seq<string>, f: Fed, g: Fed)
    requires chunks != [] && f == Drain(m, held + chunks[0])
    requires FeedAll(m, f.held, chunks[1..]) == g
    requires Drain(m, held + chunks[0] + Concat(chunks[1..])) == g.After(f.out)
    ensures FeedAll(m, held, chunks) == Drain(m, held + Concat(chunks))
  {
    assert held + chunks[0] + Concat(chunks[1..]) == held + Concat(chunks);
  }

  /** What is held back stays held until more input comes. */
  lemma {:induction false} DrainHeld(m: Fakes, s: string)
    ensures var f := Drain(m, s); Drain(m, f.held) == Fed("", f.held)
    decreases |s|
  {
    if s != "" {
      var k := Longest(m, s);
      if k > 0 {
        DrainHeld(m, s[k..]);
      } else if !MayGrow(m, s) {
        DrainHeld(m, s[1..]);
      }
    }
  }

  ghost predicate ChunkInvariant(m: Fakes) {
    forall c, d: seq<string> :: Concat(c) == Concat(d) ==> Streamed(m, c) == Streamed(m, d)
  }

  ghost predicate EqualsBatch(m: Fakes) {
    forall c: seq<string> :: Streamed(m, c) == Restore(m, Concat(c))
  }

  lemma {:induction false} PrefixFreeChunkInvariant(m: Fakes)
    requires PrefixFree(m.Keys)
    ensures ChunkInvariant(m)
  {
    forall c, d: seq<string> | Concat(c) == Concat(d) ensures Streamed(m, c) == Streamed(m, d) {
      FeedAllIsDrain(m, "", c);
      FeedAllIsDrain(m, "", d);
    }
  }

  // ----- streaming is batch -----

  /** A held-back tail holds no fake, so leaving it as it is restores it. */
  lemma {:induction false} HeldIsRestored(m: Fakes, s: string)
    requires NoKeyInside(m.Keys)
    requires s != "" && MayGrow(m, s) && Longest(m, s) == 0
    ensures Restore(m, s) == s
  {
    var key :| key in m && s <= key;
    assert s[..|s|] == s;
    LongestIsMaximal(m, s);
    assert s == key[..|s|];
    assert key[..|key|] == key;
    assert |s| < |key|;
    forall i: nat, n: nat ensures !Holds(m, s, i, n) {
      if i + n <= |s| {
        assert key[i..i + n] == s[i..i + n];
        assert SitsAt(s[i..i + n], key, i) <==> n > 0;
        assert s[i..i + n] in m ==> !InProperPrefix(s[i..i + n], key);
      }
    }
    RestoreFixes(m, s);
  }

  lemma {:induction false} DrainIsRestore(m: Fakes, s: string)
    requires NoKeyInside(m.Keys)
    ensures var f := Drain(m, s); f.out + f.held == Restore(m, s)
    decreases |s|
  {
    if s != "" {
      var k := Longest(m, s);
      if k > 0 {
        DrainIsRestore(m, s[k..]);
        AfterTotal(Drain(m, s[k..]), m[s[..k]]);
      } else if MayGrow(m, s) {
        HeldIsRestored(m, s);
        assert "" + s == s;
      } else {
        DrainIsRestore(m, s[1..]);
        AfterTotal(Drain(m, s[1..]), [s[0]]);
      }
    }
  }

  lemma {:induction false} AfterTotal(f: Fed, x: string)
    ensures f.After(x).out + f.held == x + (f.out + f.held)
  {
    assert (x + f.out) + f.held == x + (f.out + f.held);
  }

  /** For every way of cutting a text into chunks, the fed pieces and the flush are the
      batch restore of the whole text. */
  lemma {:induction false} StreamEqualsBatch(m: Fakes, chunks: seq<string>)
    requires PrefixFree(m.Keys) && NoKeyInside(m.Keys)
    ensures Streamed(m, chunks) == Restore(m, Concat(chunks))
  {
    FeedAllIsDrain(m, "", chunks);
    assert "" + Concat(chunks) == Concat(chunks);
    DrainIsRestore(m, Concat(chunks));
  }

  // ----- both conditions are necessary -----

  /** Every fake stands for nothing, except `big`, which stands for more than any input here. */
  ghost function Erasing(keys: set<string>, big: string): (m: Fakes)
    ensures m.Keys == keys
  {
    map k | k in keys :: if k == big then seq(|big| + 1, _ => 'x') else ""
  }

  lemma {:induction false} ErasingShrinks(keys: set<string>, big: string, s: string)
    requires |s| < |big|
    ensures var f := Drain(Erasing(keys, big), s); |f.out| + |f.held| <= |s|
    ensures |Restore(Erasing(keys, big), s)| <= |s|
    decreases |s|
  {
    var m := Erasing(keys, big);
    if s != "" {
      var k := Longest(m, s);
      assert k > 0 ==> s[..k] != big;
      ErasingShrinks(keys, big, s[if k > 0 then k else 1..]);
    }
  }

  lemma {:induction false} ErasingErases(keys: set<string>, s: string, i: nat, n: nat)
    requires Holds(Erasing(keys, ""), s, i, n)
    ensures |Restore(Erasing(keys, ""), s)| < |s|
    decreases |s|
  {
    var m := Erasing(keys, "");
    var k := Longest(m, s);
    LongestIsMaximal(m, s);
    if k > 0 {
      EraseAll(keys, s[k..]);
    } else {
      assert s[0..n] == s[..n];
      HoldsShift(m, s, 1);
      assert Holds(m, s[1..], i - 1, n);
      ErasingErases(keys, s[1..], i - 1, n);
    }
  }

  lemma {:induction false} EraseAll(keys: set<string>, s: string)
    ensures |Restore(Erasing(keys, ""), s)| <= |s|
    decreases |s|
  {
    if s != "" {
      var k := Longest(Erasing(keys, ""), s);
      EraseAll(keys, s[if k > 0 then k else 1..]);
    }
  }

  /** A fake that starts another one is taken as soon as it is complete: the longer one is
      then never seen, unless it arrives in one piece. */
  lemma {:induction false} PrefixBreaks(keys: set<string>, a: string, b: string) returns (m: Fakes, cut: seq<string>)
    requires a in keys && b in keys && a != "" && a <= b && a != b
    ensures m.Keys == keys
    ensures Concat(cut) == Concat([b])
    ensures Streamed(m, cut) != Streamed(m, [b])
    ensures Streamed(m, cut) != Restore(m, Concat(cut))
  {
    m := Erasing(keys, b);
    var rest := b[|a|..];
    cut := [a, rest];
    assert a + rest == b;
    ConcatOne(b);
    ConcatOne(rest);
    assert cut[1..] == [rest];
    DrainKey(m, a);
    DrainKey(m, b);
    FeedOne(m, b);
    FeedTwo(m, a, rest);
    ErasingShrinks(keys, b, rest);
    RestoreFake(m, b);
  }

  lemma {:induction false} ConcatOne(s: string)
    ensures Concat([s]) == s
  {
    assert s + "" == s;
  }

  lemma {:induction false} FeedOne(m: Fakes, s: string)
    ensures FeedAll(m, "", [s]) == Drain(m, s)
  {
    var f := Drain(m, s);
    assert "" + s == s && [s][1..] == [] && f.out + "" == f.out;
  }

  /** After a first chunk that leaves nothing behind. */
  lemma {:induction false} FeedTwo(m: Fakes, s: string, t: string)
    requires Drain(m, s) == Fed("", "")
    ensures FeedAll(m, "", [s, t]) == Drain(m, t)
  {
    FeedOne(m, t);
    assert "" + s == s && [s, t][1..] == [t];
    assert "" + Drain(m, t).out == Drain(m, t).out;
  }

  lemma {:induction false} DrainKey(m: Fakes, k: string)
    requires k in m && k != ""
    ensures Drain(m, k) == Fed(m[k], "")
  {
    assert k[..|k|] == k && k[|k|..] == "";
    LongestIs(m, k, |k|);
    assert m[k] + "" == m[k];
  }

  /** A fake inside the start of another one is held back with it, and flushed unrestored. */
  lemma {:induction false} InsideBreaks(keys: set<string>, a: string, b: string) returns (m: Fakes, s: string)
    requires PrefixFree(keys)
    requires a in keys && b in keys && InProperPrefix(a, b)
    ensures m.Keys == keys
    ensures Streamed(m, [s]) != Restore(m, Concat([s]))
  {
    m := Erasing(keys, "");
    var i: nat :| SitsAt(a, b, i);
    s := b[..|b| - 1];
    assert s[i..i + |a|] == b[i..i + |a|];
    assert Holds(m, s, i, |a|);
    ErasingErases(keys, s, i, |a|);
    ProperPrefixIsHeld(m, s, b);
    ConcatOne(s);
    FeedOne(m, s);
    assert "" + s == s;
  }

  lemma {:induction false} ProperPrefixIsHeld(m: Fakes, s: string, b: string)
    requires PrefixFree(m.Keys) && b in m && s != "" && s <= b && s != b
    ensures Drain(m, s) == Fed("", s)
  {
    forall j | 0 < j <= |s| ensures s[..j] !in m {
      assert s[..j] <= b && s[..j] != b;
    }
    LongestIs(m, s, 0);
  }

  /** Chunk invariance holds exactly for prefix-free sets of fakes. */
  lemma {:induction false} ChunkInvarianceExact(keys: set<string>)
    ensures (forall m: Fakes | m.Keys == keys :: ChunkInvariant(m)) <==> PrefixFree(keys)
  {
    if PrefixFree(keys) {
      forall m: Fakes | m.Keys == keys ensures ChunkInvariant(m) { PrefixFreeChunkInvariant(m); }
    } else {
      var a, b :| a in keys && b in keys && a != "" && a <= b && a != b;
      var m, cut := PrefixBreaks(keys, a, b);
      assert !ChunkInvariant(m);
    }
  }

  /** Streaming is the batch restore exactly when no fake starts another one and none sits
      inside the start of another one. */
  lemma {:induction false} StreamEqualsBatchExact(keys: set<string>)
    ensures (forall m: Fakes | m.Keys == keys :: EqualsBatch(m)) <==>
            PrefixFree(keys) && NoKeyInside(keys)
  {
    if !PrefixFree(keys) {
      var a, b :| a in keys && b in keys && a != "" && a <= b && a != b;
      var m, cut := PrefixBreaks(keys, a, b);
      assert !EqualsBatch(m);
    } else if !NoKeyInside(keys) {
      var a, b :| a in keys && b in keys && InProperPrefix(a, b);
      var m, s := InsideBreaks(keys, a, b);
      assert !EqualsBatch(m);
    } else {
      forall m: Fakes | m.Keys == keys ensures EqualsBatch(m) {
        forall c: seq<string> ensures Streamed(m, c) == Restore(m, Concat(c)) {
          StreamEqualsBatch(m, c);
        }
      }
    }
  }
}
