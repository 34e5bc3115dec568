/**
 privaite/streaming/handler.py: one channel of one choice, seen alone. In what order its text goes
 out, what becomes of the text that a buffer still holds, and when the client has all of it.
 */
module ChatChannels {
  import opened Literals
  import opened DeAnonymizer
  import opened Streaming
  import opened Channels

  /** One entry of a chunk, as the channel sees it: its text, whether it finishes the choice, and
      whether the held remainder would then have to go out in a chunk of its own, sent before. */
  datatype Entry = Entry(text: string, finished: bool, apart: bool)

  // ----- in order -----

  /** What has gone out and what is held after an entry, when all goes out where it belongs. */
  ghost function Next(m: Fakes, r: Fed, e: Entry): Fed {
    var f := Drain(m, r.held + e.text);
    if e.finished then Fed(r.out + (f.out + f.held), "") else Fed(r.out + f.out, f.held)
  }

  ghost function Run(m: Fakes, r: Fed, entries: seq<Entry>): Fed {
    if entries == [] then r else Next(m, Run(m, r, entries[..|entries| - 1]), entries[|entries| - 1])
  }

  lemma {:induction false} RunConcat(m: Fakes, r: Fed, a: seq<Entry>, b: seq<Entry>)
    ensures Run(m, r, a + b) == Run(m, Run(m, r, a), b)
    decreases |b|
  {
    if b == [] {
      assert a + b == a;
    } else {
      var n := |b| - 1;
      assert (a + b)[..|a| + n] == a + b[..n];
      RunConcat(m, r, a, b[..n]);
    }
  }

  /** What went out before only comes first. */
  lemma {:induction false} RunAfter(m: Fakes, r: Fed, entries: seq<Entry>)
    ensures Run(m, r, entries) == Run(m, Fed("", r.held), entries).After(r.out)
    decreases |entries|
  {
    if entries == [] {
      assert r.out + "" == r.out;
    } else {
      var n := |entries| - 1;
      RunAfter(m, r, entries[..n]);
      NextAfter(m, Run(m, Fed("", r.held), entries[..n]), r.out, entries[n]);
    }
  }

  lemma {:induction false} NextAfter(m: Fakes, r: Fed, x: string, e: Entry)
    ensures Next(m, r.After(x), e) == Next(m, r, e).After(x)
  {
    var f := Drain(m, r.held + e.text);
    assert (x + r.out) + f.out == x + (r.out + f.out);
    assert (x + r.out) + (f.out + f.held) == x + (r.out + (f.out + f.held));
  }

  function Flat(chunks: seq<seq<Entry>>): seq<Entry> {
    if chunks == [] then [] else Flat(chunks[..|chunks| - 1]) + chunks[|chunks| - 1]
  }

  // ----- as it is sent -----

  /** The text of a chunk so far: what is sent before it, what is sent on it, and what is held. */
  datatype Passed = Passed(pre: string, out: string, held: string)

  ghost function Pass(m: Fakes, p: Passed, e: Entry): Passed {
    var f := Drain(m, p.held + e.text);
    if !e.finished then Passed(p.pre, p.out + f.out, f.held)
    else if e.apart then Passed(p.pre + f.held, p.out + f.out, "")
    else Passed(p.pre, p.out + (f.out + f.held), "")
  }

  ghost function PassAll(m: Fakes, p: Passed, entries: seq<Entry>): Passed {
    if entries == [] then p else Pass(m, PassAll(m, p, entries[..|entries| - 1]), entries[|entries| - 1])
  }

  /** A chunk goes out with its early remainders first. */
  ghost function SentChunk(m: Fakes, held: string, entries: seq<Entry>): Fed {
    var p := PassAll(m, Passed("", "", held), entries);
    Fed(p.pre + p.out, p.held)
  }

  ghost function SentRun(m: Fakes, chunks: seq<seq<Entry>>): Fed {
    if chunks == [] then Fed("", "")
    else
      var r := SentRun(m, chunks[..|chunks| - 1]);
      SentChunk(m, r.held, chunks[|chunks| - 1]).After(r.out)
  }

  /** The same text goes out and the same is held, if not in the same order. */
  lemma {:induction false} PassedSame(m: Fakes, p: Passed, entries: seq<Entry>)
    ensures PassAll(m, p, entries).held == Run(m, Fed("", p.held), entries).held
    ensures |PassAll(m, p, entries).pre| + |PassAll(m, p, entries).out| == |p.pre| + |p.out| + |Run(m, Fed("", p.held), entries).out|
    decreases |entries|
  {
    if entries != [] { PassedSame(m, p, entries[..|entries| - 1]); }
  }

  /** The chunk reads as if nothing in it were sent early. */
  ghost predicate KeepsOrder(m: Fakes, held: string, entries: seq<Entry>) {
    SentChunk(m, held, entries).out == Run(m, Fed("", held), entries).out
  }

  ghost predicate AllKeepOrder(m: Fakes, chunks: seq<seq<Entry>>) {
    forall n {:trigger chunks[..n]} :: 0 <= n < |chunks| ==> KeepsOrder(m, SentRun(m, chunks[..n]).held, chunks[n])
  }

  lemma {:induction false} FrontKeepsOrder(m: Fakes, chunks: seq<seq<Entry>>)
    requires chunks != []
    ensures var n := |chunks| - 1;
            AllKeepOrder(m, chunks) <==> AllKeepOrder(m, chunks[..n]) && KeepsOrder(m, SentRun(m, chunks[..n]).held, chunks[n])
  {
    var n := |chunks| - 1;
    assert forall i {:trigger chunks[..i]} {:trigger chunks[..n][..i]} :: 0 <= i <= n ==> chunks[..n][..i] == chunks[..i];
  }

  /** A channel reads in order if and only if each of its chunks does. */
  lemma {:induction false} SentInOrder(m: Fakes, chunks: seq<seq<Entry>>)
    ensures SentRun(m, chunks).held == Run(m, Fed("", ""), Flat(chunks)).held
    ensures |SentRun(m, chunks).out| == |Run(m, Fed("", ""), Flat(chunks)).out|
    ensures SentRun(m, chunks).out == Run(m, Fed("", ""), Flat(chunks)).out <==> AllKeepOrder(m, chunks)
    decreases |chunks|
  {
    if chunks != [] {
      var n := |chunks| - 1;
      var front, last := Flat(chunks[..n]), chunks[n];
      var r, s := Run(m, Fed("", ""), front), SentRun(m, chunks[..n]);
      SentInOrder(m, chunks[..n]);
      RunConcat(m, Fed("", ""), front, last);
      RunAfter(m, r, last);
      PassedSame(m, Passed("", "", s.held), last);
      FrontKeepsOrder(m, chunks);
      SameHalves(s.out, SentChunk(m, s.held, last).out, r.out, Run(m, Fed("", r.held), last).out);
    }
  }

  lemma {:induction false} SameHalves(a: string, b: string, c: string, d: string)
    requires |a| == |c| && |b| == |d|
    ensures a + b == c + d <==> a == c && b == d
  {
    assert (a + b)[..|a|] == a && (a + b)[|a|..] == b;
    assert (c + d)[..|c|] == c && (c + d)[|c|..] == d;
  }

  // ----- when the order is kept -----

  /** No remainder has to go out on its own. */
  ghost predicate Plain(entries: seq<Entry>) {
    forall i :: 0 <= i < |entries| ==> !(entries[i].finished && entries[i].apart)
  }

  lemma {:induction false} PlainPass(m: Fakes, p: Passed, entries: seq<Entry>)
    requires Plain(entries)
    ensures var r := Run(m, Fed("", p.held), entries);
            PassAll(m, p, entries) == Passed(p.pre, p.out + r.out, r.held)
    decreases |entries|
  {
    if entries == [] {
      assert p.out + "" == p.out;
    } else {
      var n := |entries| - 1;
      PlainPass(m, p, entries[..n]);
      var r := Run(m, Fed("", p.held), entries[..n]);
      var f := Drain(m, r.held + entries[n].text);
      Associates(p.out, r.out, f.out);
      Associates(p.out, r.out, f.out + f.held);
    }
  }

  lemma {:induction false} Associates(a: string, b: string, c: string)
    ensures (a + b) + c == a + (b + c)
  {
  }

  lemma {:induction false} PlainKeepsOrder(m: Fakes, held: string, entries: seq<Entry>)
    requires Plain(entries)
    ensures KeepsOrder(m, held, entries)
  {
    PlainPass(m, Passed("", "", held), entries);
    assert forall s: string :: "" + s == s;
  }

  /** A chunk with one entry of the choice is in order. */
  lemma {:induction false} SingleKeepsOrder(m: Fakes, held: string, entries: seq<Entry>)
    requires |entries| <= 1 && Drain(m, held) == Fed("", held)
    requires forall i :: 0 <= i < |entries| && entries[i].apart ==> entries[i].text == ""
    ensures KeepsOrder(m, held, entries)
  {
    if Plain(entries) {
      PlainKeepsOrder(m, held, entries);
    } else {
      assert entries == [entries[0]] && "" + "" == "";
      OneEntry(m, Fed("", held), entries[0]);
      assert held + "" == held && "" + held == held;
    }
  }

  /** Something of a text, over and over again, and nothing besides. */
  predicate IsPower(u: string, h: string) {
    u == "" || (h != "" && h <= u && IsPower(u[|h|..], h))
  }

  /** A fake that has begun. */
  ghost predicate IsPart(m: Fakes, p: string) {
    exists k :: k in m && p <= k && p != k
  }

  lemma {:induction false} PartHasOneBracket(m: Fakes, p: string)
    requires Bracketing(m) && IsPart(m, p) && p != ""
    ensures p[0] == '<' && forall i :: 0 < i < |p| ==> !IsBracket(p[i])
  {
    var k :| k in m && p <= k && p != k;
    assert Bracketed(k);
    assert forall i :: 0 <= i < |p| ==> p[i] == k[i];
  }

  /** Text and the beginning of a fake read the same both ways round only if the text is that
      beginning, over and over. */
  lemma {:induction false} CommutesIfPower(u: string, h: string)
    requires h != "" && h[0] == '<' && forall i :: 0 < i < |h| ==> !IsBracket(h[i])
    ensures h + u == u + h <==> IsPower(u, h)
    decreases |u|
  {
    if u == "" {
      assert h + u == u + h;
    } else if h <= u {
      var v := u[|h|..];
      assert u == h + v;
      CommutesIfPower(v, h);
      assert h + u == h + (h + v) && u + h == h + (v + h);
      assert (h + (h + v))[|h|..] == h + v && (h + (v + h))[|h|..] == v + h;
    } else {
      OtherStart(u, h);
    }
  }

  lemma {:induction false} OtherStart(u: string, h: string)
    requires h != "" && h[0] == '<' && forall i :: 0 < i < |h| ==> !IsBracket(h[i])
    requires u != "" && !(h <= u)
    ensures h + u != u + h
  {
    var a, b := h + u, u + h;
    if |u| >= |h| {
      assert a[..|h|] == h && b[..|h|] == u[..|h|];
    } else {
      assert a[|u|] == h[|u|] && b[|u|] == h[0];
    }
  }

  /**
   One remainder sent early: the chunk is in order if and only if there is no remainder, or the text
   that the chunk had before it is that remainder over and over.
   */
  lemma {:induction false} OneEarlyRemainder(m: Fakes, held: string, before: seq<Entry>, e: Entry, after: seq<Entry>)
    requires Bracketing(m) && Drain(m, held) == Fed("", held)
    requires Plain(before) && Plain(after) && e.finished && e.apart && e.text == ""
    ensures var r := Run(m, Fed("", held), before);
            KeepsOrder(m, held, before + [e] + after) <==> r.held == "" || IsPower(r.out, r.held)
  {
    var r := Run(m, Fed("", held), before);
    RunHeld(m, Fed("", held), before);
    PlainPass(m, Passed("", "", held), before);
    PassConcat(m, Passed("", "", held), before, [e]);
    PassConcat(m, Passed("", "", held), before + [e], after);
    OneEntry(m, r, e);
    PlainPass(m, Passed(r.held, r.out, ""), after);
    RunConcat(m, Fed("", held), before, [e]);
    RunConcat(m, Fed("", held), before + [e], after);
    RunAfter(m, Fed(r.out + r.held, ""), after);
    Swapped(r.held, r.out, Run(m, Fed("", ""), after).out);
    if r.held != "" {
      HeldIsPart(m, r.held);
      PartHasOneBracket(m, r.held);
      CommutesIfPower(r.out, r.held);
    }
  }

  lemma {:induction false} OneEntry(m: Fakes, r: Fed, e: Entry)
    requires Drain(m, r.held) == Fed("", r.held) && e.finished && e.apart && e.text == ""
    ensures PassAll(m, Passed("", "" + r.out, r.held), [e]) == Passed(r.held, r.out, "")
    ensures Run(m, r, [e]) == Fed(r.out + r.held, "")
  {
    assert [e][..0] == [] && r.held + "" == r.held;
    assert "" + r.out == r.out && r.out + "" == r.out && "" + r.held == r.held;
  }

  lemma {:induction false} Swapped(h: string, u: string, v: string)
    ensures h + (u + v) == (u + h) + v <==> h + u == u + h
  {
    assert h + (u + v) == (h + u) + v;
    assert ((h + u) + v)[..|h + u|] == h + u && ((u + h) + v)[..|u + h|] == u + h;
  }

  lemma {:induction false} PassConcat(m: Fakes, p: Passed, a: seq<Entry>, b: seq<Entry>)
    ensures PassAll(m, p, a + b) == PassAll(m, PassAll(m, p, a), b)
    decreases |b|
  {
    if b == [] {
      assert a + b == a;
    } else {
      var n := |b| - 1;
      assert (a + b)[..|a| + n] == a + b[..n];
      PassConcat(m, p, a, b[..n]);
    }
  }

  lemma {:induction false} RunHeld(m: Fakes, r: Fed, entries: seq<Entry>)
    requires Drain(m, r.held) == Fed("", r.held)
    ensures Drain(m, Run(m, r, entries).held) == Fed("", Run(m, r, entries).held)
    decreases |entries|
  {
    if entries != [] {
      var n := |entries| - 1;
      RunHeld(m, r, entries[..n]);
      DrainHeld(m, Run(m, r, entries[..n]).held + entries[n].text);
    }
  }

  lemma {:induction false} HeldIsPart(m: Fakes, h: string)
    requires h != "" && Drain(m, h) == Fed("", h)
    ensures IsPart(m, h)
  {
    var k := Longest(m, h);
    if k > 0 {
      DrainShrinks(m, h[k..]);
      assert false;
    } else if MayGrow(m, h) {
      var key :| key in m && h <= key;
      LongestIsMaximal(m, h);
      assert h[..|h|] == h;
    }
  }

  lemma {:induction false} DrainShrinks(m: Fakes, s: string)
    ensures |Drain(m, s).held| <= |s|
    decreases |s|
  {
    if s != "" {
      var k := Longest(m, s);
      if k > 0 { DrainShrinks(m, s[k..]); } else if !MayGrow(m, s) { DrainShrinks(m, s[1..]); }
    }
  }

  // ----- when the client has all of it -----

  /** The text since the last finishing entry, and what came before, restored finish by finish. */
  ghost function StretchesOf(m: Fakes, entries: seq<Entry>): Segments {
    if entries == [] then Segments("", "")
    else
      var n := |entries| - 1;
      var s := StretchesOf(m, entries[..n]);
      if entries[n].finished then Segments(s.closed + Restore(m, s.open + entries[n].text), "")
      else Segments(s.closed, s.open + entries[n].text)
  }

  /** All the text of a channel, each stretch up to a finishing entry restored as one text. */
  ghost function Whole(m: Fakes, entries: seq<Entry>): string {
    var s := StretchesOf(m, entries);
    s.closed + Restore(m, s.open)
  }

  ghost predicate EverFinished(entries: seq<Entry>) {
    exists i :: 0 <= i < |entries| && entries[i].finished
  }

  /** What the client has once the stream is over: a remainder goes out only if the choice never
      finished. */
  ghost function Received(r: Fed, everFinished: bool): string {
    if everFinished then r.out else r.out + r.held
  }

  lemma {:induction false} RunFollows(m: Fakes, entries: seq<Entry>)
    requires PrefixFree(m.Keys) && NoKeyInside(m.Keys)
    ensures Follows(m, StretchesOf(m, entries), Run(m, Fed("", ""), entries).out, Run(m, Fed("", ""), entries).held)
    decreases |entries|
  {
    if entries == [] {
      assert Drain(m, "") == Fed("", "");
    } else {
      var n := |entries| - 1;
      var s, r, e := StretchesOf(m, entries[..n]), Run(m, Fed("", ""), entries[..n]), entries[n];
      RunFollows(m, entries[..n]);
      var f := Drain(m, r.held + e.text);
      FollowsFeed(m, s, r.out, r.held, e.text, f.out, f.held);
      if e.finished {
        FollowsFlush(m, Segments(s.closed, s.open + e.text), r.out + f.out, f.held);
        assert (r.out + f.out) + f.held == r.out + (f.out + f.held);
      }
    }
  }

  /** The text ends in the middle of a fake. */
  ghost predicate EndsInPart(m: Fakes, s: string) {
    exists i: nat {:trigger s[i..]} :: i < |s| && IsPart(m, s[i..])
  }

  /** A text is held back exactly when it ends in the middle of a fake. */
  lemma {:induction false} HeldExactly(m: Fakes, s: string)
    requires Bracketing(m)
    ensures Drain(m, s).held != "" <==> EndsInPart(m, s)
    decreases |s|
  {
    if s != "" {
      var k := Longest(m, s);
      assert s[0..] == s;
      if k > 0 {
        HeldExactly(m, s[k..]);
        PartBehind(m, s, k);
      } else if MayGrow(m, s) {
        var key :| key in m && s <= key;
        LongestIsMaximal(m, s);
        assert s[..|s|] == s;
        assert IsPart(m, s[0..]);
      } else {
        HeldExactly(m, s[1..]);
        PartBehind(m, s, 1);
      }
    }
  }

  lemma {:induction false} NotInside(m: Fakes, s: string, k: nat, i: nat)
    requires Bracketing(m) && i < k <= |s|
    requires s[..k] in m || (k == 1 && !MayGrow(m, s))
    ensures !IsPart(m, s[i..])
  {
    var tail := s[i..];
    if s[..k] in m {
      assert s[..k][k - 1] == tail[k - 1 - i] == '>';
      if IsPart(m, tail) { PartHasOneBracket(m, tail); }
    } else {
      assert tail == s;
    }
  }

  /** A fake that has begun at the end has begun behind what is decided. */
  lemma {:induction false} PartBehind(m: Fakes, s: string, k: nat)
    requires Bracketing(m) && 0 < k <= |s|
    requires s[..k] in m || (k == 1 && !MayGrow(m, s))
    ensures EndsInPart(m, s) <==> EndsInPart(m, s[k..])
  {
    forall i: nat | i < k ensures !IsPart(m, s[i..]) {
      NotInside(m, s, k, i);
    }
    if EndsInPart(m, s) {
      var i: nat :| i < |s| && IsPart(m, s[i..]);
      assert s[k..][i - k..] == s[i..];
    }
    if EndsInPart(m, s[k..]) {
      var i: nat :| i < |s[k..]| && IsPart(m, s[k..][i..]);
      assert s[k..][i..] == s[k + i..];
    }
  }

  /**
   The client has all the text of a channel that reads in order, whatever comes after a finishing
   entry, unless the choice has finished and what came after its last finish ends in the middle of
   a fake: that part is never sent.
   */
  lemma {:induction false} ReceivedIsWhole(m: Fakes, entries: seq<Entry>)
    requires Bracketing(m)
    ensures Received(Run(m, Fed("", ""), entries), EverFinished(entries)) == Whole(m, entries)
       <==> !(EverFinished(entries) && EndsInPart(m, StretchesOf(m, entries).open))
  {
    BracketingSuffices(m);
    RunFollows(m, entries);
    var s, r := StretchesOf(m, entries), Run(m, Fed("", ""), entries);
    DrainIsRestore(m, s.open);
    HeldExactly(m, s.open);
    Remainder(s.closed, Drain(m, s.open).out, r.held);
  }

  lemma {:induction false} Remainder(closed: string, out: string, held: string)
    ensures (closed + out) + held == closed + (out + held)
    ensures closed + out == closed + (out + held) <==> held == ""
  {
    assert |closed + (out + held)| == |closed + out| + |held|;
    assert held == "" ==> out + held == out;
  }

  // ----- orderly channels -----

  function TextOf(entries: seq<Entry>): string {
    if entries == [] then "" else TextOf(entries[..|entries| - 1]) + entries[|entries| - 1].text
  }

  lemma {:induction false} TextConcat(a: seq<Entry>, b: seq<Entry>)
    ensures TextOf(a + b) == TextOf(a) + TextOf(b)
    decreases |b|
  {
    if b == [] {
      assert a + b == a;
    } else {
      var n := |b| - 1;
      assert (a + b)[..|a| + n] == a + b[..n];
      TextConcat(a, b[..n]);
    }
  }

  /** No text comes after a finishing entry. */
  ghost predicate Orderly(entries: seq<Entry>) {
    forall i, j :: 0 <= i < j < |entries| && entries[i].finished ==> entries[j].text == ""
  }

  lemma {:induction false} OrderlyStretches(m: Fakes, entries: seq<Entry>)
    requires Orderly(entries)
    ensures StretchesOf(m, entries)
         == if EverFinished(entries) then Segments(Restore(m, TextOf(entries)), "") else Segments("", TextOf(entries))
    decreases |entries|
  {
    if entries != [] {
      var n := |entries| - 1;
      var front := entries[..n];
      assert forall i :: 0 <= i < n ==> front[i] == entries[i];
      OrderlyStretches(m, front);
      assert TextOf(front) + "" == TextOf(front) && Restore(m, TextOf(front)) + "" == Restore(m, TextOf(front));
      assert "" + Restore(m, TextOf(entries)) == Restore(m, TextOf(entries)) && "" + "" == "" && Restore(m, "") == "";
      if EverFinished(front) {
        var i :| 0 <= i < n && front[i].finished;
        assert entries[i].finished && entries[n].text == "";
      } else if entries[n].finished {
        assert EverFinished(entries);
      }
    }
  }

  /** A channel whose text is over when its choice finishes is received whole: the batch restore of
      the text the provider sent. */
  lemma {:induction false} OrderlyIsRestored(m: Fakes, entries: seq<Entry>)
    requires Bracketing(m) && Orderly(entries)
    ensures Received(Run(m, Fed("", ""), entries), EverFinished(entries)) == Restore(m, TextOf(entries))
  {
    OrderlyStretches(m, entries);
    ReceivedIsWhole(m, entries);
    assert "" + Restore(m, TextOf(entries)) == Restore(m, TextOf(entries));
    assert Restore(m, TextOf(entries)) + "" == Restore(m, TextOf(entries)) && Restore(m, "") == "";
  }
}
