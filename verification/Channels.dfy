/**
 The dictionaries of hold-back buffers the stream restorers keep: one
 StreamingDeAnonymizer per text channel, made when the channel's first text arrives.
 */
module Channels {
  import opened DeAnonymizer
  import opened Streaming
  import opened TrieBuffer

  /** What every buffer holds; a channel without a buffer holds nothing. */
  type Buffers<K(==)> = map<K, string>

  function At<K>(s: Buffers<K>, k: K): string {
    if k in s then s[k] else ""
  }

  ghost predicate Updated<K(!new)>(s: Buffers<K>, s': Buffers<K>, k: K, h: string) {
    forall j :: At(s', j) == if j == k then h else At(s, j)
  }

  /** One step of a channel: `t` comes in, `out` goes out, the buffer holds `h` before and
      `h'` after it. With `done` the buffer is flushed as well. */
  ghost predicate Steps(m: Fakes, h: string, t: string, done: bool, out: string, h': string) {
    var f := Drain(m, h + t);
    if done then out == f.out + f.held && h' == "" else out == f.out && h' == f.held
  }

  /** Two steps of a channel, one after the other, are one step. */
  lemma {:induction false} NextStep(m: Fakes, h0: string, t: string, out: string, h1: string, t2: string, done: bool, out2: string, h2: string)
    requires PrefixFree(m.Keys)
    requires Steps(m, h0, t, false, out, h1) && Steps(m, h1, t2, done, out2, h2)
    ensures Steps(m, h0, t + t2, done, out + out2, h2)
  {
    DrainSplit(m, h0 + t, t2);
    assert h0 + t + t2 == h0 + (t + t2);
    var g := Drain(m, h1 + t2);
    assert out + (g.out + g.held) == (out + g.out) + g.held;
  }

  // ----- channels that are flushed on the way -----

  /** One event as one channel sees it: whether it flushes the channel first, and the text it
      carries for it. */
  datatype Beat = Beat(flushes: bool, text: string)

  function BeatsText(beats: seq<Beat>): string {
    if beats == [] then "" else BeatsText(beats[..|beats| - 1]) + beats[|beats| - 1].text
  }

  lemma {:induction false} BeatsTextConcat(a: seq<Beat>, b: seq<Beat>)
    ensures BeatsText(a + b) == BeatsText(a) + BeatsText(b)
    decreases |b|
  {
    if b == [] {
      assert a + b == a;
    } else {
      var n := |b| - 1;
      assert (a + b)[..|a| + n] == a + b[..n];
      BeatsTextConcat(a, b[..n]);
    }
  }

  /** The text of a channel since its last flush, and what came before, restored flush by flush. */
  datatype Segments = Segments(closed: string, open: string)

  function SegmentsOf(m: Fakes, beats: seq<Beat>): Segments {
    if beats == [] then Segments("", "")
    else
      var n := |beats| - 1;
      var s := SegmentsOf(m, beats[..n]);
      if beats[n].flushes then Segments(s.closed + Restore(m, s.open), beats[n].text)
      else Segments(s.closed, s.open + beats[n].text)
  }

  /** The whole text of a channel: each stretch between two flushes restored as one text. */
  function Expected(m: Fakes, beats: seq<Beat>): string {
    var s := SegmentsOf(m, beats);
    s.closed + Restore(m, s.open)
  }

  /** What the channel has sent, and what its buffer holds. */
  ghost predicate Follows(m: Fakes, s: Segments, sent: string, held: string) {
    var f := Drain(m, s.open);
    sent == s.closed + f.out && held == f.held
  }

  /** A flush sends the rest of the open stretch. */
  lemma {:induction false} FollowsFlush(m: Fakes, s: Segments, sent: string, held: string)
    requires NoKeyInside(m.Keys) && Follows(m, s, sent, held)
    ensures Follows(m, Segments(s.closed + Restore(m, s.open), ""), sent + held, "")
    ensures sent + held == s.closed + Restore(m, s.open)
  {
    DrainIsRestore(m, s.open);
    var f := Drain(m, s.open);
    assert (s.closed + f.out) + f.held == s.closed + (f.out + f.held);
    assert sent + held + "" == sent + held;
  }

  lemma {:induction false} FollowsFeed(m: Fakes, s: Segments, sent: string, held: string, t: string, out: string, held': string)
    requires PrefixFree(m.Keys) && Follows(m, s, sent, held) && Steps(m, held, t, false, out, held')
    ensures Follows(m, Segments(s.closed, s.open + t), sent + out, held')
  {
    DrainSplit(m, s.open, t);
    FedAfter(s.closed, Drain(m, s.open), Drain(m, held + t), sent, out);
  }

  lemma {:induction false} FedAfter(closed: string, f: Fed, g: Fed, sent: string, out: string)
    requires sent == closed + f.out && out == g.out
    ensures sent + out == closed + g.After(f.out).out
  {
    assert (closed + f.out) + g.out == closed + (f.out + g.out);
  }

  /** No flush of the channel comes before text of the channel. */
  ghost predicate FlushedLast(beats: seq<Beat>) {
    forall i, j :: 0 <= i <= j < |beats| && beats[i].flushes ==> beats[j].text == ""
  }

  /** A channel that is only flushed once it is complete is restored as one text. */
  lemma {:induction false} FlushedLastIsWhole(m: Fakes, beats: seq<Beat>)
    requires FlushedLast(beats)
    ensures SegmentsOf(m, beats) ==
            if exists i :: 0 <= i < |beats| && beats[i].flushes
            then Segments(Restore(m, BeatsText(beats)), "") else Segments("", BeatsText(beats))
    ensures Expected(m, beats) == Restore(m, BeatsText(beats))
    decreases |beats|
  {
    if beats != [] {
      var n := |beats| - 1;
      var front := beats[..n];
      FlushedLastIsWhole(m, front);
      var s := SegmentsOf(m, front);
      assert "" + Restore(m, BeatsText(front)) == Restore(m, BeatsText(front));
      assert Restore(m, BeatsText(front)) + "" == Restore(m, BeatsText(front));
      assert BeatsText(front) + "" == BeatsText(front);
      if i :| 0 <= i < n && front[i].flushes {
        assert beats[i].flushes;
        assert beats[n].text == "";
      } else if beats[n].flushes {
        assert beats[n].text == "";
      }
    }
    var s := SegmentsOf(m, beats);
    assert "" + Restore(m, s.open) == Restore(m, s.open) && s.closed + "" == s.closed;
  }

  class BufferStore<K(==,!new)> {
    /** The fakes a channel restores, with their originals as that channel needs them. */
    const fakesOf: K -> Fakes
    var buffers: map<K, StreamingDeAnonymizer>

    ghost predicate Valid()
      reads `buffers, buffers.Values
      reads set b, n | b in buffers.Values && n in b.nodes.Values :: n
    {
      && (forall k {:trigger Ready(k)} :: k in buffers ==> Ready(k))
      && (forall j, k {:trigger Apart(j, k)} :: j in buffers && k in buffers && j != k ==> Apart(j, k))
    }

    /** The buffer of a channel holds undecided text. */
    ghost predicate Ready(k: K)
      requires k in buffers
      reads `buffers, buffers.Values
      reads set b, n | b in buffers.Values && n in b.nodes.Values :: n
    {
      && buffers[k].Valid() && buffers[k].fakes == fakesOf(k)
      && Drain(buffers[k].fakes, buffers[k].buffer) == Fed("", buffers[k].buffer)
    }

    ghost predicate Apart(j: K, k: K)
      requires j in buffers && k in buffers
      reads `buffers
    {
      buffers[j] != buffers[k]
    }

    ghost function HeldAt(k: K): string
      reads `buffers, buffers.Values
    {
      if k in buffers then buffers[k].buffer else ""
    }

    ghost function Held(): Buffers<K>
      reads `buffers, buffers.Values
    {
      map k | k in buffers :: buffers[k].buffer
    }

    lemma {:induction false} HeldPointwise()
      ensures forall k :: At(Held(), k) == HeldAt(k)
      ensures Held().Keys == buffers.Keys
    {
    }

    /** Held text is undecided text. */
    lemma {:induction false} HeldIsUndecided()
      requires Valid()
      ensures forall k {:trigger At(Held(), k)} :: Drain(fakesOf(k), At(Held(), k)) == Fed("", At(Held(), k))
    {
      forall k ensures Drain(fakesOf(k), At(Held(), k)) == Fed("", At(Held(), k)) {
        assert k in buffers ==> Ready(k);
      }
    }

    constructor (fakesOf: K -> Fakes)
      ensures Valid() && this.fakesOf == fakesOf && Held() == map[] && fresh(buffers.Values)
    {
      this.fakesOf := fakesOf;
      buffers := map[];
    }

    /** The buffer of a channel, made when its first text arrives. */
    method Buffer(k: K) returns (b: StreamingDeAnonymizer)
      requires Valid()
      modifies `buffers
      ensures Valid() && k in buffers && b == buffers[k]
      ensures buffers.Keys == old(buffers.Keys) + {k}
      ensures forall j :: HeldAt(j) == old(HeldAt(j))
      ensures fresh(buffers.Values - old(buffers.Values))
    {
      if k in buffers {
        return buffers[k];
      }
      b := new StreamingDeAnonymizer(fakesOf(k));
      Install(k, b);
    }

    /** A new buffer, with nothing in it. */
    method Install(k: K, b: StreamingDeAnonymizer)
      requires Valid() && k !in buffers && b !in buffers.Values
      requires b.Valid() && b.fakes == fakesOf(k) && b.buffer == ""
      modifies `buffers
      ensures Valid() && buffers == old(buffers)[k := b]
      ensures forall j :: HeldAt(j) == old(HeldAt(j))
    {
      ghost var before := buffers;
      buffers := buffers[k := b];
      forall j | j in buffers ensures Ready(j) {
        if j != k { assert old(Ready(j)); }
      }
      forall i, j | i in buffers && j in buffers && i != j ensures Apart(i, j) {
        assert i in before ==> before[i] in before.Values;
        assert j in before ==> before[j] in before.Values;
        if i != k && j != k { assert old(Apart(i, j)); }
      }
    }

    method FeedBuffer(k: K, text: string) returns (out: string)
      requires Valid()
      modifies `buffers, buffers.Values`buffer
      ensures Valid() && fresh(buffers.Values - old(buffers.Values))
      ensures buffers.Keys == old(buffers.Keys) + {k}
      ensures Steps(fakesOf(k), old(HeldAt(k)), text, false, out, HeldAt(k))
      ensures forall j :: j != k ==> HeldAt(j) == old(HeldAt(j))
    {
      ghost var h := HeldAt(k);
      var b := Buffer(k);
      label made:
      assert Ready(k);
      out := b.Feed(text);
      DrainHeld(b.fakes, h + text);
      forall j | j in buffers ensures Ready(j) && (j != k ==> HeldAt(j) == old@made(HeldAt(j))) {
        assert old@made(Ready(j));
        assert j != k ==> old@made(Apart(j, k));
      }
      forall i, j | i in buffers && j in buffers && i != j ensures Apart(i, j) {
        assert old@made(Apart(i, j));
      }
    }

    method FlushBuffer(k: K) returns (remaining: string)
      requires Valid() && k in buffers
      modifies buffers.Values`buffer
      ensures Valid() && remaining == old(HeldAt(k)) && HeldAt(k) == ""
      ensures forall j :: j != k ==> HeldAt(j) == old(HeldAt(j))
    {
      assert Ready(k);
      remaining := buffers[k].Flush();
      forall j | j in buffers ensures Ready(j) && (j != k ==> HeldAt(j) == old(HeldAt(j))) {
        assert old(Ready(j));
        assert j != k ==> old(Apart(j, k));
      }
      forall i, j | i in buffers && j in buffers && i != j ensures Apart(i, j) {
        assert old(Apart(i, j));
      }
    }

    /** Drop the buffer of a channel that holds nothing. */
    method Drop(k: K)
      requires Valid() && k in buffers && HeldAt(k) == ""
      modifies `buffers
      ensures Valid() && buffers == old(buffers) - {k}
      ensures forall j :: HeldAt(j) == old(HeldAt(j))
    {
      buffers := buffers - {k};
      forall j | j in buffers ensures Ready(j) {
        assert old(Ready(j));
      }
      forall i, j | i in buffers && j in buffers && i != j ensures Apart(i, j) {
        assert old(Apart(i, j));
      }
    }

    /** Feed one channel, told of all channels at once. */
    method Feed(k: K, text: string) returns (out: string)
      requires Valid()
      modifies `buffers, buffers.Values`buffer
      ensures Valid() && fresh(buffers.Values - old(buffers.Values))
      ensures buffers.Keys == old(buffers.Keys) + {k}
      ensures Steps(fakesOf(k), At(old(Held()), k), text, false, out, At(Held(), k))
      ensures Updated(old(Held()), Held(), k, At(Held(), k))
    {
      HeldPointwise();
      out := FeedBuffer(k, text);
      HeldPointwise();
    }

    /** Flush a channel and drop its buffer, told of all channels at once. */
    method Pop(k: K) returns (remaining: string)
      requires Valid() && k in buffers
      modifies `buffers, buffers.Values`buffer
      ensures Valid() && remaining == At(old(Held()), k)
      ensures buffers.Keys == old(buffers.Keys) - {k} && buffers.Values <= old(buffers.Values)
      ensures Updated(old(Held()), Held(), k, "")
    {
      HeldPointwise();
      remaining := FlushBuffer(k);
      HeldPointwise();
      Drop(k);
      HeldPointwise();
    }

    /** Flush one channel, told of all channels at once. */
    method Flush(k: K) returns (remaining: string)
      requires Valid() && k in buffers
      modifies buffers.Values`buffer
      ensures Valid() && remaining == At(old(Held()), k)
      ensures Updated(old(Held()), Held(), k, "")
    {
      HeldPointwise();
      remaining := FlushBuffer(k);
      HeldPointwise();
    }
  }
}
