/**
 privaite/gateway/restore.py: the SSE stream of a gateway response, restored event by
 event with one hold-back buffer per channel.
 */
module Gateway {
  import opened Wrappers
  import opened DeAnonymizer
  import opened Streaming
  import opened TrieBuffer
  import opened JsonText
  import opened JsonTree
  import opened WholeValues
  import opened Channels
  import opened Protocols
  import opened ServerEvents
  import opened Renaming
  import RestoredLeaves

  // ----- a stream as its channels see it -----

  function TextOf(r: Reading, c: Channel): string {
    if r.fragment.Some? && r.fragment.value.0 == c then r.fragment.value.1 else ""
  }

  predicate Closes(r: Reading, c: Channel) {
    r.flushAll || c in r.flushes
  }

  function Beats(rs: seq<Reading>, c: Channel): seq<Beat> {
    if rs == [] then []
    else
      var n := |rs| - 1;
      Beats(rs[..n], c) + [Beat(Closes(rs[n], c), TextOf(rs[n], c))]
  }

  /** The text of a channel. */
  function StreamText(rs: seq<Reading>, c: Channel): string {
    if rs == [] then "" else StreamText(rs[..|rs| - 1], c) + TextOf(rs[|rs| - 1], c)
  }

  lemma {:induction false} BeatsAreText(rs: seq<Reading>, c: Channel)
    ensures BeatsText(Beats(rs, c)) == StreamText(rs, c)
    decreases |rs|
  {
    if rs != [] {
      var n := |rs| - 1;
      BeatsAreText(rs[..n], c);
      assert Beats(rs, c)[..|Beats(rs, c)| - 1] == Beats(rs[..n], c);
    }
  }

  lemma {:induction false} AppendedText(a: seq<Reading>, b: seq<Reading>, c: Channel)
    ensures StreamText(a + b, c) == StreamText(a, c) + StreamText(b, c)
    decreases |b|
  {
    if b == [] {
      assert a + b == a;
    } else {
      var n := |b| - 1;
      assert (a + b)[..|a| + n] == a + b[..n];
      AppendedText(a, b[..n], c);
    }
  }

  lemma {:induction false} OneText(r: Reading, c: Channel)
    ensures StreamText([r], c) == TextOf(r, c)
  {
    assert [r][..0] == [];
  }

  // ----- flushing -----

  /** The channels an event closes have been flushed, but for those in `todo`: what they held is
      in `sent`. */
  ghost predicate Flushed(r: Reading, s: Buffers<Channel>, todo: set<Channel>, sent: seq<Reading>, s': Buffers<Channel>) {
    forall c: Channel {:trigger At(s', c)} ::
      if Closes(r, c) && c !in todo
      then StreamText(sent, c) == At(s, c) && At(s', c) == ""
      else StreamText(sent, c) == "" && At(s', c) == At(s, c)
  }

  lemma {:induction false} FlushedStart(r: Reading, s: Buffers<Channel>, todo: set<Channel>)
    requires forall c :: c in s && Closes(r, c) ==> c in todo
    ensures Flushed(r, s, todo, [], s)
  {
    var none: seq<Reading> := [];
    forall c: Channel ensures StreamText(none, c) == "" && (Closes(r, c) && c !in todo ==> At(s, c) == "") {
      assert c in s || At(s, c) == "";
    }
  }

  /** What is sent for a flushed channel: one delta with the text it held, if it held any. */
  ghost predicate Carries(sent: seq<Reading>, c: Channel, text: string) {
    if text == "" then sent == [] else |sent| == 1 && sent[0].fragment == Some((c, text))
  }

  lemma {:induction false} FlushedNext(r: Reading, s: Buffers<Channel>, todo: set<Channel>, sent: seq<Reading>, s1: Buffers<Channel>,
                                       c: Channel, more: seq<Reading>, s2: Buffers<Channel>)
    requires Flushed(r, s, todo, sent, s1)
    requires c in todo && Closes(r, c) && Updated(s1, s2, c, "")
    requires Carries(more, c, At(s1, c))
    ensures Flushed(r, s, todo - {c}, sent + more, s2)
  {
    assert At(s1, c) == At(s, c);
    forall k: Channel
      ensures if Closes(r, k) && k !in todo - {c}
              then StreamText(sent + more, k) == At(s, k) && At(s2, k) == ""
              else StreamText(sent + more, k) == "" && At(s2, k) == At(s, k)
    {
      assert At(s1, k) == At(s1, k) && At(s2, k) == At(s2, k);
      AppendedText(sent, more, k);
      if more != [] {
        assert more == [more[0]];
        OneText(more[0], k);
      }
    }
  }

  /** What a channel held when an event closes it has been sent before the event. */
  ghost predicate FlushedFirst(r: Reading, s: Buffers<Channel>, sent: seq<Reading>) {
    forall c: Channel {:trigger At(s, c)} :: Closes(r, c) ==> StreamText(sent, c) == At(s, c)
  }

  lemma {:induction false} IsFlushedFirst(r: Reading, s: Buffers<Channel>, sent: seq<Reading>, s': Buffers<Channel>)
    requires Flushed(r, s, {}, sent, s')
    ensures FlushedFirst(r, s, sent)
  {
    forall c: Channel | Closes(r, c) ensures StreamText(sent, c) == At(s, c) {
      assert At(s', c) == At(s', c);
    }
  }

  // ----- one event -----

  /** One event has been processed: the channels it closes are flushed, then its text is fed. */
  ghost predicate EventStep(fakes: Channel -> Fakes, r: Reading, s: Buffers<Channel>, sent: seq<Reading>, s': Buffers<Channel>) {
    forall c: Channel {:trigger At(s', c)} ::
      EventFor(fakes(c), Beat(Closes(r, c), TextOf(r, c)), At(s, c), StreamText(sent, c), At(s', c))
  }

  ghost predicate EventFor(m: Fakes, beat: Beat, held: string, sent: string, held': string) {
    var pre, left := if beat.flushes then held else "", if beat.flushes then "" else held;
    var f := Drain(m, left + beat.text);
    sent == pre + f.out && held' == f.held
  }

  /** The block of an event as each channel sees it: its text is fed and the output sent. */
  ghost predicate BlockStep(fakes: Channel -> Fakes, r: Reading, s: Buffers<Channel>, block: Reading, s': Buffers<Channel>) {
    forall c: Channel {:trigger At(s', c)} :: Steps(fakes(c), At(s, c), TextOf(r, c), false, TextOf(block, c), At(s', c))
  }

  lemma {:induction false} EventDone(fakes: Channel -> Fakes, r: Reading, s: Buffers<Channel>, pre: seq<Reading>, s1: Buffers<Channel>,
                                     block: Reading, s2: Buffers<Channel>)
    requires Flushed(r, s, {}, pre, s1) && BlockStep(fakes, r, s1, block, s2)
    ensures EventStep(fakes, r, s, pre + [block], s2)
  {
    forall c: Channel
      ensures EventFor(fakes(c), Beat(Closes(r, c), TextOf(r, c)), At(s, c), StreamText(pre + [block], c), At(s2, c))
    {
      assert At(s1, c) == At(s1, c) && At(s2, c) == At(s2, c);
      AppendedText(pre, [block], c);
      OneText(block, c);
    }
  }

  ghost predicate Undecided(fakes: Channel -> Fakes, s: Buffers<Channel>) {
    forall c: Channel {:trigger At(s, c)} :: Drain(fakes(c), At(s, c)) == Fed("", At(s, c))
  }

  /** The block of an event that carries no text. */
  lemma {:induction false} SilentBlock(fakes: Channel -> Fakes, r: Reading, s: Buffers<Channel>, block: Reading)
    requires Undecided(fakes, s) && r.fragment == None && block.fragment == None
    ensures BlockStep(fakes, r, s, block, s)
  {
    forall c: Channel ensures Steps(fakes(c), At(s, c), TextOf(r, c), false, TextOf(block, c), At(s, c)) {
      assert At(s, c) + "" == At(s, c);
    }
  }

  /** The block of a delta: its channel has fed its text, the others are idle. */
  lemma {:induction false} DeltaBlock(fakes: Channel -> Fakes, r: Reading, s: Buffers<Channel>, block: Reading, s': Buffers<Channel>,
                                      c: Channel, text: string, out: string)
    requires Undecided(fakes, s) && r.fragment == Some((c, text)) && block.fragment == Some((c, out))
    requires Updated(s, s', c, At(s', c)) && Steps(fakes(c), At(s, c), text, false, out, At(s', c))
    ensures BlockStep(fakes, r, s, block, s')
  {
    forall k: Channel ensures Steps(fakes(k), At(s, k), TextOf(r, k), false, TextOf(block, k), At(s', k)) {
      assert At(s, k) + "" == At(s, k);
    }
  }

  // ----- runs -----

  /** The fakes of every channel are such that held text is all that is undecided. */
  ghost predicate Safe(fakes: Channel -> Fakes) {
    forall c {:trigger fakes(c)} :: PrefixFree(fakes(c).Keys) && NoKeyInside(fakes(c).Keys)
  }

  /** Every channel so far: what it sent and holds follows its own text. */
  ghost predicate Runs(fakes: Channel -> Fakes, events: seq<Reading>, sent: seq<Reading>, s: Buffers<Channel>) {
    forall c: Channel {:trigger At(s, c)} :: Follows(fakes(c), SegmentsOf(fakes(c), Beats(events, c)), StreamText(sent, c), At(s, c))
  }

  lemma {:induction false} RunsNext(fakes: Channel -> Fakes, events: seq<Reading>, sent: seq<Reading>, s: Buffers<Channel>,
                                    r: Reading, blocks: seq<Reading>, s': Buffers<Channel>)
    requires Safe(fakes)
    requires Runs(fakes, events, sent, s) && EventStep(fakes, r, s, blocks, s')
    ensures Runs(fakes, events + [r], sent + blocks, s')
  {
    forall c: Channel
      ensures Follows(fakes(c), SegmentsOf(fakes(c), Beats(events + [r], c)), StreamText(sent + blocks, c), At(s', c))
    {
      assert At(s, c) == At(s, c) && At(s', c) == At(s', c);
      AppendedText(sent, blocks, c);
      assert (events + [r])[..|events|] == events;
      ChannelNext(fakes(c), Beats(events, c), StreamText(sent, c), At(s, c), Beat(Closes(r, c), TextOf(r, c)),
                  StreamText(blocks, c), At(s', c));
    }
  }

  lemma {:induction false} ChannelNext(m: Fakes, beats: seq<Beat>, sent: string, held: string, beat: Beat, more: string, held': string)
    requires PrefixFree(m.Keys) && NoKeyInside(m.Keys)
    requires Follows(m, SegmentsOf(m, beats), sent, held)
    requires EventFor(m, beat, held, more, held')
    ensures Follows(m, SegmentsOf(m, beats + [beat]), sent + more, held')
  {
    SegmentsNext(m, beats, beat);
    if beat.flushes { ClosedNext(m, SegmentsOf(m, beats), sent, held, beat.text, more, held'); }
    else { OpenNext(m, SegmentsOf(m, beats), sent, held, beat.text, more, held'); }
  }

  lemma {:induction false} SegmentsNext(m: Fakes, beats: seq<Beat>, beat: Beat)
    ensures var s := SegmentsOf(m, beats);
            SegmentsOf(m, beats + [beat]) ==
            if beat.flushes then Segments(s.closed + Restore(m, s.open), beat.text) else Segments(s.closed, s.open + beat.text)
  {
    assert (beats + [beat])[..|beats|] == beats;
  }

  lemma {:induction false} OpenNext(m: Fakes, s: Segments, sent: string, held: string, text: string, more: string, held': string)
    requires PrefixFree(m.Keys) && Follows(m, s, sent, held) && EventFor(m, Beat(false, text), held, more, held')
    ensures Follows(m, Segments(s.closed, s.open + text), sent + more, held')
  {
    var out := Drain(m, held + text).out;
    assert "" + out == out;
    FollowsFeed(m, s, sent, held, text, out, held');
  }

  lemma {:induction false} ClosedNext(m: Fakes, s: Segments, sent: string, held: string, text: string, more: string, held': string)
    requires PrefixFree(m.Keys) && NoKeyInside(m.Keys) && Follows(m, s, sent, held) && EventFor(m, Beat(true, text), held, more, held')
    ensures Follows(m, Segments(s.closed + Restore(m, s.open), text), sent + more, held')
  {
    var closed, out := Segments(s.closed + Restore(m, s.open), ""), Drain(m, "" + text).out;
    FollowsFlush(m, s, sent, held);
    FollowsFeed(m, closed, sent + held, "", text, out, held');
    assert "" + text == text;
    assert sent + (held + out) == (sent + held) + out;
  }

  /** After the flush at the end of the stream. */
  lemma {:induction false} RunsEnd(fakes: Channel -> Fakes, events: seq<Reading>, sent: seq<Reading>, s: Buffers<Channel>,
                                   r: Reading, rest: seq<Reading>, s': Buffers<Channel>, c: Channel)
    requires Safe(fakes)
    requires Runs(fakes, events, sent, s) && r.flushAll && Flushed(r, s, {}, rest, s')
    ensures StreamText(sent + rest, c) == Expected(fakes(c), Beats(events, c))
    ensures FlushedLast(Beats(events, c)) ==> StreamText(sent + rest, c) == Restore(fakes(c), StreamText(events, c))
  {
    assert At(s, c) == At(s, c) && At(s', c) == At(s', c);
    AppendedText(sent, rest, c);
    FollowsFlush(fakes(c), SegmentsOf(fakes(c), Beats(events, c)), StreamText(sent, c), At(s, c));
    if FlushedLast(Beats(events, c)) {
      FlushedLastIsWhole(fakes(c), Beats(events, c));
      BeatsAreText(events, c);
    }
  }

  /** A channel of `out` carries the text of that channel in `events`, restored. */
  ghost predicate DeliveredOn(fakes: Channel -> Fakes, events: seq<Reading>, out: seq<Reading>, c: Channel) {
    && StreamText(out, c) == Expected(fakes(c), Beats(events, c))
    && (FlushedLast(Beats(events, c)) ==> StreamText(out, c) == Restore(fakes(c), StreamText(events, c)))
  }

  ghost predicate Delivered(fakes: Channel -> Fakes, events: seq<Reading>, out: seq<Reading>) {
    forall c: Channel {:trigger StreamText(out, c)} :: DeliveredOn(fakes, events, out, c)
  }

  lemma {:induction false} StreamEnd(fakes: Channel -> Fakes, events: seq<Reading>, sent: seq<Reading>, s: Buffers<Channel>,
                                     r: Reading, rest: seq<Reading>, s': Buffers<Channel>)
    requires Safe(fakes)
    requires Runs(fakes, events, sent, s) && r.flushAll && Flushed(r, s, {}, rest, s')
    ensures Delivered(fakes, events, sent + rest)
  {
    forall c: Channel ensures DeliveredOn(fakes, events, sent + rest, c) {
      RunsEnd(fakes, events, sent, s, r, rest, s', c);
    }
  }

  lemma {:induction false} RunsStart(fakes: Channel -> Fakes)
    requires Safe(fakes)
    ensures Runs(fakes, [], [], map[])
  {
    var s: Buffers<Channel> := map[];
    forall c: Channel ensures Follows(fakes(c), SegmentsOf(fakes(c), Beats([], c)), "", At(s, c)) {
      assert Drain(fakes(c), "") == Fed("", "");
    }
  }

  // ----- the events of a stream of lines -----

  /** The lines of a stream up to now: its complete events, and the lines of the one still open. */
  datatype Grouped = Grouped(events: seq<seq<string>>, pending: seq<string>)

  function Group(lines: seq<string>): Grouped {
    if lines == [] then Grouped([], [])
    else
      var g := Group(lines[..|lines| - 1]);
      var line := lines[|lines| - 1];
      if line != "" then Grouped(g.events, g.pending + [line])
      else if g.pending == [] then g
      else Grouped(g.events + [g.pending], [])
  }

  function EventsOf(lines: seq<string>): seq<seq<string>> {
    var g := Group(lines);
    if g.pending == [] then g.events else g.events + [g.pending]
  }

  ghost predicate AllOneLine(lines: seq<string>) {
    forall line :: line in lines ==> OneLine(line)
  }

  lemma {:induction false} GroupedAreSolid(lines: seq<string>)
    requires AllOneLine(lines)
    ensures forall e :: e in Group(lines).events ==> Solid(e)
    ensures SolidLines(Group(lines).pending)
    decreases |lines|
  {
    if lines != [] {
      GroupedAreSolid(lines[..|lines| - 1]);
    }
  }

  lemma {:induction false} GroupedPrefix(lines: seq<string>, n: nat)
    requires n <= |lines|
    ensures Group(lines[..n]).events <= Group(lines).events
    ensures forall e :: e in Group(lines[..n]).events ==> e in EventsOf(lines)
    decreases |lines| - n
  {
    if n == |lines| {
      assert lines[..n] == lines;
    } else {
      GroupedPrefix(lines, n + 1);
      assert lines[..n + 1][..n] == lines[..n];
    }
  }

  lemma {:induction false} GroupNext(lines: seq<string>, n: nat)
    requires n < |lines| && AllOneLine(lines)
    ensures var g := Group(lines[..n]);
            Group(lines[..n + 1]) ==
            if lines[n] != "" then Grouped(g.events, g.pending + [lines[n]])
            else if g.pending == [] then g
            else Grouped(g.events + [g.pending], [])
    ensures lines[n] == "" && Group(lines[..n]).pending != [] ==>
              Group(lines[..n]).pending in EventsOf(lines) && Solid(Group(lines[..n]).pending)
  {
    assert lines[..n + 1][..n] == lines[..n];
    GroupedAreSolid(lines[..n]);
    GroupedPrefix(lines, n + 1);
  }

  lemma {:induction false} LastEvent(lines: seq<string>)
    requires AllOneLine(lines)
    ensures Group(lines).pending != [] ==> Group(lines).pending in EventsOf(lines) && Solid(Group(lines).pending)
  {
    GroupedAreSolid(lines);
  }

  // ----- the restorer -----

  /** The events as a reader takes them. */
  function ReadAll(spec: Spec, codec: Codec, events: seq<seq<string>>): seq<Reading> {
    if events == [] then []
    else ReadAll(spec, codec, events[..|events| - 1]) + [Read(spec, codec, events[|events| - 1])]
  }

  lemma {:induction false} ReadConcat(spec: Spec, codec: Codec, a: seq<seq<string>>, b: seq<seq<string>>)
    ensures ReadAll(spec, codec, a + b) == ReadAll(spec, codec, a) + ReadAll(spec, codec, b)
    decreases |b|
  {
    if b == [] {
      assert a + b == a;
    } else {
      var n := |b| - 1;
      assert (a + b)[..|a| + n] == a + b[..n];
      ReadConcat(spec, codec, a, b[..n]);
    }
  }

  lemma {:induction false} ReadNext(spec: Spec, codec: Codec, a: seq<seq<string>>, event: seq<string>)
    ensures ReadAll(spec, codec, a + [event]) == ReadAll(spec, codec, a) + [Read(spec, codec, event)]
  {
    assert (a + [event])[..|a|] == a;
  }

  lemma {:induction false} OneRead(spec: Spec, codec: Codec, event: seq<string>)
    ensures ReadAll(spec, codec, [event]) == [Read(spec, codec, event)]
  {
    assert [event][..0] == [];
  }

  /** What a channel restores with: escaped originals where its text is JSON source. */
  function FakesOf(mapping: Fakes, spec: Spec): Channel -> Fakes {
    (c: Channel) => if spec.isJson(c) then Escaped(mapping) else mapping
  }

  ghost predicate AllSolid(blocks: seq<seq<string>>) {
    forall b :: b in blocks ==> Solid(b)
  }

  lemma {:induction false} FlushBlockCarries(spec: Spec, codec: Codec, c: Channel, remaining: string)
    requires codec.Sound() && spec.Lawful(codec.prints) && Named(spec, codec, c) && remaining != ""
    ensures Carries(ReadAll(spec, codec, [FlushBlock(spec, codec, c, remaining)]), c, remaining)
    ensures AllSolid([FlushBlock(spec, codec, c, remaining)])
  {
    FlushBlockIsRead(spec, codec, c, remaining);
    FlushBlockIsSolid(spec, codec, c, remaining);
    OneRead(spec, codec, FlushBlock(spec, codec, c, remaining));
  }

  lemma {:induction false} Replaced(lines: seq<string>, payload: string)
    requires OneLine(payload)
    ensures OtherLines(ReplaceData(lines, payload)) == OtherLines(lines)
    ensures Solid(lines) ==> Solid(ReplaceData(lines, payload))
  {
    ReplacedReadsBack(lines, payload);
    if Solid(lines) {
      ReplacedIsSolid(lines, payload);
      ReplacedIsThere(lines, payload);
    }
  }

  // ----- text that events gain -----

  /** What an event gains, as a reader takes it. */
  function GainedBy(mapping: Fakes, spec: Spec, codec: Codec, event: seq<string>): Reading
    requires codec.Sound()
  {
    Silent.(fragment := Gain(mapping, codec, spec, event))
  }

  function AllGained(mapping: Fakes, spec: Spec, codec: Codec, events: seq<seq<string>>): seq<Reading>
    requires codec.Sound()
  {
    if events == [] then []
    else AllGained(mapping, spec, codec, events[..|events| - 1]) + [GainedBy(mapping, spec, codec, events[|events| - 1])]
  }

  /** A block without what its event gained. */
  function Own(block: Reading, gained: Reading): Reading {
    if gained.fragment.Some? then block.(fragment := None) else block
  }

  /** What a channel carries is its own text and what it gained, in some order. */
  ghost predicate TextsOf(sent: string, own: string, gained: string) {
    |sent| == |own| + |gained| && (gained == "" ==> sent == own)
  }

  ghost predicate Parts(sent: seq<Reading>, own: seq<Reading>, gained: seq<Reading>) {
    forall c: Channel {:trigger StreamText(gained, c)} :: TextsOf(StreamText(sent, c), StreamText(own, c), StreamText(gained, c))
  }

  lemma {:induction false} PartsStart()
    ensures Parts([], [], [])
  {
  }

  lemma {:induction false} PartsMore(sent: seq<Reading>, own: seq<Reading>, gained: seq<Reading>, more: seq<Reading>)
    requires Parts(sent, own, gained)
    ensures Parts(sent + more, own + more, gained)
  {
    forall c: Channel ensures TextsOf(StreamText(sent + more, c), StreamText(own + more, c), StreamText(gained, c)) {
      AppendedText(sent, more, c);
      AppendedText(own, more, c);
    }
  }

  lemma {:induction false} PartsNext(sent: seq<Reading>, own: seq<Reading>, gained: seq<Reading>, block: Reading, gain: Reading)
    requires Parts(sent, own, gained) && (gain.fragment.Some? ==> block.fragment == gain.fragment)
    ensures Parts(sent + [block], own + [Own(block, gain)], gained + [gain])
  {
    forall c: Channel
      ensures TextsOf(StreamText(sent + [block], c), StreamText(own + [Own(block, gain)], c), StreamText(gained + [gain], c))
    {
      assert TextsOf(StreamText(sent, c), StreamText(own, c), StreamText(gained, c));
      AppendedText(sent, [block], c);
      AppendedText(own, [Own(block, gain)], c);
      AppendedText(gained, [gain], c);
      OneText(block, c);
      OneText(Own(block, gain), c);
      OneText(gain, c);
    }
  }

  /** The flushes of an event, and its block. */
  lemma {:induction false} PartsBlock(sent: seq<Reading>, own: seq<Reading>, gained: seq<Reading>, pre: seq<Reading>, block: Reading, gain: Reading)
    requires Parts(sent, own, gained) && (gain.fragment.Some? ==> block.fragment == gain.fragment)
    ensures Parts(sent + (pre + [block]), own + (pre + [Own(block, gain)]), gained + [gain])
  {
    PartsMore(sent, own, gained, pre);
    PartsNext(sent + pre, own + pre, gained, block, gain);
    assert sent + (pre + [block]) == (sent + pre) + [block];
    assert own + (pre + [Own(block, gain)]) == (own + pre) + [Own(block, gain)];
  }

  /** A channel is delivered if and only if it gained no text. */
  lemma {:induction false} DeliveredExactly(fakes: Channel -> Fakes, events: seq<Reading>, sent: seq<Reading>, own: seq<Reading>, gained: seq<Reading>)
    requires Parts(sent, own, gained) && Delivered(fakes, events, own)
    ensures forall c :: DeliveredOn(fakes, events, sent, c) <==> StreamText(gained, c) == ""
  {
    forall c ensures DeliveredOn(fakes, events, sent, c) <==> StreamText(gained, c) == "" {
      assert TextsOf(StreamText(sent, c), StreamText(own, c), StreamText(gained, c));
      assert DeliveredOn(fakes, events, own, c) by { assert StreamText(own, c) == StreamText(own, c); }
    }
  }

  /** A reader takes the text of an event as it is, and not as it was restored: no event gains any. */
  ghost predicate Quiet(p: Protocol, mapping: Fakes, codec: Codec, event: seq<string>) {
    match See(codec, event)
    case Parsed(data) =>
      Classify(p, data).kind == Restored && GainOf(p, mapping, data).Some? ==> GainOf(p, mapping, data).value == ""
    case _ => true
  }

  ghost predicate AllQuiet(p: Protocol, mapping: Fakes, codec: Codec, events: seq<seq<string>>) {
    forall event :: event in events ==> Quiet(p, mapping, codec, event)
  }

  lemma {:induction false} QuietGainsNothing(p: Protocol, mapping: Fakes, codec: Codec, event: seq<string>)
    requires codec.Sound()
    ensures Quiet(p, mapping, codec, event) <==> Textless(GainedBy(mapping, SpecOf(p), codec, event))
  {
    var gain := GainedBy(mapping, SpecOf(p), codec, event);
    match See(codec, event)
    case Parsed(data) =>
      GainIsRead(p, mapping, codec, data);
      assert gain.fragment.Some? ==> TextOf(gain, gain.fragment.value.0) == gain.fragment.value.1;
    case _ =>
  }

  ghost predicate NoText(rs: seq<Reading>) {
    forall c {:trigger StreamText(rs, c)} :: StreamText(rs, c) == ""
  }

  ghost predicate Textless(r: Reading) {
    forall c {:trigger TextOf(r, c)} :: TextOf(r, c) == ""
  }

  lemma {:induction false} NoTextNext(front: seq<Reading>, last: Reading)
    ensures NoText(front + [last]) <==> NoText(front) && Textless(last)
  {
    forall c ensures StreamText(front + [last], c) == StreamText(front, c) + TextOf(last, c) {
      AppendedText(front, [last], c);
      OneText(last, c);
    }
    if NoText(front + [last]) {
      forall c ensures StreamText(front, c) == "" && TextOf(last, c) == "" {
        assert StreamText(front + [last], c) == "";
      }
    }
  }

  /** No channel gains text exactly when no event does. */
  lemma {:induction false} QuietExactly(p: Protocol, mapping: Fakes, codec: Codec, events: seq<seq<string>>)
    requires codec.Sound()
    ensures AllQuiet(p, mapping, codec, events) <==> NoText(AllGained(mapping, SpecOf(p), codec, events))
    decreases |events|
  {
    if events != [] {
      var n := |events| - 1;
      QuietExactly(p, mapping, codec, events[..n]);
      QuietGainsNothing(p, mapping, codec, events[n]);
      NoTextNext(AllGained(mapping, SpecOf(p), codec, events[..n]), GainedBy(mapping, SpecOf(p), codec, events[n]));
      QuietFront(p, mapping, codec, events);
    }
  }

  lemma {:induction false} QuietFront(p: Protocol, mapping: Fakes, codec: Codec, events: seq<seq<string>>)
    requires events != []
    ensures var n := |events| - 1;
            AllQuiet(p, mapping, codec, events) <==> AllQuiet(p, mapping, codec, events[..n]) && Quiet(p, mapping, codec, events[n])
  {
    var n := |events| - 1;
    assert forall event :: event in events <==> event in events[..n] || event == events[n];
  }

  lemma {:induction false} GainedNext(mapping: Fakes, spec: Spec, codec: Codec, events: seq<seq<string>>, event: seq<string>)
    requires codec.Sound()
    ensures AllGained(mapping, spec, codec, events + [event]) == AllGained(mapping, spec, codec, events) + [GainedBy(mapping, spec, codec, event)]
  {
    assert (events + [event])[..|events|] == events;
  }

  // ----- the events that go out -----

  /** A synthetic event with held text of some channel. */
  ghost predicate IsFlush(spec: Spec, codec: Codec, block: seq<string>) {
    exists c, text :: Named(spec, codec, c) && text != "" && block == FlushBlock(spec, codec, c, text)
  }

  ghost predicate AllFlushes(spec: Spec, codec: Codec, blocks: seq<seq<string>>) {
    forall b :: b in blocks ==> IsFlush(spec, codec, b)
  }

  /** What an event is when it goes out: its other lines as they were, and its data restored as a
      whole, with new text at the place of a delta's text, or as they were. */
  ghost predicate IsBlockOf(mapping: Fakes, spec: Spec, codec: Codec, event: seq<string>, block: seq<string>)
    requires codec.Sound()
  {
    && OtherLines(block) == OtherLines(event)
    && match See(codec, event)
       case Parsed(data) => DataRestored(mapping, spec, codec, data, event, block)
       case _ => block == event
  }

  ghost predicate DataRestored(mapping: Fakes, spec: Spec, codec: Codec, data: seq<Field>, event: seq<string>, block: seq<string>)
    requires codec.Sound()
  {
    match spec.classify(data).kind
    case Verbatim => block == event
    case Restored =>
      && See(codec, block).Parsed?
      && RestoredLeaves.RestoredEverywhere(mapping, codec, spec.skip, Object(data), Object(See(codec, block).data))
    case Delta =>
      if Fragment(spec, Object(data)) == None then See(codec, block) == Parsed(data)
      else exists out :: See(codec, block).Parsed? && Object(See(codec, block).data) == PutText(Object(data), spec.classify(data).path, out)
  }

  /** The events one after the other, each as it goes out, and flushes before, between and after. */
  ghost predicate Woven(mapping: Fakes, spec: Spec, codec: Codec, events: seq<seq<string>>, out: seq<seq<string>>)
    requires codec.Sound()
    decreases |events|
  {
    if events == [] then AllFlushes(spec, codec, out)
    else
      var n := |events| - 1;
      exists before, block, tail ::
        && Splits(out, before, block, tail) && Woven(mapping, spec, codec, events[..n], before)
        && IsBlockOf(mapping, spec, codec, events[n], block) && AllFlushes(spec, codec, tail)
  }

  predicate Splits(out: seq<seq<string>>, before: seq<seq<string>>, block: seq<string>, tail: seq<seq<string>>) {
    out == before + [block] + tail
  }

  lemma {:induction false} SplitsMore(out: seq<seq<string>>, before: seq<seq<string>>, block: seq<string>, tail: seq<seq<string>>, more: seq<seq<string>>)
    requires Splits(out, before, block, tail)
    ensures Splits(out + more, before, block, tail + more)
  {
    assert (before + [block] + tail) + more == before + [block] + (tail + more);
  }

  lemma {:induction false} FlushesMore(spec: Spec, codec: Codec, a: seq<seq<string>>, b: seq<seq<string>>)
    requires AllFlushes(spec, codec, a) && AllFlushes(spec, codec, b)
    ensures AllFlushes(spec, codec, a + b)
  {
  }

  lemma {:induction false} WovenFlushes(mapping: Fakes, spec: Spec, codec: Codec, events: seq<seq<string>>, out: seq<seq<string>>, more: seq<seq<string>>)
    requires codec.Sound() && Woven(mapping, spec, codec, events, out) && AllFlushes(spec, codec, more)
    ensures Woven(mapping, spec, codec, events, out + more)
  {
    if events == [] {
      FlushesMore(spec, codec, out, more);
    } else {
      var n := |events| - 1;
      var before, block, tail :| Splits(out, before, block, tail) && Woven(mapping, spec, codec, events[..n], before)
                                 && IsBlockOf(mapping, spec, codec, events[n], block) && AllFlushes(spec, codec, tail);
      FlushesMore(spec, codec, tail, more);
      SplitsMore(out, before, block, tail, more);
    }
  }

  lemma {:induction false} WovenNext(mapping: Fakes, spec: Spec, codec: Codec, events: seq<seq<string>>, out: seq<seq<string>>,
                                     event: seq<string>, block: seq<string>)
    requires codec.Sound() && Woven(mapping, spec, codec, events, out) && IsBlockOf(mapping, spec, codec, event, block)
    ensures Woven(mapping, spec, codec, events + [event], out + [block])
  {
    var all := events + [event];
    assert all[..|events|] == events && all[|events|] == event;
    assert out + [block] + [] == out + [block];
    assert Splits(out + [block], out, block, []);
  }

  /** One event further: its flushes, and the event itself. */
  lemma {:induction false} WovenAdvance(mapping: Fakes, spec: Spec, codec: Codec, events: seq<seq<string>>, out: seq<seq<string>>,
                                        event: seq<string>, pre: seq<seq<string>>, block: seq<string>)
    requires codec.Sound() && Woven(mapping, spec, codec, events, out)
    requires AllFlushes(spec, codec, pre) && IsBlockOf(mapping, spec, codec, event, block)
    ensures Woven(mapping, spec, codec, events + [event], out + (pre + [block]))
  {
    WovenFlushes(mapping, spec, codec, events, out, pre);
    WovenNext(mapping, spec, codec, events, out + pre, event, block);
    assert out + (pre + [block]) == (out + pre) + [block];
  }

  class SSERestorer {
    const spec: Spec
    const codec: Codec
    const mapping: Fakes
    const store: BufferStore<Channel>

    ghost predicate Valid()
      reads store`buffers, store.buffers.Values
      reads set b, n | b in store.buffers.Values && n in b.nodes.Values :: n
    {
      && store.Valid()
      && store.fakesOf == FakesOf(mapping, spec)
      && (forall c :: c in store.buffers ==> Named(spec, codec, c))
    }

    ghost predicate Sound() {
      codec.Sound() && spec.Lawful(codec.prints)
    }

    ghost function Held(): Buffers<Channel>
      reads store`buffers, store.buffers.Values
    {
      store.Held()
    }

    ghost function Sees(blocks: seq<seq<string>>): seq<Reading> {
      ReadAll(spec, codec, blocks)
    }

    /** A block as its event's own: without the text the event gained. */
    ghost function OwnPart(lines: seq<string>, block: seq<string>): Reading
      requires codec.Sound()
    {
      Own(Read(spec, codec, block), GainedBy(mapping, spec, codec, lines))
    }

    /** What an event gained is read in its block. */
    ghost predicate ShowsGain(lines: seq<string>, block: seq<string>)
      requires codec.Sound()
    {
      Gain(mapping, codec, spec, lines).Some? ==> Read(spec, codec, block).fragment == Gain(mapping, codec, spec, lines)
    }

    constructor (mapping: Fakes, spec: Spec, codec: Codec)
      ensures Valid() && Held() == map[]
      ensures this.mapping == mapping && this.spec == spec && this.codec == codec
      ensures fresh(store) && fresh(store.buffers.Values)
    {
      this.mapping, this.spec, this.codec := mapping, spec, codec;
      store := new BufferStore<Channel>(FakesOf(mapping, spec));
      new;
      store.HeldPointwise();
    }

    /** One channel: a synthetic delta event for what it still holds. */
    method FlushChannel(c: Channel) returns (blocks: seq<seq<string>>)
      requires Valid() && Sound() && c in store.buffers
      modifies store.buffers.Values`buffer
      ensures Valid() && Updated(old(Held()), Held(), c, "")
      ensures Carries(Sees(blocks), c, At(old(Held()), c))
      ensures AllSolid(blocks) && AllFlushes(spec, codec, blocks)
    {
      var remaining := store.Flush(c);
      if remaining == "" {
        return [];
      }
      blocks := [FlushBlock(spec, codec, c, remaining)];
      FlushBlockCarries(spec, codec, c, remaining);
    }

    /** Synthetic delta events for what the channels an event closes still hold. */
    method Flush(ghost r: Reading, channels: seq<Channel>, flushAll: bool) returns (blocks: seq<seq<string>>)
      requires Valid() && Sound() && r.flushes == channels && r.flushAll == flushAll
      modifies store.buffers.Values`buffer
      ensures Valid()
      ensures Flushed(r, old(Held()), {}, Sees(blocks), Held())
      ensures AllSolid(blocks) && AllFlushes(spec, codec, blocks)
    {
      blocks := [];
      var todo := set c | c in store.buffers && (flushAll || c in channels);
      ghost var start := Held();
      store.HeldPointwise();
      FlushedStart(r, start, todo);
      while todo != {}
        invariant Valid()
        invariant todo <= store.buffers.Keys && forall c :: c in todo ==> Closes(r, c)
        invariant Flushed(r, start, todo, Sees(blocks), Held())
        invariant AllSolid(blocks) && AllFlushes(spec, codec, blocks)
        decreases todo
      {
        ghost var before := Held();
        var c :| c in todo;
        var more := FlushChannel(c);
        FlushedNext(r, start, todo, Sees(blocks), before, c, Sees(more), Held());
        ReadConcat(spec, codec, blocks, more);
        blocks := blocks + more;
        todo := todo - {c};
      }
    }

    /** The text of a delta through the buffer of its channel. */
    method FeedDelta(data: seq<Field>) returns (fed: Json)
      requires Valid() && Sound() && spec.classify(data).kind == Delta && WellFormed(codec.prints, Object(data))
      modifies store`buffers, store.buffers.Values`buffer
      ensures Valid() && fresh(store.buffers.Values - old(store.buffers.Values))
      ensures Fragment(spec, Object(data)) == None ==> fed == Object(data) && Held() == old(Held())
      ensures Fragment(spec, Object(data)).Some? ==>
                var (c, text) := Fragment(spec, Object(data)).value;
                exists out ::
                  && Steps(store.fakesOf(c), At(old(Held()), c), text, false, out, At(Held(), c))
                  && Updated(old(Held()), Held(), c, At(Held(), c))
                  && fed == PutText(Object(data), spec.classify(data).path, out)
      ensures WellFormed(codec.prints, fed)
    {
      var plan := spec.classify(data);
      var text := TextAt(Object(data), plan.path);
      if text == None {
        return Object(data);
      }
      DeltaIsNamed(spec, codec, data);
      var out := store.Feed(plan.channel.value, text.value);
      PutTextIsWellFormed(codec.prints, Object(data), plan.path, out);
      fed := PutText(Object(data), plan.path, out);
    }

    lemma {:induction false} HeldIsUndecided()
      requires Valid()
      ensures Undecided(store.fakesOf, Held())
    {
      store.HeldIsUndecided();
      forall c: Channel ensures Drain(store.fakesOf(c), At(Held(), c)) == Fed("", At(Held(), c)) {
        assert At(store.Held(), c) == At(Held(), c);
      }
    }

    /** An event without a JSON object, or one the protocol leaves alone. */
    ghost predicate Untouched(lines: seq<string>) {
      See(codec, lines).Parsed? ==> spec.classify(See(codec, lines).data).kind == Verbatim
    }

    /** An event that is restored as a whole. */
    method RewriteWhole(lines: seq<string>, data: seq<Field>) returns (block: seq<string>)
      requires Sound() && See(codec, lines) == Parsed(data) && spec.classify(data).kind == Restored
      ensures Read(spec, codec, lines).fragment == None && Read(spec, codec, block).fragment == Gain(mapping, codec, spec, lines)
      ensures IsBlockOf(mapping, spec, codec, lines, block) && (Solid(lines) ==> Solid(block))
    {
      SeenIsWellFormed(codec, lines);
      RestoredIsRead(mapping, codec, spec, lines, data);
      RestoredTree(mapping, codec, spec.skip, Object(data));
      RestoredLeaves.TreeIsRestored(mapping, codec, spec.skip, Object(data));
      StaysObject(mapping, codec, spec.skip, data);
      ghost var tree := RestoreTree(mapping, codec, spec.skip, Object(data));
      var restored := codec.dump(RestoreTree(mapping, codec, spec.skip, Object(data)));
      block := ReplaceData(lines, restored);
      Replaced(lines, restored);
      RewrittenIsSeen(codec, lines, tree.fields);
    }

    /** A delta, with what its channel may send. */
    method RewriteDelta(lines: seq<string>, data: seq<Field>) returns (block: seq<string>)
      requires Valid() && Sound() && See(codec, lines) == Parsed(data) && spec.classify(data).kind == Delta
      modifies store`buffers, store.buffers.Values`buffer
      ensures Valid() && fresh(store.buffers.Values - old(store.buffers.Values))
      ensures BlockStep(store.fakesOf, Read(spec, codec, lines), old(Held()), Read(spec, codec, block), Held())
      ensures IsBlockOf(mapping, spec, codec, lines, block) && (Solid(lines) ==> Solid(block))
    {
      ghost var before := Held();
      HeldIsUndecided();
      SeenIsWellFormed(codec, lines);
      var fed := FeedDelta(data);
      block := ReplaceData(lines, codec.dump(fed));
      Replaced(lines, codec.dump(fed));
      if Fragment(spec, Object(data)).Some? {
        var (c, text) := Fragment(spec, Object(data)).value;
        ghost var out :| Steps(store.fakesOf(c), At(before, c), text, false, out, At(Held(), c))
                         && fed == PutText(Object(data), spec.classify(data).path, out);
        RewrittenDelta(spec, codec, lines, data, out);
        RewrittenIsSeen(codec, lines, fed.fields);
        DeltaBlock(store.fakesOf, Read(spec, codec, lines), before, Read(spec, codec, block), Held(), c, text, out);
      } else {
        UntouchedDelta(spec, codec, lines, data);
        RewrittenIsSeen(codec, lines, data);
        SilentBlock(store.fakesOf, Read(spec, codec, lines), before, Read(spec, codec, block));
      }
    }

    /** The event itself: rewritten, or as it came. */
    method Rewrite(lines: seq<string>) returns (block: seq<string>)
      requires Valid() && Sound()
      modifies store`buffers, store.buffers.Values`buffer
      ensures Valid() && fresh(store.buffers.Values - old(store.buffers.Values))
      ensures BlockStep(store.fakesOf, Read(spec, codec, lines), old(Held()), OwnPart(lines, block), Held())
      ensures ShowsGain(lines, block)
      ensures IsBlockOf(mapping, spec, codec, lines, block)
      ensures Untouched(lines) ==> block == lines
      ensures Solid(lines) ==> Solid(block)
    {
      ghost var before := Held();
      HeldIsUndecided();
      block := lines;
      match See(codec, lines) {
        case Parsed(data) =>
          var plan := spec.classify(data);
          if plan.kind == Delta {
            block := RewriteDelta(lines, data);
          } else if plan.kind == Restored {
            block := RewriteWhole(lines, data);
            SilentBlock(store.fakesOf, Read(spec, codec, lines), before, OwnPart(lines, block));
          } else {
            NotDeltaNoFragment(spec, data);
            SilentBlock(store.fakesOf, Read(spec, codec, lines), before, OwnPart(lines, block));
          }
        case _ =>
          SilentBlock(store.fakesOf, Read(spec, codec, lines), before, Read(spec, codec, block));
      }
    }

    /** The flush events that go out before an event. */
    method FlushBefore(lines: seq<string>) returns (pre: seq<seq<string>>)
      requires Valid() && Sound()
      modifies store.buffers.Values`buffer
      ensures Valid()
      ensures Flushed(Read(spec, codec, lines), old(Held()), {}, Sees(pre), Held())
      ensures AllSolid(pre) && AllFlushes(spec, codec, pre)
    {
      ghost var r := Read(spec, codec, lines);
      pre := [];
      match See(codec, lines) {
        case Nothing =>
          FlushedStart(r, Held(), {});
        case EndOfStream =>
          pre := Flush(r, [], true);
        case Parsed(data) =>
          var plan := spec.classify(data);
          pre := Flush(r, plan.flush, plan.flushAll);
      }
    }

    /** One event: the flush events in `pre` first, then the event itself. */
    method ProcessEvent(lines: seq<string>) returns (pre: seq<seq<string>>, block: seq<string>)
      requires Valid() && Sound()
      modifies store`buffers, store.buffers.Values`buffer
      ensures Valid() && fresh(store.buffers.Values - old(store.buffers.Values))
      ensures EventStep(store.fakesOf, Read(spec, codec, lines), old(Held()), Sees(pre) + [OwnPart(lines, block)], Held())
      ensures ShowsGain(lines, block)
      ensures AllSolid(pre) && (Solid(lines) ==> Solid(block))
      ensures AllFlushes(spec, codec, pre) && IsBlockOf(mapping, spec, codec, lines, block)
      ensures Untouched(lines) ==> block == lines
      ensures FlushedFirst(Read(spec, codec, lines), old(Held()), Sees(pre))
    {
      ghost var start := Held();
      ghost var r := Read(spec, codec, lines);
      pre := FlushBefore(lines);
      ghost var mid := Held();
      IsFlushedFirst(r, start, Sees(pre), mid);
      block := Rewrite(lines);
      EventDone(store.fakesOf, r, start, Sees(pre), mid, OwnPart(lines, block), Held());
    }

    /** What has gone out so far: on every channel its own text, in step with what came in, and the
        text that events gained. */
    ghost predicate InStep(events: seq<seq<string>>, out: seq<seq<string>>, own: seq<Reading>, held: Buffers<Channel>)
      requires codec.Sound()
    {
      && AllSolid(out) && Runs(store.fakesOf, Sees(events), own, held)
      && Parts(Sees(out), own, AllGained(mapping, spec, codec, events))
      && Woven(mapping, spec, codec, events, out)
    }

    /** The stream one event further. */
    method Advance(ghost events: seq<seq<string>>, out: seq<seq<string>>, ghost own: seq<Reading>, event: seq<string>)
      returns (out': seq<seq<string>>, ghost own': seq<Reading>)
      requires Valid() && Sound() && Safe(store.fakesOf)
      requires Solid(event) && InStep(events, out, own, Held())
      modifies store`buffers, store.buffers.Values`buffer
      ensures Valid() && fresh(store.buffers.Values - old(store.buffers.Values))
      ensures InStep(events + [event], out', own', Held())
    {
      ghost var before := Held();
      var pre, block := ProcessEvent(event);
      RunsNext(store.fakesOf, Sees(events), own, before, Read(spec, codec, event), Sees(pre) + [OwnPart(event, block)], Held());
      ReadNext(spec, codec, events, event);
      out' := out + (pre + [block]);
      own' := own + (Sees(pre) + [OwnPart(event, block)]);
      PartsAdvance(events, out, own, event, pre, block);
      WovenAdvance(mapping, spec, codec, events, out, event, pre, block);
    }

    lemma {:induction false} PartsAdvance(events: seq<seq<string>>, out: seq<seq<string>>, own: seq<Reading>,
                                          event: seq<string>, pre: seq<seq<string>>, block: seq<string>)
      requires codec.Sound() && ShowsGain(event, block)
      requires Parts(Sees(out), own, AllGained(mapping, spec, codec, events))
      ensures Parts(Sees(out + (pre + [block])), own + (Sees(pre) + [OwnPart(event, block)]), AllGained(mapping, spec, codec, events + [event]))
    {
      ReadConcat(spec, codec, out, pre + [block]);
      ReadNext(spec, codec, pre, block);
      GainedNext(mapping, spec, codec, events, event);
      PartsBlock(Sees(out), own, AllGained(mapping, spec, codec, events), Sees(pre), Read(spec, codec, block), GainedBy(mapping, spec, codec, event));
    }

    /** Each channel is delivered if and only if no event gained text for it. */
    ghost predicate DeliveredUnlessGained(events: seq<seq<string>>, out: seq<seq<string>>)
      requires codec.Sound()
    {
      forall c :: DeliveredOn(store.fakesOf, Sees(events), Sees(out), c) <==> StreamText(AllGained(mapping, spec, codec, events), c) == ""
    }

    /** The flush at the end of the stream. */
    method Finish(ghost events: seq<seq<string>>, out: seq<seq<string>>, ghost own: seq<Reading>) returns (out': seq<seq<string>>)
      requires Valid() && Sound() && Safe(store.fakesOf) && InStep(events, out, own, Held())
      modifies store.buffers.Values`buffer
      ensures AllSolid(out') && DeliveredUnlessGained(events, out') && Woven(mapping, spec, codec, events, out')
    {
      ghost var before, closing := Held(), Silent.(flushAll := true);
      var rest := Flush(closing, [], true);
      StreamEnd(store.fakesOf, Sees(events), own, before, closing, Sees(rest), Held());
      ReadConcat(spec, codec, out, rest);
      PartsMore(Sees(out), own, AllGained(mapping, spec, codec, events), Sees(rest));
      out' := out + rest;
      WovenFlushes(mapping, spec, codec, events, out, rest);
      DeliveredExactly(store.fakesOf, Sees(events), Sees(out'), own + Sees(rest), AllGained(mapping, spec, codec, events));
    }

    /** The events of a stream, one after the other. */
    method Restore(lines: seq<string>) returns (out: seq<seq<string>>)
      requires Valid() && Sound() && Safe(store.fakesOf) && AllOneLine(lines)
      requires Held() == map[]
      modifies store`buffers, store.buffers.Values`buffer
      ensures AllSolid(out) && DeliveredUnlessGained(EventsOf(lines), out) && Woven(mapping, spec, codec, EventsOf(lines), out)
    {
      RunsStart(store.fakesOf);
      PartsStart();
      out := [];
      ghost var own: seq<Reading> := [];
      var pending: seq<string> := [];
      for n := 0 to |lines|
        invariant Valid() && fresh(store.buffers.Values - old(store.buffers.Values))
        invariant pending == Group(lines[..n]).pending
        invariant InStep(Group(lines[..n]).events, out, own, Held())
      {
        GroupNext(lines, n);
        if lines[n] != "" {
          pending := pending + [lines[n]];
        } else if pending != [] {
          out, own := Advance(Group(lines[..n]).events, out, own, pending);
          pending := [];
        }
      }
      assert lines[..|lines|] == lines;
      LastEvent(lines);
      if pending != [] {
        out, own := Advance(Group(lines).events, out, own, pending);
      }
      out := Finish(EventsOf(lines), out, own);
    }
  }

  // ----- whole streams -----

  function Lines(events: seq<seq<string>>): seq<string> {
    if events == [] then [] else Lines(events[..|events| - 1]) + events[|events| - 1] + [""]
  }

  lemma {:induction false} GroupSolid(lines: seq<string>, event: seq<string>)
    requires Solid(event)
    requires Group(lines).pending == []
    ensures Group(lines + event + [""]) == Grouped(Group(lines).events + [event], [])
  {
    GroupPending(lines, event);
    assert (lines + event + [""])[..|lines + event|] == lines + event;
  }

  lemma {:induction false} GroupPending(lines: seq<string>, event: seq<string>)
    requires "" !in event && Group(lines).pending == []
    ensures Group(lines + event) == Grouped(Group(lines).events, event)
    decreases |event|
  {
    if event == [] {
      assert lines + event == lines;
    } else {
      var n := |event| - 1;
      GroupPending(lines, event[..n]);
      assert (lines + event)[..|lines| + n] == lines + event[..n];
      assert event[..n] + [event[n]] == event;
    }
  }

  /** A client that splits the stream at blank lines finds the events that were sent. */
  lemma {:induction false} SentEventsAreRead(events: seq<seq<string>>)
    requires forall e :: e in events ==> Solid(e)
    ensures Group(Lines(events)) == Grouped(events, [])
    ensures EventsOf(Lines(events)) == events
    decreases |events|
  {
    if events != [] {
      var n := |events| - 1;
      SentEventsAreRead(events[..n]);
      GroupSolid(Lines(events[..n]), events[n]);
      assert events[..n] + [events[n]] == events;
    }
  }

  lemma {:induction false} LinesAreOneLine(events: seq<seq<string>>)
    requires AllSolid(events)
    ensures AllOneLine(Lines(events))
    decreases |events|
  {
    if events != [] {
      var n := |events| - 1;
      LinesAreOneLine(events[..n]);
      assert Solid(events[n]) && OneLine("");
      assert forall line :: line in events[n] ==> SolidLine(line);
    }
  }

  lemma {:induction false} EmittedIsLines(events: seq<seq<string>>)
    requires AllSolid(events)
    ensures Emitted(events) == LineText(Lines(events))
    decreases |events|
  {
    if events != [] {
      var n := |events| - 1;
      EmittedIsLines(events[..n]);
      assert Solid(events[n]);
      BlockIsLines(events[n]);
      LineTextConcat(Lines(events[..n]), events[n] + [""]);
      assert Lines(events) == Lines(events[..n]) + (events[n] + [""]);
    }
  }

  /** A client that splits the text of a stream into lines, and the lines into events, finds the
      events that were sent. */
  lemma {:induction false} EmittedReadsBack(events: seq<seq<string>>)
    requires AllSolid(events)
    ensures EventsOf(SplitLines(Emitted(events))) == events
  {
    EmittedIsLines(events);
    LinesAreOneLine(events);
    SplitLineText(Lines(events));
    SentEventsAreRead(events);
  }

  /** What a client reads in the text of a stream. */
  ghost function ReadText(spec: Spec, codec: Codec, text: string): seq<Reading> {
    ReadAll(spec, codec, EventsOf(SplitLines(text)))
  }

  lemma {:induction false} IssuedFakes(mapping: Fakes, spec: Spec)
    requires Bracketing(mapping)
    ensures Safe(FakesOf(mapping, spec))
  {
    BracketingSuffices(mapping);
    assert Escaped(mapping).Keys == mapping.Keys;
  }

  /**
   A whole gateway stream of either protocol, for a mapping of issued placeholders. Whatever the
   events are and in whatever order, the text a client reads on a channel is the text the provider
   sent on it, each stretch between two flushes restored as one text, if and only if no event gains
   text for that channel by being restored into a delta: channels do not mix, and no held text is
   dropped. A channel that is flushed only once it is complete is restored whole. The stream as a
   whole is delivered so exactly when all its events are quiet. In any case every event goes out once
   and in its place, each as it is to be, with nothing but flushes besides.
   */
  method RestoreStream(mapping: Fakes, p: Protocol, codec: Codec, lines: seq<string>) returns (text: string)
    requires Bracketing(mapping) && codec.Sound() && AllOneLine(lines)
    ensures var spec, events := SpecOf(p), EventsOf(lines);
            forall c :: DeliveredOn(FakesOf(mapping, spec), ReadAll(spec, codec, events), ReadText(spec, codec, text), c)
                   <==> StreamText(AllGained(mapping, spec, codec, events), c) == ""
    ensures Delivered(FakesOf(mapping, SpecOf(p)), ReadAll(SpecOf(p), codec, EventsOf(lines)), ReadText(SpecOf(p), codec, text))
       <==> AllQuiet(p, mapping, codec, EventsOf(lines))
    ensures Woven(mapping, SpecOf(p), codec, EventsOf(lines), EventsOf(SplitLines(text)))
  {
    IssuedFakes(mapping, SpecOf(p));
    ProtocolsAreLawful(p, codec.prints);
    var restorer := new SSERestorer(mapping, SpecOf(p), codec);
    var out := restorer.Restore(lines);
    EmittedReadsBack(out);
    QuietExactly(p, mapping, codec, EventsOf(lines));
    text := Emitted(out);
  }
}
