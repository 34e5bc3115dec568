/**
 integrations/litellm/privaite_guardrail.py: _StreamRestorer, the chat stream restorer of the
 LiteLLM guardrail. A buffer is dropped when its channel closes; what is still held when the
 provider stops without a finish reason goes out in chunks cloned from the last one.
 */
module Guardrail {
  import opened Wrappers
  import opened DeAnonymizer
  import opened Streaming
  import opened TrieBuffer
  import opened JsonText
  import opened Channels
  import opened ChatStream

  // ----- a stream as one channel sees it -----

  /** Whether a slot of a delta goes through its buffer at all. */
  predicate Buffered(slot: Slot, finished: bool) {
    slot.text != "" || (finished && !JsonFragment(slot.channel))
  }

  function OneSlot(slot: Slot, finished: bool): seq<Beat> {
    if !Buffered(slot, finished) then []
    else if finished then [Beat(false, slot.text), Beat(true, "")]
    else [Beat(false, slot.text)]
  }

  function SlotBeats(slots: seq<Slot>, channel: Channel, finished: bool): seq<Beat> {
    if slots == [] then []
    else
      var n := |slots| - 1;
      SlotBeats(slots[..n], channel, finished) + if slots[n].channel == channel then OneSlot(slots[n], finished) else []
  }

  function ChoiceBeats(c: Choice, k: Key): seq<Beat> {
    if c.index != k.choice then []
    else SlotBeats(c.delta.slots, k.channel, c.finished) + if c.finished then [Beat(true, "")] else []
  }

  function ChoicesBeats(choices: seq<Choice>, k: Key): seq<Beat> {
    if choices == [] then []
    else ChoicesBeats(choices[..|choices| - 1], k) + ChoiceBeats(choices[|choices| - 1], k)
  }

  function StreamBeats(chunks: seq<Chunk>, k: Key): seq<Beat> {
    if chunks == [] then []
    else StreamBeats(chunks[..|chunks| - 1], k) + ChoicesBeats(chunks[|chunks| - 1].choices, k)
  }

  // ----- what every step keeps -----

  /** Every channel so far: what it has sent and holds follows what it was given. */
  ghost predicate Keeps(fakes: Key -> Fakes, beats: Key -> seq<Beat>, sent: Key -> string, s: Buffers<Key>) {
    forall k: Key {:trigger At(s, k)} :: Follows(fakes(k), SegmentsOf(fakes(k), beats(k)), sent(k), At(s, k))
  }

  ghost predicate Safe(fakes: Key -> Fakes) {
    forall k {:trigger fakes(k)} :: PrefixFree(fakes(k).Keys) && NoKeyInside(fakes(k).Keys)
  }

  /** A channel is given some text, and is closed if `done`. */
  lemma {:induction false} ChannelStep(m: Fakes, beats: seq<Beat>, sent: string, h: string, text: string, done: bool, out: string, h': string)
    requires PrefixFree(m.Keys) && NoKeyInside(m.Keys)
    requires Follows(m, SegmentsOf(m, beats), sent, h) && Steps(m, h, text, done, out, h')
    ensures Follows(m, SegmentsOf(m, beats + if done then [Beat(false, text), Beat(true, "")] else [Beat(false, text)]), sent + out, h')
  {
    var f, more := Drain(m, h + text), beats + [Beat(false, text)];
    ChannelFed(m, beats, sent, h, text, f.out, f.held);
    if done {
      TwoMore(beats, Beat(false, text), Beat(true, ""));
      ChannelCloses(m, more, sent + f.out, f.held);
      Associates(sent, f.out, f.held);
    }
  }

  lemma {:induction false} TwoMore<T>(s: seq<T>, a: T, b: T)
    ensures s + [a, b] == (s + [a]) + [b]
  {
  }

  lemma {:induction false} ChannelFed(m: Fakes, beats: seq<Beat>, sent: string, h: string, text: string, out: string, h': string)
    requires PrefixFree(m.Keys) && Follows(m, SegmentsOf(m, beats), sent, h) && Steps(m, h, text, false, out, h')
    ensures Follows(m, SegmentsOf(m, beats + [Beat(false, text)]), sent + out, h')
  {
    assert (beats + [Beat(false, text)])[..|beats|] == beats;
    FollowsFeed(m, SegmentsOf(m, beats), sent, h, text, out, h');
  }

  /** A channel is closed. */
  lemma {:induction false} ChannelCloses(m: Fakes, beats: seq<Beat>, sent: string, h: string)
    requires NoKeyInside(m.Keys) && Follows(m, SegmentsOf(m, beats), sent, h)
    ensures Follows(m, SegmentsOf(m, beats + [Beat(true, "")]), sent + h, "")
  {
    assert (beats + [Beat(true, "")])[..|beats|] == beats;
    FollowsFlush(m, SegmentsOf(m, beats), sent, h);
  }

  /** One slot goes through its buffer. */
  lemma {:induction false} KeepsFed(fakes: Key -> Fakes, beats: Key -> seq<Beat>, sent: Key -> string, s: Buffers<Key>,
                                    c: Key, text: string, done: bool, out: string, s': Buffers<Key>, beats': Key -> seq<Beat>, sent': Key -> string)
    requires Safe(fakes) && Keeps(fakes, beats, sent, s)
    requires Updated(s, s', c, At(s', c)) && Steps(fakes(c), At(s, c), text, done, out, At(s', c))
    requires forall k :: beats'(k) ==
               beats(k) + if k != c then [] else if done then [Beat(false, text), Beat(true, "")] else [Beat(false, text)]
    requires forall k :: sent'(k) == sent(k) + if k == c then out else ""
    ensures Keeps(fakes, beats', sent', s')
  {
    forall k: Key ensures Follows(fakes(k), SegmentsOf(fakes(k), beats'(k)), sent'(k), At(s', k)) {
      assert At(s, k) == At(s, k);
      if k == c {
        ChannelStep(fakes(k), beats(k), sent(k), At(s, k), text, done, out, At(s', k));
      } else {
        assert beats(k) + [] == beats(k) && sent(k) + "" == sent(k);
      }
    }
  }

  lemma {:induction false} KeepsSame(fakes: Key -> Fakes, beats: Key -> seq<Beat>, sent: Key -> string, s: Buffers<Key>,
                                     beats': Key -> seq<Beat>, sent': Key -> string)
    requires Keeps(fakes, beats, sent, s)
    requires forall k :: beats'(k) == beats(k)
    requires forall k :: sent'(k) == sent(k)
    ensures Keeps(fakes, beats', sent', s)
  {
    forall k: Key ensures Follows(fakes(k), SegmentsOf(fakes(k), beats'(k)), sent'(k), At(s, k)) {}
  }

  // ----- one choice -----

  /** The beats a delta's first slots add to a key, and the text they send. */
  ghost function SlotsAdded(index: int, slots: seq<Slot>, finished: bool, beats: Key -> seq<Beat>): Key -> seq<Beat> {
    (k: Key) => if k.choice == index then beats(k) + SlotBeats(slots, k.channel, finished) else beats(k)
  }

  ghost function SlotsSent(index: int, out: seq<Slot>, sent: Key -> string): Key -> string {
    (k: Key) => if k.choice == index then sent(k) + SlotsText(out, k.channel) else sent(k)
  }

  lemma {:induction false} SlotBeatsAdd(slots: seq<Slot>, slot: Slot, channel: Channel, finished: bool)
    ensures SlotBeats(slots + [slot], channel, finished) ==
            SlotBeats(slots, channel, finished) + if slot.channel == channel then OneSlot(slot, finished) else []
  {
    assert (slots + [slot])[..|slots|] == slots;
  }

  lemma {:induction false} SlotsStart(fakes: Key -> Fakes, index: int, finished: bool, beats: Key -> seq<Beat>, sent: Key -> string, s: Buffers<Key>)
    requires Keeps(fakes, beats, sent, s)
    ensures Keeps(fakes, SlotsAdded(index, [], finished, beats), SlotsSent(index, [], sent), s)
  {
    forall k ensures SlotsAdded(index, [], finished, beats)(k) == beats(k) && SlotsSent(index, [], sent)(k) == sent(k) {
      assert beats(k) + [] == beats(k) && sent(k) + "" == sent(k);
    }
    KeepsSame(fakes, beats, sent, s, SlotsAdded(index, [], finished, beats), SlotsSent(index, [], sent));
  }

  lemma {:induction false} SlotsAddedNext(index: int, slots: seq<Slot>, finished: bool, beats: Key -> seq<Beat>, slot: Slot, k: Key)
    ensures SlotsAdded(index, slots + [slot], finished, beats)(k) ==
            SlotsAdded(index, slots, finished, beats)(k) + if k == Key(index, slot.channel) then OneSlot(slot, finished) else []
  {
    SlotBeatsAdd(slots, slot, k.channel, finished);
    Associates(beats(k), SlotBeats(slots, k.channel, finished), OneSlot(slot, finished));
  }

  lemma {:induction false} SlotsSentNext(index: int, done: seq<Slot>, sent: Key -> string, slot: Slot, k: Key)
    ensures SlotsSent(index, done + [slot], sent)(k) ==
            SlotsSent(index, done, sent)(k) + if k == Key(index, slot.channel) then slot.text else ""
  {
    SlotsTextAdd(done, slot, k.channel);
    Associates(sent(k), SlotsText(done, k.channel), slot.text);
  }

  /** A slot that goes through its buffer. */
  lemma {:induction false} SlotsFed(fakes: Key -> Fakes, index: int, slots: seq<Slot>, finished: bool, beats: Key -> seq<Beat>, sent: Key -> string,
                                    done: seq<Slot>, s: Buffers<Key>, slot: Slot, out: string, s': Buffers<Key>)
    requires Safe(fakes) && Keeps(fakes, SlotsAdded(index, slots, finished, beats), SlotsSent(index, done, sent), s)
    requires Buffered(slot, finished)
    requires Updated(s, s', Key(index, slot.channel), At(s', Key(index, slot.channel)))
    requires Steps(fakes(Key(index, slot.channel)), At(s, Key(index, slot.channel)), slot.text, finished, out, At(s', Key(index, slot.channel)))
    ensures Keeps(fakes, SlotsAdded(index, slots + [slot], finished, beats), SlotsSent(index, done + [Slot(slot.channel, out)], sent), s')
  {
    var c := Key(index, slot.channel);
    var b, t := SlotsAdded(index, slots, finished, beats), SlotsSent(index, done, sent);
    var b', t' := SlotsAdded(index, slots + [slot], finished, beats), SlotsSent(index, done + [Slot(slot.channel, out)], sent);
    forall k
      ensures b'(k) == b(k) + if k != c then [] else OneSlot(slot, finished)
      ensures t'(k) == t(k) + if k == c then out else ""
    {
      SlotsAddedNext(index, slots, finished, beats, slot, k);
      SlotsSentNext(index, done, sent, Slot(slot.channel, out), k);
    }
    KeepsFed(fakes, b, t, s, c, slot.text, finished, out, s', b', t');
  }

  lemma {:induction false} Associates<T>(a: seq<T>, b: seq<T>, c: seq<T>)
    ensures (a + b) + c == a + (b + c)
  {
  }

  /** A slot that is left as it is, with nothing in it. */
  lemma {:induction false} SlotsSkipped(fakes: Key -> Fakes, index: int, slots: seq<Slot>, finished: bool, beats: Key -> seq<Beat>, sent: Key -> string,
                                        done: seq<Slot>, s: Buffers<Key>, slot: Slot)
    requires Keeps(fakes, SlotsAdded(index, slots, finished, beats), SlotsSent(index, done, sent), s)
    requires !Buffered(slot, finished)
    ensures Keeps(fakes, SlotsAdded(index, slots + [slot], finished, beats), SlotsSent(index, done + [slot], sent), s)
  {
    var b, t := SlotsAdded(index, slots, finished, beats), SlotsSent(index, done, sent);
    var b', t' := SlotsAdded(index, slots + [slot], finished, beats), SlotsSent(index, done + [slot], sent);
    forall k ensures b'(k) == b(k) && t'(k) == t(k) {
      SlotsAddedNext(index, slots, finished, beats, slot, k);
      SlotsSentNext(index, done, sent, slot, k);
      assert b(k) + [] == b(k) && t(k) + "" == t(k);
    }
    KeepsSame(fakes, b, t, s, b', t');
  }

  // ----- closing a choice -----

  /** A held tail put on the first slot of its channel, or on a new one. */
  function AppendRemainder(slots: seq<Slot>, channel: Channel, remaining: string): seq<Slot> {
    if slots == [] then [Slot(channel, remaining)]
    else if slots[0].channel == channel then [Slot(channel, slots[0].text + remaining)] + slots[1..]
    else [slots[0]] + AppendRemainder(slots[1..], channel, remaining)
  }

  lemma {:induction false} SlotsTextFirst(slots: seq<Slot>, channel: Channel)
    requires slots != []
    ensures SlotsText(slots, channel) == (if slots[0].channel == channel then slots[0].text else "") + SlotsText(slots[1..], channel)
  {
    assert slots == [slots[0]] + slots[1..];
    SlotsTextConcat([slots[0]], slots[1..], channel);
    assert [slots[0]][..0] == [];
  }

  lemma {:induction false} AppendRemainderExtends(slots: seq<Slot>, channel: Channel, remaining: string)
    ensures Extends(slots, AppendRemainder(slots, channel, remaining))
    decreases |slots|
  {
    if slots != [] && slots[0].channel != channel { AppendRemainderExtends(slots[1..], channel, remaining); }
  }

  /** A channel that has sent nothing on the delta sends its tail there. */
  lemma {:induction false} AppendRemainderText(slots: seq<Slot>, channel: Channel, remaining: string, c: Channel)
    requires SlotsText(slots, channel) == ""
    ensures SlotsText(AppendRemainder(slots, channel, remaining), c) == if c == channel then remaining else SlotsText(slots, c)
    decreases |slots|
  {
    var more := AppendRemainder(slots, channel, remaining);
    SlotsTextFirst(more, c);
    if slots == [] {
      assert more[1..] == [];
    } else {
      SlotsTextFirst(slots, channel);
      SlotsTextFirst(slots, c);
      if slots[0].channel == channel {
        assert more[1..] == slots[1..];
      } else {
        AppendRemainderText(slots[1..], channel, remaining, c);
        assert more[1..] == AppendRemainder(slots[1..], channel, remaining);
      }
    }
  }

  /** While a choice is closed: the keys in `todo` are still open. */
  ghost function ClosedBut(index: int, todo: set<Key>, beats: Key -> seq<Beat>): Key -> seq<Beat> {
    (k: Key) => if k.choice == index && k !in todo then beats(k) + [Beat(true, "")] else beats(k)
  }

  /** A key that still holds something has sent nothing on the delta. */
  ghost predicate Quiet(index: int, slots: seq<Slot>, s: Buffers<Key>) {
    forall k: Key {:trigger At(s, k)} :: k.choice == index ==> At(s, k) == "" || SlotsText(slots, k.channel) == ""
  }

  lemma {:induction false} CloseStart(fakes: Key -> Fakes, index: int, todo: set<Key>, beats: Key -> seq<Beat>, sent: Key -> string, s: Buffers<Key>)
    requires Safe(fakes) && Keeps(fakes, beats, sent, s)
    requires forall k: Key :: k.choice == index && k in s ==> k in todo
    ensures Keeps(fakes, ClosedBut(index, todo, beats), sent, s)
  {
    forall k: Key ensures Follows(fakes(k), SegmentsOf(fakes(k), ClosedBut(index, todo, beats)(k)), sent(k), At(s, k)) {
      if k.choice == index && k !in todo {
        ChannelCloses(fakes(k), beats(k), sent(k), At(s, k));
        assert At(s, k) == "" && sent(k) + "" == sent(k);
      }
    }
  }

  /** One open key is closed; its tail goes onto the delta. */
  lemma {:induction false} CloseNext(fakes: Key -> Fakes, index: int, todo: set<Key>, beats: Key -> seq<Beat>, sent: Key -> string,
                                     out: seq<Slot>, s: Buffers<Key>, key: Key, out': seq<Slot>, s': Buffers<Key>)
    requires Safe(fakes) && key in todo && key.choice == index
    requires Keeps(fakes, ClosedBut(index, todo, beats), SlotsSent(index, out, sent), s) && Quiet(index, out, s)
    requires Updated(s, s', key, "")
    requires out' == if At(s, key) == "" then out else AppendRemainder(out, key.channel, At(s, key))
    ensures Keeps(fakes, ClosedBut(index, todo - {key}, beats), SlotsSent(index, out', sent), s') && Quiet(index, out', s')
  {
    var b, t := ClosedBut(index, todo, beats), SlotsSent(index, out, sent);
    var b', t' := ClosedBut(index, todo - {key}, beats), SlotsSent(index, out', sent);
    assert At(s, key) == "" || SlotsText(out, key.channel) == "";
    forall k: Key | k.choice == index
      ensures SlotsText(out', k.channel) == SlotsText(out, k.channel) + if k == key then At(s, key) else ""
    {
      if At(s, key) != "" { AppendRemainderText(out, key.channel, At(s, key), k.channel); }
      assert SlotsText(out, k.channel) + "" == SlotsText(out, k.channel);
      assert k.channel == key.channel <==> k == key;
    }
    forall k: Key
      ensures Follows(fakes(k), SegmentsOf(fakes(k), b'(k)), t'(k), At(s', k))
      ensures k.choice == index ==> At(s', k) == "" || SlotsText(out', k.channel) == ""
    {
      assert At(s, k) == At(s, k) && At(s', k) == At(s', k);
      if k == key {
        ChannelCloses(fakes(k), b(k), t(k), At(s, k));
        Associates(sent(k), SlotsText(out, k.channel), At(s, k));
      } else if k.choice == index {
        assert SlotsText(out, k.channel) + "" == SlotsText(out, k.channel);
      }
    }
  }

  // ----- choices and chunks -----

  ghost function ChoicesAdded(choices: seq<Choice>, beats: Key -> seq<Beat>): Key -> seq<Beat> {
    (k: Key) => beats(k) + ChoicesBeats(choices, k)
  }

  ghost function ChoicesSent(done: seq<Choice>, sent: Key -> string): Key -> string {
    (k: Key) => sent(k) + ChoicesText(done, k)
  }

  /** A choice is done: its slots, and the end of the choice if it finished. */
  lemma {:induction false} ChoiceDone(fakes: Key -> Fakes, choices: seq<Choice>, done: seq<Choice>, beats: Key -> seq<Beat>, sent: Key -> string,
                                      c: Choice, out: seq<Slot>, s: Buffers<Key>)
    requires Keeps(fakes, ChoiceBeatsAdded(c, ChoicesAdded(choices, beats)), SlotsSent(c.index, out, ChoicesSent(done, sent)), s)
    ensures Keeps(fakes, ChoicesAdded(choices + [c], beats), ChoicesSent(done + [c.(delta := c.delta.(slots := out))], sent), s)
  {
    var now, t := ChoiceBeatsAdded(c, ChoicesAdded(choices, beats)), SlotsSent(c.index, out, ChoicesSent(done, sent));
    var last := c.(delta := c.delta.(slots := out));
    forall k: Key
      ensures ChoicesAdded(choices + [c], beats)(k) == now(k)
      ensures ChoicesSent(done + [last], sent)(k) == t(k)
    {
      assert (choices + [c])[..|choices|] == choices && (done + [last])[..|done|] == done;
      assert ChoicesBeats(choices + [c], k) == ChoicesBeats(choices, k) + ChoiceBeats(c, k);
      assert ChoicesText(done + [last], k) == ChoicesText(done, k) + if c.index == k.choice then SlotsText(out, k.channel) else "";
      if c.index == k.choice {
        Associates(beats(k), ChoicesBeats(choices, k), SlotBeats(c.delta.slots, k.channel, c.finished));
        Associates(beats(k) + ChoicesBeats(choices, k), SlotBeats(c.delta.slots, k.channel, c.finished), [Beat(true, "")]);
        Associates(beats(k), ChoicesBeats(choices, k), ChoiceBeats(c, k));
        Associates(sent(k), ChoicesText(done, k), SlotsText(out, k.channel));
        assert ChoiceBeats(c, k) == SlotBeats(c.delta.slots, k.channel, c.finished) + if c.finished then [Beat(true, "")] else [];
        assert SlotBeats(c.delta.slots, k.channel, c.finished) + [] == SlotBeats(c.delta.slots, k.channel, c.finished);
      } else {
        assert ChoicesBeats(choices, k) + [] == ChoicesBeats(choices, k) && ChoicesText(done, k) + "" == ChoicesText(done, k);
      }
    }
    KeepsSame(fakes, now, t, s, ChoicesAdded(choices + [c], beats), ChoicesSent(done + [last], sent));
  }

  // ----- the restorer -----

  predicate HasChoice(chunk: Chunk, index: int) {
    exists i :: 0 <= i < |chunk.choices| && chunk.choices[i].index == index
  }

  function FirstChoice(choices: seq<Choice>, index: int): (c: Choice)
    requires exists i :: 0 <= i < |choices| && choices[i].index == index
    ensures c in choices && c.index == index
  {
    if choices[0].index == index then choices[0] else FirstChoice(choices[1..], index)
  }

  /** A trailing chunk with one held tail: the last chunk of the choice, without all its text. */
  function DrainChunk(template: Chunk, key: Key, remaining: string): Chunk
    requires HasChoice(template, key.choice)
  {
    var c := FirstChoice(template.choices, key.choice);
    Chunk([c.(delta := c.delta.(slots := [Slot(key.channel, remaining)]), finished := false)], false)
  }

  lemma {:induction false} DrainChunkText(template: Chunk, key: Key, remaining: string, k: Key)
    requires HasChoice(template, key.choice)
    ensures StreamText([DrainChunk(template, key, remaining)], k) == if k == key then remaining else ""
  {
    var chunk := DrainChunk(template, key, remaining);
    StreamTextOne(chunk, k);
    var slots := chunk.choices[0].delta.slots;
    assert chunk.choices[..0] == [] && slots[..0] == [];
    assert "" + remaining == remaining && "" + "" == "";
    assert SlotsText(slots, k.channel) == if k.channel == key.channel then remaining else "";
    assert ChoicesText(chunk.choices, k) == if k == key then remaining else "";
  }

  function FakesOf(mapping: Fakes): Key -> Fakes {
    (k: Key) => FakesFor(mapping, k.channel)
  }

  lemma {:induction false} IssuedFakes(mapping: Fakes)
    requires Bracketing(mapping)
    ensures Safe(FakesOf(mapping))
  {
    BracketingSuffices(mapping);
    assert Escaped(mapping).Keys == mapping.Keys;
  }

  /** No choice without a chunk to clone. */
  ghost predicate Templates(open: set<Key>, last: map<int, Chunk>) {
    && (forall k :: k in open ==> k.choice in last)
    && (forall i :: i in last ==> HasChoice(last[i], i))
  }

  /** A chunk that carries the tail of one channel, and ends nothing. */
  predicate IsTail(e: Chunk) {
    && |e.choices| == 1 && !e.choices[0].finished && !e.usage
    && |e.choices[0].delta.slots| == 1 && e.choices[0].delta.slots[0].text != ""
  }

  predicate AllTails(events: seq<Chunk>) {
    forall i :: 0 <= i < |events| ==> IsTail(events[i])
  }

  lemma {:induction false} TailsMore(events: seq<Chunk>, template: Chunk, key: Key, remaining: string)
    requires AllTails(events) && HasChoice(template, key.choice) && remaining != ""
    ensures AllTails(events + [DrainChunk(template, key, remaining)])
  {
  }

  /** The same chunks, but for the text in them. */
  predicate SameChunks(chunks: seq<Chunk>, events: seq<Chunk>) {
    |events| == |chunks| && forall i :: 0 <= i < |events| ==> SameChunk(chunks[i], events[i])
  }

  predicate SameChunk(chunk: Chunk, e: Chunk) {
    e == chunk.(choices := e.choices) && SameChoices(chunk.choices, e.choices)
  }

  class StreamRestorer {
    const store: BufferStore<Key>
    var lastChunk: map<int, Chunk>

    ghost predicate Valid()
      reads this, store`buffers, store.buffers.Values
      reads set b, n | b in store.buffers.Values && n in b.nodes.Values :: n
    {
      store.Valid() && Safe(store.fakesOf) && Templates(store.buffers.Keys, lastChunk)
    }

    ghost function Held(): Buffers<Key>
      reads store`buffers, store.buffers.Values
    {
      store.Held()
    }

    constructor (mapping: Fakes)
      requires Bracketing(mapping)
      ensures Valid() && Held() == map[] && store.fakesOf == FakesOf(mapping)
      ensures fresh(store) && fresh(store.buffers.Values)
    {
      store := new BufferStore<Key>(FakesOf(mapping));
      lastChunk := map[];
      new;
      store.HeldPointwise();
      IssuedFakes(mapping);
    }

    /** One piece of text through its buffer; a finished channel is flushed and dropped. */
    method Restore(key: Key, text: string, finished: bool) returns (out: string)
      requires Valid() && key.choice in lastChunk
      modifies store`buffers, store.buffers.Values`buffer
      ensures Valid() && fresh(store.buffers.Values - old(store.buffers.Values))
      ensures Updated(old(Held()), Held(), key, At(Held(), key))
      ensures Steps(store.fakesOf(key), At(old(Held()), key), text, finished, out, At(Held(), key))
    {
      out := FeedOpen(key, text);
      if finished {
        ghost var mid := Held();
        var rest := store.Pop(key);
        out := out + rest;
        PoppedAfter(mid, Held(), key);
      }
    }

    method FeedOpen(key: Key, text: string) returns (out: string)
      requires Valid() && key.choice in lastChunk
      modifies store`buffers, store.buffers.Values`buffer
      ensures Valid() && fresh(store.buffers.Values - old(store.buffers.Values)) && key in store.buffers
      ensures Updated(old(Held()), Held(), key, At(Held(), key))
      ensures Steps(store.fakesOf(key), At(old(Held()), key), text, false, out, At(Held(), key))
    {
      if text != "" {
        out := store.Feed(key, text);
      } else {
        out := OpenBuffer(key);
      }
    }

    static lemma {:induction false} PoppedAfter(mid: Buffers<Key>, s: Buffers<Key>, key: Key)
      requires Updated(mid, s, key, "")
      ensures At(s, key) == ""
      ensures forall start: Buffers<Key> :: Updated(start, mid, key, At(mid, key)) ==> Updated(start, s, key, "")
    {
      forall start: Buffers<Key> | Updated(start, mid, key, At(mid, key)) ensures Updated(start, s, key, "") {
        forall k ensures At(s, k) == if k == key then "" else At(start, k) {
          assert At(mid, k) == At(mid, k);
        }
      }
    }

    /** A buffer for the channel, and nothing fed to it. */
    method OpenBuffer(key: Key) returns (out: string)
      requires Valid() && key.choice in lastChunk
      modifies store`buffers
      ensures Valid() && fresh(store.buffers.Values - old(store.buffers.Values))
      ensures key in store.buffers && store.buffers.Keys == old(store.buffers.Keys) + {key}
      ensures Updated(old(Held()), Held(), key, At(Held(), key))
      ensures Steps(store.fakesOf(key), At(old(Held()), key), "", false, out, At(Held(), key))
    {
      store.HeldPointwise();
      store.HeldIsUndecided();
      ghost var start := Held();
      assert At(start, key) + "" == At(start, key);
      var b := store.Buffer(key);
      store.HeldPointwise();
      out := "";
    }

    /** One slot of a delta. */
    method RestoreSlot(index: int, slot: Slot, finished: bool, ghost slots: seq<Slot>, done: seq<Slot>,
                       ghost beats: Key -> seq<Beat>, ghost sent: Key -> string) returns (out: seq<Slot>)
      requires Valid() && index in lastChunk
      requires Keeps(store.fakesOf, SlotsAdded(index, slots, finished, beats), SlotsSent(index, done, sent), Held())
      requires finished ==> Quiet(index, done, Held())
      modifies store`buffers, store.buffers.Values`buffer
      ensures Valid() && fresh(store.buffers.Values - old(store.buffers.Values))
      ensures Keeps(store.fakesOf, SlotsAdded(index, slots + [slot], finished, beats), SlotsSent(index, out, sent), Held())
      ensures finished ==> Quiet(index, out, Held())
      ensures |out| == |done| + 1 && out[..|done|] == done && out[|done|].channel == slot.channel
    {
      ghost var before := Held();
      if !Buffered(slot, finished) {
        SlotsSkipped(store.fakesOf, index, slots, finished, beats, sent, done, before, slot);
        out := done + [slot];
      } else {
        var text := Restore(Key(index, slot.channel), slot.text, finished);
        SlotsFed(store.fakesOf, index, slots, finished, beats, sent, done, before, slot, text, Held());
        out := done + [Slot(slot.channel, text)];
      }
      if finished { QuietNext(index, done, out, slot.channel, before, Held()); }
    }

    /** The slots of a delta, in order. */
    method RestoreDelta(index: int, slots: seq<Slot>, finished: bool, ghost beats: Key -> seq<Beat>, ghost sent: Key -> string)
      returns (out: seq<Slot>)
      requires Valid() && index in lastChunk && Keeps(store.fakesOf, beats, sent, Held())
      modifies store`buffers, store.buffers.Values`buffer
      ensures Valid() && fresh(store.buffers.Values - old(store.buffers.Values))
      ensures Keeps(store.fakesOf, SlotsAdded(index, slots, finished, beats), SlotsSent(index, out, sent), Held())
      ensures finished ==> Quiet(index, out, Held())
      ensures |out| == |slots| && Extends(slots, out)
    {
      out := [];
      ghost var front: seq<Slot> := [];
      SlotsStart(store.fakesOf, index, finished, beats, sent, Held());
      for n := 0 to |slots|
        invariant Valid() && fresh(store.buffers.Values - old(store.buffers.Values))
        invariant front == slots[..n]
        invariant Keeps(store.fakesOf, SlotsAdded(index, front, finished, beats), SlotsSent(index, out, sent), Held())
        invariant finished ==> Quiet(index, out, Held())
        invariant |out| == n && Extends(front, out)
      {
        out := RestoreSlot(index, slots[n], finished, front, out, beats, sent);
        front := front + [slots[n]];
      }
      assert front == slots;
    }

    /** Close every channel of a choice; the tails go onto its delta. */
    method CloseChoice(index: int, slots: seq<Slot>, ghost beats: Key -> seq<Beat>, ghost sent: Key -> string)
      returns (out: seq<Slot>)
      requires Valid() && Keeps(store.fakesOf, beats, SlotsSent(index, slots, sent), Held()) && Quiet(index, slots, Held())
      modifies store`buffers, store.buffers.Values`buffer
      ensures Valid() && fresh(store.buffers.Values - old(store.buffers.Values))
      ensures Keeps(store.fakesOf, ClosedBut(index, {}, beats), SlotsSent(index, out, sent), Held())
      ensures Extends(slots, out)
    {
      out := slots;
      var todo := set k | k in store.buffers && k.choice == index;
      store.HeldPointwise();
      CloseStart(store.fakesOf, index, todo, beats, SlotsSent(index, slots, sent), Held());
      while todo != {}
        invariant Valid() && fresh(store.buffers.Values - old(store.buffers.Values))
        invariant todo <= store.buffers.Keys && forall k :: k in todo ==> k.choice == index
        invariant Keeps(store.fakesOf, ClosedBut(index, todo, beats), SlotsSent(index, out, sent), Held())
        invariant Quiet(index, out, Held()) && Extends(slots, out)
        decreases todo
      {
        ghost var before, done := Held(), out;
        var key :| key in todo;
        var remaining := store.Pop(key);
        if remaining != "" {
          AppendRemainderExtends(out, key.channel, remaining);
          out := AppendRemainder(out, key.channel, remaining);
        }
        CloseNext(store.fakesOf, index, todo, beats, sent, done, before, key, out, Held());
        todo := todo - {key};
      }
    }

    method Remember(chunk: Chunk, c: Choice)
      requires Valid() && c in chunk.choices
      modifies `lastChunk
      ensures Valid() && lastChunk == old(lastChunk)[c.index := chunk]
    {
      lastChunk := lastChunk[c.index := chunk];
      var i :| 0 <= i < |chunk.choices| && chunk.choices[i] == c;
    }

    /** What one choice of a chunk sends: its slots, and its tails if it finished. */
    method RestoreSlots(c: Choice, ghost beats: Key -> seq<Beat>, ghost sent: Key -> string) returns (out: seq<Slot>)
      requires Valid() && c.index in lastChunk && Keeps(store.fakesOf, beats, sent, Held())
      modifies store`buffers, store.buffers.Values`buffer
      ensures Valid() && fresh(store.buffers.Values - old(store.buffers.Values))
      ensures Keeps(store.fakesOf, ChoiceBeatsAdded(c, beats), SlotsSent(c.index, out, sent), Held())
      ensures SameChoice(c, c.(delta := c.delta.(slots := out)))
    {
      out := RestoreDelta(c.index, c.delta.slots, c.finished, beats, sent);
      if c.finished {
        out := CloseChoice(c.index, out, SlotsAdded(c.index, c.delta.slots, true, beats), sent);
      }
    }

    /** One choice of a chunk. */
    method RestoreChoice(chunk: Chunk, c: Choice, ghost choices: seq<Choice>, done: seq<Choice>,
                         ghost beats: Key -> seq<Beat>, ghost sent: Key -> string)
      returns (more: seq<Choice>)
      requires Valid() && c in chunk.choices
      requires Keeps(store.fakesOf, ChoicesAdded(choices, beats), ChoicesSent(done, sent), Held())
      modifies `lastChunk, store`buffers, store.buffers.Values`buffer
      ensures Valid() && fresh(store.buffers.Values - old(store.buffers.Values))
      ensures Keeps(store.fakesOf, ChoicesAdded(choices + [c], beats), ChoicesSent(more, sent), Held())
      ensures SameChoices(choices, done) ==> SameChoices(choices + [c], more)
    {
      Remember(chunk, c);
      ghost var b, t := ChoicesAdded(choices, beats), ChoicesSent(done, sent);
      var out := RestoreSlots(c, b, t);
      ChoiceDone(store.fakesOf, choices, done, beats, sent, c, out, Held());
      more := done + [c.(delta := c.delta.(slots := out))];
    }

    /** Every choice of a chunk. */
    method RestoreChunk(chunk: Chunk, ghost beats: Key -> seq<Beat>, ghost sent: Key -> string) returns (done: seq<Choice>)
      requires Valid() && Keeps(store.fakesOf, beats, sent, Held())
      modifies `lastChunk, store`buffers, store.buffers.Values`buffer
      ensures Valid() && fresh(store.buffers.Values - old(store.buffers.Values))
      ensures Keeps(store.fakesOf, ChoicesAdded(chunk.choices, beats), ChoicesSent(done, sent), Held())
      ensures SameChoices(chunk.choices, done)
    {
      done := [];
      ChoicesStart(store.fakesOf, beats, sent, Held());
      for n := 0 to |chunk.choices|
        invariant Valid() && fresh(store.buffers.Values - old(store.buffers.Values))
        invariant Keeps(store.fakesOf, ChoicesAdded(chunk.choices[..n], beats), ChoicesSent(done, sent), Held())
        invariant SameChoices(chunk.choices[..n], done)
      {
        assert chunk.choices[..n + 1] == chunk.choices[..n] + [chunk.choices[n]];
        done := RestoreChoice(chunk, chunk.choices[n], chunk.choices[..n], done, beats, sent);
      }
      assert chunk.choices[..|chunk.choices|] == chunk.choices;
    }

    /** The chunks of a stream, one after the other. */
    method RestoreChunks(chunks: seq<Chunk>) returns (events: seq<Chunk>)
      requires Valid() && Keeps(store.fakesOf, StreamKeyBeats([]), StreamKeyText([]), Held())
      modifies `lastChunk, store`buffers, store.buffers.Values`buffer
      ensures Valid() && fresh(store.buffers.Values - old(store.buffers.Values))
      ensures Keeps(store.fakesOf, StreamKeyBeats(chunks), StreamKeyText(events), Held())
      ensures SameChunks(chunks, events)
    {
      events := [];
      ghost var front: seq<Chunk> := [];
      for n := 0 to |chunks|
        invariant Valid() && fresh(store.buffers.Values - old(store.buffers.Values))
        invariant front == chunks[..n]
        invariant Keeps(store.fakesOf, StreamKeyBeats(front), StreamKeyText(events), Held())
        invariant SameChunks(front, events)
      {
        var done := RestoreChunk(chunks[n], StreamKeyBeats(front), StreamKeyText(events));
        var restored := chunks[n].(choices := done);
        ChunkDone(store.fakesOf, front, events, chunks[n], restored, Held());
        front, events := front + [chunks[n]], events + [restored];
      }
      assert front == chunks;
    }

    /** After the stream: a chunk for every tail that is still held. */
    method DrainOpen() returns (events: seq<Chunk>)
      requires Valid()
      modifies store`buffers, store.buffers.Values`buffer
      ensures forall k: Key {:trigger StreamText(events, k)} :: StreamText(events, k) == At(old(Held()), k)
      ensures AllTails(events)
    {
      events := [];
      var todo := set k | k in store.buffers;
      ghost var start := Held();
      store.HeldPointwise();
      LeftStart(todo, start);
      while todo != {}
        invariant Valid() && fresh(store.buffers.Values - old(store.buffers.Values))
        invariant todo <= store.buffers.Keys
        invariant Left(todo, start, events, Held()) && AllTails(events)
        decreases todo
      {
        ghost var before := Held();
        var key :| key in todo;
        var remaining := store.Pop(key);
        LeftNext(todo, start, events, before, key, lastChunk[key.choice], Held());
        if remaining != "" {
          TailsMore(events, lastChunk[key.choice], key, remaining);
          events := events + [DrainChunk(lastChunk[key.choice], key, remaining)];
        }
        todo := todo - {key};
      }
      forall k: Key ensures StreamText(events, k) == At(start, k) {
        assert At(Held(), k) == At(Held(), k);
      }
    }
  }

  /** While the rest is drained: what is not in `todo` any more has been sent. */
  ghost predicate Left(todo: set<Key>, start: Buffers<Key>, events: seq<Chunk>, s: Buffers<Key>) {
    forall k: Key {:trigger At(s, k)} ::
      if k in todo then At(s, k) == At(start, k) && StreamText(events, k) == "" else StreamText(events, k) == At(start, k)
  }

  lemma {:induction false} LeftStart(todo: set<Key>, s: Buffers<Key>)
    requires todo == s.Keys
    ensures Left(todo, s, [], s)
  {
    var none: seq<Chunk> := [];
    forall k: Key ensures StreamText(none, k) == "" && (k !in todo ==> At(s, k) == "") {}
  }

  lemma {:induction false} LeftNext(todo: set<Key>, start: Buffers<Key>, events: seq<Chunk>, s: Buffers<Key>, key: Key, template: Chunk, s': Buffers<Key>)
    requires Left(todo, start, events, s) && key in todo && Updated(s, s', key, "") && HasChoice(template, key.choice)
    ensures At(s, key) == "" ==> Left(todo - {key}, start, events, s')
    ensures Left(todo - {key}, start, events + [DrainChunk(template, key, At(s, key))], s')
  {
    var more := [DrainChunk(template, key, At(s, key))];
    assert At(s, key) == At(start, key);
    forall k: Key
      ensures if k in todo - {key} then At(s', k) == At(start, k) && StreamText(events + more, k) == ""
              else StreamText(events + more, k) == At(start, k)
      ensures StreamText(events + more, k) == StreamText(events, k) + if k == key then At(s, key) else ""
    {
      assert At(s, k) == At(s, k) && At(s', k) == At(s', k);
      StreamTextConcat(events, more, k);
      DrainChunkText(template, key, At(s, key), k);
      assert StreamText(events, k) + "" == StreamText(events, k);
    }
  }

  ghost function ChoiceBeatsAdded(c: Choice, beats: Key -> seq<Beat>): Key -> seq<Beat> {
    var b := SlotsAdded(c.index, c.delta.slots, c.finished, beats);
    if c.finished then ClosedBut(c.index, {}, b) else b
  }

  lemma {:induction false} ChoicesStart(fakes: Key -> Fakes, beats: Key -> seq<Beat>, sent: Key -> string, s: Buffers<Key>)
    requires Keeps(fakes, beats, sent, s)
    ensures Keeps(fakes, ChoicesAdded([], beats), ChoicesSent([], sent), s)
  {
    forall k ensures ChoicesAdded([], beats)(k) == beats(k) && ChoicesSent([], sent)(k) == sent(k) {
      assert beats(k) + [] == beats(k) && sent(k) + "" == sent(k);
    }
    KeepsSame(fakes, beats, sent, s, ChoicesAdded([], beats), ChoicesSent([], sent));
  }

  lemma {:induction false} QuietNext(index: int, done: seq<Slot>, out: seq<Slot>, channel: Channel, s: Buffers<Key>, s': Buffers<Key>)
    requires Quiet(index, done, s) && |out| == |done| + 1 && out[..|done|] == done && out[|done|].channel == channel
    requires (s' == s && out[|done|].text == "") || Updated(s, s', Key(index, channel), "")
    ensures Quiet(index, out, s')
  {
    forall k: Key | k.choice == index ensures At(s', k) == "" || SlotsText(out, k.channel) == "" {
      assert At(s, k) == At(s, k);
      assert out == done + [out[|done|]];
      SlotsTextAdd(done, out[|done|], k.channel);
    }
  }

  // ----- whole streams -----

  ghost function StreamKeyBeats(chunks: seq<Chunk>): Key -> seq<Beat> {
    (k: Key) => StreamBeats(chunks, k)
  }

  ghost function StreamKeyText(events: seq<Chunk>): Key -> string {
    (k: Key) => StreamText(events, k)
  }

  lemma {:induction false} ChunkDone(fakes: Key -> Fakes, chunks: seq<Chunk>, events: seq<Chunk>, chunk: Chunk, restored: Chunk, s: Buffers<Key>)
    requires Keeps(fakes, ChoicesAdded(chunk.choices, StreamKeyBeats(chunks)), ChoicesSent(restored.choices, StreamKeyText(events)), s)
    ensures Keeps(fakes, StreamKeyBeats(chunks + [chunk]), StreamKeyText(events + [restored]), s)
  {
    var b, t := ChoicesAdded(chunk.choices, StreamKeyBeats(chunks)), ChoicesSent(restored.choices, StreamKeyText(events));
    forall k ensures StreamKeyBeats(chunks + [chunk])(k) == b(k) && StreamKeyText(events + [restored])(k) == t(k) {
      assert (chunks + [chunk])[..|chunks|] == chunks && (events + [restored])[..|events|] == events;
    }
    KeepsSame(fakes, b, t, s, StreamKeyBeats(chunks + [chunk]), StreamKeyText(events + [restored]));
  }

  lemma {:induction false} StreamStart(fakes: Key -> Fakes)
    ensures Keeps(fakes, StreamKeyBeats([]), StreamKeyText([]), map[])
  {
    var s: Buffers<Key> := map[];
    forall k: Key ensures Follows(fakes(k), SegmentsOf(fakes(k), StreamKeyBeats([])(k)), StreamKeyText([])(k), At(s, k)) {
      assert Drain(fakes(k), "") == Streaming.Fed("", "");
    }
  }

  lemma {:induction false} SlotBeatsText(slots: seq<Slot>, channel: Channel, finished: bool)
    ensures BeatsText(SlotBeats(slots, channel, finished)) == SlotsText(slots, channel)
    decreases |slots|
  {
    if slots != [] {
      var n := |slots| - 1;
      SlotBeatsText(slots[..n], channel, finished);
      BeatsTextConcat(SlotBeats(slots[..n], channel, finished), if slots[n].channel == channel then OneSlot(slots[n], finished) else []);
      OneSlotText(slots[n], finished);
    }
  }

  lemma {:induction false} OneSlotText(slot: Slot, finished: bool)
    ensures BeatsText(OneSlot(slot, finished)) == slot.text
  {
    var first, last := [Beat(false, slot.text)], [Beat(true, "")];
    assert first[..0] == [] && (first + last)[..1] == first;
    assert first + last == [Beat(false, slot.text), Beat(true, "")];
    assert "" + slot.text == slot.text && slot.text + "" == slot.text;
    assert BeatsText(first) == slot.text && BeatsText(first + last) == slot.text;
  }

  lemma {:induction false} ChoiceBeatsText(c: Choice, k: Key)
    ensures BeatsText(ChoiceBeats(c, k)) == if c.index == k.choice then SlotsText(c.delta.slots, k.channel) else ""
  {
    if c.index == k.choice {
      var beats := SlotBeats(c.delta.slots, k.channel, c.finished);
      SlotBeatsText(c.delta.slots, k.channel, c.finished);
      assert (beats + [Beat(true, "")])[..|beats|] == beats && beats + [] == beats;
      assert BeatsText(beats + [Beat(true, "")]) == BeatsText(beats) + "";
    }
  }

  lemma {:induction false} ChoicesBeatsText(choices: seq<Choice>, k: Key)
    ensures BeatsText(ChoicesBeats(choices, k)) == ChoicesText(choices, k)
    decreases |choices|
  {
    if choices != [] {
      var n := |choices| - 1;
      ChoicesBeatsText(choices[..n], k);
      ChoiceBeatsText(choices[n], k);
      BeatsTextConcat(ChoicesBeats(choices[..n], k), ChoiceBeats(choices[n], k));
    }
  }

  /** The beats of a channel hold its text. */
  lemma {:induction false} StreamBeatsText(chunks: seq<Chunk>, k: Key)
    ensures BeatsText(StreamBeats(chunks, k)) == StreamText(chunks, k)
    decreases |chunks|
  {
    if chunks != [] {
      var n := |chunks| - 1;
      StreamBeatsText(chunks[..n], k);
      ChoicesBeatsText(chunks[n].choices, k);
      BeatsTextConcat(StreamBeats(chunks[..n], k), ChoicesBeats(chunks[n].choices, k));
    }
  }

  /** Every channel of `events` carries its text in `chunks`, restored. */
  ghost predicate Delivered(fakes: Key -> Fakes, chunks: seq<Chunk>, events: seq<Chunk>) {
    forall k: Key {:trigger StreamText(events, k)} ::
      && StreamText(events, k) == Expected(fakes(k), StreamBeats(chunks, k))
      && (FlushedLast(StreamBeats(chunks, k)) ==> StreamText(events, k) == DeAnonymizer.Restore(fakes(k), StreamText(chunks, k)))
  }

  /**
   A whole stream through the guardrail, with or without finish reasons, and whatever the chunks
   hold: each channel gets its text, every stretch up to a finish restored as one; nothing is
   dropped. A channel whose text is complete when it is finished is restored whole. Every chunk goes
   out, in order and with only its text changed, and then the tails.
   */
  method RestoreStream(mapping: Fakes, chunks: seq<Chunk>) returns (events: seq<Chunk>)
    requires Bracketing(mapping)
    ensures Delivered(FakesOf(mapping), chunks, events)
    ensures |chunks| <= |events| && SameChunks(chunks, events[..|chunks|]) && AllTails(events[|chunks|..])
  {
    IssuedFakes(mapping);
    StreamStart(FakesOf(mapping));
    var restorer := new StreamRestorer(mapping);
    events := restorer.RestoreChunks(chunks);
    ghost var held := restorer.Held();
    var rest := restorer.DrainOpen();
    StreamDone(FakesOf(mapping), chunks, events, held, rest);
    assert (events + rest)[..|chunks|] == events && (events + rest)[|chunks|..] == rest;
    events := events + rest;
  }

  lemma {:induction false} StreamDone(fakes: Key -> Fakes, chunks: seq<Chunk>, events: seq<Chunk>, s: Buffers<Key>, rest: seq<Chunk>)
    requires Safe(fakes) && Keeps(fakes, StreamKeyBeats(chunks), StreamKeyText(events), s)
    requires forall k: Key {:trigger StreamText(rest, k)} :: StreamText(rest, k) == At(s, k)
    ensures Delivered(fakes, chunks, events + rest)
  {
    forall k: Key
      ensures StreamText(events + rest, k) == Expected(fakes(k), StreamBeats(chunks, k))
      ensures FlushedLast(StreamBeats(chunks, k)) ==> StreamText(events + rest, k) == DeAnonymizer.Restore(fakes(k), StreamText(chunks, k))
    {
      assert At(s, k) == At(s, k);
      StreamTextConcat(events, rest, k);
      FollowsFlush(fakes(k), SegmentsOf(fakes(k), StreamBeats(chunks, k)), StreamText(events, k), At(s, k));
      if FlushedLast(StreamBeats(chunks, k)) {
        FlushedLastIsWhole(fakes(k), StreamBeats(chunks, k));
        StreamBeatsText(chunks, k);
      }
    }
  }
}
