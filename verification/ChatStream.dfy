/**
 privaite/streaming/handler.py: one streamed chat completion. Each (choice, channel) has a
 hold-back buffer of its own; what a buffer still holds goes out with the choice's finish
 chunk, or after the stream.
 */
module ChatStream {
  import opened Wrappers
  import opened Literals
  import opened DeAnonymizer
  import opened Streaming
  import opened TrieBuffer
  import opened JsonText
  import opened Channels
  import opened ChatChannels

  datatype Field = ReasoningContent | Reasoning | Refusal

  datatype Channel = Content | Text(field: Field) | Audio | Tool(call: int) | FunctionCall

  datatype Key = Key(choice: int, channel: Channel)

  /** A place of a delta that carries streamed text: a field, the audio transcript, or the
      arguments of one call (empty when the call has none). */
  datatype Slot = Slot(channel: Channel, text: string)

  /** `other`: some further field of the delta is not empty (a role, say). */
  datatype Delta = Delta(slots: seq<Slot>, other: bool)

  /** `extra`: something else rides on the choice (logprobs, say). */
  datatype Choice = Choice(index: int, delta: Delta, finished: bool, extra: bool)

  datatype Chunk = Chunk(choices: seq<Choice>, usage: bool)

  // ----- the text of one channel -----

  function SlotsText(slots: seq<Slot>, channel: Channel): string {
    if slots == [] then ""
    else
      var n := |slots| - 1;
      SlotsText(slots[..n], channel) + if slots[n].channel == channel then slots[n].text else ""
  }

  function ChoicesText(choices: seq<Choice>, k: Key): string {
    if choices == [] then ""
    else
      var n := |choices| - 1;
      ChoicesText(choices[..n], k)
      + if choices[n].index == k.choice then SlotsText(choices[n].delta.slots, k.channel) else ""
  }

  /** The text of one channel of one choice, over a whole stream. */
  function StreamText(chunks: seq<Chunk>, k: Key): string {
    if chunks == [] then ""
    else
      var n := |chunks| - 1;
      StreamText(chunks[..n], k) + ChoicesText(chunks[n].choices, k)
  }

  lemma {:induction false} SlotsTextConcat(a: seq<Slot>, b: seq<Slot>, channel: Channel)
    ensures SlotsText(a + b, channel) == SlotsText(a, channel) + SlotsText(b, channel)
    decreases |b|
  {
    if b == [] {
      assert a + b == a;
    } else {
      var n := |b| - 1;
      assert (a + b)[..|a| + n] == a + b[..n];
      SlotsTextConcat(a, b[..n], channel);
    }
  }

  lemma {:induction false} StreamTextConcat(a: seq<Chunk>, b: seq<Chunk>, k: Key)
    ensures StreamText(a + b, k) == StreamText(a, k) + StreamText(b, k)
    decreases |b|
  {
    if b == [] {
      assert a + b == a;
    } else {
      var n := |b| - 1;
      assert (a + b)[..|a| + n] == a + b[..n];
      StreamTextConcat(a, b[..n], k);
    }
  }

  lemma {:induction false} StreamTextOne(c: Chunk, k: Key)
    ensures StreamText([c], k) == ChoicesText(c.choices, k)
  {
    assert [c][..0] == [];
  }

  /** A synthetic chunk with one slot. */
  function SlotChunk(k: Key, text: string): Chunk {
    Chunk([Choice(k.choice, Delta([Slot(k.channel, text)], false), false, false)], false)
  }

  lemma {:induction false} SlotChunkText(k: Key, text: string, j: Key)
    ensures StreamText([SlotChunk(k, text)], j) == if j == k then text else ""
  {
    StreamTextOne(SlotChunk(k, text), j);
    var choices := SlotChunk(k, text).choices;
    var slots := choices[0].delta.slots;
    assert choices[..0] == [] && slots[..0] == [];
    assert "" + text == text && "" + "" == "";
    assert SlotsText(slots, j.channel) == if k.channel == j.channel then text else "";
    assert ChoicesText(choices, j) == if k == j then text else "";
  }

  // ----- what a client may rely on -----

  predicate FinishedIn(choices: seq<Choice>, index: int) {
    exists i :: 0 <= i < |choices| && choices[i].index == index && choices[i].finished
  }

  predicate JsonFragment(channel: Channel) { channel.Tool? || channel.FunctionCall? }

  /** Argument fragments are JSON source text: they are restored with escaped originals. */
  function FakesFor(mapping: Fakes, channel: Channel): Fakes {
    if JsonFragment(channel) then Escaped(mapping) else mapping
  }

  predicate HasSlot(slots: seq<Slot>, channel: Channel) {
    exists i :: 0 <= i < |slots| && slots[i].channel == channel
  }

  /** The held remainder of an argument channel has no place on a delta without its slot. */
  predicate IsApart(slots: seq<Slot>, channel: Channel) {
    JsonFragment(channel) && !HasSlot(slots, channel)
  }

  function EntryOf(c: Choice, k: Key): Entry {
    Entry(SlotsText(c.delta.slots, k.channel), c.finished, IsApart(c.delta.slots, k.channel))
  }

  /** The entries of a chunk that are about the choice of a key. */
  function EntriesOf(choices: seq<Choice>, k: Key): seq<Entry> {
    if choices == [] then []
    else
      var n := |choices| - 1;
      EntriesOf(choices[..n], k) + if choices[n].index == k.choice then [EntryOf(choices[n], k)] else []
  }

  function ChunksFor(chunks: seq<Chunk>, k: Key): seq<seq<Entry>> {
    if chunks == [] then [] else ChunksFor(chunks[..|chunks| - 1], k) + [EntriesOf(chunks[|chunks| - 1].choices, k)]
  }

  lemma {:induction false} EntriesHaveText(choices: seq<Choice>, k: Key)
    ensures TextOf(EntriesOf(choices, k)) == ChoicesText(choices, k)
    ensures EverFinished(EntriesOf(choices, k)) <==> FinishedIn(choices, k.choice)
    decreases |choices|
  {
    if choices != [] {
      var n := |choices| - 1;
      var front, c := choices[..n], choices[n];
      EntriesHaveText(front, k);
      FinishedNext(choices, n);
      assert choices[..n + 1] == choices;
      if c.index == k.choice {
        OneMore(EntriesOf(front, k), EntryOf(c, k));
      } else {
        assert TextOf(EntriesOf(front, k)) + "" == TextOf(EntriesOf(front, k));
        assert EntriesOf(front, k) + [] == EntriesOf(front, k);
      }
    }
  }

  lemma {:induction false} OneMore(entries: seq<Entry>, e: Entry)
    ensures TextOf(entries + [e]) == TextOf(entries) + e.text
    ensures EverFinished(entries + [e]) <==> EverFinished(entries) || e.finished
  {
    var all := entries + [e];
    assert all[..|entries|] == entries && all[|entries|] == e;
    if EverFinished(entries) {
      var i :| 0 <= i < |entries| && entries[i].finished;
      assert all[i].finished;
    }
  }

  lemma {:induction false} FlatHasText(chunks: seq<Chunk>, k: Key)
    ensures TextOf(Flat(ChunksFor(chunks, k))) == StreamText(chunks, k)
    decreases |chunks|
  {
    if chunks != [] {
      var n := |chunks| - 1;
      FlatHasText(chunks[..n], k);
      EntriesHaveText(chunks[n].choices, k);
      FlatNext(ChunksFor(chunks[..n], k), EntriesOf(chunks[n].choices, k));
      TextConcat(Flat(ChunksFor(chunks[..n], k)), EntriesOf(chunks[n].choices, k));
    }
  }

  lemma {:induction false} FlatNext(chunks: seq<seq<Entry>>, entries: seq<Entry>)
    ensures Flat(chunks + [entries]) == Flat(chunks) + entries
  {
    assert (chunks + [entries])[..|chunks|] == chunks;
  }

  lemma {:induction false} FlatIsFinished(chunks: seq<Chunk>, k: Key)
    ensures EverFinished(Flat(ChunksFor(chunks, k))) <==> Finished(chunks, k.choice)
    decreases |chunks|
  {
    if chunks != [] {
      var n := |chunks| - 1;
      FlatIsFinished(chunks[..n], k);
      EntriesHaveText(chunks[n].choices, k);
      FlatNext(ChunksFor(chunks[..n], k), EntriesOf(chunks[n].choices, k));
      FinishedConcat(Flat(ChunksFor(chunks[..n], k)), EntriesOf(chunks[n].choices, k));
      FinishedFront(chunks, k.choice);
    }
  }

  lemma {:induction false} FinishedConcat(a: seq<Entry>, b: seq<Entry>)
    ensures EverFinished(a + b) <==> EverFinished(a) || EverFinished(b)
  {
    if EverFinished(a) {
      var i :| 0 <= i < |a| && a[i].finished;
      assert (a + b)[i].finished;
    } else if EverFinished(b) {
      var i :| 0 <= i < |b| && b[i].finished;
      assert (a + b)[|a| + i].finished;
    }
  }

  /** The choice has had a finish chunk. */
  ghost predicate Finished(chunks: seq<Chunk>, index: int) {
    exists n :: 0 <= n < |chunks| && FinishedIn(chunks[n].choices, index)
  }

  lemma {:induction false} FinishedFront(chunks: seq<Chunk>, index: int)
    requires chunks != []
    ensures var n := |chunks| - 1;
            Finished(chunks, index) <==> Finished(chunks[..n], index) || FinishedIn(chunks[n].choices, index)
  {
    var front := chunks[..|chunks| - 1];
    if Finished(front, index) {
      var i :| 0 <= i < |front| && FinishedIn(front[i].choices, index);
      assert FinishedIn(chunks[i].choices, index);
    }
    if i :| 0 <= i < |chunks| && FinishedIn(chunks[i].choices, index) {
      assert i < |front| ==> front[i] == chunks[i];
    }
  }

  lemma {:induction false} SlotsTextAdd(slots: seq<Slot>, slot: Slot, channel: Channel)
    ensures SlotsText(slots + [slot], channel)
         == SlotsText(slots, channel) + if slot.channel == channel then slot.text else ""
  {
    assert (slots + [slot])[..|slots|] == slots;
  }

  /** Held text is undecided text. */
  ghost predicate Undecided(mapping: Fakes, s: Buffers<Key>) {
    forall k: Key {:trigger At(s, k)} :: Drain(FakesFor(mapping, k.channel), At(s, k)) == Fed("", At(s, k))
  }

  /** One entry of a delta for choice `index` took the buffers from `s` to `s'`. */
  ghost predicate SlotsStep(mapping: Fakes, index: int, s: Buffers<Key>, slots: seq<Slot>, out: seq<Slot>, s': Buffers<Key>) {
    forall k: Key {:trigger At(s', k)} ::
      if k.choice == index
      then Steps(FakesFor(mapping, k.channel), At(s, k), SlotsText(slots, k.channel), false, SlotsText(out, k.channel), At(s', k))
      else At(s', k) == At(s, k)
  }

  /** No text for a key: what it holds stays held. */
  lemma {:induction false} KeyIdle(mapping: Fakes, s: Buffers<Key>, k: Key)
    requires Undecided(mapping, s)
    ensures Steps(FakesFor(mapping, k.channel), At(s, k), "", false, "", At(s, k)) && Updated(s, s, k, At(s, k))
  {
    assert At(s, k) + "" == At(s, k);
  }

  lemma {:induction false} SlotsStepIdle(mapping: Fakes, index: int, s: Buffers<Key>)
    requires Undecided(mapping, s)
    ensures SlotsStep(mapping, index, s, [], [], s)
  {
    forall k: Key | k.choice == index ensures Steps(FakesFor(mapping, k.channel), At(s, k), "", false, "", At(s, k)) {
      assert At(s, k) + "" == At(s, k);
    }
  }

  lemma {:induction false} SlotsStepNext(mapping: Fakes, index: int, s: Buffers<Key>, slots: seq<Slot>, out: seq<Slot>, s1: Buffers<Key>,
                                         slot: Slot, text: string, h: string, s2: Buffers<Key>)
    requires PrefixFree(mapping.Keys) && SlotsStep(mapping, index, s, slots, out, s1)
    requires var k := Key(index, slot.channel);
             Updated(s1, s2, k, h) && Steps(FakesFor(mapping, k.channel), At(s1, k), slot.text, false, text, h)
    ensures SlotsStep(mapping, index, s, slots + [slot], out + [Slot(slot.channel, text)], s2)
  {
    forall k: Key
      ensures if k.choice == index
              then Steps(FakesFor(mapping, k.channel), At(s, k), SlotsText(slots + [slot], k.channel), false,
                         SlotsText(out + [Slot(slot.channel, text)], k.channel), At(s2, k))
              else At(s2, k) == At(s, k)
    {
      SlotsTextAdd(slots, slot, k.channel);
      SlotsTextAdd(out, Slot(slot.channel, text), k.channel);
      assert At(s1, k) == At(s1, k);
      if k == Key(index, slot.channel) {
        NextStep(FakesFor(mapping, k.channel), At(s, k), SlotsText(slots, k.channel), SlotsText(out, k.channel), At(s1, k),
                 slot.text, false, text, h);
      } else {
        assert SlotsText(slots, k.channel) + "" == SlotsText(slots, k.channel);
        assert SlotsText(out, k.channel) + "" == SlotsText(out, k.channel);
      }
    }
  }

  /** Fed slots are those of the delta, with other text. */
  ghost predicate SameSlots(slots: seq<Slot>, out: seq<Slot>) {
    |out| == |slots| && forall i :: 0 <= i < |out| ==> out[i].channel == slots[i].channel
  }

  /** An argument channel has a slot now if it had one. */
  ghost predicate SameArguments(slots: seq<Slot>, out: seq<Slot>) {
    forall c: Channel :: IsApart(out, c) <==> IsApart(slots, c)
  }

  lemma {:induction false} SameSlotsNext(slots: seq<Slot>, n: nat, out: seq<Slot>, text: string)
    requires n < |slots| && SameSlots(slots[..n], out)
    ensures slots[..n + 1] == slots[..n] + [slots[n]]
    ensures SameSlots(slots[..n + 1], out + [Slot(slots[n].channel, text)])
  {
  }

  lemma {:induction false} SameSlotsArguments(slots: seq<Slot>, out: seq<Slot>)
    requires SameSlots(slots, out)
    ensures SameArguments(slots, out)
  {
    forall c: Channel ensures HasSlot(out, c) <==> HasSlot(slots, c) {
      if HasSlot(out, c) {
        var i :| 0 <= i < |out| && out[i].channel == c;
        assert slots[i].channel == c;
      }
      if HasSlot(slots, c) {
        var i :| 0 <= i < |slots| && slots[i].channel == c;
        assert out[i].channel == c;
      }
    }
  }

  /** What a flush makes of one key: its remainder goes out early, or behind its text. */
  ghost predicate FlushedKey(apart: bool, held: string, text: string, pre: string, out: string, held': string) {
    held' == "" && if apart then pre == held && out == text else pre == "" && out == text + held
  }

  /** While a choice is flushed: the keys in `todo` are as they were, the others are flushed. */
  ghost predicate FlushStep(index: int, s: Buffers<Key>, slots: seq<Slot>, todo: set<Key>, pre: seq<Chunk>, out: seq<Slot>, s': Buffers<Key>) {
    && SameArguments(slots, out)
    && forall k: Key {:trigger At(s', k)} ::
      && (k.choice == index && k !in todo ==>
            FlushedKey(IsApart(slots, k.channel), At(s, k), SlotsText(slots, k.channel), StreamText(pre, k), SlotsText(out, k.channel), At(s', k)))
      && (k.choice != index || k in todo ==> At(s', k) == At(s, k) && StreamText(pre, k) == "")
      && (k.choice == index && k in todo ==> SlotsText(out, k.channel) == SlotsText(slots, k.channel))
  }

  lemma {:induction false} FlushStepStart(index: int, s: Buffers<Key>, slots: seq<Slot>, todo: set<Key>)
    requires forall k :: k in s && k.choice == index ==> k in todo
    ensures FlushStep(index, s, slots, todo, [], slots, s)
  {
    forall c ensures "" + SlotsText(slots, c) == SlotsText(slots, c) + "" == SlotsText(slots, c) {}
    var none: seq<Chunk> := [];
    assert forall k :: StreamText(none, k) == "";
  }

  /** A remainder put on the last slot of its channel. */
  function AppendToSlot(slots: seq<Slot>, channel: Channel, remaining: string): seq<Slot> {
    if slots == [] then []
    else
      var n := |slots| - 1;
      if slots[n].channel == channel then slots[..n] + [Slot(channel, slots[n].text + remaining)]
      else AppendToSlot(slots[..n], channel, remaining) + [slots[n]]
  }

  lemma {:induction false} AppendKeepsSlots(slots: seq<Slot>, channel: Channel, remaining: string)
    ensures SameSlots(slots, AppendToSlot(slots, channel, remaining))
    decreases |slots|
  {
    if slots != [] { AppendKeepsSlots(slots[..|slots| - 1], channel, remaining); }
  }

  lemma {:induction false} AppendToSlotText(slots: seq<Slot>, channel: Channel, remaining: string, c: Channel)
    requires HasSlot(slots, channel)
    ensures SlotsText(AppendToSlot(slots, channel, remaining), c) == SlotsText(slots, c) + if c == channel then remaining else ""
    decreases |slots|
  {
    var n := |slots| - 1;
    var before, last := SlotsText(slots[..n], c), slots[n];
    if last.channel == channel {
      SlotsTextAdd(slots[..n], Slot(channel, last.text + remaining), c);
      LastText(before, last.text, remaining);
    } else {
      var i :| 0 <= i < |slots| && slots[i].channel == channel;
      assert slots[..n][i].channel == channel;
      AppendToSlotText(slots[..n], channel, remaining, c);
      SlotsTextAdd(AppendToSlot(slots[..n], channel, remaining), last, c);
      LastText(before, if last.channel == c then last.text else "", "");
    }
  }

  lemma {:induction false} LastText(before: string, last: string, remaining: string)
    ensures before + (last + remaining) == (before + last) + remaining
    ensures before + "" == before
  {
  }

  /** Send the remainder of one channel: on its slot, in a chunk of its own, or on a new slot. */
  function Place(key: Key, remaining: string, slots: seq<Slot>, pre: seq<Chunk>): (seq<Slot>, seq<Chunk>) {
    if remaining == "" then (slots, pre)
    else if HasSlot(slots, key.channel) then (AppendToSlot(slots, key.channel, remaining), pre)
    else if JsonFragment(key.channel) then (slots, pre + [SlotChunk(key, remaining)])
    else (slots + [Slot(key.channel, remaining)], pre)
  }

  lemma {:induction false} PlaceText(key: Key, remaining: string, slots: seq<Slot>, pre: seq<Chunk>)
    ensures var apart := remaining != "" && IsApart(slots, key.channel);
            && (forall k :: StreamText(Place(key, remaining, slots, pre).1, k) == StreamText(pre, k) + if apart && k == key then remaining else "")
            && (forall c :: SlotsText(Place(key, remaining, slots, pre).0, c) == SlotsText(slots, c) + if !apart && c == key.channel then remaining else "")
  {
    var apart := remaining != "" && IsApart(slots, key.channel);
    var (slots', pre') := Place(key, remaining, slots, pre);
    forall k ensures StreamText(pre', k) == StreamText(pre, k) + if apart && k == key then remaining else "" {
      StreamTextConcat(pre, [SlotChunk(key, remaining)], k);
      SlotChunkText(key, remaining, k);
    }
    forall c ensures SlotsText(slots', c) == SlotsText(slots, c) + if !apart && c == key.channel then remaining else "" {
      SlotsTextAdd(slots, Slot(key.channel, remaining), c);
      if HasSlot(slots, key.channel) { AppendToSlotText(slots, key.channel, remaining, c); }
    }
  }

  lemma {:induction false} PlaceKeepsArguments(key: Key, remaining: string, slots: seq<Slot>, pre: seq<Chunk>)
    ensures SameArguments(slots, Place(key, remaining, slots, pre).0)
  {
    AppendKeepsSlots(slots, key.channel, remaining);
    SameSlotsArguments(slots, AppendToSlot(slots, key.channel, remaining));
    if !JsonFragment(key.channel) {
      var more := slots + [Slot(key.channel, remaining)];
      forall c: Channel | JsonFragment(c) ensures HasSlot(more, c) <==> HasSlot(slots, c) {
        if HasSlot(slots, c) {
          var i :| 0 <= i < |slots| && slots[i].channel == c;
          assert more[i].channel == c;
        }
      }
    }
  }

  lemma {:induction false} PlaceExtends(key: Key, remaining: string, slots: seq<Slot>, pre: seq<Chunk>)
    ensures Extends(slots, Place(key, remaining, slots, pre).0)
    ensures AllRemainders(pre) ==> AllRemainders(Place(key, remaining, slots, pre).1)
  {
    AppendKeepsSlots(slots, key.channel, remaining);
    if remaining != "" { assert IsRemainder(SlotChunk(key, remaining)); }
  }

  /** The remainder of one key goes out on the delta, or in a chunk of its own. */
  lemma {:induction false} FlushStepNext(index: int, s: Buffers<Key>, slots: seq<Slot>, todo: set<Key>, pre: seq<Chunk>, out: seq<Slot>, s1: Buffers<Key>,
                                         key: Key, pre': seq<Chunk>, out': seq<Slot>, s2: Buffers<Key>)
    requires FlushStep(index, s, slots, todo, pre, out, s1)
    requires key in todo && key.choice == index && Updated(s1, s2, key, "")
    requires (out', pre') == Place(key, At(s1, key), out, pre)
    ensures FlushStep(index, s, slots, todo - {key}, pre', out', s2)
  {
    PlaceText(key, At(s1, key), out, pre);
    PlaceKeepsArguments(key, At(s1, key), out, pre);
    assert At(s1, key) == At(s, key);
    forall k: Key
      ensures (k.choice == index && k !in todo - {key} ==>
                 FlushedKey(IsApart(slots, k.channel), At(s, k), SlotsText(slots, k.channel), StreamText(pre', k), SlotsText(out', k.channel), At(s2, k)))
      ensures (k.choice != index || k in todo - {key} ==> At(s2, k) == At(s, k) && StreamText(pre', k) == "")
      ensures (k.choice == index && k in todo - {key} ==> SlotsText(out', k.channel) == SlotsText(slots, k.channel))
    {
      assert At(s1, k) == At(s1, k);
      assert k.choice == index && k != key ==> k.channel != key.channel;
      EmptyAdds(StreamText(pre, k), SlotsText(out, k.channel), At(s, k));
    }
  }

  lemma {:induction false} EmptyAdds(pre: string, out: string, held: string)
    ensures pre + "" == pre && out + "" == out && "" + held == held
  {
  }

  /** A choice of a chunk is done: `pre` goes out before the chunk, `out` on it. */
  ghost predicate ChoiceStep(mapping: Fakes, choice: Choice, s: Buffers<Key>, pre: seq<Chunk>, out: seq<Slot>, s': Buffers<Key>) {
    forall k: Key {:trigger At(s', k)} ::
      if k.choice == choice.index
      then Passed(StreamText(pre, k), SlotsText(out, k.channel), At(s', k))
           == Pass(FakesFor(mapping, k.channel), Passed("", "", At(s, k)), EntryOf(choice, k))
      else At(s', k) == At(s, k) && StreamText(pre, k) == ""
  }

  /** One key of a choice: fed, and flushed if the choice is finished. */
  lemma {:induction false} FedKey(m: Fakes, held: string, e: Entry, fed: string, mid: string, pre: string, out: string, held': string)
    requires Steps(m, held, e.text, false, fed, mid)
    requires if e.finished then FlushedKey(e.apart, mid, fed, pre, out, held') else pre == "" && out == fed && held' == mid
    ensures Passed(pre, out, held') == Pass(m, Passed("", "", held), e)
  {
    var f := Drain(m, held + e.text);
    assert "" + f.out == f.out && "" + f.held == f.held && "" + (f.out + f.held) == f.out + f.held;
  }

  lemma {:induction false} FlushedChoice(mapping: Fakes, choice: Choice, s: Buffers<Key>, fed: seq<Slot>, s1: Buffers<Key>,
                                         pre: seq<Chunk>, out: seq<Slot>, s2: Buffers<Key>)
    requires choice.finished && SlotsStep(mapping, choice.index, s, choice.delta.slots, fed, s1)
    requires SameArguments(choice.delta.slots, fed) && FlushStep(choice.index, s1, fed, {}, pre, out, s2)
    ensures ChoiceStep(mapping, choice, s, pre, out, s2)
  {
    forall k: Key
      ensures if k.choice == choice.index
              then Passed(StreamText(pre, k), SlotsText(out, k.channel), At(s2, k))
                   == Pass(FakesFor(mapping, k.channel), Passed("", "", At(s, k)), EntryOf(choice, k))
              else At(s2, k) == At(s, k) && StreamText(pre, k) == ""
    {
      assert At(s1, k) == At(s1, k) && At(s2, k) == At(s2, k);
      if k.choice == choice.index {
        FedKey(FakesFor(mapping, k.channel), At(s, k), EntryOf(choice, k), SlotsText(fed, k.channel), At(s1, k),
               StreamText(pre, k), SlotsText(out, k.channel), At(s2, k));
      }
    }
  }

  lemma {:induction false} OpenChoice(mapping: Fakes, choice: Choice, s: Buffers<Key>, fed: seq<Slot>, s1: Buffers<Key>)
    requires !choice.finished && SlotsStep(mapping, choice.index, s, choice.delta.slots, fed, s1)
    ensures ChoiceStep(mapping, choice, s, [], fed, s1)
  {
    forall k: Key
      ensures if k.choice == choice.index
              then Passed("", SlotsText(fed, k.channel), At(s1, k))
                   == Pass(FakesFor(mapping, k.channel), Passed("", "", At(s, k)), EntryOf(choice, k))
              else At(s1, k) == At(s, k)
    {
      assert At(s1, k) == At(s1, k);
      if k.choice == choice.index {
        FedKey(FakesFor(mapping, k.channel), At(s, k), EntryOf(choice, k), SlotsText(fed, k.channel), At(s1, k),
               "", SlotsText(fed, k.channel), At(s1, k));
      }
    }
  }

  /** Some choices of a chunk are done: `pre` goes out before the chunk, `done` on it. */
  ghost predicate ChunkStep(mapping: Fakes, choices: seq<Choice>, s: Buffers<Key>, pre: seq<Chunk>, done: seq<Choice>, s': Buffers<Key>) {
    forall k: Key {:trigger At(s', k)} ::
      Passed(StreamText(pre, k), ChoicesText(done, k), At(s', k))
      == PassAll(FakesFor(mapping, k.channel), Passed("", "", At(s, k)), EntriesOf(choices, k))
  }

  lemma {:induction false} ChunkStepIdle(mapping: Fakes, s: Buffers<Key>)
    ensures ChunkStep(mapping, [], s, [], [], s)
  {
  }

  lemma {:induction false} ChoicesTextAdd(choices: seq<Choice>, c: Choice, k: Key)
    ensures ChoicesText(choices + [c], k)
         == ChoicesText(choices, k) + if c.index == k.choice then SlotsText(c.delta.slots, k.channel) else ""
    ensures EntriesOf(choices + [c], k)
         == EntriesOf(choices, k) + if c.index == k.choice then [EntryOf(c, k)] else []
  {
    assert (choices + [c])[..|choices|] == choices;
  }

  /** One more choice. */
  lemma {:induction false} ChunkStepNext(mapping: Fakes, choices: seq<Choice>, s: Buffers<Key>, pre: seq<Chunk>, done: seq<Choice>, s1: Buffers<Key>,
                                         c: Choice, more: seq<Chunk>, restored: Choice, s2: Buffers<Key>)
    requires restored.index == c.index
    requires ChunkStep(mapping, choices, s, pre, done, s1)
    requires ChoiceStep(mapping, c, s1, more, restored.delta.slots, s2)
    ensures ChunkStep(mapping, choices + [c], s, pre + more, done + [restored], s2)
  {
    forall k: Key
      ensures Passed(StreamText(pre + more, k), ChoicesText(done + [restored], k), At(s2, k))
              == PassAll(FakesFor(mapping, k.channel), Passed("", "", At(s, k)), EntriesOf(choices + [c], k))
    {
      assert At(s1, k) == At(s1, k) && At(s2, k) == At(s2, k);
      ChoicesTextAdd(choices, c, k);
      ChoicesTextAdd(done, restored, k);
      StreamTextConcat(pre, more, k);
      EmptyAdds(StreamText(pre, k), ChoicesText(done, k), "");
      assert EntriesOf(choices, k) + [] == EntriesOf(choices, k);
      if c.index == k.choice {
        PassNext(FakesFor(mapping, k.channel), Passed("", "", At(s, k)), EntriesOf(choices, k), EntryOf(c, k));
      }
    }
  }

  lemma {:induction false} PassNext(m: Fakes, p: Passed, entries: seq<Entry>, e: Entry)
    ensures var q := PassAll(m, p, entries);
            var r := Pass(m, Passed("", "", q.held), e);
            PassAll(m, p, entries + [e]) == Passed(q.pre + r.pre, q.out + r.out, r.held)
  {
    var q := PassAll(m, p, entries);
    assert (entries + [e])[..|entries|] == entries;
    var f := Drain(m, q.held + e.text);
    EmptyAdds(q.pre, q.out, f.held);
    assert "" + f.out == f.out && "" + (f.out + f.held) == f.out + f.held;
  }

  // ----- what may be suppressed -----

  /** Something other than content rides on the delta. */
  predicate DeltaExtra(delta: Delta) {
    delta.other || exists i :: 0 <= i < |delta.slots| && SlotExtra(delta.slots[i])
  }

  predicate SlotExtra(slot: Slot) {
    match slot.channel
    case Content => false
    case Text(_) => slot.text != ""
    case _ => true
  }

  /** The choice had content, all of it is held back, and nothing else rides on it. */
  predicate HeldBack(before: Choice, after: Choice) {
    && SlotsText(before.delta.slots, Content) != ""
    && SlotsText(after.delta.slots, Content) == ""
    && !after.finished && !DeltaExtra(after.delta) && !after.extra
  }

  // ----- what goes out -----

  /** The places of a delta, in order, and perhaps more behind them. */
  predicate Extends(slots: seq<Slot>, more: seq<Slot>) {
    |slots| <= |more| && forall i :: 0 <= i < |slots| ==> more[i].channel == slots[i].channel
  }

  /** What becomes of a choice: only the text at its places changes, and more places are added to a
      finished one alone. */
  predicate SameChoice(c: Choice, r: Choice) {
    && r == c.(delta := c.delta.(slots := r.delta.slots))
    && Extends(c.delta.slots, r.delta.slots) && (!c.finished ==> |r.delta.slots| == |c.delta.slots|)
  }

  predicate SameChoices(choices: seq<Choice>, done: seq<Choice>) {
    |done| == |choices| && forall i :: 0 <= i < |done| ==> SameChoice(choices[i], done[i])
  }

  /** There was content, and now there is nothing: no text, no other place, no other field of the delta,
      no finish and nothing else on the choice. */
  predicate NothingLeft(c: Choice, r: Choice) {
    && (exists i :: 0 <= i < |c.delta.slots| && c.delta.slots[i].channel == Content && c.delta.slots[i].text != "")
    && (forall i :: 0 <= i < |r.delta.slots| ==> (r.delta.slots[i].channel == Content || r.delta.slots[i].channel.Text?) && r.delta.slots[i].text == "")
    && !c.delta.other && !c.finished && !c.extra
  }

  lemma {:induction false} SomeText(slots: seq<Slot>, channel: Channel)
    ensures SlotsText(slots, channel) != "" <==> exists i :: 0 <= i < |slots| && slots[i].channel == channel && slots[i].text != ""
    decreases |slots|
  {
    if slots != [] {
      var n := |slots| - 1;
      SomeText(slots[..n], channel);
      if i :| 0 <= i < |slots| && slots[i].channel == channel && slots[i].text != "" {
        assert i < n ==> slots[..n][i] == slots[i];
      }
    }
  }

  lemma {:induction false} HeldBackExactly(c: Choice, r: Choice)
    requires SameChoice(c, r)
    ensures HeldBack(c, r) <==> NothingLeft(c, r)
  {
    SomeText(c.delta.slots, Content);
    SomeText(r.delta.slots, Content);
  }

  /** A chunk of which nothing is left, and that carries no usage. */
  predicate Withheld(chunk: Chunk, done: seq<Choice>)
    requires |done| == |chunk.choices|
  {
    chunk.choices != [] && !chunk.usage && forall i :: 0 <= i < |done| ==> NothingLeft(chunk.choices[i], done[i])
  }

  /** What goes out for a chunk itself: the chunk with its choices as they have become, or nothing when
      nothing is left of it. */
  ghost predicate GoesOut(chunk: Chunk, own: seq<Chunk>) {
    exists done :: SameChoices(chunk.choices, done) && own == if Withheld(chunk, done) then [] else [chunk.(choices := done)]
  }

  /** A chunk made for the remainder of one channel. */
  ghost predicate IsRemainder(e: Chunk) {
    exists k, text :: text != "" && e == SlotChunk(k, text)
  }

  ghost predicate AllRemainders(events: seq<Chunk>) {
    forall e :: e in events ==> IsRemainder(e)
  }

  predicate Joined(events: seq<Chunk>, before: seq<Chunk>, own: seq<Chunk>, tail: seq<Chunk>) {
    events == before + own + tail
  }

  /** The chunks one after the other, each as it goes out, and remainders before, between and after. */
  ghost predicate Woven(chunks: seq<Chunk>, events: seq<Chunk>)
    decreases |chunks|
  {
    if chunks == [] then AllRemainders(events)
    else
      var n := |chunks| - 1;
      exists before, own, tail ::
        Joined(events, before, own, tail) && Woven(chunks[..n], before) && GoesOut(chunks[n], own) && AllRemainders(tail)
  }

  lemma {:induction false} JoinedMore(events: seq<Chunk>, before: seq<Chunk>, own: seq<Chunk>, tail: seq<Chunk>, more: seq<Chunk>)
    requires Joined(events, before, own, tail)
    ensures Joined(events + more, before, own, tail + more)
  {
  }

  lemma {:induction false} RemaindersMore(a: seq<Chunk>, b: seq<Chunk>)
    requires AllRemainders(a) && AllRemainders(b)
    ensures AllRemainders(a + b)
  {
  }

  lemma {:induction false} WovenMore(chunks: seq<Chunk>, events: seq<Chunk>, more: seq<Chunk>)
    requires Woven(chunks, events) && AllRemainders(more)
    ensures Woven(chunks, events + more)
  {
    if chunks == [] {
      RemaindersMore(events, more);
    } else {
      var n := |chunks| - 1;
      var before, own, tail :|
        Joined(events, before, own, tail) && Woven(chunks[..n], before) && GoesOut(chunks[n], own) && AllRemainders(tail);
      JoinedMore(events, before, own, tail, more);
      RemaindersMore(tail, more);
    }
  }

  lemma {:induction false} WovenNext(chunks: seq<Chunk>, events: seq<Chunk>, c: Chunk, pre: seq<Chunk>, own: seq<Chunk>)
    requires Woven(chunks, events) && AllRemainders(pre) && GoesOut(c, own)
    ensures Woven(chunks + [c], events + (pre + own))
  {
    WovenMore(chunks, events, pre);
    assert (chunks + [c])[..|chunks|] == chunks;
    assert Joined(events + (pre + own), events + pre, own, []);
  }

  /** Whether something is visible, after some choices of a chunk. */
  predicate Seen(choices: seq<Choice>, done: seq<Choice>, at_once: bool)
    requires |done| == |choices|
  {
    at_once || exists i :: 0 <= i < |done| && !HeldBack(choices[i], done[i])
  }

  lemma {:induction false} SeenNext(choices: seq<Choice>, done: seq<Choice>, at_once: bool, c: Choice, restored: Choice)
    requires SameChoices(choices, done) && SameChoice(c, restored)
    ensures SameChoices(choices + [c], done + [restored])
    ensures Seen(choices + [c], done + [restored], at_once) <==> Seen(choices, done, at_once) || !HeldBack(c, restored)
  {
    var all, now := choices + [c], done + [restored];
    if i :| 0 <= i < |done| && !HeldBack(choices[i], done[i]) {
      assert now[i] == done[i] && all[i] == choices[i];
    }
    assert now[|done|] == restored && all[|done|] == c;
  }

  lemma {:induction false} SeenExactly(chunk: Chunk, done: seq<Choice>)
    requires SameChoices(chunk.choices, done)
    ensures Seen(chunk.choices, done, chunk.choices == [] || chunk.usage) <==> !Withheld(chunk, done)
  {
    forall i | 0 <= i < |done| ensures HeldBack(chunk.choices[i], done[i]) <==> NothingLeft(chunk.choices[i], done[i]) {
      HeldBackExactly(chunk.choices[i], done[i]);
    }
  }

  /** A held-back choice carries no text. */
  lemma {:induction false} HeldBackIsSilent(slots: seq<Slot>, channel: Channel)
    requires SlotsText(slots, Content) == ""
    requires forall i :: 0 <= i < |slots| ==> !SlotExtra(slots[i])
    ensures SlotsText(slots, channel) == ""
    decreases |slots|
  {
    if slots != [] && channel != Content {
      assert !SlotExtra(slots[|slots| - 1]);
      HeldBackIsSilent(slots[..|slots| - 1], channel);
    }
  }

  lemma {:induction false} AllHeldBack(choices: seq<Choice>, done: seq<Choice>, k: Key)
    requires |done| == |choices| && forall i :: 0 <= i < |done| ==> HeldBack(choices[i], done[i])
    ensures ChoicesText(done, k) == ""
    decreases |done|
  {
    if done != [] {
      var n := |done| - 1;
      assert HeldBack(choices[n], done[n]);
      HeldBackIsSilent(done[n].delta.slots, k.channel);
      AllHeldBack(choices[..n], done[..n], k);
    }
  }

  /** One chunk: what it sends for a key, in the order it is sent. */
  ghost predicate EventStep(mapping: Fakes, chunk: Chunk, s: Buffers<Key>, events: seq<Chunk>, s': Buffers<Key>) {
    forall k: Key {:trigger At(s', k)} ::
      Fed(StreamText(events, k), At(s', k)) == SentChunk(FakesFor(mapping, k.channel), At(s, k), EntriesOf(chunk.choices, k))
  }

  lemma {:induction false} ChunkGoesOut(mapping: Fakes, chunk: Chunk, s: Buffers<Key>, pre: seq<Chunk>, done: seq<Choice>, visible: bool, s': Buffers<Key>)
    requires ChunkStep(mapping, chunk.choices, s, pre, done, s')
    requires SameChoices(chunk.choices, done) && visible == Seen(chunk.choices, done, chunk.choices == [] || chunk.usage)
    ensures EventStep(mapping, chunk, s, pre + if visible then [chunk.(choices := done)] else [], s')
  {
    var out := chunk.(choices := done);
    forall k: Key
      ensures Fed(StreamText(pre + if visible then [out] else [], k), At(s', k))
              == SentChunk(FakesFor(mapping, k.channel), At(s, k), EntriesOf(chunk.choices, k))
    {
      assert At(s', k) == At(s', k);
      if visible {
        StreamTextConcat(pre, [out], k);
        StreamTextOne(out, k);
      } else {
        AllHeldBack(chunk.choices, done, k);
        assert pre + [] == pre && StreamText(pre, k) + "" == StreamText(pre, k);
      }
    }
  }

  // ----- the whole stream -----

  /** The events so far and the buffers are those of the channels, each on its own. */
  ghost predicate Tracks(mapping: Fakes, chunks: seq<Chunk>, events: seq<Chunk>, s: Buffers<Key>) {
    forall k: Key {:trigger At(s, k)} ::
      Fed(StreamText(events, k), At(s, k)) == SentRun(FakesFor(mapping, k.channel), ChunksFor(chunks, k))
  }

  /** The choices that have had a finish chunk. */
  ghost predicate Finishes(chunks: seq<Chunk>, finished: set<int>) {
    forall c :: c in finished <==> Finished(chunks, c)
  }

  lemma {:induction false} TracksNext(mapping: Fakes, chunks: seq<Chunk>, events: seq<Chunk>, s: Buffers<Key>, c: Chunk, more: seq<Chunk>, s': Buffers<Key>)
    requires Tracks(mapping, chunks, events, s) && EventStep(mapping, c, s, more, s')
    ensures Tracks(mapping, chunks + [c], events + more, s')
  {
    forall k: Key ensures Fed(StreamText(events + more, k), At(s', k)) == SentRun(FakesFor(mapping, k.channel), ChunksFor(chunks + [c], k)) {
      assert At(s, k) == At(s, k) && At(s', k) == At(s', k);
      StreamTextConcat(events, more, k);
      assert (chunks + [c])[..|chunks|] == chunks;
      SentNext(FakesFor(mapping, k.channel), ChunksFor(chunks, k), EntriesOf(c.choices, k));
    }
  }

  lemma {:induction false} SentNext(m: Fakes, chunks: seq<seq<Entry>>, entries: seq<Entry>)
    ensures var r := SentRun(m, chunks);
            SentRun(m, chunks + [entries]) == SentChunk(m, r.held, entries).After(r.out)
  {
    assert (chunks + [entries])[..|chunks|] == chunks;
  }

  /** What the client has of a channel once the stream is over. */
  ghost function Sent(mapping: Fakes, chunks: seq<Chunk>, k: Key): string {
    Received(SentRun(FakesFor(mapping, k.channel), ChunksFor(chunks, k)), Finished(chunks, k.choice))
  }

  /** The client reads the channel in the order the provider sent it. */
  ghost predicate InOrder(mapping: Fakes, chunks: seq<Chunk>, k: Key) {
    AllKeepOrder(FakesFor(mapping, k.channel), ChunksFor(chunks, k))
  }

  /** What the client would have if every remainder went out where it belongs. */
  ghost function InPlace(mapping: Fakes, chunks: seq<Chunk>, k: Key): string {
    Received(Run(FakesFor(mapping, k.channel), Fed("", ""), Flat(ChunksFor(chunks, k))), Finished(chunks, k.choice))
  }

  /** The client has exactly that if and only if no chunk sends a remainder out of order. */
  lemma {:induction false} InOrderExact(mapping: Fakes, chunks: seq<Chunk>, k: Key)
    ensures Sent(mapping, chunks, k) == InPlace(mapping, chunks, k) <==> InOrder(mapping, chunks, k)
  {
    var m := FakesFor(mapping, k.channel);
    SentInOrder(m, ChunksFor(chunks, k));
    var r, s := SentRun(m, ChunksFor(chunks, k)), Run(m, Fed("", ""), Flat(ChunksFor(chunks, k)));
    SameHalves(r.out, r.held, s.out, s.held);
  }

  /** Text that is not an argument is never out of order. */
  lemma {:induction false} TextIsInOrder(mapping: Fakes, chunks: seq<Chunk>, k: Key)
    requires !JsonFragment(k.channel)
    ensures InOrder(mapping, chunks, k)
  {
    var m, all := FakesFor(mapping, k.channel), ChunksFor(chunks, k);
    forall n {:trigger all[..n]} | 0 <= n < |all| ensures KeepsOrder(m, SentRun(m, all[..n]).held, all[n]) {
      ChunkAt(chunks, k, n);
      forall i | 0 <= i < |all[n]| ensures !all[n][i].apart { var j := EntryIsOfChoice(chunks[n].choices, k, i); }
      PlainKeepsOrder(m, SentRun(m, all[..n]).held, all[n]);
    }
  }

  lemma {:induction false} ChunkAt(chunks: seq<Chunk>, k: Key, n: nat)
    requires n < |ChunksFor(chunks, k)|
    ensures |ChunksFor(chunks, k)| == |chunks| && ChunksFor(chunks, k)[n] == EntriesOf(chunks[n].choices, k)
    decreases |chunks|
  {
    ChunksForEach(chunks, k);
    if n < |chunks| - 1 { ChunkAt(chunks[..|chunks| - 1], k, n); }
  }

  lemma {:induction false} ChunksForEach(chunks: seq<Chunk>, k: Key)
    ensures |ChunksFor(chunks, k)| == |chunks|
    decreases |chunks|
  {
    if chunks != [] { ChunksForEach(chunks[..|chunks| - 1], k); }
  }

  lemma {:induction false} EntryIsOfChoice(choices: seq<Choice>, k: Key, i: nat) returns (j: nat)
    requires i < |EntriesOf(choices, k)|
    ensures j < |choices| && choices[j].index == k.choice && EntriesOf(choices, k)[i] == EntryOf(choices[j], k)
    decreases |choices|
  {
    var n := |choices| - 1;
    if i < |EntriesOf(choices[..n], k)| { j := EntryIsOfChoice(choices[..n], k, i); } else { j := n; }
  }

  /** Every chunk has at most one entry about this choice. */
  ghost predicate Singles(chunks: seq<Chunk>, k: Key) {
    forall n :: 0 <= n < |chunks| ==> |EntriesOf(chunks[n].choices, k)| <= 1
  }

  /** Nor are arguments, where each chunk has one entry about the choice. */
  lemma {:induction false} SinglesAreInOrder(mapping: Fakes, chunks: seq<Chunk>, k: Key)
    requires Singles(chunks, k)
    ensures InOrder(mapping, chunks, k)
  {
    var m, all := FakesFor(mapping, k.channel), ChunksFor(chunks, k);
    forall n {:trigger all[..n]} | 0 <= n < |all| ensures KeepsOrder(m, SentRun(m, all[..n]).held, all[n]) {
      ChunkAt(chunks, k, n);
      SentInOrder(m, all[..n]);
      RunHeld(m, Fed("", ""), Flat(all[..n]));
      forall i | 0 <= i < |all[n]| && all[n][i].apart ensures all[n][i].text == "" {
        var j := EntryIsOfChoice(chunks[n].choices, k, i);
        SlotsTextNone(chunks[n].choices[j].delta.slots, k.channel);
      }
      SingleKeepsOrder(m, SentRun(m, all[..n]).held, all[n]);
    }
  }

  /** The text of a channel, each stretch up to a finish restored as one text. */
  ghost function WholeText(mapping: Fakes, chunks: seq<Chunk>, k: Key): string {
    Whole(FakesFor(mapping, k.channel), Flat(ChunksFor(chunks, k)))
  }

  /** The text of a channel since its choice last finished. */
  ghost function LateText(mapping: Fakes, chunks: seq<Chunk>, k: Key): string {
    StretchesOf(FakesFor(mapping, k.channel), Flat(ChunksFor(chunks, k))).open
  }

  lemma {:induction false} StillBracketing(mapping: Fakes, channel: Channel)
    requires Bracketing(mapping)
    ensures Bracketing(FakesFor(mapping, channel))
  {
    assert Escaped(mapping).Keys == mapping.Keys;
  }

  /**
   A channel that reads in order is received whole, whatever comes after a finish chunk, unless its
   choice has finished and the text since then ends in the middle of a fake.
   */
  lemma {:induction false} SentIsWhole(mapping: Fakes, chunks: seq<Chunk>, k: Key)
    requires Bracketing(mapping) && InOrder(mapping, chunks, k)
    ensures Sent(mapping, chunks, k) == WholeText(mapping, chunks, k)
       <==> !(Finished(chunks, k.choice) && EndsInPart(FakesFor(mapping, k.channel), LateText(mapping, chunks, k)))
  {
    StillBracketing(mapping, k.channel);
    SentInOrder(FakesFor(mapping, k.channel), ChunksFor(chunks, k));
    FlatIsFinished(chunks, k);
    ReceivedIsWhole(FakesFor(mapping, k.channel), Flat(ChunksFor(chunks, k)));
  }

  /** The provider streams a channel in an orderly way: no text once its choice has finished. */
  ghost predicate IsOrderly(chunks: seq<Chunk>, k: Key) {
    Orderly(Flat(ChunksFor(chunks, k)))
  }

  /** A channel that is orderly and reads in order is received as the batch restore of its text. */
  lemma {:induction false} OrderlyIsReceived(mapping: Fakes, chunks: seq<Chunk>, k: Key)
    requires Bracketing(mapping) && InOrder(mapping, chunks, k) && IsOrderly(chunks, k)
    ensures Sent(mapping, chunks, k) == Restore(FakesFor(mapping, k.channel), StreamText(chunks, k))
  {
    StillBracketing(mapping, k.channel);
    SentInOrder(FakesFor(mapping, k.channel), ChunksFor(chunks, k));
    FlatIsFinished(chunks, k);
    FlatHasText(chunks, k);
    OrderlyIsRestored(FakesFor(mapping, k.channel), Flat(ChunksFor(chunks, k)));
  }

  // ----- two streams that are not received whole -----

  function TextEntry(k: Key, text: string, finished: bool): Choice {
    Choice(k.choice, Delta(if text == "" then [] else [Slot(k.channel, text)], false), finished, false)
  }

  lemma {:induction false} OneEntryOf(k: Key, text: string, finished: bool)
    ensures EntriesOf([TextEntry(k, text, finished)], k) == [Entry(text, finished, text == "" && JsonFragment(k.channel))]
  {
    var c := TextEntry(k, text, finished);
    var none: seq<Choice> := [];
    ChoicesTextAdd(none, c, k);
    assert none + [c] == [c] && EntriesOf(none, k) == [];
    if text != "" {
      var slots := c.delta.slots;
      SlotsTextAdd([], slots[0], k.channel);
      assert [] + [slots[0]] == slots && "" + text == text;
      assert HasSlot(slots, k.channel) by { assert slots[0].channel == k.channel; }
    }
  }

  /** A choice is finished, and text of it comes in the next chunk. */
  function FinishThenText(k: Key, text: string): seq<Chunk> {
    [Chunk([TextEntry(k, "", true)], false), Chunk([TextEntry(k, text, false)], false)]
  }

  lemma {:induction false} LateTextIs(mapping: Fakes, k: Key, text: string)
    requires !JsonFragment(k.channel)
    ensures Finished(FinishThenText(k, text), k.choice) && LateText(mapping, FinishThenText(k, text), k) == text
  {
    var chunks := FinishThenText(k, text);
    assert chunks[0].choices[0].finished && FinishedIn(chunks[0].choices, k.choice);
    OneEntryOf(k, "", true);
    OneEntryOf(k, text, false);
    TwoChunks(chunks[0], chunks[1], k);
    LateOf(mapping, Entry("", true, false), Entry(text, false, false));
  }

  /** A finish, and then the beginning of a fake: the client never has it. */
  lemma {:induction false} LateBeginningIsCut(mapping: Fakes)
    requires Bracketing(mapping) && "<PERSON_1>" in mapping
    ensures var k := Key(0, Content);
            var chunks := FinishThenText(k, "<PER");
            Finished(chunks, 0) && LateText(mapping, chunks, k) == "<PER" && Sent(mapping, chunks, k) != WholeText(mapping, chunks, k)
  {
    var k := Key(0, Content);
    var chunks := FinishThenText(k, "<PER");
    LateTextIs(mapping, k, "<PER");
    TextIsInOrder(mapping, chunks, k);
    SentIsWhole(mapping, chunks, k);
    BeginningIsPart(mapping);
  }

  lemma {:induction false} BeginningIsPart(m: Fakes)
    requires "<PERSON_1>" in m
    ensures EndsInPart(m, "<PER")
  {
    assert "<PER"[0..] == "<PER" && "<PER" <= "<PERSON_1>";
    assert IsPart(m, "<PER"[0..]);
  }

  lemma {:induction false} LateOf(m: Fakes, a: Entry, b: Entry)
    requires a.finished && !b.finished
    ensures StretchesOf(m, [a] + [b]).open == b.text
  {
    assert ([a] + [b])[..1] == [a] && "" + b.text == b.text;
  }

  lemma {:induction false} TwoChunks(a: Chunk, b: Chunk, k: Key)
    ensures Flat(ChunksFor([a, b], k)) == EntriesOf(a.choices, k) + EntriesOf(b.choices, k)
  {
    assert [a, b][..1] == [a] && [a][..0] == [];
    FlatTwo(EntriesOf(a.choices, k), EntriesOf(b.choices, k));
    assert ChunksFor([a], k) == [EntriesOf(a.choices, k)];
    assert ChunksFor([a, b], k) == [EntriesOf(a.choices, k), EntriesOf(b.choices, k)];
  }

  lemma {:induction false} FlatTwo(x: seq<Entry>, y: seq<Entry>)
    ensures Flat([x, y]) == x + y
  {
    assert [x, y][..1] == [x] && [x][..0] == [];
    assert Flat([x]) == x;
  }

  /** An argument and its finish in two entries of one chunk: the remainder overtakes the rest. */
  lemma {:induction false} RemainderOvertakes(mapping: Fakes)
    requires Bracketing(mapping) && "<PERSON_1>" in mapping
    ensures var k := Key(0, FunctionCall);
            !InOrder(mapping, [Chunk([TextEntry(k, "x<PER", false), TextEntry(k, "", true)], false)], k)
  {
    var k := Key(0, FunctionCall);
    var choices := [TextEntry(k, "x<PER", false), TextEntry(k, "", true)];
    var chunks, m := [Chunk(choices, false)], FakesFor(mapping, k.channel);
    var a, b := Entry("x<PER", false, false), Entry("", true, true);
    OneEntryOf(k, "x<PER", false);
    OneEntryOf(k, "", true);
    ChoicesTextAdd([choices[0]], choices[1], k);
    assert choices == [choices[0]] + [choices[1]];
    assert EntriesOf(choices, k) == [a] + [b] + [];
    StillBracketing(mapping, k.channel);
    HeldOf(m);
    assert [a][..0] == [] && "" + "x<PER" == "x<PER" && "" + "x" == "x";
    assert Run(m, Fed("", ""), [a]) == Fed("x", "<PER");
    OneEarlyRemainder(m, "", [a], b, []);
    assert !IsPower("x", "<PER");
    var all := ChunksFor(chunks, k);
    assert chunks[..0] == [] && all == [EntriesOf(choices, k)] && all[..0] == [];
    assert !KeepsOrder(m, SentRun(m, all[..0]).held, all[0]);
  }

  lemma {:induction false} HeldOf(m: Fakes)
    requires Bracketing(m) && "<PERSON_1>" in m
    ensures Drain(m, "x<PER") == Fed("x", "<PER") && Drain(m, "") == Fed("", "")
  {
    var s := "x<PER";
    assert s[1..] == "<PER" && [s[0]] + "" == "x";
    NoneStarts(m, s);
    NoneEnds(m, "<PER");
    assert "<PER" <= "<PERSON_1>" && MayGrow(m, "<PER");
  }

  lemma {:induction false} NoneStarts(m: Fakes, s: string)
    requires Bracketing(m) && s != "" && s[0] != '<'
    ensures Longest(m, s) == 0 && !MayGrow(m, s)
  {
    forall k | k in m ensures !(s <= k) {
      assert Bracketed(k);
    }
    forall n | 0 < n <= |s| ensures s[..n] !in m {
      assert s[..n][0] == s[0];
    }
  }

  lemma {:induction false} NoneEnds(m: Fakes, s: string)
    requires Bracketing(m) && '>' !in s
    ensures Longest(m, s) == 0
  {
    forall n | 0 < n <= |s| ensures s[..n] !in m {
      assert s[..n][n - 1] == s[n - 1];
    }
  }

  // ----- after the stream -----

  /** The remainders of the unfinished choices have gone out, but for the keys in `todo`. */
  ghost predicate Drained(finished: set<int>, s: Buffers<Key>, todo: set<Key>, events: seq<Chunk>) {
    forall k: Key {:trigger At(s, k)} ::
      StreamText(events, k) == if k.choice in finished || k in todo then "" else At(s, k)
  }

  lemma {:induction false} DrainedStart(finished: set<int>, s: Buffers<Key>, todo: set<Key>)
    requires forall k :: k in s && k.choice !in finished ==> k in todo
    ensures Drained(finished, s, todo, []) && Untouched(todo, s, s)
  {
    var none: seq<Chunk> := [];
    forall k: Key ensures StreamText(none, k) == if k.choice in finished || k in todo then "" else At(s, k) {
      assert StreamText(none, k) == "";
      assert k in s && k.choice !in finished ==> k in todo;
    }
  }

  ghost predicate Untouched(todo: set<Key>, s: Buffers<Key>, s': Buffers<Key>) {
    forall k: Key {:trigger At(s', k)} :: k in todo ==> At(s', k) == At(s, k)
  }

  lemma {:induction false} UntouchedNext(todo: set<Key>, s: Buffers<Key>, s1: Buffers<Key>, s2: Buffers<Key>, key: Key)
    requires Untouched(todo, s, s1) && key in todo && Updated(s1, s2, key, "")
    ensures Untouched(todo - {key}, s, s2) && At(s1, key) == At(s, key)
  {
    forall k | k in todo - {key} ensures At(s2, k) == At(s, k) { assert At(s1, k) == At(s1, k); }
    assert At(s1, key) == At(s1, key);
  }

  lemma {:induction false} DrainedNext(finished: set<int>, s: Buffers<Key>, todo: set<Key>, events: seq<Chunk>, key: Key)
    requires Drained(finished, s, todo, events) && key in todo && key.choice !in finished
    ensures Drained(finished, s, todo - {key}, events + [SlotChunk(key, At(s, key))])
    ensures At(s, key) == "" ==> Drained(finished, s, todo - {key}, events)
  {
    forall k: Key
      ensures StreamText(events + [SlotChunk(key, At(s, key))], k)
           == if k.choice in finished || k in todo - {key} then "" else At(s, k)
      ensures StreamText(events, k) == if k.choice in finished || k in todo then "" else At(s, k)
    {
      assert At(s, k) == At(s, k);
      StreamTextConcat(events, [SlotChunk(key, At(s, key))], k);
      SlotChunkText(key, At(s, key), k);
    }
  }

  class ChatRestorer {
    const mapping: Fakes
    const store: BufferStore<Key>
    var finished: set<int>

    ghost predicate Valid()
      reads store`buffers, store.buffers.Values
      reads set b, n | b in store.buffers.Values && n in b.nodes.Values :: n
    {
      && PrefixFree(mapping.Keys)
      && store.Valid()
      && forall k: Key :: store.fakesOf(k) == FakesFor(mapping, k.channel)
    }

    ghost function Held(): Buffers<Key>
      reads store`buffers, store.buffers.Values
    {
      store.Held()
    }

    lemma {:induction false} HeldIsUndecided()
      requires Valid()
      ensures Undecided(mapping, Held())
    {
      store.HeldIsUndecided();
      forall k: Key ensures Drain(FakesFor(mapping, k.channel), At(Held(), k)) == Fed("", At(Held(), k)) {
        assert At(store.Held(), k) == At(Held(), k);
      }
    }

    constructor (mapping: Fakes)
      requires PrefixFree(mapping.Keys)
      ensures Valid() && this.mapping == mapping && finished == {}
      ensures Held() == map[]
      ensures fresh(store) && fresh(store.buffers.Values)
    {
      this.mapping := mapping;
      var s := new BufferStore<Key>((k: Key) => FakesFor(mapping, k.channel));
      store := s;
      finished := {};
    }

    /** Feed one piece of text; an empty one leaves the buffer alone. */
    method FeedText(key: Key, text: string) returns (out: string)
      requires Valid()
      modifies store`buffers, store.buffers.Values`buffer
      ensures Valid() && fresh(store.buffers.Values - old(store.buffers.Values))
      ensures Steps(FakesFor(mapping, key.channel), At(old(Held()), key), text, false, out, At(Held(), key))
      ensures Updated(old(Held()), Held(), key, At(Held(), key))
    {
      if text != "" {
        out := store.Feed(key, text);
      } else {
        HeldIsUndecided();
        KeyIdle(mapping, Held(), key);
        out := "";
      }
    }

    /** Feed every slot of a delta, in order, through the buffer of its channel. */
    method FeedSlots(index: int, slots: seq<Slot>) returns (out: seq<Slot>)
      requires Valid()
      modifies store`buffers, store.buffers.Values`buffer
      ensures Valid() && fresh(store.buffers.Values - old(store.buffers.Values))
      ensures SlotsStep(mapping, index, old(Held()), slots, out, Held())
      ensures SameSlots(slots, out)
    {
      out := [];
      HeldIsUndecided();
      ghost var start := Held();
      SlotsStepIdle(mapping, index, start);
      for n := 0 to |slots|
        invariant Valid() && fresh(store.buffers.Values - old(store.buffers.Values))
        invariant SlotsStep(mapping, index, start, slots[..n], out, Held())
        invariant SameSlots(slots[..n], out)
      {
        ghost var before := Held();
        var key := Key(index, slots[n].channel);
        var text := FeedText(key, slots[n].text);
        SlotsStepNext(mapping, index, start, slots[..n], out, before, slots[n], text, At(Held(), key), Held());
        SameSlotsNext(slots, n, out, text);
        out := out + [Slot(key.channel, text)];
      }
      assert slots[..|slots|] == slots;
    }

    /** Whatever is still held for a finished choice goes onto its delta. The remainder of a
        call that has no slot there becomes a chunk of its own, sent before. */
    method FlushIntoDelta(index: int, slots: seq<Slot>) returns (out: seq<Slot>, pre: seq<Chunk>)
      requires Valid()
      modifies store.buffers.Values`buffer
      ensures Valid()
      ensures FlushStep(index, old(Held()), slots, {}, pre, out, Held())
      ensures Extends(slots, out) && AllRemainders(pre)
    {
      out, pre := slots, [];
      var todo := set k | k in store.buffers && k.choice == index;
      ghost var start := Held();
      FlushStepStart(index, start, slots, todo);
      while todo != {}
        invariant Valid()
        invariant todo <= store.buffers.Keys && forall k :: k in todo ==> k.choice == index
        invariant FlushStep(index, start, slots, todo, pre, out, Held())
        invariant Extends(slots, out) && AllRemainders(pre)
        decreases todo
      {
        ghost var before := Held();
        var key :| key in todo;
        var remaining := store.Flush(key);
        var (out', pre') := Place(key, remaining, out, pre);
        FlushStepNext(index, start, slots, todo, pre, out, before, key, pre', out', Held());
        PlaceExtends(key, remaining, out, pre);
        out, pre, todo := out', pre', todo - {key};
      }
    }

    /** One entry of a chunk: its text through the buffers, and the flush when it finishes. */
    method RestoreChoice(choice: Choice) returns (restored: Choice, pre: seq<Chunk>)
      requires Valid()
      modifies `finished, store`buffers, store.buffers.Values`buffer
      ensures Valid() && fresh(store.buffers.Values - old(store.buffers.Values))
      ensures SameChoice(choice, restored) && AllRemainders(pre)
      ensures ChoiceStep(mapping, choice, old(Held()), pre, restored.delta.slots, Held())
      ensures finished == old(finished) + if choice.finished then {choice.index} else {}
    {
      var slots := FeedSlots(choice.index, choice.delta.slots);
      pre := [];
      ghost var fed, mid := slots, Held();
      if choice.finished {
        finished := finished + {choice.index};
        SameSlotsArguments(choice.delta.slots, fed);
        slots, pre := FlushIntoDelta(choice.index, slots);
        FlushedChoice(mapping, choice, old(Held()), fed, mid, pre, slots, Held());
      } else {
        OpenChoice(mapping, choice, old(Held()), fed, mid);
      }
      restored := choice.(delta := choice.delta.(slots := slots));
    }

    /** The entries of a chunk, one after the other. */
    method RestoreChoices(chunk: Chunk) returns (done: seq<Choice>, pre: seq<Chunk>, visible: bool)
      requires Valid()
      modifies `finished, store`buffers, store.buffers.Values`buffer
      ensures Valid() && fresh(store.buffers.Values - old(store.buffers.Values))
      ensures ChunkStep(mapping, chunk.choices, old(Held()), pre, done, Held())
      ensures SameChoices(chunk.choices, done) && AllRemainders(pre)
      ensures visible == Seen(chunk.choices, done, chunk.choices == [] || chunk.usage)
      ensures forall i :: i in finished <==> i in old(finished) || FinishedIn(chunk.choices, i)
    {
      done, pre := [], [];
      visible := chunk.choices == [] || chunk.usage;
      ghost var start := Held();
      ChunkStepIdle(mapping, start);
      for n := 0 to |chunk.choices|
        invariant Valid() && fresh(store.buffers.Values - old(store.buffers.Values))
        invariant SameChoices(chunk.choices[..n], done) && AllRemainders(pre)
        invariant visible == Seen(chunk.choices[..n], done, chunk.choices == [] || chunk.usage)
        invariant ChunkStep(mapping, chunk.choices[..n], start, pre, done, Held())
        invariant forall i :: i in finished <==> i in old(finished) || FinishedIn(chunk.choices[..n], i)
      {
        ghost var before := Held();
        var choice := chunk.choices[n];
        var restored, more := RestoreChoice(choice);
        ChunkStepNext(mapping, chunk.choices[..n], start, pre, done, before, choice, more, restored, Held());
        FinishedNext(chunk.choices, n);
        SeenNext(chunk.choices[..n], done, chunk.choices == [] || chunk.usage, choice, restored);
        pre, done := pre + more, done + [restored];
        visible := visible || !HeldBack(choice, restored);
      }
      assert chunk.choices[..|chunk.choices|] == chunk.choices;
    }

    /** One chunk of the stream: what goes out for it. */
    method RestoreChunk(chunk: Chunk) returns (events: seq<Chunk>)
      requires Valid()
      modifies `finished, store`buffers, store.buffers.Values`buffer
      ensures Valid() && fresh(store.buffers.Values - old(store.buffers.Values))
      ensures EventStep(mapping, chunk, old(Held()), events, Held())
      ensures exists pre, own :: events == pre + own && AllRemainders(pre) && GoesOut(chunk, own)
      ensures forall i :: i in finished <==> i in old(finished) || FinishedIn(chunk.choices, i)
    {
      var done, pre, visible := RestoreChoices(chunk);
      ChunkGoesOut(mapping, chunk, old(Held()), pre, done, visible, Held());
      SeenExactly(chunk, done);
      var own := if visible then [chunk.(choices := done)] else [];
      assert GoesOut(chunk, own);
      events := pre + own;
    }

    /** After the stream: the remainders of the choices that never finished. */
    method DrainBuffers() returns (events: seq<Chunk>)
      requires Valid()
      modifies store.buffers.Values`buffer
      ensures Drained(finished, old(Held()), {}, events) && AllRemainders(events)
    {
      events := [];
      var todo := set k | k in store.buffers && k.choice !in finished;
      ghost var start := Held();
      store.HeldPointwise();
      DrainedStart(finished, start, todo);
      while todo != {}
        invariant Valid()
        invariant todo <= store.buffers.Keys && forall k :: k in todo ==> k.choice !in finished
        invariant Untouched(todo, start, Held())
        invariant Drained(finished, start, todo, events) && AllRemainders(events)
        decreases todo
      {
        ghost var before := Held();
        var key :| key in todo;
        var remaining := store.Flush(key);
        UntouchedNext(todo, start, before, Held(), key);
        DrainedNext(finished, start, todo, events, key);
        if remaining != "" {
          events := events + [SlotChunk(key, remaining)];
          assert IsRemainder(SlotChunk(key, remaining));
        }
        todo := todo - {key};
      }
    }
  }

  lemma {:induction false} FinishedNext(choices: seq<Choice>, n: nat)
    requires n < |choices|
    ensures choices[..n + 1] == choices[..n] + [choices[n]]
    ensures forall i :: FinishedIn(choices[..n + 1], i) <==> FinishedIn(choices[..n], i) || (choices[n].index == i && choices[n].finished)
  {
    forall i ensures FinishedIn(choices[..n + 1], i) <==> FinishedIn(choices[..n], i) || (choices[n].index == i && choices[n].finished) {
      if FinishedIn(choices[..n], i) {
        var j :| 0 <= j < n && choices[..n][j].index == i && choices[..n][j].finished;
        assert choices[..n + 1][j] == choices[j];
      }
      if choices[n].index == i && choices[n].finished { assert choices[..n + 1][n] == choices[n]; }
    }
  }

  lemma {:induction false} StreamEnds(mapping: Fakes, chunks: seq<Chunk>, events: seq<Chunk>, finished: set<int>, held: Buffers<Key>, rest: seq<Chunk>)
    requires Bracketing(mapping) && Finishes(chunks, finished) && Tracks(mapping, chunks, events, held) && Drained(finished, held, {}, rest)
    ensures forall k: Key :: StreamText(events + rest, k) == Sent(mapping, chunks, k)
    ensures forall k: Key :: InOrder(mapping, chunks, k) && IsOrderly(chunks, k) ==>
              StreamText(events + rest, k) == Restore(FakesFor(mapping, k.channel), StreamText(chunks, k))
  {
    forall k: Key ensures StreamText(events + rest, k) == Sent(mapping, chunks, k) {
      assert At(held, k) == At(held, k);
      StreamTextConcat(events, rest, k);
      assert StreamText(events, k) + "" == StreamText(events, k);
    }
    forall k: Key | InOrder(mapping, chunks, k) && IsOrderly(chunks, k)
      ensures Sent(mapping, chunks, k) == Restore(FakesFor(mapping, k.channel), StreamText(chunks, k))
    {
      OrderlyIsReceived(mapping, chunks, k);
    }
  }

  /**
   A whole chat completion stream, for a mapping of issued placeholders, whatever the provider sends:
   the client receives each channel as if it were alone, argument channels restored in JSON-escaped
   form. A channel that reads in order and has no text after its finish chunk is received as the
   batch restore of the text the provider sent: nothing is dropped, repeated or mixed. Every chunk goes
   out once and in its place, with only its text changed, unless nothing is left of it.
   */
  method StreamResponse(mapping: Fakes, chunks: seq<Chunk>) returns (events: seq<Chunk>)
    requires Bracketing(mapping)
    ensures forall k: Key :: StreamText(events, k) == Sent(mapping, chunks, k)
    ensures forall k: Key :: InOrder(mapping, chunks, k) && IsOrderly(chunks, k) ==>
              StreamText(events, k) == Restore(FakesFor(mapping, k.channel), StreamText(chunks, k))
    ensures Woven(chunks, events)
  {
    BracketingSuffices(mapping);
    var restorer := new ChatRestorer(mapping);
    events := [];
    for n := 0 to |chunks|
      invariant restorer.Valid() && restorer.mapping == mapping
      invariant fresh(restorer) && fresh(restorer.store) && fresh(restorer.store.buffers.Values)
      invariant Finishes(chunks[..n], restorer.finished)
      invariant Tracks(mapping, chunks[..n], events, restorer.Held())
      invariant Woven(chunks[..n], events)
    {
      ghost var before, closed := restorer.Held(), restorer.finished;
      var more := restorer.RestoreChunk(chunks[n]);
      ghost var pre, own :| more == pre + own && AllRemainders(pre) && GoesOut(chunks[n], own);
      WovenNext(chunks[..n], events, chunks[n], pre, own);
      TracksNext(mapping, chunks[..n], events, before, chunks[n], more, restorer.Held());
      FinishesNext(chunks, n, closed, restorer.finished);
      events := events + more;
    }
    assert chunks[..|chunks|] == chunks;
    ghost var held := restorer.Held();
    var rest := restorer.DrainBuffers();
    StreamEnds(mapping, chunks, events, restorer.finished, held, rest);
    WovenMore(chunks, events, rest);
    events := events + rest;
  }

  lemma {:induction false} FinishesNext(chunks: seq<Chunk>, n: nat, finished: set<int>, finished': set<int>)
    requires n < |chunks| && Finishes(chunks[..n], finished)
    requires forall i :: i in finished' <==> i in finished || FinishedIn(chunks[n].choices, i)
    ensures chunks[..n + 1] == chunks[..n] + [chunks[n]]
    ensures Finishes(chunks[..n + 1], finished')
  {
    var next := chunks[..n + 1];
    forall c ensures c in finished' <==> Finished(next, c) {
      if c in finished {
        var j :| 0 <= j < n && FinishedIn(chunks[..n][j].choices, c);
        assert next[j] == chunks[..n][j];
      }
      if FinishedIn(chunks[n].choices, c) { assert next[n] == chunks[n]; }
      if j :| 0 <= j < |next| && FinishedIn(next[j].choices, c) {
        if j < n { assert next[j] == chunks[..n][j]; }
      }
    }
  }

  lemma {:induction false} SlotsTextNone(slots: seq<Slot>, channel: Channel)
    requires forall i :: 0 <= i < |slots| ==> slots[i].channel != channel
    ensures SlotsText(slots, channel) == ""
    decreases |slots|
  {
    if slots != [] { SlotsTextNone(slots[..|slots| - 1], channel); }
  }
}
