/**
 privaite/gateway/protocols.py: what each event of the two protocols does, told by the names in it.
 */
module EventPlans {
  import opened Wrappers
  import opened JsonTree
  import opened Protocols
  import opened DeAnonymizer
  import opened WholeValues
  import opened RestoredLeaves

  predicate Named(data: seq<Field>, name: string) {
    Get(data, "type") == Some(String(name))
  }

  predicate Finishes(p: Protocol, data: seq<Field>, c: Channel) {
    Classify(p, data).flushAll || c in Classify(p, data).flush
  }

  // ----- Anthropic messages -----

  /** The index of the content block, which is 0 when it is not given. */
  function Block(data: seq<Field>): Json {
    match Get(data, "index")
    case Some(i) => i
    case None => Number("0")
  }

  /** The delta has a type, and a string under a key. */
  predicate DeltaHolds(data: seq<Field>, deltaType: string, key: string, text: string) {
    match Get(data, "delta")
    case Some(Object(fields)) => Named(fields, deltaType) && Get(fields, key) == Some(String(text))
    case _ => false
  }

  predicate DeltaIs(data: seq<Field>, deltaType: string) {
    match Get(data, "delta")
    case Some(Object(fields)) => Named(fields, deltaType)
    case _ => false
  }

  lemma {:induction false} TwoKeys(fields: seq<Field>, key: string)
    ensures TextAt(Object(fields), ["delta", key])
         == match Get(fields, "delta")
            case Some(Object(inner)) => (match Get(inner, key) case Some(String(s)) => Some(s) case _ => None)
            case _ => None
  {
    assert ["delta", key][1..] == [key] && [key][1..] == [];
    match Get(fields, "delta")
    case Some(d) =>
      assert TextAt(Object(fields), ["delta", key]) == TextAt(d, [key]);
      if d.Object? && Get(d.fields, key).Some? { assert TextAt(d, [key]) == TextAt(Get(d.fields, key).value, []); }
    case None =>
  }

  /** An event carries text for a block as its text or as its JSON, and nothing else carries any. */
  lemma {:induction false} AnthropicCarries(data: seq<Field>, c: Channel, text: string)
    ensures Fragment(SpecOf(AnthropicMessages), Object(data)) == Some((c, text)) <==>
            && Named(data, "content_block_delta") && c.id == Block(data)
            && ((c.kind == "text" && DeltaHolds(data, "text_delta", "text", text))
                || (c.kind == "json" && DeltaHolds(data, "input_json_delta", "partial_json", text)))
  {
    TwoKeys(data, "text");
    TwoKeys(data, "partial_json");
  }

  /** A channel is finished by the stop of its block, or of the message, and by no other event. */
  lemma {:induction false} AnthropicFinishes(data: seq<Field>, c: Channel)
    requires IsChannel(AnthropicMessages, c)
    ensures Finishes(AnthropicMessages, data, c) <==>
            Named(data, "message_stop") || (Named(data, "content_block_stop") && c.id == Block(data))
  {
  }

  /** Thinking and signatures, and nothing else, go out as they came. */
  lemma {:induction false} ThinkingIsLeft(data: seq<Field>)
    ensures Classify(AnthropicMessages, data).kind == Verbatim <==>
            Named(data, "content_block_delta") && (DeltaIs(data, "thinking_delta") || DeltaIs(data, "signature_delta"))
  {
  }

  // ----- OpenAI Responses -----

  /** Which output an event belongs to: its item, else its index, which is 0 when neither is given. */
  function Output(data: seq<Field>): Json {
    match Get(data, "item_id")
    case Some(id) => if id != Null then id else OutputIndex(data)
    case None => OutputIndex(data)
  }

  function OutputIndex(data: seq<Field>): Json {
    match Get(data, "output_index")
    case Some(i) => i
    case None => Number("0")
  }

  /** The streams of text, by the part that the names of their events have in common. */
  const STREAMS: set<string> := {
    "response.output_text.",
    "response.function_call_arguments.",
    "response.custom_tool_call_input.",
    "response.mcp_call_arguments.",
    "response.refusal.",
    "response.audio.transcript.",
    "response.code_interpreter_call_code."
  }

  lemma {:induction false} DeltaNames()
    ensures "response.output_text." + "delta" == "response.output_text.delta"
    ensures "response.function_call_arguments." + "delta" == "response.function_call_arguments.delta"
    ensures "response.custom_tool_call_input." + "delta" == "response.custom_tool_call_input.delta"
    ensures "response.mcp_call_arguments." + "delta" == "response.mcp_call_arguments.delta"
    ensures "response.refusal." + "delta" == "response.refusal.delta"
    ensures "response.audio.transcript." + "delta" == "response.audio.transcript.delta"
    ensures "response.code_interpreter_call_code." + "delta" == "response.code_interpreter_call_code.delta"
  {
  }

  lemma {:induction false} StreamsAreDeltas(s: string)
    requires s in STREAMS
    ensures s + "delta" in DELTA_EVENTS && s + "done" == DoneOf(s + "delta")
  {
    DeltaNames();
    assert (s + "delta")[..|s|] == s;
  }

  lemma {:induction false} DeltasAreStreams(etype: string) returns (s: string)
    requires etype in DELTA_EVENTS
    ensures s in STREAMS && etype == s + "delta"
  {
    DeltaNames();
    s :| s in STREAMS && etype == s + "delta";
  }

  /** An event carries text when it is the delta of one of these streams. */
  lemma {:induction false} ResponsesCarries(data: seq<Field>, c: Channel, text: string)
    ensures Fragment(SpecOf(OpenAIResponses), Object(data)) == Some((c, text)) <==>
            exists s :: s in STREAMS && Named(data, s + "delta") && c == Channel(s + "delta", Output(data)) && Get(data, "delta") == Some(String(text))
  {
    assert ["delta"][1..] == [];
    var etype := EventType(data);
    NoEmptyName();
    if etype in DELTA_EVENTS { var s := DeltasAreStreams(etype); }
    if s :| s in STREAMS && Named(data, s + "delta") { StreamsAreDeltas(s); }
  }

  lemma {:induction false} NoEmptyName()
    ensures "" !in DELTA_EVENTS && "" !in VERBATIM_EVENTS && !(VERBATIM_PREFIX <= "")
  {
  }

  lemma {:induction false} NoReasoning(s: string)
    requires s in STREAMS
    ensures |s| > 11 && (s[9] != "response.reasoning"[9] || s[11] != "response.reasoning"[11])
  {
  }

  /** No such event is one of those that go out as they came. */
  lemma {:induction false} StreamIsRead(s: string, rest: string)
    requires s in STREAMS && rest in {"delta", "done"}
    ensures s + rest !in VERBATIM_EVENTS && !(VERBATIM_PREFIX <= s + rest)
  {
    NoReasoning(s);
    assert (s + rest)[9] == s[9] && (s + rest)[11] == s[11];
    if s + rest in VERBATIM_EVENTS { NoPayload(s, rest); }
  }

  lemma {:induction false} NoPayload(s: string, rest: string)
    requires s in STREAMS && rest in {"delta", "done"}
    ensures s + rest !in VERBATIM_EVENTS
  {
    assert s != "response.audio." && s != "response.image_generation_call.partial_im";
    assert (s + rest)[..|s|] == s;
  }

  lemma {:induction false} DoneIsNoDelta(s: string)
    requires s in STREAMS
    ensures s + "done" !in DELTA_EVENTS
  {
    assert (s + "done")[|s| + 3] == 'e';
    if s + "done" in DELTA_EVENTS { EndsInDelta(s + "done"); }
  }

  lemma {:induction false} DoneNames(s: string, etype: string)
    requires s in STREAMS
    ensures IsDone(etype) && DeltaOf(etype) == s + "delta" <==> etype == s + "done"
  {
    StreamsAreDeltas(s);
    DoneIsTwin(s + "delta");
  }

  /** The event is read as one that closes something. */
  predicate Closing(etype: string) {
    etype !in DELTA_EVENTS && !(VERBATIM_PREFIX <= etype) && etype !in VERBATIM_EVENTS
  }

  lemma {:induction false} CompletedCloses()
    ensures Closing("response.completed") && !IsDone("response.completed")
  {
    assert "response.completed" !in DELTA_EVENTS && "response.completed" !in VERBATIM_EVENTS;
    assert "response.completed"[9] != VERBATIM_PREFIX[9];
    assert DeltaOf("response.completed")[9] == 'c' && DeltaOf("response.completed")[10] == 'o' && DeltaOf("response.completed")[11] == 'm';
  }

  lemma {:induction false} WhatCloses(data: seq<Field>, c: Channel)
    ensures Finishes(OpenAIResponses, data, c) <==>
            && Closing(EventType(data))
            && if IsDone(EventType(data)) then c == Channel(DeltaOf(EventType(data)), ChannelId(data)) else EventType(data) == "response.completed"
  {
  }

  /** A channel is finished by the done event of its own stream and output, or by the end of the
      response, and by no other event. */
  lemma {:induction false} ResponsesFinishes(data: seq<Field>, s: string, id: Json)
    requires s in STREAMS
    ensures Finishes(OpenAIResponses, data, Channel(s + "delta", id)) <==>
            Named(data, "response.completed") || (Named(data, s + "done") && id == Output(data))
  {
    WhatCloses(data, Channel(s + "delta", id));
    DoneNames(s, EventType(data));
    DoneIsNoDelta(s);
    StreamIsRead(s, "done");
    CompletedCloses();
    NamedIsType(data, s + "done");
    NamedIsType(data, "response.completed");
  }

  lemma {:induction false} NamedIsType(data: seq<Field>, name: string)
    requires name != ""
    ensures Named(data, name) <==> EventType(data) == name
  {
  }

  /** Reasoning, and three payloads that are no text, go out as they came. */
  lemma {:induction false} ReasoningIsLeft(data: seq<Field>)
    ensures Classify(OpenAIResponses, data).kind == Verbatim <==>
            exists name :: Named(data, name)
              && ("response.reasoning" <= name
                  || name in {"response.audio.delta", "response.audio.done", "response.image_generation_call.partial_image"})
  {
    NoEmptyName();
    var etype := EventType(data);
    if etype in DELTA_EVENTS {
      var s := DeltasAreStreams(etype);
      StreamIsRead(s, "delta");
    }
    assert etype != "" ==> Named(data, etype);
  }

  /** A channel carries JSON source text when it is the arguments of a tool. */
  lemma {:induction false} JsonExactly(p: Protocol, c: Channel)
    ensures SpecOf(p).isJson(c) <==>
            match p
            case AnthropicMessages => c.kind == "json"
            case OpenAIResponses => c.kind == "response.function_call_arguments.delta" || c.kind == "response.mcp_call_arguments.delta"
  {
  }

  // ----- whole values -----

  /** A block that the provider checks, and that no restored value may change. */
  predicate Opaque(p: Protocol, v: Json) {
    v.Object?
    && match p
       case AnthropicMessages => Named(v.fields, "thinking") || Named(v.fields, "redacted_thinking")
       case OpenAIResponses => Named(v.fields, "reasoning") || Named(v.fields, "compaction")
  }

  lemma {:induction false} OpaqueIsSkipped(p: Protocol, v: Json)
    ensures HasSkippedType(SpecOf(p).skip, v) <==> Opaque(p, v)
  {
  }

  /** Such a block reaches the client as it came, whatever is in it. */
  lemma {:induction false} OpaqueStays(p: Protocol, m: Fakes, codec: Codec, v: Json, path: seq<Turn>, n: nat)
    requires codec.Sound() && n <= |path| && At(v, path[..n]).Some? && Opaque(p, At(v, path[..n]).value)
    ensures At(RestoreTree(m, codec, SpecOf(p).skip, v), path) == At(v, path)
  {
    OpaqueIsSkipped(p, At(v, path[..n]).value);
    AtRestored(m, codec, SpecOf(p).skip, v, path);
    assert Skipped(SpecOf(p).skip, v, path);
  }

  /** And every string that lies in no such block is restored. */
  lemma {:induction false} OtherTextIsRestored(p: Protocol, m: Fakes, codec: Codec, v: Json, path: seq<Turn>, s: string)
    requires codec.Sound() && At(v, path) == Some(String(s)) && !(path != [] && path[|path| - 1] == Key("arguments"))
    requires forall n :: 0 <= n <= |path| && At(v, path[..n]).Some? ==> !Opaque(p, At(v, path[..n]).value)
    ensures At(RestoreTree(m, codec, SpecOf(p).skip, v), path) == Some(String(Restore(m, s)))
  {
    forall n | 0 <= n <= |path| && At(v, path[..n]).Some? ensures !HasSkippedType(SpecOf(p).skip, At(v, path[..n]).value) {
      OpaqueIsSkipped(p, At(v, path[..n]).value);
    }
    AtRestored(m, codec, SpecOf(p).skip, v, path);
  }
}
