/**
 privaite/gateway/protocols.py: what each streamed event of the two gateway protocols
 means for the restorer, and the synthetic events that carry held-back text.
 */
module Protocols {
  import opened Wrappers
  import opened JsonTree

  /** A hold-back buffer key. */
  datatype Channel = Channel(kind: string, id: Json)

  datatype Kind = Verbatim | Delta | Restored

  datatype Plan = Plan(
    kind: Kind,
    channel: Option<Channel> := None,
    path: seq<string> := [],
    flush: seq<Channel> := [],
    flushAll: bool := false,
    jsonFragment: bool := false)

  datatype Protocol = AnthropicMessages | OpenAIResponses

  function GetOr(data: seq<Field>, key: string, default: Json): Json {
    if Get(data, key) == None then default else Get(data, key).value
  }

  const ZERO := Number("0")

  // ----- Anthropic messages -----

  function DeltaType(data: seq<Field>): Option<Json> {
    match Get(data, "delta")
    case Some(Object(fields)) => Get(fields, "type")
    case _ => None
  }

  function AnthropicClassify(data: seq<Field>): Plan {
    var etype := Get(data, "type");
    var index := GetOr(data, "index", ZERO);
    if etype == Some(String("content_block_delta")) then
      var dtype := DeltaType(data);
      if dtype == Some(String("text_delta")) then
        Plan(Delta, channel := Some(Channel("text", index)), path := ["delta", "text"])
      else if dtype == Some(String("input_json_delta")) then
        Plan(Delta, channel := Some(Channel("json", index)), path := ["delta", "partial_json"], jsonFragment := true)
      else if dtype == Some(String("thinking_delta")) || dtype == Some(String("signature_delta")) then
        Plan(Verbatim)
      else Plan(Restored)
    else if etype == Some(String("content_block_stop")) then
      Plan(Restored, flush := [Channel("text", index), Channel("json", index)])
    else if etype == Some(String("message_stop")) then Plan(Restored, flushAll := true)
    else Plan(Restored)
  }

  datatype FlushEvent = FlushEvent(name: string, data: seq<Field>)

  function AnthropicFlushEvent(channel: Channel, remaining: string): FlushEvent {
    var delta :=
      if channel.kind == "json"
      then [Field("type", String("input_json_delta")), Field("partial_json", String(remaining))]
      else [Field("type", String("text_delta")), Field("text", String(remaining))];
    FlushEvent("content_block_delta",
               [Field("type", String("content_block_delta")), Field("index", channel.id), Field("delta", Object(delta))])
  }

  // ----- OpenAI Responses -----

  const DELTA_EVENTS: set<string> := {
    "response.output_text.delta",
    "response.function_call_arguments.delta",
    "response.custom_tool_call_input.delta",
    "response.mcp_call_arguments.delta",
    "response.refusal.delta",
    "response.audio.transcript.delta",
    "response.code_interpreter_call_code.delta"
  }

  const JSON_FRAGMENT_EVENTS: set<string> := {
    "response.function_call_arguments.delta",
    "response.mcp_call_arguments.delta"
  }

  const VERBATIM_PREFIX := "response.reasoning"

  const VERBATIM_EVENTS: set<string> := {
    "response.audio.delta",
    "response.audio.done",
    "response.image_generation_call.partial_image"
  }

  /** The `.done` twin of a `.delta` event name, and back. */
  function DoneOf(etype: string): string
    requires |etype| >= 5
  {
    etype[..|etype| - 5] + "done"
  }

  function DeltaOf(etype: string): string
    requires |etype| >= 4
  {
    etype[..|etype| - 4] + "delta"
  }

  predicate IsDone(etype: string) {
    |etype| >= 4 && DeltaOf(etype) in DELTA_EVENTS && etype == DoneOf(DeltaOf(etype))
  }

  function EventType(data: seq<Field>): string {
    match Get(data, "type")
    case Some(String(s)) => s
    case _ => ""
  }

  function ChannelId(data: seq<Field>): Json {
    if GetOr(data, "item_id", Null) != Null then GetOr(data, "item_id", Null)
    else GetOr(data, "output_index", ZERO)
  }

  function ResponsesClassify(data: seq<Field>): Plan {
    var etype := EventType(data);
    if etype in DELTA_EVENTS then
      Plan(Delta, channel := Some(Channel(etype, ChannelId(data))), path := ["delta"],
           jsonFragment := etype in JSON_FRAGMENT_EVENTS)
    else if VERBATIM_PREFIX <= etype || etype in VERBATIM_EVENTS then Plan(Verbatim)
    else if IsDone(etype) then Plan(Restored, flush := [Channel(DeltaOf(etype), ChannelId(data))])
    else if etype == "response.completed" then Plan(Restored, flushAll := true)
    else Plan(Restored)
  }

  function ResponsesFlushEvent(channel: Channel, remaining: string): FlushEvent {
    FlushEvent(channel.kind,
               [Field("type", String(channel.kind)), Field("delta", String(remaining)),
                if channel.id.String? then Field("item_id", channel.id) else Field("output_index", channel.id)])
  }

  // ----- both -----

  function Classify(p: Protocol, data: seq<Field>): (plan: Plan)
    ensures plan.kind == Delta <==> plan.channel.Some?
  {
    match p
    case AnthropicMessages => AnthropicClassify(data)
    case OpenAIResponses => ResponsesClassify(data)
  }

  function FlushEventFor(p: Protocol, channel: Channel, remaining: string): FlushEvent {
    match p
    case AnthropicMessages => AnthropicFlushEvent(channel, remaining)
    case OpenAIResponses => ResponsesFlushEvent(channel, remaining)
  }

  /** The channels an event of the protocol can name. */
  predicate IsChannel(p: Protocol, c: Channel) {
    match p
    case AnthropicMessages => c.kind == "text" || c.kind == "json"
    case OpenAIResponses => c.kind in DELTA_EVENTS
  }

  /** A channel carries JSON source text for as long as it lives. */
  predicate JsonChannel(p: Protocol, c: Channel) {
    match p
    case AnthropicMessages => c.kind == "json"
    case OpenAIResponses => c.kind in JSON_FRAGMENT_EVENTS
  }

  // ----- what the stream restorer is given -----

  /** A protocol as the restorer takes it: data and functions. The last two tell which channels
      it names, and which of them carry JSON source text. */
  datatype Spec = Spec(
    skip: set<string>,
    classify: seq<Field> -> Plan,
    flushEvent: (Channel, string) -> FlushEvent,
    names: Channel -> bool,
    isJson: Channel -> bool)
  {
    /** A delta event belongs to one channel for good. */
    ghost predicate DeltasNameChannels() {
      forall data :: var plan := classify(data);
        plan.kind == Delta ==> plan.channel.Some? && names(plan.channel.value) && plan.jsonFragment == isJson(plan.channel.value)
    }

    /** A flush event is a delta of the channel it flushes, with the held-back text. */
    ghost predicate FlushEventsAreDeltas() {
      forall c, text :: names(c) ==> Fragment(this, Object(flushEvent(c, text).data)) == Some((c, text))
    }

    /** Rewriting the fragment of a delta leaves its channel as it is. */
    ghost predicate RewritingKeepsChannel() {
      forall data, text {:trigger PutText(data, classify(data.fields).path, text)} :: Fragment(this, data).Some? ==>
        Fragment(this, PutText(data, classify(data.fields).path, text)) == Some((Fragment(this, data).value.0, text))
    }

    /** What a parsed delta names its channel by can be dumped. */
    ghost predicate ChannelsAreWellFormed(prints: string -> bool) {
      forall data {:trigger classify(data)} :: WellFormed(prints, Object(data)) && Fragment(this, Object(data)).Some? ==>
        WellFormed(prints, Fragment(this, Object(data)).value.0.id)
    }

    /** So can the flush event of such a channel, and its name is one line. */
    ghost predicate FlushEventsAreWellFormed(prints: string -> bool) {
      forall c, text {:trigger flushEvent(c, text)} :: names(c) && WellFormed(prints, c.id) ==>
        WellFormed(prints, Object(flushEvent(c, text).data)) && OneLine(flushEvent(c, text).name)
    }

    ghost predicate Lawful(prints: string -> bool) {
      && DeltasNameChannels()
      && FlushEventsAreDeltas()
      && RewritingKeepsChannel()
      && ChannelsAreWellFormed(prints)
      && FlushEventsAreWellFormed(prints)
    }
  }

  function SpecOf(p: Protocol): Spec {
    Spec(
      if p == AnthropicMessages then {"thinking", "redacted_thinking"} else {"reasoning", "compaction"},
      (data: seq<Field>) => Classify(p, data),
      (c: Channel, text: string) => FlushEventFor(p, c, text),
      (c: Channel) => IsChannel(p, c),
      (c: Channel) => JsonChannel(p, c))
  }

  /** The text an event carries for a channel: a delta with a string where its plan says. */
  function Fragment(spec: Spec, data: Json): Option<(Channel, string)> {
    if !data.Object? then None
    else
      var plan := spec.classify(data.fields);
      if plan.kind == Delta && plan.channel.Some? && TextAt(data, plan.path).Some?
      then Some((plan.channel.value, TextAt(data, plan.path).value)) else None
  }

  /** Both protocols keep the restorer's laws. */
  lemma {:induction false} ProtocolsAreLawful(p: Protocol, prints: string -> bool)
    requires prints("0")
    ensures SpecOf(p).Lawful(prints)
  {
    IdsAreWellFormed(p, prints);
    FlushEventsPrint(p, prints);
    DeltaPlans(p);
    FlushEventIsFragment(p);
    RewrittenFragment(p);
  }

  lemma {:induction false} IdsAreWellFormed(p: Protocol, prints: string -> bool)
    requires prints("0")
    ensures SpecOf(p).ChannelsAreWellFormed(prints)
  {
    forall data | WellFormed(prints, Object(data)) && Fragment(SpecOf(p), Object(data)).Some?
      ensures WellFormed(prints, Fragment(SpecOf(p), Object(data)).value.0.id)
    {
      ValueOrZero(prints, data, "index");
      ValueOrZero(prints, data, "item_id");
      ValueOrZero(prints, data, "output_index");
    }
  }

  lemma {:induction false} ValueOrZero(prints: string -> bool, data: seq<Field>, key: string)
    requires prints("0") && WellFormedFields(prints, data)
    ensures WellFormed(prints, GetOr(data, key, ZERO)) && WellFormed(prints, GetOr(data, key, Null))
  {
    if Get(data, key).Some? { GetIsWellFormed(prints, data, key); }
  }

  lemma {:induction false} FlushEventsPrint(p: Protocol, prints: string -> bool)
    ensures SpecOf(p).FlushEventsAreWellFormed(prints)
  {
    forall c, text | IsChannel(p, c) && WellFormed(prints, c.id)
      ensures WellFormed(prints, Object(FlushEventFor(p, c, text).data)) && OneLine(FlushEventFor(p, c, text).name)
    {
      FlushEventPrints(p, prints, c, text);
    }
  }

  lemma {:induction false} FlushEventPrints(p: Protocol, prints: string -> bool, c: Channel, text: string)
    requires IsChannel(p, c) && WellFormed(prints, c.id)
    ensures WellFormed(prints, Object(FlushEventFor(p, c, text).data)) && OneLine(FlushEventFor(p, c, text).name)
  {
    if p == AnthropicMessages { AnthropicFlushPrints(prints, c, text); } else { ResponsesFlushPrints(prints, c, text); }
  }

  lemma {:induction false} ResponsesFlushPrints(prints: string -> bool, c: Channel, text: string)
    requires WellFormed(prints, c.id) && c.kind in DELTA_EVENTS
    ensures WellFormed(prints, Object(ResponsesFlushEvent(c, text).data)) && OneLine(c.kind)
  {
    var data := ResponsesFlushEvent(c, text).data;
    ThreeFields(prints, data[0], data[1], data[2]);
    DeltaNames(c.kind);
  }

  lemma {:induction false} DeltaNames(name: string)
    requires name in DELTA_EVENTS
    ensures OneLine(name)
  {
    if name in JSON_FRAGMENT_EVENTS { JsonNames(name); }
    else if name in {"response.output_text.delta", "response.refusal.delta", "response.audio.transcript.delta"} { TextNames(name); }
    else if name == "response.custom_tool_call_input.delta" { ToolName(); }
    else { CodeName(); }
  }

  lemma {:induction false} JsonNames(name: string)
    requires name in JSON_FRAGMENT_EVENTS
    ensures OneLine(name)
  {
  }

  lemma {:induction false} TextNames(name: string)
    requires name in {"response.output_text.delta", "response.refusal.delta", "response.audio.transcript.delta"}
    ensures OneLine(name)
  {
  }

  lemma {:induction false} ToolName()
    ensures OneLine("response.custom_tool_call_input.delta")
  {
  }

  lemma {:induction false} CodeName()
    ensures OneLine("response.code_interpreter_call_code.delta")
  {
  }

  lemma {:induction false} AnthropicFlushPrints(prints: string -> bool, c: Channel, text: string)
    requires WellFormed(prints, c.id)
    ensures WellFormed(prints, Object(AnthropicFlushEvent(c, text).data)) && OneLine(AnthropicFlushEvent(c, text).name)
  {
    var data := AnthropicFlushEvent(c, text).data;
    var delta := data[2].value.fields;
    TwoFields(prints, delta[0], delta[1]);
    ThreeFields(prints, data[0], data[1], data[2]);
  }

  lemma {:induction false} TwoFields(prints: string -> bool, a: Field, b: Field)
    requires WellFormed(prints, a.value) && WellFormed(prints, b.value) && a.key != b.key
    ensures WellFormedFields(prints, [a, b])
  {
    assert [a, b][1..] == [b] && [b][1..] == [];
    assert WellFormedFields(prints, [b]);
  }

  lemma {:induction false} ThreeFields(prints: string -> bool, a: Field, b: Field, c: Field)
    requires WellFormed(prints, a.value) && WellFormed(prints, b.value) && WellFormed(prints, c.value)
    requires a.key != b.key && a.key != c.key && b.key != c.key
    ensures WellFormedFields(prints, [a, b, c])
  {
    TwoFields(prints, b, c);
    assert [a, b, c][1..] == [b, c] && [b, c][1..] == [c] && [c][1..] == [];
    assert Get([c], a.key) == None && Get([b, c], a.key) == None;
  }

  lemma {:induction false} DeltaPlans(p: Protocol)
    ensures SpecOf(p).DeltasNameChannels()
  {
  }

  lemma {:induction false} FlushEventIsFragment(p: Protocol)
    ensures SpecOf(p).FlushEventsAreDeltas()
  {
    var spec := SpecOf(p);
    forall c, text | spec.names(c)
      ensures Fragment(spec, Object(spec.flushEvent(c, text).data)) == Some((c, text))
    {
      FlushEventReclassified(p, c, text);
    }
  }

  lemma {:induction false} FlushEventReclassified(p: Protocol, c: Channel, remaining: string)
    requires IsChannel(p, c)
    ensures var data := FlushEventFor(p, c, remaining).data;
            var plan := Classify(p, data);
            plan.kind == Delta && plan.channel == Some(c) && TextAt(Object(data), plan.path) == Some(remaining)
  {
    var data := FlushEventFor(p, c, remaining).data;
    assert data[1..][0] == data[1] && data[1..][1..][0] == data[2];
    match p
    case AnthropicMessages =>
      assert Get(data, "type") == Some(data[0].value);
      assert Get(data, "index") == Some(c.id);
      assert Get(data[1..], "delta") == Some(data[2].value);
      assert Get(data, "delta") == Some(data[2].value);
      var delta := data[2].value.fields;
      assert Get(delta, "type") == Some(delta[0].value);
      assert delta[1..][0] == delta[1];
      var path := Classify(p, data).path;
      assert path[1..][0] == path[1] && path[1..][1..] == [];
      assert Get(delta, path[1]) == Some(String(remaining));
      assert TextAt(data[2].value, path[1..]) == Some(remaining);
    case OpenAIResponses =>
      assert Get(data, "type") == Some(String(c.kind));
      assert Get(data, "delta") == Some(String(remaining));
      assert data[1..][1..][1..] == [];
      assert Get(data[1..][1..], "item_id") == if c.id.String? then Some(c.id) else None;
      assert Get(data[1..][1..], "output_index") == if c.id.String? then None else Some(c.id);
      assert Get(data[1..], "item_id") == Get(data[1..][1..], "item_id");
      assert Get(data[1..], "output_index") == Get(data[1..][1..], "output_index");
      assert Get(data, "item_id") == if c.id.String? then Some(c.id) else None;
      assert Get(data, "output_index") == if c.id.String? then None else Some(c.id);
      var path := Classify(p, data).path;
      assert path[1..] == [];
  }

  lemma {:induction false} AnthropicReclassified(fields: seq<Field>, child: seq<Field>, leaf: string, v: Json)
    requires Get(fields, "delta") == Some(Object(child)) && leaf != "type"
    ensures AnthropicClassify(Put(fields, "delta", Object(Put(child, leaf, v)))) == AnthropicClassify(fields)
  {
    var inner := Object(Put(child, leaf, v));
    GetPut(fields, "delta", inner, "type");
    GetPut(fields, "delta", inner, "index");
    GetPut(fields, "delta", inner, "delta");
    GetPut(child, leaf, v, "type");
  }

  lemma {:induction false} ResponsesReclassified(fields: seq<Field>, v: Json)
    ensures ResponsesClassify(Put(fields, "delta", v)) == ResponsesClassify(fields)
  {
    GetPut(fields, "delta", v, "type");
    GetPut(fields, "delta", v, "item_id");
    GetPut(fields, "delta", v, "output_index");
  }

  lemma {:induction false} RewrittenFragment(p: Protocol)
    ensures SpecOf(p).RewritingKeepsChannel()
  {
    var spec := SpecOf(p);
    forall data, text | Fragment(spec, data).Some?
      ensures Fragment(spec, PutText(data, spec.classify(data.fields).path, text)) == Some((Fragment(spec, data).value.0, text))
    {
      RewrittenReclassified(p, data, text);
    }
  }

  lemma {:induction false} RewrittenReclassified(p: Protocol, data: Json, text: string)
    requires data.Object? && Classify(p, data.fields).kind == Delta && TextAt(data, Classify(p, data.fields).path).Some?
    ensures var plan := Classify(p, data.fields);
            var put := PutText(data, plan.path, text);
            put.Object? && Classify(p, put.fields) == plan && TextAt(put, plan.path) == Some(text)
  {
    var plan := Classify(p, data.fields);
    TextAtPutText(data, plan.path, text);
    var child := Get(data.fields, "delta").value;
    if p == AnthropicMessages {
      var leaf := plan.path[1];
      assert plan.path[1..][0] == leaf && plan.path[1..][1..] == [];
      assert PutText(child, plan.path[1..], text) == Object(Put(child.fields, leaf, String(text)));
      AnthropicReclassified(data.fields, child.fields, leaf, String(text));
    } else {
      assert plan.path[1..] == [];
      ResponsesReclassified(data.fields, String(text));
    }
  }

  /** The done twin of a delta event flushes that delta's channel, and no other event name does. */
  lemma {:induction false} DoneFlushesItsDelta(data: seq<Field>, etype: string)
    requires Get(data, "type") == Some(String(etype)) && etype !in DELTA_EVENTS
    requires !(VERBATIM_PREFIX <= etype) && etype !in VERBATIM_EVENTS
    ensures forall d :: d in DELTA_EVENTS ==>
              (etype == DoneOf(d) <==> ResponsesClassify(data).flush == [Channel(d, ChannelId(data))])
  {
    forall d | d in DELTA_EVENTS
      ensures etype == DoneOf(d) <==> ResponsesClassify(data).flush == [Channel(d, ChannelId(data))]
    {
      DoneIsTwin(d);
      assert etype == DoneOf(d) ==> DeltaOf(etype) == d;
    }
  }

  lemma {:induction false} DoneIsTwin(d: string)
    requires d in DELTA_EVENTS
    ensures |d| >= 5 && |DoneOf(d)| >= 4 && DeltaOf(DoneOf(d)) == d
  {
    EndsInDelta(d);
    assert d == d[..|d| - 5] + "delta";
    assert DoneOf(d)[..|d| - 5] == d[..|d| - 5];
  }

  lemma {:induction false} EndsInDelta(d: string)
    requires d in DELTA_EVENTS
    ensures |d| >= 5 && d[|d| - 5..] == "delta"
  {
  }
}
