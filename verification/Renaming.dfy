/**
 privaite/gateway/restore.py with privaite/gateway/protocols.py: when restoring a whole event turns
 it into a delta, because its type name holds a fake.
 */
module Renaming {
  import opened Wrappers
  import opened DeAnonymizer
  import opened JsonTree
  import opened WholeValues
  import opened Protocols

  function StringAt(fields: seq<Field>, key: string): Option<string> {
    match Get(fields, key)
    case Some(String(s)) => Some(s)
    case _ => None
  }

  function RestoredAt(m: Fakes, fields: seq<Field>, key: string): Option<string> {
    match StringAt(fields, key)
    case None => None
    case Some(s) => Some(Restore(m, s))
  }

  /** The text of an OpenAI Responses event that restoring makes a delta: its type name restores to
      that of a delta, and its "delta" is a string. */
  function ResponsesGain(m: Fakes, skip: set<string>, data: seq<Field>): Option<string> {
    match StringAt(data, "type")
    case None => None
    case Some(t) => if t in skip || Restore(m, t) !in DELTA_EVENTS then None else RestoredAt(m, data, "delta")
  }

  /** The text of a "delta" object whose type name restores to one of the two that carry text. */
  function InnerGain(m: Fakes, skip: set<string>, child: seq<Field>): Option<string> {
    match StringAt(child, "type")
    case None => None
    case Some(t) =>
      if t in skip then None
      else if Restore(m, t) == "text_delta" then RestoredAt(m, child, "text")
      else if Restore(m, t) == "input_json_delta" then RestoredAt(m, child, "partial_json")
      else None
  }

  /** The text of an Anthropic event that restoring makes a delta of a content block. */
  function AnthropicGain(m: Fakes, skip: set<string>, data: seq<Field>): Option<string> {
    match StringAt(data, "type")
    case None => None
    case Some(t) =>
      if t in skip || Restore(m, t) != "content_block_delta" then None
      else match Get(data, "delta")
        case Some(Object(child)) => InnerGain(m, skip, child)
        case _ => None
  }

  /** The text an event carries for a channel once it is restored as a whole. */
  function GainOf(p: Protocol, m: Fakes, data: seq<Field>): Option<string> {
    match p
    case AnthropicMessages => AnthropicGain(m, SpecOf(p).skip, data)
    case OpenAIResponses => ResponsesGain(m, SpecOf(p).skip, data)
  }

  function FragmentText(f: Option<(Channel, string)>): Option<string> {
    if f.Some? then Some(f.value.1) else None
  }

  // ----- what is gained is what is read -----

  /** A string stays a string, restored; nothing else becomes one. */
  lemma {:induction false} StringRestored(m: Fakes, codec: Codec, skip: set<string>, fields: seq<Field>, key: string)
    requires codec.Sound() && key != "arguments"
    ensures StringAt(RestoreFields(m, codec, skip, fields), key) == RestoredAt(m, fields, key)
  {
    GetRestored(m, codec, skip, fields, key);
  }

  /** An object is restored field by field, or left as it is where its type is skipped. */
  lemma {:induction false} ObjectRestored(m: Fakes, codec: Codec, skip: set<string>, fields: seq<Field>)
    requires codec.Sound()
    ensures RestoreTree(m, codec, skip, Object(fields))
         == if StringAt(fields, "type").Some? && StringAt(fields, "type").value in skip then Object(fields)
            else Object(RestoreFields(m, codec, skip, fields))
  {
  }

  /** What an OpenAI Responses event carries, read off its strings. */
  lemma {:induction false} ResponsesFragment(data: seq<Field>)
    ensures FragmentText(Fragment(SpecOf(OpenAIResponses), Object(data)))
         == match StringAt(data, "type")
            case None => None
            case Some(t) => if t in DELTA_EVENTS then StringAt(data, "delta") else None
  {
    assert ["delta"][1..] == [];
    assert TextAt(Object(data), ["delta"]) == StringAt(data, "delta");
  }

  /** What an Anthropic event carries. */
  lemma {:induction false} AnthropicFragment(data: seq<Field>)
    ensures FragmentText(Fragment(SpecOf(AnthropicMessages), Object(data)))
         == match StringAt(data, "type")
            case None => None
            case Some(t) =>
              if t != "content_block_delta" then None
              else match Get(data, "delta")
                case Some(Object(child)) => InnerText(child)
                case _ => None
  {
    LeafText(data, "text");
    LeafText(data, "partial_json");
  }

  function InnerText(child: seq<Field>): Option<string> {
    match StringAt(child, "type")
    case None => None
    case Some(t) =>
      if t == "text_delta" then StringAt(child, "text")
      else if t == "input_json_delta" then StringAt(child, "partial_json")
      else None
  }

  lemma {:induction false} LeafText(data: seq<Field>, leaf: string)
    ensures TextAt(Object(data), ["delta", leaf])
         == match Get(data, "delta")
            case Some(Object(child)) => StringAt(child, leaf)
            case _ => None
  {
    assert ["delta", leaf][1..] == [leaf] && [leaf][1..] == [];
    if Get(data, "delta").Some? {
      var v := Get(data, "delta").value;
      assert TextAt(v, [leaf]) == if v.Object? then StringAt(v.fields, leaf) else None;
    }
  }

  lemma {:induction false} SkippedIsNoDelta(t: string)
    ensures t in SpecOf(OpenAIResponses).skip ==> t !in DELTA_EVENTS
    ensures t in SpecOf(AnthropicMessages).skip ==> t !in {"content_block_delta", "text_delta", "input_json_delta"}
  {
  }

  lemma {:induction false} ResponsesGainIsRead(m: Fakes, codec: Codec, data: seq<Field>)
    requires codec.Sound()
    ensures var spec := SpecOf(OpenAIResponses);
            ResponsesGain(m, spec.skip, data) == FragmentText(Fragment(spec, RestoreTree(m, codec, spec.skip, Object(data))))
  {
    var skip := SpecOf(OpenAIResponses).skip;
    var restored := RestoreFields(m, codec, skip, data);
    ObjectRestored(m, codec, skip, data);
    ResponsesFragment(data);
    ResponsesFragment(restored);
    StringRestored(m, codec, skip, data, "type");
    StringRestored(m, codec, skip, data, "delta");
    if StringAt(data, "type").Some? { SkippedIsNoDelta(StringAt(data, "type").value); }
  }

  lemma {:induction false} InnerRestored(m: Fakes, codec: Codec, child: seq<Field>)
    requires codec.Sound()
    ensures var skip := SpecOf(AnthropicMessages).skip;
            var v := RestoreTree(m, codec, skip, Object(child));
            v.Object? && InnerText(v.fields) == InnerGain(m, skip, child)
  {
    var skip := SpecOf(AnthropicMessages).skip;
    ObjectRestored(m, codec, skip, child);
    StringRestored(m, codec, skip, child, "type");
    StringRestored(m, codec, skip, child, "text");
    StringRestored(m, codec, skip, child, "partial_json");
    if StringAt(child, "type").Some? { SkippedIsNoDelta(StringAt(child, "type").value); }
  }

  lemma {:induction false} AnthropicGainIsRead(m: Fakes, codec: Codec, data: seq<Field>)
    requires codec.Sound()
    ensures var spec := SpecOf(AnthropicMessages);
            AnthropicGain(m, spec.skip, data) == FragmentText(Fragment(spec, RestoreTree(m, codec, spec.skip, Object(data))))
  {
    var skip := SpecOf(AnthropicMessages).skip;
    var restored := RestoreFields(m, codec, skip, data);
    ObjectRestored(m, codec, skip, data);
    AnthropicFragment(data);
    AnthropicFragment(restored);
    StringRestored(m, codec, skip, data, "type");
    GetRestored(m, codec, skip, data, "delta");
    match Get(data, "delta") {
      case Some(Object(child)) => InnerRestored(m, codec, child);
      case _ =>
    }
    if StringAt(data, "type").Some? { SkippedIsNoDelta(StringAt(data, "type").value); }
  }

  /** A whole event carries text once it is restored exactly when its type names restore to those
      of a delta, are not skipped, and the string is there that such a delta carries. */
  lemma {:induction false} GainIsRead(p: Protocol, m: Fakes, codec: Codec, data: seq<Field>)
    requires codec.Sound()
    ensures GainOf(p, m, data) == FragmentText(Fragment(SpecOf(p), RestoreTree(m, codec, SpecOf(p).skip, Object(data))))
  {
    if p == OpenAIResponses { ResponsesGainIsRead(m, codec, data); } else { AnthropicGainIsRead(m, codec, data); }
  }

  predicate PlainName(m: Fakes, name: Option<string>) {
    name.Some? ==> Restore(m, name.value) == name.value
  }

  /** An event that is no delta gains nothing where its type names hold no fake. */
  lemma {:induction false} PlainNamesGainNothing(p: Protocol, m: Fakes, data: seq<Field>)
    requires Classify(p, data).kind != Delta
    requires PlainName(m, StringAt(data, "type"))
    requires forall child :: Get(data, "delta") == Some(Object(child)) ==> PlainName(m, StringAt(child, "type"))
    ensures GainOf(p, m, data) == None
  {
    if p == OpenAIResponses { PlainResponses(m, data); } else { PlainAnthropic(m, data); }
  }

  lemma {:induction false} PlainResponses(m: Fakes, data: seq<Field>)
    requires ResponsesClassify(data).kind != Delta && PlainName(m, StringAt(data, "type"))
    ensures ResponsesGain(m, SpecOf(OpenAIResponses).skip, data) == None
  {
    assert StringAt(data, "type").Some? ==> EventType(data) == StringAt(data, "type").value;
  }

  lemma {:induction false} PlainAnthropic(m: Fakes, data: seq<Field>)
    requires AnthropicClassify(data).kind != Delta && PlainName(m, StringAt(data, "type"))
    requires forall child :: Get(data, "delta") == Some(Object(child)) ==> PlainName(m, StringAt(child, "type"))
    ensures AnthropicGain(m, SpecOf(AnthropicMessages).skip, data) == None
  {
    match Get(data, "delta")
    case Some(Object(child)) => assert DeltaType(data) == Get(child, "type") && PlainName(m, StringAt(child, "type"));
    case _ =>
  }
}
