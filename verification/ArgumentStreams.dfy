/**
 Streamed tool arguments (privaite/streaming/handler.py, privaite/gateway/restore.py and the guardrail):
 what a client that parses them reads. Plain text is restored as it is.
 */
module ArgumentStreams {
  import opened Wrappers
  import opened Literals
  import opened DeAnonymizer
  import opened JsonText
  import opened JsonReading
  import Channels
  import ChatStream
  import Gateway
  import Guardrail
  import Protocols
  import ServerEvents

  // ----- one document -----

  /** A part of JSON source text: what stands between two strings, or the body of a string. */
  datatype Part = Between(s: string) | Quoted(body: string)

  function SourceOf(part: Part): string {
    match part
    case Between(s) => s
    case Quoted(body) => "\"" + (body + "\"")
  }

  function Source(parts: seq<Part>): string {
    if parts == [] then "" else SourceOf(parts[0]) + Source(parts[1..])
  }

  /** No fake begins outside of a string, and those a client reads in a string are written out there. */
  ghost predicate IsPart(keys: set<string>, part: Part) {
    match part
    case Between(s) => forall i :: 0 <= i < |s| ==> s[i] != '<'
    case Quoted(body) => Readable(body) && Spelled(keys, body)
  }

  ghost predicate IsSource(keys: set<string>, parts: seq<Part>) {
    forall i :: 0 <= i < |parts| ==> IsPart(keys, parts[i])
  }

  /** The same part, a string in it restored. */
  ghost predicate IsRestored(m: Fakes, part: Part, restored: Part) {
    match part
    case Between(s) => restored == part
    case Quoted(body) => restored.Quoted? && Readable(body) && Decode(restored.body) == Some(Restore(m, Reads(body)))
  }

  /** A client reads the same document, in which every string is restored. */
  ghost predicate ReadsRestored(m: Fakes, parts: seq<Part>, text: string) {
    exists restored: seq<Part> :: text == Source(restored) && AllRestored(m, parts, restored)
  }

  ghost predicate AllRestored(m: Fakes, parts: seq<Part>, restored: seq<Part>) {
    |restored| == |parts| && forall i :: 0 <= i < |parts| ==> IsRestored(m, parts[i], restored[i])
  }

  lemma {:induction false} FakeBegins(m: Fakes, s: string, i: nat, n: nat)
    requires Bracketing(m) && Holds(m, s, i, n)
    ensures s[i] == '<'
  {
    assert s[i..i + n][0] == s[i];
  }

  lemma {:induction false} FakeHasNoQuote(m: Fakes, s: string, i: nat, n: nat)
    requires PlainFakes(m) && Holds(m, s, i, n)
    ensures forall p :: i <= p < i + n ==> s[p] != '"'
  {
    var k := s[i..i + n];
    assert forall p :: i <= p < i + n ==> s[p] == k[p - i];
  }

  /** No fake begins where there is no "<". */
  lemma {:induction false} NothingBegins(m: Fakes, a: string, b: string)
    requires Bracketing(m) && forall i :: 0 <= i < |a| ==> a[i] != '<'
    ensures CutSafe(m, a, b) && Restore(m, a) == a
  {
    forall i: nat, n: nat | Holds(m, a + b, i, n) ensures |a| <= i {
      FakeBegins(m, a + b, i, n);
    }
    forall i: nat, n: nat ensures !Holds(m, a, i, n) {
      NoneBegins(m, a, i, n);
    }
    RestoreFixes(m, a);
  }

  lemma {:induction false} NoneBegins(m: Fakes, a: string, i: nat, n: nat)
    requires Bracketing(m) && forall i :: 0 <= i < |a| ==> a[i] != '<'
    ensures !Holds(m, a, i, n)
  {
    if i + n <= |a| && n > 0 { assert a[i..i + n][0] == a[i]; }
  }

  /** No fake reaches over the quote at the end of a string. */
  lemma {:induction false} QuoteCuts(m: Fakes, a: string, b: string)
    requires PlainFakes(m) && b != "" && b[0] == '"'
    ensures CutSafe(m, a, b)
  {
    assert (a + b)[|a|] == '"';
    forall i: nat, n: nat | Holds(m, a + b, i, n) ensures !(i <= |a| < i + n) {
      FakeHasNoQuote(m, a + b, i, n);
    }
  }

  lemma {:induction false} Quoting(body: string, rest: string)
    ensures SourceOf(Quoted(body)) + rest == "\"" + (body + ("\"" + rest))
  {
  }

  lemma {:induction false} AfterQuote(m: Fakes, rest: string)
    requires Bracketing(m)
    ensures Restore(m, "\"" + rest) == "\"" + Restore(m, rest)
  {
    NothingBegins(m, "\"", rest);
    RestoreSplit(m, "\"", rest);
  }

  lemma {:induction false} QuotedIsRestored(m: Fakes, body: string, rest: string)
    requires Bracketing(m) && PlainFakes(m)
    ensures Restore(m, SourceOf(Quoted(body)) + rest) == SourceOf(Quoted(Restore(m, body))) + Restore(m, rest)
  {
    Quoting(body, rest);
    AfterQuote(m, body + ("\"" + rest));
    QuoteCuts(m, body, "\"" + rest);
    RestoreSplit(m, body, "\"" + rest);
    AfterQuote(m, rest);
    Quoting(Restore(m, body), Restore(m, rest));
  }

  /** Restored with escaped originals, JSON source text reads as the same document, in which every
      string is restored. */
  lemma {:induction false} DocumentIsRead(m: Fakes, parts: seq<Part>) returns (restored: seq<Part>)
    requires Bracketing(m) && PlainFakes(m) && IsSource(m.Keys, parts)
    ensures Restore(Escaped(m), Source(parts)) == Source(restored) && AllRestored(m, parts, restored)
    decreases |parts|
  {
    if parts == [] {
      return [];
    }
    var e, first, rest := Escaped(m), parts[0], Source(parts[1..]);
    var others := DocumentIsRead(m, parts[1..]);
    var one: Part;
    match first {
      case Between(s) =>
        one := first;
        NothingBegins(e, s, rest);
        RestoreSplit(e, s, rest);
      case Quoted(body) =>
        one := Quoted(Restore(e, body));
        QuotedIsRestored(e, body, rest);
        SpelledIsRestored(m, body);
    }
    restored := [one] + others;
    assert restored[1..] == others;
  }

  lemma {:induction false} RestoredDocument(m: Fakes, parts: seq<Part>)
    requires Bracketing(m) && PlainFakes(m) && IsSource(m.Keys, parts)
    ensures ReadsRestored(m, parts, Restore(Escaped(m), Source(parts)))
  {
    var restored := DocumentIsRead(m, parts);
  }

  // ----- the three restorers -----

  /** In the chat handler: the arguments of a call read as the document with every string restored,
      and any other channel is the restored text. */
  lemma {:induction false} ChatIsRead(mapping: Fakes, chunks: seq<ChatStream.Chunk>, k: ChatStream.Key, parts: seq<Part>)
    requires Bracketing(mapping) && ChatStream.InOrder(mapping, chunks, k) && ChatStream.IsOrderly(chunks, k)
    ensures !k.channel.Tool? && !k.channel.FunctionCall? ==>
              ChatStream.Sent(mapping, chunks, k) == Restore(mapping, ChatStream.StreamText(chunks, k))
    ensures (k.channel.Tool? || k.channel.FunctionCall?) && PlainFakes(mapping) && IsSource(mapping.Keys, parts)
            && ChatStream.StreamText(chunks, k) == Source(parts) ==>
              ReadsRestored(mapping, parts, ChatStream.Sent(mapping, chunks, k))
  {
    ChatStream.OrderlyIsReceived(mapping, chunks, k);
    if PlainFakes(mapping) && IsSource(mapping.Keys, parts) { RestoredDocument(mapping, parts); }
  }

  /** In the guardrail, for a channel finished no earlier than it is complete. */
  lemma {:induction false} GuardrailIsRead(mapping: Fakes, chunks: seq<ChatStream.Chunk>, events: seq<ChatStream.Chunk>, k: ChatStream.Key, parts: seq<Part>)
    requires Bracketing(mapping) && Guardrail.Delivered(Guardrail.FakesOf(mapping), chunks, events)
    requires Channels.FlushedLast(Guardrail.StreamBeats(chunks, k))
    ensures !k.channel.Tool? && !k.channel.FunctionCall? ==>
              ChatStream.StreamText(events, k) == Restore(mapping, ChatStream.StreamText(chunks, k))
    ensures (k.channel.Tool? || k.channel.FunctionCall?) && PlainFakes(mapping) && IsSource(mapping.Keys, parts)
            && ChatStream.StreamText(chunks, k) == Source(parts) ==>
              ReadsRestored(mapping, parts, ChatStream.StreamText(events, k))
  {
    if PlainFakes(mapping) && IsSource(mapping.Keys, parts) { RestoredDocument(mapping, parts); }
  }

  /** A channel of the gateway that carries the arguments of a tool. */
  predicate CarriesArguments(p: Protocols.Protocol, c: Protocols.Channel) {
    match p
    case AnthropicMessages => c.kind == "json"
    case OpenAIResponses => c.kind == "response.function_call_arguments.delta" || c.kind == "response.mcp_call_arguments.delta"
  }

  /** In the gateway, for a channel that is delivered, and finished no earlier than it is complete. */
  lemma {:induction false} GatewayIsRead(mapping: Fakes, p: Protocols.Protocol, events: seq<ServerEvents.Reading>, out: seq<ServerEvents.Reading>,
                                         c: Protocols.Channel, parts: seq<Part>)
    requires Bracketing(mapping) && Gateway.DeliveredOn(Gateway.FakesOf(mapping, Protocols.SpecOf(p)), events, out, c)
    requires Channels.FlushedLast(Gateway.Beats(events, c))
    ensures !CarriesArguments(p, c) ==> Gateway.StreamText(out, c) == Restore(mapping, Gateway.StreamText(events, c))
    ensures CarriesArguments(p, c) && PlainFakes(mapping) && IsSource(mapping.Keys, parts)
            && Gateway.StreamText(events, c) == Source(parts) ==>
              ReadsRestored(mapping, parts, Gateway.StreamText(out, c))
  {
    if PlainFakes(mapping) && IsSource(mapping.Keys, parts) { RestoredDocument(mapping, parts); }
  }
}
