/**
 privaite/gateway/restore.py: the lines of a server-sent event, what they are read as, and
 how an event is rewritten.
 */
module ServerEvents {
  import opened Wrappers
  import opened DeAnonymizer
  import opened JsonTree
  import opened WholeValues
  import opened Protocols

  const DATA := "data:"

  function Unspaced(s: string): string {
    if s != "" && s[0] == ' ' then s[1..] else s
  }

  /** What the data lines of an event hold. */
  function DataOf(lines: seq<string>): seq<string> {
    if lines == [] then []
    else
      var n := |lines| - 1;
      DataOf(lines[..n]) + if DATA <= lines[n] then [Unspaced(lines[n][|DATA|..])] else []
  }

  function OtherLines(lines: seq<string>): seq<string> {
    if lines == [] then []
    else
      var n := |lines| - 1;
      OtherLines(lines[..n]) + if DATA <= lines[n] then [] else [lines[n]]
  }

  function JoinLines(parts: seq<string>): string {
    if parts == [] then ""
    else if |parts| == 1 then parts[0]
    else JoinLines(parts[..|parts| - 1]) + "\n" + parts[|parts| - 1]
  }

  /** The rewritten event: the new payload on the first data line, every other line kept. */
  function ReplaceData(lines: seq<string>, payload: string): seq<string> {
    if lines == [] then []
    else
      var n := |lines| - 1;
      ReplaceData(lines[..n], payload)
      + if !(DATA <= lines[n]) then [lines[n]]
        else if DataOf(lines[..n]) == [] then [DATA + " " + payload]
        else []
  }

  /** The rewritten event reads back as the new payload, and its other lines are the old ones. */
  lemma {:induction false} ReplacedReadsBack(lines: seq<string>, payload: string)
    ensures DataOf(ReplaceData(lines, payload)) == if DataOf(lines) == [] then [] else [payload]
    ensures OtherLines(ReplaceData(lines, payload)) == OtherLines(lines)
    decreases |lines|
  {
    if lines != [] {
      var n := |lines| - 1;
      ReplacedReadsBack(lines[..n], payload);
      var before := ReplaceData(lines[..n], payload);
      DataLine(payload);
      OneLineMore(before, DATA + " " + payload);
      OneLineMore(before, lines[n]);
      assert before + [] == before;
    }
  }

  lemma {:induction false} DataLine(payload: string)
    ensures DATA <= DATA + " " + payload && Unspaced((DATA + " " + payload)[|DATA|..]) == payload
  {
    var line := DATA + " " + payload;
    assert line[|DATA|..] == " " + payload && (" " + payload)[1..] == payload;
  }

  lemma {:induction false} OneLineMore(lines: seq<string>, line: string)
    ensures DataOf(lines + [line]) == DataOf(lines) + if DATA <= line then [Unspaced(line[|DATA|..])] else []
    ensures OtherLines(lines + [line]) == OtherLines(lines) + if DATA <= line then [] else [line]
  {
    assert (lines + [line])[..|lines|] == lines;
  }

  /** White space, as Python strips it. */
  predicate Blank(c: char) {
    || '\t' <= c <= '\r' || '\U{1C}' <= c <= ' ' || c == '\U{85}' || c == '\U{A0}' || c == '\U{1680}'
    || '\U{2000}' <= c <= '\U{200A}' || c in {'\U{2028}', '\U{2029}', '\U{202F}', '\U{205F}', '\U{3000}'}
  }

  function Strip(s: string): string {
    if s == "" then ""
    else if Blank(s[0]) then Strip(s[1..])
    else if Blank(s[|s| - 1]) then Strip(s[..|s| - 1])
    else s
  }

  lemma {:induction false} StripKeepsFirst(s: string)
    requires s != "" && !Blank(s[0])
    ensures Strip(s) != "" && Strip(s)[0] == s[0]
    decreases |s|
  {
    if Blank(s[|s| - 1]) {
      StripKeepsFirst(s[..|s| - 1]);
    }
  }

  /** What the restorer, or a client, makes of one event. */
  datatype Seen = Nothing | EndOfStream | Parsed(data: seq<Field>)

  function See(codec: Codec, lines: seq<string>): Seen {
    var payload := JoinLines(DataOf(lines));
    if DataOf(lines) == [] then Nothing
    else if Strip(payload) == "[DONE]" then EndOfStream
    else match codec.parse(payload)
      case Some(Object(fields)) => Parsed(fields)
      case _ => Nothing
  }

  /** What a reader of the stream takes from one event: the channels it closes, and the text it
      carries. */
  datatype Reading = Reading(flushes: seq<Channel>, flushAll: bool, fragment: Option<(Channel, string)>)

  const Silent := Reading([], false, None)

  function Read(spec: Spec, codec: Codec, lines: seq<string>): Reading {
    match See(codec, lines)
    case Nothing => Silent
    case EndOfStream => Silent.(flushAll := true)
    case Parsed(data) => ReadData(spec, data)
  }

  function ReadData(spec: Spec, data: seq<Field>): Reading {
    Reading(spec.classify(data).flush, spec.classify(data).flushAll, Fragment(spec, Object(data)))
  }

  lemma {:induction false} DumpedIsSeen(codec: Codec, lines: seq<string>, data: seq<Field>)
    requires codec.Sound() && WellFormedFields(codec.prints, data) && DataOf(lines) == [codec.dump(Object(data))]
    ensures See(codec, lines) == Parsed(data)
  {
    assert WellFormed(codec.prints, Object(data));
    StripKeepsFirst(codec.dump(Object(data)));
  }

  lemma {:induction false} SeenIsWellFormed(codec: Codec, lines: seq<string>)
    requires codec.Sound() && See(codec, lines).Parsed?
    ensures WellFormed(codec.prints, Object(See(codec, lines).data))
  {
  }

  /** An event rewritten to hold an object is seen as that object. */
  lemma {:induction false} RewrittenIsSeen(codec: Codec, lines: seq<string>, data: seq<Field>)
    requires codec.Sound() && WellFormedFields(codec.prints, data) && DataOf(lines) != []
    ensures See(codec, ReplaceData(lines, codec.dump(Object(data)))) == Parsed(data)
  {
    ReplacedReadsBack(lines, codec.dump(Object(data)));
    DumpedIsSeen(codec, ReplaceData(lines, codec.dump(Object(data))), data);
  }

  predicate SolidLine(line: string) {
    line != "" && OneLine(line)
  }

  predicate SolidLines(lines: seq<string>) {
    forall line :: line in lines ==> SolidLine(line)
  }

  /** An event as it stands between the blank lines of a stream. */
  predicate Solid(event: seq<string>) {
    event != [] && SolidLines(event)
  }

  lemma {:induction false} SolidLinesMore(a: seq<string>, line: string)
    requires SolidLines(a) && SolidLine(line)
    ensures SolidLines(a + [line])
  {
  }

  lemma {:induction false} PayloadIsSolid(payload: string)
    requires OneLine(payload)
    ensures SolidLine(DATA + " " + payload)
  {
  }

  lemma {:induction false} ReplacedIsSolid(lines: seq<string>, payload: string)
    requires OneLine(payload) && SolidLines(lines)
    ensures SolidLines(ReplaceData(lines, payload))
    decreases |lines|
  {
    if lines != [] {
      var n := |lines| - 1;
      var before := ReplaceData(lines[..n], payload);
      ReplacedIsSolid(lines[..n], payload);
      assert lines[n] in lines;
      PayloadIsSolid(payload);
      SolidLinesMore(before, lines[n]);
      SolidLinesMore(before, DATA + " " + payload);
      assert before + [] == before;
    }
  }

  lemma {:induction false} ReplacedIsThere(lines: seq<string>, payload: string)
    requires lines != []
    ensures ReplaceData(lines, payload) != []
  {
    ReplacedReadsBack(lines, payload);
    var n := |lines| - 1;
    if DATA <= lines[n] { assert DataOf(lines) != []; }
  }

  // ----- the text of a stream -----

  /** An event as it is sent: its lines, and a blank one. */
  function Block(event: seq<string>): string {
    JoinLines(event) + "\n\n"
  }

  function Emitted(events: seq<seq<string>>): string {
    if events == [] then "" else Emitted(events[..|events| - 1]) + Block(events[|events| - 1])
  }

  /** Position of the first line break, or the end of the text. */
  function BreakAt(s: string): (n: nat)
    ensures n <= |s| && OneLine(s[..n])
    ensures n < |s| ==> s[n] == '\n' || s[n] == '\r'
  {
    if s == "" || s[0] == '\n' || s[0] == '\r' then 0
    else
      assert s[..1 + BreakAt(s[1..])] == [s[0]] + s[1..][..BreakAt(s[1..])];
      1 + BreakAt(s[1..])
  }

  /** The lines of a text as the event stream format takes them: a line ends with a line feed, a
      carriage return, or both. */
  function SplitLines(s: string): seq<string> {
    if s == "" then []
    else
      var n := BreakAt(s);
      if n == |s| then [s]
      else if s[n] == '\r' && n + 1 < |s| && s[n + 1] == '\n' then [s[..n]] + SplitLines(s[n + 2..])
      else [s[..n]] + SplitLines(s[n + 1..])
  }

  /** Lines, each with its line feed. */
  function LineText(lines: seq<string>): string {
    if lines == [] then "" else lines[0] + "\n" + LineText(lines[1..])
  }

  lemma {:induction false} BreakAfter(line: string, rest: string)
    requires OneLine(line)
    ensures BreakAt(line + "\n" + rest) == |line|
    decreases |line|
  {
    var s := line + "\n" + rest;
    if line == "" {
      assert s[0] == '\n';
    } else {
      assert s[0] == line[0] && s[1..] == line[1..] + "\n" + rest;
      BreakAfter(line[1..], rest);
    }
  }

  lemma {:induction false} SplitFirst(line: string, rest: string)
    requires OneLine(line)
    ensures SplitLines(line + "\n" + rest) == [line] + SplitLines(rest)
  {
    var s := line + "\n" + rest;
    BreakAfter(line, rest);
    assert s[..|line|] == line && s[|line| + 1..] == rest && s[|line|] == '\n';
  }

  lemma {:induction false} SplitLineText(lines: seq<string>)
    requires forall line :: line in lines ==> OneLine(line)
    ensures SplitLines(LineText(lines)) == lines
    decreases |lines|
  {
    if lines != [] {
      SplitLineText(lines[1..]);
      SplitFirst(lines[0], LineText(lines[1..]));
    }
  }

  lemma {:induction false} LineTextConcat(a: seq<string>, b: seq<string>)
    ensures LineText(a + b) == LineText(a) + LineText(b)
    decreases |a|
  {
    if a == [] {
      assert a + b == b;
    } else {
      assert (a + b)[1..] == a[1..] + b;
      LineTextConcat(a[1..], b);
    }
  }

  lemma {:induction false} JoinedLines(lines: seq<string>)
    requires lines != []
    ensures JoinLines(lines) + "\n" == LineText(lines)
    decreases |lines|
  {
    var n := |lines| - 1;
    OneLineText(lines[n]);
    if n == 0 {
      assert lines == [lines[0]];
    } else {
      JoinedLines(lines[..n]);
      LineTextConcat(lines[..n], [lines[n]]);
      assert lines == lines[..n] + [lines[n]];
    }
  }

  lemma {:induction false} OneLineText(line: string)
    ensures LineText([line]) == line + "\n"
  {
    assert [line][1..] == [] && line + "\n" + "" == line + "\n";
  }

  lemma {:induction false} BlockIsLines(event: seq<string>)
    requires event != []
    ensures Block(event) == LineText(event + [""])
  {
    JoinedLines(event);
    LineTextConcat(event, [""]);
    OneLineText("");
    assert JoinLines(event) + "\n\n" == (JoinLines(event) + "\n") + "\n";
  }

  // ----- flush events -----

  /** The SSE block of a flush event. */
  function FlushBlock(spec: Spec, codec: Codec, c: Channel, remaining: string): seq<string> {
    var e := spec.flushEvent(c, remaining);
    ["event: " + e.name, "data: " + codec.dump(Object(e.data))]
  }

  lemma {:induction false} FlushBlockData(name: string, payload: string)
    ensures DataOf(["event: " + name, "data: " + payload]) == [payload]
  {
    var block := ["event: " + name, "data: " + payload];
    assert block[..1] == [block[0]] && block[..1][..0] == [] && block[..2][..1] == block[..1];
    assert block[0][0] == 'e';
    assert DataOf(block[..1]) == [];
    assert block[1][|DATA|..] == " " + payload && (" " + payload)[1..] == payload;
  }

  /** A channel the restorer can hold a buffer for. */
  predicate Named(spec: Spec, codec: Codec, c: Channel) {
    spec.names(c) && WellFormed(codec.prints, c.id)
  }

  lemma {:induction false} FlushBlockIsSolid(spec: Spec, codec: Codec, c: Channel, remaining: string)
    requires codec.Sound() && spec.Lawful(codec.prints) && Named(spec, codec, c)
    ensures Solid(FlushBlock(spec, codec, c, remaining))
  {
    var e := spec.flushEvent(c, remaining);
    var payload := codec.dump(Object(e.data));
    assert OneLine(e.name) && OneLine(payload);
  }

  /** The channel of a delta that was parsed is one. */
  lemma {:induction false} DeltaIsNamed(spec: Spec, codec: Codec, data: seq<Field>)
    requires spec.Lawful(codec.prints) && WellFormed(codec.prints, Object(data)) && Fragment(spec, Object(data)).Some?
    ensures Named(spec, codec, Fragment(spec, Object(data)).value.0)
  {
    assert spec.classify(data) == spec.classify(data);
  }

  /** A client reads a flush block as text of its channel. */
  lemma {:induction false} FlushBlockIsRead(spec: Spec, codec: Codec, c: Channel, remaining: string)
    requires codec.Sound() && spec.Lawful(codec.prints) && Named(spec, codec, c)
    ensures Read(spec, codec, FlushBlock(spec, codec, c, remaining)).fragment == Some((c, remaining))
  {
    var e := spec.flushEvent(c, remaining);
    FlushBlockData(e.name, codec.dump(Object(e.data)));
    DumpedIsSeen(codec, FlushBlock(spec, codec, c, remaining), e.data);
  }

  // ----- rewritten events -----

  lemma {:induction false} NotDeltaNoFragment(spec: Spec, data: seq<Field>)
    requires spec.classify(data).kind != Delta
    ensures Fragment(spec, Object(data)) == None
  {
  }

  /** The text an event carries once it is restored as a whole. */
  function Gain(m: Fakes, codec: Codec, spec: Spec, lines: seq<string>): Option<(Channel, string)>
    requires codec.Sound()
  {
    match See(codec, lines)
    case Parsed(data) =>
      if spec.classify(data).kind == Restored then Fragment(spec, RestoreTree(m, codec, spec.skip, Object(data))) else None
    case _ => None
  }

  /** An event that is restored as a whole carries no text, and its rewritten form what it gains. */
  lemma {:induction false} RestoredIsRead(m: Fakes, codec: Codec, spec: Spec, lines: seq<string>, data: seq<Field>)
    requires codec.Sound() && See(codec, lines) == Parsed(data) && spec.classify(data).kind == Restored
    ensures Read(spec, codec, lines).fragment == None
    ensures Read(spec, codec, ReplaceData(lines, codec.dump(RestoreTree(m, codec, spec.skip, Object(data))))).fragment
         == Gain(m, codec, spec, lines)
  {
    SeenIsWellFormed(codec, lines);
    RestoredTree(m, codec, spec.skip, Object(data));
    StaysObject(m, codec, spec.skip, data);
    RewrittenIsSeen(codec, lines, RestoreTree(m, codec, spec.skip, Object(data)).fields);
    NotDeltaNoFragment(spec, data);
  }

  lemma {:induction false} StaysObject(m: Fakes, codec: Codec, skip: set<string>, data: seq<Field>)
    requires codec.Sound()
    ensures RestoreTree(m, codec, skip, Object(data)).Object?
  {
  }

  /** A rewritten delta carries the new text for the same channel. */
  lemma {:induction false} RewrittenDelta(spec: Spec, codec: Codec, lines: seq<string>, data: seq<Field>, out: string)
    requires codec.Sound() && spec.Lawful(codec.prints) && See(codec, lines) == Parsed(data) && Fragment(spec, Object(data)).Some?
    ensures var fed := PutText(Object(data), spec.classify(data).path, out);
            Read(spec, codec, ReplaceData(lines, codec.dump(fed))).fragment == Some((Fragment(spec, Object(data)).value.0, out))
  {
    var fed := PutText(Object(data), spec.classify(data).path, out);
    SeenIsWellFormed(codec, lines);
    PutTextIsWellFormed(codec.prints, Object(data), spec.classify(data).path, out);
    RewrittenIsSeen(codec, lines, fed.fields);
  }

  lemma {:induction false} UntouchedDelta(spec: Spec, codec: Codec, lines: seq<string>, data: seq<Field>)
    requires codec.Sound() && See(codec, lines) == Parsed(data)
    ensures Read(spec, codec, ReplaceData(lines, codec.dump(Object(data)))).fragment == Read(spec, codec, lines).fragment
  {
    SeenIsWellFormed(codec, lines);
    RewrittenIsSeen(codec, lines, data);
  }

  /** An event whose type name holds a fake: restored, it turns into a delta with its own text. */
  lemma {:induction false} RenamedEventGainsText(codec: Codec, lines: seq<string>)
    requires codec.Sound() && See(codec, lines) == Parsed([Field("type", String("<A_1>")), Field("delta", String("x"))])
    ensures var m: Fakes := map["<A_1>" := "response.refusal.delta"];
            var spec := SpecOf(OpenAIResponses);
            var data := [Field("type", String("<A_1>")), Field("delta", String("x"))];
            Read(spec, codec, lines).fragment == None
            && Read(spec, codec, ReplaceData(lines, codec.dump(RestoreTree(m, codec, spec.skip, Object(data))))).fragment
               == Some((Channel("response.refusal.delta", ZERO), "x"))
  {
    var m: Fakes := map["<A_1>" := "response.refusal.delta"];
    var spec := SpecOf(OpenAIResponses);
    var data := [Field("type", String("<A_1>")), Field("delta", String("x"))];
    SeenIsWellFormed(codec, lines);
    RestoredTree(m, codec, spec.skip, Object(data));
    RenamedTree(m, codec, spec.skip);
    var restored := [Field("type", String("response.refusal.delta")), Field("delta", String("x"))];
    RewrittenIsSeen(codec, lines, restored);
    FakeIsNoDelta();
    RenamedFragment(data, "<A_1>");
    RenamedFragment(restored, "response.refusal.delta");
  }

  lemma {:induction false} RenamedTree(m: Fakes, codec: Codec, skip: set<string>)
    requires codec.Sound() && "<A_1>" !in skip && m == map["<A_1>" := "response.refusal.delta"]
    ensures RestoreTree(m, codec, skip, Object([Field("type", String("<A_1>")), Field("delta", String("x"))]))
         == Object([Field("type", String("response.refusal.delta")), Field("delta", String("x"))])
  {
    var data := [Field("type", String("<A_1>")), Field("delta", String("x"))];
    assert data[1..] == [Field("delta", String("x"))] && data[1..][1..] == [];
    RestoreFake(m, "<A_1>");
    assert forall i: nat, n: nat :: !Holds(m, "x", i, n);
    RestoreFixes(m, "x");
    assert RestoreFields(m, codec, skip, data[1..]) == [Field("delta", String("x"))];
  }

  lemma {:induction false} FakeIsNoDelta()
    ensures "<A_1>" !in DELTA_EVENTS && "response.refusal.delta" in DELTA_EVENTS
  {
  }

  lemma {:induction false} RenamedFragment(data: seq<Field>, etype: string)
    requires data == [Field("type", String(etype)), Field("delta", String("x"))]
    ensures Fragment(SpecOf(OpenAIResponses), Object(data)) == if etype in DELTA_EVENTS then Some((Channel(etype, ZERO), "x")) else None
  {
    RenamedReads(data, etype);
  }

  lemma {:induction false} RenamedReads(data: seq<Field>, etype: string)
    requires data == [Field("type", String(etype)), Field("delta", String("x"))]
    ensures Get(data, "type") == Some(String(etype)) && Get(data, "item_id") == None && Get(data, "output_index") == None
    ensures TextAt(Object(data), ["delta"]) == Some("x")
  {
    assert data[1..] == [Field("delta", String("x"))] && data[1..][1..] == [] && ["delta"][1..] == [];
    assert Get(data[1..], "item_id") == Get(data[1..][1..], "item_id") == None;
    assert Get(data[1..], "output_index") == Get(data[1..][1..], "output_index") == None;
    assert Get(data, "delta") == Get(data[1..], "delta") == Some(String("x"));
  }
}
