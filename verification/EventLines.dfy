/**
 privaite/gateway/restore.py: what the lines of an event are read as, told from the lines themselves.
 */
module EventLines {
  import opened Wrappers
  import opened JsonTree
  import opened WholeValues
  import opened Protocols
  import opened ServerEvents

  // ----- data lines -----

  /** A line that holds a payload: behind "data:", and behind a space if there is one. */
  predicate HoldsData(line: string, payload: string) {
    line == "data: " + payload || (line == "data:" + payload && !(payload != "" && payload[0] == ' '))
  }

  predicate IsDataLine(line: string) {
    |line| >= 5 && line[..5] == "data:"
  }

  lemma {:induction false} DataLineHolds(line: string, payload: string)
    ensures HoldsData(line, payload) <==> DATA <= line && Unspaced(line[|DATA|..]) == payload
  {
    assert ("data: " + payload)[5..] == " " + payload && (" " + payload)[1..] == payload && "data: " == "data:" + " ";
    assert ("data:" + payload)[5..] == payload;
    if DATA <= line {
      var rest := line[5..];
      assert line == "data:" + rest;
      if rest != "" && rest[0] == ' ' { assert rest == " " + rest[1..]; }
    }
  }

  /** The places of the data lines, in order, and what these hold. */
  ghost predicate Places(lines: seq<string>, at: seq<int>, payloads: seq<string>) {
    && |at| == |payloads|
    && (forall i :: 0 <= i < |at| ==> 0 <= at[i] < |lines| && HoldsData(lines[at[i]], payloads[i]))
    && (forall i, j :: 0 <= i < j < |at| ==> at[i] < at[j])
    && (forall k :: 0 <= k < |lines| && k !in at ==> !IsDataLine(lines[k]))
  }

  lemma {:induction false} PlacesBefore(lines: seq<string>, at: seq<int>, payloads: seq<string>)
    requires lines != [] && Places(lines, at, payloads) && at != [] && at[|at| - 1] == |lines| - 1
    ensures Places(lines[..|lines| - 1], at[..|at| - 1], payloads[..|at| - 1])
  {
    var m := |at| - 1;
    assert at == at[..m] + [at[m]];
  }

  lemma {:induction false} PlacesWithout(lines: seq<string>, at: seq<int>, payloads: seq<string>)
    requires lines != [] && Places(lines, at, payloads) && (at == [] || at[|at| - 1] != |lines| - 1)
    ensures Places(lines[..|lines| - 1], at, payloads) && !IsDataLine(lines[|lines| - 1])
  {
    assert forall i :: 0 <= i < |at| ==> at[i] <= at[|at| - 1];
  }

  lemma {:induction false} LastLine(lines: seq<string>, payload: string)
    requires lines != []
    ensures HoldsData(lines[|lines| - 1], payload) ==> DataOf(lines) == DataOf(lines[..|lines| - 1]) + [payload]
    ensures !IsDataLine(lines[|lines| - 1]) ==> DataOf(lines) == DataOf(lines[..|lines| - 1])
  {
    DataLineHolds(lines[|lines| - 1], payload);
  }

  /** The data of an event is what its data lines hold, in order. */
  lemma {:induction false} DataExactly(lines: seq<string>, at: seq<int>, payloads: seq<string>)
    requires Places(lines, at, payloads)
    ensures DataOf(lines) == payloads
    decreases |lines|
  {
    if lines != [] {
      var n, m := |lines| - 1, |at| - 1;
      if at != [] && at[m] == n {
        PlacesBefore(lines, at, payloads);
        DataExactly(lines[..n], at[..m], payloads[..m]);
        LastLine(lines, payloads[m]);
        assert payloads == payloads[..m] + [payloads[m]];
      } else {
        PlacesWithout(lines, at, payloads);
        DataExactly(lines[..n], at, payloads);
        LastLine(lines, "");
      }
    }
  }

  // ----- what an event is taken for -----

  predicate AllBlank(s: string) {
    forall i :: 0 <= i < |s| ==> Blank(s[i])
  }

  /** White space, a text, and white space. */
  ghost predicate Surrounded(s: string, core: string) {
    exists a, b :: AllBlank(a) && AllBlank(b) && s == a + core + b
  }

  lemma {:induction false} BlankBefore(c: char, s: string, core: string)
    requires Blank(c) && Surrounded(s, core)
    ensures Surrounded([c] + s, core)
  {
    var a, b :| AllBlank(a) && AllBlank(b) && s == a + core + b;
    assert AllBlank([c] + a) && [c] + s == ([c] + a) + core + b;
  }

  lemma {:induction false} BlankBehind(s: string, c: char, core: string)
    requires Blank(c) && Surrounded(s, core)
    ensures Surrounded(s + [c], core)
  {
    var a, b :| AllBlank(a) && AllBlank(b) && s == a + core + b;
    assert AllBlank(b + [c]) && s + [c] == a + core + (b + [c]);
  }

  lemma {:induction false} StripSurrounds(s: string)
    ensures Surrounded(s, Strip(s))
    decreases |s|
  {
    if s == "" {
      assert AllBlank("") && s == "" + "" + "";
    } else if Blank(s[0]) {
      StripSurrounds(s[1..]);
      BlankBefore(s[0], s[1..], Strip(s));
      assert s == [s[0]] + s[1..];
    } else if Blank(s[|s| - 1]) {
      var n := |s| - 1;
      StripSurrounds(s[..n]);
      BlankBehind(s[..n], s[n], Strip(s));
      assert s == s[..n] + [s[n]];
    } else {
      assert AllBlank("") && s == "" + s + "";
    }
  }

  lemma {:induction false} StripBehind(core: string, b: string)
    requires AllBlank(b) && core != "" && !Blank(core[0]) && !Blank(core[|core| - 1])
    ensures Strip(core + b) == core
    decreases |b|
  {
    var s := core + b;
    if b != "" {
      StripBehind(core, b[..|b| - 1]);
      assert s[..|s| - 1] == core + b[..|b| - 1];
    } else {
      assert s == core;
    }
  }

  lemma {:induction false} StripIs(a: string, core: string, b: string)
    requires AllBlank(a) && AllBlank(b) && core != "" && !Blank(core[0]) && !Blank(core[|core| - 1])
    ensures Strip(a + core + b) == core
    decreases |a|
  {
    if a != "" {
      StripIs(a[1..], core, b);
      assert (a + core + b)[1..] == a[1..] + core + b;
    } else {
      StripBehind(core, b);
      assert a + core + b == core + b;
    }
  }

  /** An event is the end of the stream if and only if its data is "[DONE]", white space aside. */
  lemma {:induction false} DoneExactly(codec: Codec, lines: seq<string>)
    ensures See(codec, lines) == EndOfStream <==> DataOf(lines) != [] && Surrounded(JoinLines(DataOf(lines)), "[DONE]")
  {
    var payload := JoinLines(DataOf(lines));
    StripSurrounds(payload);
    assert !Blank('[') && !Blank(']');
    if Surrounded(payload, "[DONE]") {
      var a, b :| AllBlank(a) && AllBlank(b) && payload == a + "[DONE]" + b;
      StripIs(a, "[DONE]", b);
    }
  }

  /** Otherwise it is read as the object that its data parses to, if it does to one. */
  lemma {:induction false} ParsedExactly(codec: Codec, lines: seq<string>, data: seq<Field>)
    ensures See(codec, lines) == Parsed(data) <==>
            && DataOf(lines) != [] && !Surrounded(JoinLines(DataOf(lines)), "[DONE]")
            && codec.parse(JoinLines(DataOf(lines))) == Some(Object(data))
  {
    DoneExactly(codec, lines);
  }

  /** The data of several lines is joined by line breaks. */
  lemma {:induction false} DataIsJoined(payloads: seq<string>, last: string)
    requires payloads != []
    ensures JoinLines([last]) == last && JoinLines(payloads + [last]) == JoinLines(payloads) + "\n" + last
  {
    assert (payloads + [last])[..|payloads|] == payloads;
  }

  /** The end of a stream closes every channel and carries no text; an event with no such data does neither. */
  lemma {:induction false} EndClosesAll(spec: Spec, codec: Codec, lines: seq<string>)
    ensures DataOf(lines) == ["[DONE]"] ==> Read(spec, codec, lines) == Reading([], true, None)
    ensures DataOf(lines) == [] ==> Read(spec, codec, lines) == Reading([], false, None)
  {
    assert AllBlank("") && "" + "[DONE]" + "" == "[DONE]";
    DoneExactly(codec, lines);
  }
}
