/**
 What the gateway theorems ask of a JSON library can be had: a notation with one line per
 document, a brace before the fields of an object, and no two documents alike.
 */
module SoundCodec {
  import opened Wrappers
  import opened JsonTree
  import opened WholeValues

  function Coded(c: char): string {
    if c == '\n' then "\\n" else if c == '\r' then "\\r" else if c == '\\' || c == '"' then ['\\', c] else [c]
  }

  function Quoted(s: string): string {
    if s == "" then "\"" else Coded(s[0]) + Quoted(s[1..])
  }

  function Written(v: Json): string
    decreases v, 1
  {
    match v
    case Null => "n"
    case Bool(b) => if b then "t" else "f"
    case Number(digits) => "#" + Quoted(digits)
    case String(s) => "\"" + Quoted(s)
    case Array(items) => "[" + WrittenItems(items)
    case Object(fields) => "{" + WrittenFields(fields)
  }

  function WrittenItems(items: seq<Json>): string
    decreases items, 0
  {
    if items == [] then "]" else "," + (Written(items[0]) + WrittenItems(items[1..]))
  }

  function WrittenFields(fields: seq<Field>): string
    decreases fields, 0
  {
    if fields == [] then "}" else "\"" + (Quoted(fields[0].key) + (Written(fields[0].value) + WrittenFields(fields[1..])))
  }

  // ----- one line, no shorter than its document -----

  lemma {:induction false} QuotedIsOneLine(s: string)
    ensures OneLine(Quoted(s)) && |s| < |Quoted(s)|
    decreases |s|
  {
    if s != "" { QuotedIsOneLine(s[1..]); }
  }

  lemma {:induction false} WrittenIsOneLine(v: Json)
    ensures OneLine(Written(v)) && Size(v) <= |Written(v)|
    decreases v, 1
  {
    match v
    case Number(digits) => QuotedIsOneLine(digits);
    case String(s) => QuotedIsOneLine(s);
    case Array(items) => ItemsAreOneLine(items);
    case Object(fields) => FieldsAreOneLine(fields);
    case _ =>
  }

  lemma {:induction false} ItemsAreOneLine(items: seq<Json>)
    ensures OneLine(WrittenItems(items)) && ItemsSize(items) < |WrittenItems(items)|
    decreases items, 0
  {
    if items != [] {
      WrittenIsOneLine(items[0]);
      ItemsAreOneLine(items[1..]);
    }
  }

  lemma {:induction false} FieldsAreOneLine(fields: seq<Field>)
    ensures OneLine(WrittenFields(fields)) && FieldsSize(fields) < |WrittenFields(fields)|
    decreases fields, 0
  {
    if fields != [] {
      QuotedIsOneLine(fields[0].key);
      WrittenIsOneLine(fields[0].value);
      FieldsAreOneLine(fields[1..]);
    }
  }

  // ----- no two documents alike -----

  /** The text after the first character, taken in two parts. */
  lemma {:induction false} Peel(c: string, p: string, r: string, x: string)
    requires |c| == 1
    ensures (c + (p + r) + x)[1..] == p + (r + x)
  {
  }

  lemma {:induction false} Shift(a: string, b: string, x: string)
    ensures (a + b) + x == a + (b + x)
  {
  }

  lemma {:induction false} SameRest(a: string, x: string, y: string)
    requires a + x == a + y
    ensures x == y
  {
    assert (a + x)[|a|..] == x && (a + y)[|a|..] == y;
  }

  lemma {:induction false} CodedApart(c: char, d: char, x: string, y: string)
    requires Coded(c) + x == Coded(d) + y
    ensures c == d && x == y
  {
    assert (Coded(c) + x)[0] == (Coded(d) + y)[0];
    assert |Coded(c)| == 2 && |Coded(d)| == 2 ==> (Coded(c) + x)[1] == (Coded(d) + y)[1];
    SameRest(Coded(c), x, y);
  }

  lemma {:induction false} QuotedApart(s: string, t: string, x: string, y: string)
    requires Quoted(s) + x == Quoted(t) + y
    ensures s == t && x == y
    decreases |s|
  {
    assert (Quoted(s) + x)[0] == (Quoted(t) + y)[0];
    if s == "" || t == "" {
      SameRest("\"", x, y);
    } else {
      Shift(Coded(s[0]), Quoted(s[1..]), x);
      Shift(Coded(t[0]), Quoted(t[1..]), y);
      CodedApart(s[0], t[0], Quoted(s[1..]) + x, Quoted(t[1..]) + y);
      QuotedApart(s[1..], t[1..], x, y);
      assert s == [s[0]] + s[1..] && t == [t[0]] + t[1..];
    }
  }

  /** Two documents that begin the same text are one. */
  lemma {:induction false} WrittenApart(a: Json, b: Json, x: string, y: string)
    requires Written(a) + x == Written(b) + y
    ensures a == b && x == y
    decreases a, 1
  {
    assert (Written(a) + x)[0] == (Written(b) + y)[0];
    Shift(Written(a)[..1], Written(a)[1..], x);
    Shift(Written(b)[..1], Written(b)[1..], y);
    assert Written(a) == Written(a)[..1] + Written(a)[1..] && Written(b) == Written(b)[..1] + Written(b)[1..];
    SameRest(Written(a)[..1], Written(a)[1..] + x, Written(b)[1..] + y);
    InnerApart(a, b, x, y);
  }

  lemma {:induction false} InnerApart(a: Json, b: Json, x: string, y: string)
    requires Written(a)[0] == Written(b)[0] && Written(a)[1..] + x == Written(b)[1..] + y
    ensures a == b && x == y
    decreases a, 0
  {
    match a
    case Number(digits) => QuotedApart(digits, b.digits, x, y);
    case String(text) => QuotedApart(text, b.s, x, y);
    case Array(items) => ItemsApart(items, b.items, x, y);
    case Object(fields) => FieldsApart(fields, b.fields, x, y);
    case _ => assert x == Written(a)[1..] + x && y == Written(b)[1..] + y;
  }

  lemma {:induction false} ItemsApart(a: seq<Json>, b: seq<Json>, x: string, y: string)
    requires WrittenItems(a) + x == WrittenItems(b) + y
    ensures a == b && x == y
    decreases a, 0
  {
    assert (WrittenItems(a) + x)[0] == (WrittenItems(b) + y)[0];
    if a != [] {
      var p, q := WrittenItems(a[1..]), WrittenItems(b[1..]);
      Peel(",", Written(a[0]), p, x);
      Peel(",", Written(b[0]), q, y);
      WrittenApart(a[0], b[0], p + x, q + y);
      ItemsApart(a[1..], b[1..], x, y);
      assert a == [a[0]] + a[1..] && b == [b[0]] + b[1..];
    } else {
      SameRest("]", x, y);
    }
  }

  lemma {:induction false} FieldsApart(a: seq<Field>, b: seq<Field>, x: string, y: string)
    requires WrittenFields(a) + x == WrittenFields(b) + y
    ensures a == b && x == y
    decreases a, 0
  {
    assert (WrittenFields(a) + x)[0] == (WrittenFields(b) + y)[0];
    if a != [] {
      var p, q := WrittenFields(a[1..]), WrittenFields(b[1..]);
      var v, w := Written(a[0].value), Written(b[0].value);
      Peel("\"", Quoted(a[0].key), v + p, x);
      Peel("\"", Quoted(b[0].key), w + q, y);
      QuotedApart(a[0].key, b[0].key, (v + p) + x, (w + q) + y);
      Shift(v, p, x);
      Shift(w, q, y);
      WrittenApart(a[0].value, b[0].value, p + x, q + y);
      FieldsApart(a[1..], b[1..], x, y);
      assert a == [a[0]] + a[1..] && b == [b[0]] + b[1..];
    } else {
      SameRest("}", x, y);
    }
  }

  // ----- the library -----

  ghost function ReadBack(prints: string -> bool, s: string): Option<Json> {
    if exists v :: WellFormed(prints, v) && Written(v) == s then
      var v :| WellFormed(prints, v) && Written(v) == s;
      Some(v)
    else None
  }

  lemma {:induction false} WrittenReadsBack(prints: string -> bool, v: Json)
    requires WellFormed(prints, v)
    ensures ReadBack(prints, Written(v)) == Some(v)
  {
    var w := ReadBack(prints, Written(v)).value;
    assert Written(w) + "" == Written(w) && Written(v) + "" == Written(v);
    WrittenApart(w, v, "", "");
  }

  /** For any numbers a library prints, zero among them, there is one that is sound. */
  lemma {:induction false} SoundCodecExists(prints: string -> bool) returns (codec: Codec)
    requires prints("0")
    ensures codec.Sound() && codec.prints == prints
  {
    codec := Codec(s => ReadBack(prints, s), v => Written(v), prints);
    forall v | WellFormed(prints, v)
      ensures codec.parse(codec.dump(v)) == Some(v) && OneLine(codec.dump(v))
    {
      WrittenReadsBack(prints, v);
      WrittenIsOneLine(v);
    }
    forall s | codec.parse(s).Some?
      ensures WellFormed(prints, codec.parse(s).value) && Size(codec.parse(s).value) <= |s|
    {
      WrittenIsOneLine(codec.parse(s).value);
    }
  }
}
