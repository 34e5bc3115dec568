/**
 privaite/gateway/restore.py: restoring complete values.
 */
module WholeValues {
  import opened Wrappers
  import opened Literals
  import opened DeAnonymizer
  import opened JsonTree

  /** The JSON library, and the texts it prints numbers as. */
  datatype Codec = Codec(parse: string -> Option<Json>, dump: Json -> string, prints: string -> bool) {
    /** A document has no repeated key, every number as the library prints it, and is no larger
        than its source. */
    ghost predicate ParsesWell() {
      forall s {:trigger parse(s)} :: parse(s).Some? ==> WellFormed(prints, parse(s).value) && Size(parse(s).value) <= |s|
    }

    /** Parsing undoes dumping, and a dump is one line. */
    ghost predicate DumpsWell() {
      forall j {:trigger dump(j)} :: WellFormed(prints, j) ==> parse(dump(j)) == Some(j) && OneLine(dump(j))
    }

    /** An object is dumped as text that starts with a brace. */
    ghost predicate ObjectsInBraces() {
      forall f {:trigger dump(Object(f))} :: WellFormed(prints, Object(f)) ==> dump(Object(f)) != "" && dump(Object(f))[0] == '{'
    }

    ghost predicate Sound() {
      ParsesWell() && DumpsWell() && ObjectsInBraces() && prints("0")
    }
  }

  function Size(v: Json): nat
    decreases v, 1
  {
    match v
    case String(s) => |s| + 1
    case Array(items) => 1 + ItemsSize(items)
    case Object(fields) => 1 + FieldsSize(fields)
    case _ => 1
  }

  function ItemsSize(items: seq<Json>): nat
    decreases items, 0
  {
    if items == [] then 0 else Size(items[0]) + ItemsSize(items[1..])
  }

  function FieldsSize(fields: seq<Field>): nat
    decreases fields, 0
  {
    if fields == [] then 0 else Size(fields[0].value) + FieldsSize(fields[1..])
  }

  /** Restore every string leaf, except inside blocks whose type is skipped. A string under
      `arguments` is JSON source text and is restored on its parsed tree. */
  function RestoreTree(m: Fakes, codec: Codec, skip: set<string>, v: Json): Json
    requires codec.Sound()
    decreases Size(v), 2
  {
    match v
    case String(s) => String(Restore(m, s))
    case Array(items) => Array(RestoreItems(m, codec, skip, items))
    case Object(fields) =>
      (match Get(fields, "type")
       case Some(String(t)) => if t in skip then v else Object(RestoreFields(m, codec, skip, fields))
       case _ => Object(RestoreFields(m, codec, skip, fields)))
    case _ => v
  }

  function RestoreItems(m: Fakes, codec: Codec, skip: set<string>, items: seq<Json>): seq<Json>
    requires codec.Sound()
    decreases ItemsSize(items), 4, |items|
  {
    if items == [] then []
    else
      assert Size(items[0]) > 0;
      [RestoreTree(m, codec, skip, items[0])] + RestoreItems(m, codec, skip, items[1..])
  }

  function RestoreFields(m: Fakes, codec: Codec, skip: set<string>, fields: seq<Field>): seq<Field>
    requires codec.Sound()
    decreases FieldsSize(fields), 4, |fields|
  {
    if fields == [] then []
    else [Field(fields[0].key, RestoreField(m, codec, skip, fields[0]))] + RestoreFields(m, codec, skip, fields[1..])
  }

  function RestoreField(m: Fakes, codec: Codec, skip: set<string>, f: Field): Json
    requires codec.Sound()
    decreases Size(f.value), 3
  {
    if f.key == "arguments" && f.value.String? then String(RestoreArguments(m, codec, f.value.s))
    else RestoreTree(m, codec, skip, f.value)
  }

  function RestoreArguments(m: Fakes, codec: Codec, arguments: string): string
    requires codec.Sound()
    decreases |arguments| + 1, 0
  {
    var plain := Restore(m, arguments);
    if plain == arguments then arguments
    else if codec.parse(arguments) == None then plain
    else codec.dump(RestoreTree(m, codec, {}, codec.parse(arguments).value))
  }

  /** A restored document is one a parser can return. */
  lemma {:induction false} RestoredTree(m: Fakes, codec: Codec, skip: set<string>, v: Json)
    requires codec.Sound() && WellFormed(codec.prints, v)
    ensures WellFormed(codec.prints, RestoreTree(m, codec, skip, v))
    decreases v, 1
  {
    match v
    case Array(items) => RestoredItems(m, codec, skip, items);
    case Object(fields) => RestoredFields(m, codec, skip, fields);
    case _ =>
  }

  lemma {:induction false} RestoredItems(m: Fakes, codec: Codec, skip: set<string>, items: seq<Json>)
    requires codec.Sound() && WellFormedItems(codec.prints, items)
    ensures WellFormedItems(codec.prints, RestoreItems(m, codec, skip, items))
    decreases items, 0
  {
    if items != [] {
      RestoredTree(m, codec, skip, items[0]);
      RestoredItems(m, codec, skip, items[1..]);
      var first, rest := RestoreTree(m, codec, skip, items[0]), RestoreItems(m, codec, skip, items[1..]);
      assert ([first] + rest)[1..] == rest;
    }
  }

  lemma {:induction false} RestoredFields(m: Fakes, codec: Codec, skip: set<string>, fields: seq<Field>)
    requires codec.Sound() && WellFormedFields(codec.prints, fields)
    ensures WellFormedFields(codec.prints, RestoreFields(m, codec, skip, fields))
    decreases fields, 0
  {
    if fields != [] {
      RestoredTree(m, codec, skip, fields[0].value);
      RestoredFields(m, codec, skip, fields[1..]);
      KeyKept(m, codec, skip, fields[1..], fields[0].key);
      var rest := RestoreFields(m, codec, skip, fields[1..]);
      assert ([Field(fields[0].key, RestoreField(m, codec, skip, fields[0]))] + rest)[1..] == rest;
    }
  }

  lemma {:induction false} KeyKept(m: Fakes, codec: Codec, skip: set<string>, fields: seq<Field>, key: string)
    requires codec.Sound()
    ensures Get(RestoreFields(m, codec, skip, fields), key) == None <==> Get(fields, key) == None
    decreases |fields|
  {
    if fields != [] {
      KeyKept(m, codec, skip, fields[1..], key);
      var rest := RestoreFields(m, codec, skip, fields[1..]);
      assert ([Field(fields[0].key, RestoreField(m, codec, skip, fields[0]))] + rest)[1..] == rest;
    }
  }

  /** Arguments that are JSON: what the client parses is the restored tree, unless the raw text
      reads as free of fakes and some leaf of the tree is not. */
  lemma {:induction false} ArgumentsAreRestored(m: Fakes, codec: Codec, arguments: string, v: Json)
    requires codec.Sound() && codec.parse(arguments) == Some(v)
    ensures codec.parse(RestoreArguments(m, codec, arguments)) == Some(RestoreTree(m, codec, {}, v))
       <==> (Restore(m, arguments) != arguments || RestoreTree(m, codec, {}, v) == v)
  {
    RestoredTree(m, codec, {}, v);
  }

  lemma {:induction false} FakeHasBracket(m: Fakes, s: string, i: nat, n: nat)
    requires Bracketing(m) && Holds(m, s, i, n)
    ensures '<' in s
  {
    assert Bracketed(s[i..i + n]) && s[i] == s[i..i + n][0];
  }

  /** Such arguments: a fake whose bracket is written as an escape stays in the tree. */
  lemma {:induction false} EscapedFakeStays(codec: Codec)
    requires codec.Sound() && codec.parse("\"\\u003cPERSON_1>\"") == Some(String("<PERSON_1>"))
    ensures var m: Fakes := map["<PERSON_1>" := "Ann"];
            codec.parse(RestoreArguments(m, codec, "\"\\u003cPERSON_1>\"")) == Some(String("<PERSON_1>"))
            && RestoreTree(m, codec, {}, String("<PERSON_1>")) == String("Ann")
  {
    var m: Fakes := map["<PERSON_1>" := "Ann"];
    var arguments := "\"\\u003cPERSON_1>\"";
    assert '<' !in arguments;
    forall i: nat, n: nat ensures !Holds(m, arguments, i, n) {
      if Holds(m, arguments, i, n) { FakeHasBracket(m, arguments, i, n); }
    }
    RestoreFixes(m, arguments);
    RestoreFake(m, "<PERSON_1>");
  }

  lemma {:induction false} GetRestored(m: Fakes, codec: Codec, skip: set<string>, fields: seq<Field>, key: string)
    requires codec.Sound() && key != "arguments"
    ensures Get(RestoreFields(m, codec, skip, fields), key) ==
            (match Get(fields, key) case Some(v) => Some(RestoreTree(m, codec, skip, v)) case None => None)
    decreases |fields|
  {
    if fields != [] {
      GetRestored(m, codec, skip, fields[1..], key);
      var rest := RestoreFields(m, codec, skip, fields[1..]);
      var first := Field(fields[0].key, RestoreField(m, codec, skip, fields[0]));
      assert ([first] + rest)[1..] == rest;
    }
  }
}
