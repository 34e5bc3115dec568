/** JSON documents as parsed values. */
module JsonTree {
  import opened Wrappers

  /** A number is known by its decimal text. */
  datatype Json =
    | Null
    | Bool(b: bool)
    | Number(digits: string)
    | String(s: string)
    | Array(items: seq<Json>)
    | Object(fields: seq<Field>)

  datatype Field = Field(key: string, value: Json)

  function Get(fields: seq<Field>, key: string): Option<Json> {
    if fields == [] then None
    else if fields[0].key == key then Some(fields[0].value)
    else Get(fields[1..], key)
  }

  /** `fields` with the value of a present key replaced. */
  function Put(fields: seq<Field>, key: string, v: Json): seq<Field> {
    if fields == [] then []
    else if fields[0].key == key then [Field(key, v)] + fields[1..]
    else [fields[0]] + Put(fields[1..], key, v)
  }

  lemma {:induction false} GetPut(fields: seq<Field>, key: string, v: Json, other: string)
    ensures Get(Put(fields, key, v), other) ==
            if other == key && Get(fields, key).Some? then Some(v) else Get(fields, other)
    decreases |fields|
  {
    if fields != [] {
      if fields[0].key == key {
        assert ([Field(key, v)] + fields[1..])[1..] == fields[1..];
      } else {
        var rest := Put(fields[1..], key, v);
        assert ([fields[0]] + rest)[1..] == rest;
        GetPut(fields[1..], key, v, other);
      }
    }
  }

  /** The string at the end of a path of keys. */
  function TextAt(v: Json, path: seq<string>): Option<string>
    decreases |path|
  {
    if path == [] then (if v.String? then Some(v.s) else None)
    else if v.Object? && Get(v.fields, path[0]).Some? then TextAt(Get(v.fields, path[0]).value, path[1..])
    else None
  }

  /** The document with the string at the end of a path replaced. */
  function PutText(v: Json, path: seq<string>, text: string): Json
    decreases |path|
  {
    if path == [] then String(text)
    else if v.Object? && Get(v.fields, path[0]).Some? then
      Object(Put(v.fields, path[0], PutText(Get(v.fields, path[0]).value, path[1..], text)))
    else v
  }

  lemma {:induction false} TextAtPutText(v: Json, path: seq<string>, text: string)
    requires TextAt(v, path).Some?
    ensures TextAt(PutText(v, path, text), path) == Some(text)
    decreases |path|
  {
    if path != [] {
      var child := Get(v.fields, path[0]).value;
      TextAtPutText(child, path[1..], text);
      GetPut(v.fields, path[0], PutText(child, path[1..], text), path[0]);
    }
  }

  // ----- the values a parser returns -----

  /** No line break, as a reader of event streams takes one. */
  predicate OneLine(s: string) {
    '\n' !in s && '\r' !in s
  }

  /** Every number is text in `prints`, and no object has a key twice. */
  predicate WellFormed(prints: string -> bool, v: Json) {
    match v
    case Number(digits) => prints(digits)
    case Array(items) => WellFormedItems(prints, items)
    case Object(fields) => WellFormedFields(prints, fields)
    case _ => true
  }

  predicate WellFormedItems(prints: string -> bool, items: seq<Json>) {
    items == [] || (WellFormed(prints, items[0]) && WellFormedItems(prints, items[1..]))
  }

  predicate WellFormedFields(prints: string -> bool, fields: seq<Field>) {
    fields == [] || (&& WellFormed(prints, fields[0].value)
                     && Get(fields[1..], fields[0].key) == None
                     && WellFormedFields(prints, fields[1..]))
  }

  lemma {:induction false} GetIsWellFormed(prints: string -> bool, fields: seq<Field>, key: string)
    requires WellFormedFields(prints, fields) && Get(fields, key).Some?
    ensures WellFormed(prints, Get(fields, key).value)
    decreases |fields|
  {
    if fields[0].key != key { GetIsWellFormed(prints, fields[1..], key); }
  }

  lemma {:induction false} PutIsWellFormed(prints: string -> bool, fields: seq<Field>, key: string, v: Json)
    requires WellFormedFields(prints, fields) && WellFormed(prints, v)
    ensures WellFormedFields(prints, Put(fields, key, v))
    decreases |fields|
  {
    if fields != [] {
      if fields[0].key == key {
        assert ([Field(key, v)] + fields[1..])[1..] == fields[1..];
      } else {
        var rest := Put(fields[1..], key, v);
        assert ([fields[0]] + rest)[1..] == rest;
        PutIsWellFormed(prints, fields[1..], key, v);
        GetPut(fields[1..], key, v, fields[0].key);
      }
    }
  }

  lemma {:induction false} PutTextIsWellFormed(prints: string -> bool, v: Json, path: seq<string>, text: string)
    requires WellFormed(prints, v)
    ensures WellFormed(prints, PutText(v, path, text))
    decreases |path|
  {
    if path != [] && v.Object? && Get(v.fields, path[0]).Some? {
      var child := Get(v.fields, path[0]).value;
      GetIsWellFormed(prints, v.fields, path[0]);
      PutTextIsWellFormed(prints, child, path[1..], text);
      PutIsWellFormed(prints, v.fields, path[0], PutText(child, path[1..], text));
    }
  }

  /** The keys of an object that has the fields of a well-formed one are distinct. */
  lemma {:induction false} KeysAreDistinct(prints: string -> bool, fields: seq<Field>, i: nat, j: nat)
    requires WellFormedFields(prints, fields) && i < j < |fields|
    ensures fields[i].key != fields[j].key
    decreases i
  {
    if i > 0 {
      KeysAreDistinct(prints, fields[1..], i - 1, j - 1);
    } else {
      PresentKey(fields[1..], j - 1);
    }
  }

  lemma {:induction false} PresentKey(fields: seq<Field>, i: nat)
    requires i < |fields|
    ensures Get(fields, fields[i].key).Some?
    decreases i
  {
    if i > 0 { PresentKey(fields[1..], i - 1); }
  }
}
