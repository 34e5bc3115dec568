/**
 privaite/gateway/restore.py: what a restored document holds at the end of every path of keys and
 indices.
 */
module RestoredLeaves {
  import opened Wrappers
  import opened DeAnonymizer
  import opened JsonTree
  import opened WholeValues

  datatype Turn = Key(key: string) | Index(i: nat)

  function Child(v: Json, turn: Turn): Option<Json> {
    match turn
    case Key(key) => if v.Object? then Get(v.fields, key) else None
    case Index(i) => if v.Array? && i < |v.items| then Some(v.items[i]) else None
  }

  /** The value at the end of a path. */
  function At(v: Json, path: seq<Turn>): Option<Json>
    decreases |path|
  {
    if path == [] then Some(v)
    else match Child(v, path[0])
      case None => None
      case Some(c) => At(c, path[1..])
  }

  predicate HasSkippedType(skip: set<string>, v: Json) {
    v.Object? && exists t :: t in skip && Get(v.fields, "type") == Some(String(t))
  }

  /** The path leads through, or to, an object of a skipped type. */
  ghost predicate Skipped(skip: set<string>, v: Json, path: seq<Turn>) {
    exists n :: 0 <= n <= |path| && At(v, path[..n]).Some? && HasSkippedType(skip, At(v, path[..n]).value)
  }

  function Keys(fields: seq<Field>): seq<string> {
    seq(|fields|, i requires 0 <= i < |fields| => fields[i].key)
  }

  /** What becomes of a value that is not skipped. A string under the key "arguments" is JSON source
      text, and treated as such. */
  ghost predicate Becomes(m: Fakes, codec: Codec, path: seq<Turn>, x: Json, w: Json)
    requires codec.Sound()
  {
    match x
    case String(s) =>
      w == String(if path != [] && path[|path| - 1] == Key("arguments") then RestoreArguments(m, codec, s) else Restore(m, s))
    case Array(items) => w.Array? && |w.items| == |items|
    case Object(fields) => w.Object? && Keys(w.fields) == Keys(fields)
    case _ => w == x
  }

  /** At the end of a path: nothing where there was nothing, the same value where it is skipped, and
      what becomes of it otherwise. */
  ghost predicate RestoredAt(m: Fakes, codec: Codec, skip: set<string>, v: Json, w: Json, path: seq<Turn>)
    requires codec.Sound()
  {
    match At(v, path)
    case None => At(w, path) == None
    case Some(x) =>
      && At(w, path).Some?
      && if Skipped(skip, v, path) then At(w, path).value == x else Becomes(m, codec, path, x, At(w, path).value)
  }

  ghost predicate RestoredEverywhere(m: Fakes, codec: Codec, skip: set<string>, v: Json, w: Json)
    requires codec.Sound()
  {
    forall path {:trigger At(w, path)} :: RestoredAt(m, codec, skip, v, w, path)
  }

  // ----- the restore, step by step -----

  /** What becomes of a child. */
  function ChildRestored(m: Fakes, codec: Codec, skip: set<string>, turn: Turn, c: Json): Json
    requires codec.Sound()
  {
    if turn == Key("arguments") && c.String? then String(RestoreArguments(m, codec, c.s)) else RestoreTree(m, codec, skip, c)
  }

  lemma {:induction false} ItemRestored(m: Fakes, codec: Codec, skip: set<string>, items: seq<Json>, i: nat)
    requires codec.Sound()
    ensures |RestoreItems(m, codec, skip, items)| == |items|
    ensures i < |items| ==> RestoreItems(m, codec, skip, items)[i] == RestoreTree(m, codec, skip, items[i])
    decreases |items|
  {
    if items != [] { ItemRestored(m, codec, skip, items[1..], if i > 0 then i - 1 else 0); }
  }

  lemma {:induction false} FieldRestored(m: Fakes, codec: Codec, skip: set<string>, fields: seq<Field>, key: string)
    requires codec.Sound()
    ensures Get(RestoreFields(m, codec, skip, fields), key)
         == match Get(fields, key)
            case None => None
            case Some(c) => Some(ChildRestored(m, codec, skip, Key(key), c))
    decreases |fields|
  {
    if fields != [] {
      FieldRestored(m, codec, skip, fields[1..], key);
      var rest := RestoreFields(m, codec, skip, fields[1..]);
      assert ([Field(fields[0].key, RestoreField(m, codec, skip, fields[0]))] + rest)[1..] == rest;
    }
  }

  lemma {:induction false} KeysStay(m: Fakes, codec: Codec, skip: set<string>, fields: seq<Field>)
    requires codec.Sound()
    ensures Keys(RestoreFields(m, codec, skip, fields)) == Keys(fields)
    decreases |fields|
  {
    if fields != [] {
      KeysStay(m, codec, skip, fields[1..]);
      KeysOfRest(fields);
      KeysOfRest(RestoreFields(m, codec, skip, fields));
      var rest := RestoreFields(m, codec, skip, fields[1..]);
      assert ([Field(fields[0].key, RestoreField(m, codec, skip, fields[0]))] + rest)[1..] == rest;
    }
  }

  lemma {:induction false} KeysOfRest(fields: seq<Field>)
    requires fields != []
    ensures Keys(fields) == [fields[0].key] + Keys(fields[1..])
  {
  }

  lemma {:induction false} TreeRestored(m: Fakes, codec: Codec, skip: set<string>, v: Json)
    requires codec.Sound()
    ensures HasSkippedType(skip, v) ==> RestoreTree(m, codec, skip, v) == v
    ensures !HasSkippedType(skip, v) ==> forall path {:trigger Becomes(m, codec, path, v, RestoreTree(m, codec, skip, v))} ::
              (path != [] && path[|path| - 1] == Key("arguments") && v.String?) || Becomes(m, codec, path, v, RestoreTree(m, codec, skip, v))
  {
    match v
    case Array(items) => ItemRestored(m, codec, skip, items, 0);
    case Object(fields) => KeysStay(m, codec, skip, fields);
    case _ =>
  }

  lemma {:induction false} ChildOfRestored(m: Fakes, codec: Codec, skip: set<string>, v: Json, turn: Turn)
    requires codec.Sound() && !HasSkippedType(skip, v)
    ensures Child(RestoreTree(m, codec, skip, v), turn)
         == match Child(v, turn)
            case None => None
            case Some(c) => Some(ChildRestored(m, codec, skip, turn, c))
  {
    match v
    case Array(items) => if turn.Index? { ItemRestored(m, codec, skip, items, turn.i); }
    case Object(fields) => if turn.Key? { FieldRestored(m, codec, skip, fields, turn.key); }
    case _ =>
  }

  lemma {:induction false} SkippedBelow(skip: set<string>, v: Json, c: Json, path: seq<Turn>)
    requires path != [] && Child(v, path[0]) == Some(c) && !HasSkippedType(skip, v)
    ensures Skipped(skip, v, path) <==> Skipped(skip, c, path[1..])
  {
    if Skipped(skip, v, path) {
      var n :| 0 <= n <= |path| && At(v, path[..n]).Some? && HasSkippedType(skip, At(v, path[..n]).value);
      assert n > 0 && path[..n][1..] == path[1..][..n - 1];
      assert At(c, path[1..][..n - 1]) == At(v, path[..n]);
    }
    if Skipped(skip, c, path[1..]) {
      var n :| 0 <= n <= |path[1..]| && At(c, path[1..][..n]).Some? && HasSkippedType(skip, At(c, path[1..][..n]).value);
      assert path[..n + 1][1..] == path[1..][..n];
      assert At(v, path[..n + 1]) == At(c, path[1..][..n]);
    }
  }

  lemma {:induction false} SkippedHere(skip: set<string>, v: Json, path: seq<Turn>)
    ensures HasSkippedType(skip, v) ==> Skipped(skip, v, path)
    ensures path == [] ==> (Skipped(skip, v, path) <==> HasSkippedType(skip, v))
  {
    assert path[..0] == [] && At(v, path[..0]) == Some(v);
  }

  /** A value whose path goes on below a key or an index, seen from there. */
  lemma {:induction false} BecomesBelow(m: Fakes, codec: Codec, path: seq<Turn>, x: Json, w: Json)
    requires codec.Sound() && |path| > 1
    ensures Becomes(m, codec, path, x, w) <==> Becomes(m, codec, path[1..], x, w)
  {
    assert path[1..][|path| - 2] == path[|path| - 1];
  }

  lemma {:induction false} AtRestored(m: Fakes, codec: Codec, skip: set<string>, v: Json, path: seq<Turn>)
    requires codec.Sound()
    ensures RestoredAt(m, codec, skip, v, RestoreTree(m, codec, skip, v), path)
    decreases |path|
  {
    var w := RestoreTree(m, codec, skip, v);
    SkippedHere(skip, v, path);
    TreeRestored(m, codec, skip, v);
    if path == [] {
      assert !HasSkippedType(skip, v) ==> Becomes(m, codec, path, v, w);
    } else if !HasSkippedType(skip, v) {
      ChildOfRestored(m, codec, skip, v, path[0]);
      if Child(v, path[0]).Some? { BelowRestored(m, codec, skip, v, path, Child(v, path[0]).value); }
    }
  }

  lemma {:induction false} BelowRestored(m: Fakes, codec: Codec, skip: set<string>, v: Json, path: seq<Turn>, c: Json)
    requires codec.Sound() && path != [] && !HasSkippedType(skip, v) && Child(v, path[0]) == Some(c)
    requires Child(RestoreTree(m, codec, skip, v), path[0]) == Some(ChildRestored(m, codec, skip, path[0], c))
    ensures RestoredAt(m, codec, skip, v, RestoreTree(m, codec, skip, v), path)
    decreases |path|, 0
  {
    SkippedBelow(skip, v, c, path);
    var rest := path[1..];
    if path[0] == Key("arguments") && c.String? {
      SkippedHere(skip, c, rest);
      if rest != [] {
        assert At(c, rest) == None;
      } else {
        assert path == [path[0]] && At(v, path) == Some(c);
        var w := ChildRestored(m, codec, skip, path[0], c);
        assert At(w, rest) == Some(w) && At(RestoreTree(m, codec, skip, v), path) == Some(w);
        assert Becomes(m, codec, path, c, w);
      }
    } else {
      AtRestored(m, codec, skip, c, rest);
      if rest == [] {
        assert path == [path[0]];
        TreeRestored(m, codec, skip, c);
        assert !HasSkippedType(skip, c) ==> Becomes(m, codec, path, c, RestoreTree(m, codec, skip, c)) || c.String?;
      } else if At(c, rest).Some? && At(RestoreTree(m, codec, skip, c), rest).Some? {
        BecomesBelow(m, codec, path, At(c, rest).value, At(RestoreTree(m, codec, skip, c), rest).value);
      }
    }
  }

  /** Every string of a document is restored, but those inside objects of a skipped type, and nothing
      else is changed: keys, lengths, numbers, and what is skipped stay as they are. */
  lemma {:induction false} TreeIsRestored(m: Fakes, codec: Codec, skip: set<string>, v: Json)
    requires codec.Sound()
    ensures RestoredEverywhere(m, codec, skip, v, RestoreTree(m, codec, skip, v))
  {
    forall path ensures RestoredAt(m, codec, skip, v, RestoreTree(m, codec, skip, v), path) {
      AtRestored(m, codec, skip, v, path);
    }
  }

  /** Arguments: left alone where their text holds no fake, restored as text where they are not JSON,
      and otherwise JSON in which every string is restored. */
  lemma {:induction false} ArgumentsBecome(m: Fakes, codec: Codec, arguments: string)
    requires codec.Sound()
    ensures Restore(m, arguments) == arguments ==> RestoreArguments(m, codec, arguments) == arguments
    ensures codec.parse(arguments) == None ==> RestoreArguments(m, codec, arguments) == Restore(m, arguments)
    ensures Restore(m, arguments) != arguments && codec.parse(arguments).Some? ==>
              exists w :: && codec.parse(RestoreArguments(m, codec, arguments)) == Some(w)
                          && RestoredEverywhere(m, codec, {}, codec.parse(arguments).value, w)
  {
    if Restore(m, arguments) != arguments && codec.parse(arguments).Some? {
      var v := codec.parse(arguments).value;
      RestoredTree(m, codec, {}, v);
      TreeIsRestored(m, codec, {}, v);
      assert codec.parse(RestoreArguments(m, codec, arguments)) == Some(RestoreTree(m, codec, {}, v));
    }
  }

  // ----- one string replaced -----

  /** A path of keys. */
  function KeyPath(path: seq<string>): seq<Turn> {
    seq(|path|, i requires 0 <= i < |path| => Key(path[i]))
  }

  /** Replacing the string at the end of a path changes nothing away from that path. */
  lemma {:induction false} PutTextElsewhere(v: Json, path: seq<string>, text: string, other: seq<Turn>)
    requires TextAt(v, path).Some? && !(other <= KeyPath(path)) && !(KeyPath(path) <= other)
    ensures At(PutText(v, path, text), other) == At(v, other)
    decreases |path|
  {
    var child := Get(v.fields, path[0]).value;
    GetPut(v.fields, path[0], PutText(child, path[1..], text), if other[0].Key? then other[0].key else "");
    assert KeyPath(path) == [Key(path[0])] + KeyPath(path[1..]) && other == [other[0]] + other[1..];
    if other[0] == Key(path[0]) { PutTextElsewhere(child, path[1..], text, other[1..]); }
  }
}
