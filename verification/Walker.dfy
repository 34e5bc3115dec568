/**
 The request walker and its inverse (`_walk_anonymize` and `_walk_deanonymize` of
 privaite/pii/engine.py) over JSON documents.
 */
module Walker {
  import opened Wrappers
  import opened JsonTree
  import opened Literals
  import opened Entities
  import opened Mapping
  import opened DeAnonymizer
  import opened Anonymization
  import opened RoundTrip

  /** What the detectors report for the n-th scanned text of a request. */
  type Detector = (nat, string) -> seq<Entity>

  /** Disjoint spans in the text, as the merge leaves them. */
  ghost predicate Delivers(detect: Detector) {
    forall n, text :: Separate(text, detect(n, text))
  }

  /** And none of a type that is masked or redacted. */
  ghost predicate DeliversReversible(cfg: Config, detect: Detector) {
    forall n, text :: Separate(text, detect(n, text)) && AllReversible(cfg, detect(n, text))
  }

  const MIN_NUMBER_DIGITS := 7

  function DigitCount(s: string): nat {
    if s == "" then 0 else (if IsDigit(s[0]) then 1 else 0) + DigitCount(s[1..])
  }

  /** The result of a walk: None when a scanned text was blocked, the number of texts scanned
      so far, and the mapping. */
  datatype Walked<T> = Walked(value: Option<T>, scanned: nat, after: MapState)

  ghost function ScanText(cfg: Config, detect: Detector, text: string, n: nat, st: MapState): Walked<string>
    requires Delivers(detect)
  {
    if text == "" then Walked(Some(text), n, st)
    else
      assert Separate(text, detect(n, text));
      var o := Anonymized(cfg, text, detect(n, text), st);
      Walked(o.text, n + 1, o.after)
  }

  ghost function Walk(cfg: Config, detect: Detector, v: Json, n: nat, st: MapState): Walked<Json>
    requires Delivers(detect)
    decreases v, 1
  {
    match v
    case String(s) =>
      var r := ScanText(cfg, detect, s, n, st);
      Walked(if r.value.None? then None else Some(String(r.value.value)), r.scanned, r.after)
    case Number(digits) =>
      if DigitCount(digits) < MIN_NUMBER_DIGITS then Walked(Some(v), n, st)
      else
        var r := ScanText(cfg, detect, digits, n, st);
        Walked(if r.value.None? then None
               else if r.value.value != digits then Some(String(r.value.value)) else Some(v),
               r.scanned, r.after)
    case Array(items) =>
      var r := WalkItems(cfg, detect, items, n, st);
      Walked(if r.value.None? then None else Some(Array(r.value.value)), r.scanned, r.after)
    case Object(fields) =>
      var r := WalkFields(cfg, detect, fields, n, st);
      Walked(if r.value.None? then None else Some(Object(r.value.value)), r.scanned, r.after)
    case _ => Walked(Some(v), n, st)
  }

  ghost function WalkItems(cfg: Config, detect: Detector, items: seq<Json>, n: nat, st: MapState): Walked<seq<Json>>
    requires Delivers(detect)
    decreases items, 0
  {
    if items == [] then Walked(Some([]), n, st)
    else
      var r := Walk(cfg, detect, items[0], n, st);
      if r.value.None? then Walked(None, r.scanned, r.after)
      else
        var rest := WalkItems(cfg, detect, items[1..], r.scanned, r.after);
        Walked(if rest.value.None? then None else Some([r.value.value] + rest.value.value),
               rest.scanned, rest.after)
  }

  ghost function WalkFields(cfg: Config, detect: Detector, fields: seq<Field>, n: nat, st: MapState): Walked<seq<Field>>
    requires Delivers(detect)
    decreases fields, 0
  {
    if fields == [] then Walked(Some([]), n, st)
    else
      var r := Walk(cfg, detect, fields[0].value, n, st);
      if r.value.None? then Walked(None, r.scanned, r.after)
      else
        var rest := WalkFields(cfg, detect, fields[1..], r.scanned, r.after);
        Walked(if rest.value.None? then None
               else Some([Field(fields[0].key, r.value.value)] + rest.value.value),
               rest.scanned, rest.after)
  }

  /** `_walk_deanonymize`: restore every string leaf. */
  function WalkBack(m: Fakes, v: Json): Json
    decreases v, 1
  {
    match v
    case String(s) => String(Restore(m, s))
    case Array(items) => Array(ItemsBack(m, items))
    case Object(fields) => Object(FieldsBack(m, fields))
    case _ => v
  }

  function ItemsBack(m: Fakes, items: seq<Json>): (r: seq<Json>)
    decreases items, 0
  {
    if items == [] then [] else [WalkBack(m, items[0])] + ItemsBack(m, items[1..])
  }

  function FieldsBack(m: Fakes, fields: seq<Field>): (r: seq<Field>)
    decreases fields, 0
  {
    if fields == [] then []
    else [Field(fields[0].key, WalkBack(m, fields[0].value))] + FieldsBack(m, fields[1..])
  }

  /** The same document, up to long numbers that come back as the string of their digits. */
  ghost predicate Mirrors(v: Json, back: Json)
    decreases v, 1
  {
    match v
    case Number(digits) => back == v || (back == String(digits) && DigitCount(digits) >= MIN_NUMBER_DIGITS)
    case Array(items) => back.Array? && ItemsMirror(items, back.items)
    case Object(fields) => back.Object? && FieldsMirror(fields, back.fields)
    case _ => back == v
  }

  ghost predicate ItemsMirror(items: seq<Json>, back: seq<Json>)
    decreases items, 0
  {
    if items == [] then back == []
    else back != [] && Mirrors(items[0], back[0]) && ItemsMirror(items[1..], back[1..])
  }

  ghost predicate FieldsMirror(fields: seq<Field>, back: seq<Field>)
    decreases fields, 0
  {
    if fields == [] then back == []
    else
      && back != [] && back[0].key == fields[0].key
      && Mirrors(fields[0].value, back[0].value) && FieldsMirror(fields[1..], back[1..])
  }

  /** From now on `walked` is restored to `v`. */
  ghost predicate ReturnsTo(st: MapState, walked: Json, v: Json) {
    forall final :: Later(st, final) ==> Mirrors(v, WalkBack(final.toOriginal, walked))
  }

  lemma {:induction false} ScanTextReturns(cfg: Config, detect: Detector, text: string, n: nat, st: MapState)
    requires DeliversReversible(cfg, detect) && Consistent(st)
    ensures var r := ScanText(cfg, detect, text, n, st);
            r.value.Some? && Later(st, r.after) && Settled(r.after, r.value.value, text)
  {
    if text == "" {
      forall final | Later(st, final) ensures Restore(final.toOriginal, "") == "" {}
    } else {
      assert Separate(text, detect(n, text));
      AnonymizedRestores(cfg, text, detect(n, text), st);
    }
  }

  /** The document that went out comes back, whatever the rest of the request adds to the
      mapping: same keys, same lengths, same leaves. */
  lemma {:induction false} WalkReturns(cfg: Config, detect: Detector, v: Json, n: nat, st: MapState)
    requires DeliversReversible(cfg, detect) && Consistent(st)
    ensures var r := Walk(cfg, detect, v, n, st);
            r.value.Some? && Later(st, r.after) && ReturnsTo(r.after, r.value.value, v)
    decreases v, 1
  {
    match v
    case String(s) =>
      ScanTextReturns(cfg, detect, s, n, st);
      var r := ScanText(cfg, detect, s, n, st);
      TextReturns(r.after, r.value.value, s);
    case Number(digits) =>
      if DigitCount(digits) >= MIN_NUMBER_DIGITS {
        ScanTextReturns(cfg, detect, digits, n, st);
        var r := ScanText(cfg, detect, digits, n, st);
        TextReturns(r.after, r.value.value, digits);
      }
    case Array(items) =>
      WalkItemsReturn(cfg, detect, items, n, st);
      var r := WalkItems(cfg, detect, items, n, st);
      ArrayReturns(r.after, r.value.value, items);
    case Object(fields) =>
      WalkFieldsReturn(cfg, detect, fields, n, st);
      var r := WalkFields(cfg, detect, fields, n, st);
      ObjectReturns(r.after, r.value.value, fields);
    case _ =>
  }

  lemma {:induction false} TextReturns(st: MapState, sent: string, text: string)
    requires Settled(st, sent, text)
    ensures ReturnsTo(st, String(sent), String(text))
    ensures DigitCount(text) >= MIN_NUMBER_DIGITS ==> ReturnsTo(st, String(sent), Number(text))
  {
  }

  lemma {:induction false} ArrayReturns(st: MapState, walked: seq<Json>, items: seq<Json>)
    requires ItemsReturn(st, walked, items)
    ensures ReturnsTo(st, Array(walked), Array(items))
  {
  }

  lemma {:induction false} ObjectReturns(st: MapState, walked: seq<Field>, fields: seq<Field>)
    requires FieldsReturn(st, walked, fields)
    ensures ReturnsTo(st, Object(walked), Object(fields))
  {
  }

  ghost predicate ItemsReturn(st: MapState, walked: seq<Json>, items: seq<Json>) {
    forall final :: Later(st, final) ==> ItemsMirror(items, ItemsBack(final.toOriginal, walked))
  }

  ghost predicate FieldsReturn(st: MapState, walked: seq<Field>, fields: seq<Field>) {
    forall final :: Later(st, final) ==> FieldsMirror(fields, FieldsBack(final.toOriginal, walked))
  }

  lemma {:induction false} WalkItemsReturn(cfg: Config, detect: Detector, items: seq<Json>, n: nat, st: MapState)
    requires DeliversReversible(cfg, detect) && Consistent(st)
    ensures var r := WalkItems(cfg, detect, items, n, st);
            r.value.Some? && Later(st, r.after) && ItemsReturn(r.after, r.value.value, items)
    decreases items, 0
  {
    if items != [] {
      var r := Walk(cfg, detect, items[0], n, st);
      WalkReturns(cfg, detect, items[0], n, st);
      var rest := WalkItems(cfg, detect, items[1..], r.scanned, r.after);
      WalkItemsReturn(cfg, detect, items[1..], r.scanned, r.after);
      ExtendsTransitive(st, r.after, rest.after);
      forall final | Later(rest.after, final)
        ensures ItemsMirror(items, ItemsBack(final.toOriginal, [r.value.value] + rest.value.value))
      {
        ExtendsTransitive(r.after, rest.after, final);
        assert Later(r.after, final);
        assert ([r.value.value] + rest.value.value)[1..] == rest.value.value;
        var back := ItemsBack(final.toOriginal, rest.value.value);
        assert ([WalkBack(final.toOriginal, r.value.value)] + back)[1..] == back;
      }
    }
  }

  lemma {:induction false} WalkFieldsReturn(cfg: Config, detect: Detector, fields: seq<Field>, n: nat, st: MapState)
    requires DeliversReversible(cfg, detect) && Consistent(st)
    ensures var r := WalkFields(cfg, detect, fields, n, st);
            r.value.Some? && Later(st, r.after) && FieldsReturn(r.after, r.value.value, fields)
    decreases fields, 0
  {
    if fields != [] {
      var r := Walk(cfg, detect, fields[0].value, n, st);
      WalkReturns(cfg, detect, fields[0].value, n, st);
      var rest := WalkFields(cfg, detect, fields[1..], r.scanned, r.after);
      WalkFieldsReturn(cfg, detect, fields[1..], r.scanned, r.after);
      ExtendsTransitive(st, r.after, rest.after);
      var first := Field(fields[0].key, r.value.value);
      forall final | Later(rest.after, final)
        ensures FieldsMirror(fields, FieldsBack(final.toOriginal, [first] + rest.value.value))
      {
        ExtendsTransitive(r.after, rest.after, final);
        assert Later(r.after, final);
        assert ([first] + rest.value.value)[1..] == rest.value.value;
        var back := FieldsBack(final.toOriginal, rest.value.value);
        assert ([Field(first.key, WalkBack(final.toOriginal, r.value.value))] + back)[1..] == back;
      }
    }
  }

  /** The walker as the engine runs it, on the shared mapping. */
  class DocumentWalker {
    const anonymizer: Anonymizer
    const detect: Detector
    var scanned: nat

    constructor (anonymizer: Anonymizer, detect: Detector)
      ensures this.anonymizer == anonymizer && this.detect == detect && scanned == 0
    {
      this.anonymizer := anonymizer;
      this.detect := detect;
      scanned := 0;
    }

    method AnonymizeText(text: string, mapping: PIIMapping) returns (r: Option<string>)
      requires Delivers(detect)
      modifies this, mapping
      ensures Walked(r, scanned, mapping.State())
           == ScanText(anonymizer.config, detect, text, old(scanned), old(mapping.State()))
    {
      if text == "" {
        return Some(text);
      }
      var entities := detect(scanned, text);
      scanned := scanned + 1;
      r := anonymizer.Anonymize(text, entities, mapping);
    }

    method WalkAnonymize(v: Json, mapping: PIIMapping) returns (r: Option<Json>)
      requires Delivers(detect)
      modifies this, mapping
      ensures Walked(r, scanned, mapping.State())
           == Walk(anonymizer.config, detect, v, old(scanned), old(mapping.State()))
      decreases v, 1
    {
      match v
      case String(s) =>
        var text := AnonymizeText(s, mapping);
        r := if text == None then None else Some(String(text.value));
      case Number(digits) =>
        if DigitCount(digits) < MIN_NUMBER_DIGITS {
          return Some(v);
        }
        var text := AnonymizeText(digits, mapping);
        r := if text == None then None
             else if text.value != digits then Some(String(text.value)) else Some(v);
      case Array(items) =>
        var done := WalkArray(items, mapping);
        r := if done == None then None else Some(Array(done.value));
      case Object(fields) =>
        var done := WalkObject(fields, mapping);
        r := if done == None then None else Some(Object(done.value));
      case _ =>
        return Some(v);
    }

    method WalkArray(items: seq<Json>, mapping: PIIMapping) returns (r: Option<seq<Json>>)
      requires Delivers(detect)
      modifies this, mapping
      ensures Walked(r, scanned, mapping.State())
           == WalkItems(anonymizer.config, detect, items, old(scanned), old(mapping.State()))
      decreases items, 0
    {
      var done: seq<Json> := [];
      ghost var all := WalkItems(anonymizer.config, detect, items, scanned, mapping.State());
      assert items[0..] == items && (all.value.Some? ==> done + all.value.value == all.value.value);
      for i := 0 to |items|
        invariant var rest := WalkItems(anonymizer.config, detect, items[i..], scanned, mapping.State());
                  all == Walked(if rest.value.None? then None else Some(done + rest.value.value), rest.scanned, rest.after)
      {
        assert items[i..][0] == items[i] && items[i..][1..] == items[i + 1..];
        var item := WalkAnonymize(items[i], mapping);
        if item == None {
          return None;
        }
        ghost var rest := WalkItems(anonymizer.config, detect, items[i + 1..], scanned, mapping.State());
        assert rest.value.Some? ==> done + ([item.value] + rest.value.value) == done + [item.value] + rest.value.value;
        done := done + [item.value];
      }
      assert items[|items|..] == [] && done + [] == done;
      return Some(done);
    }

    method WalkObject(fields: seq<Field>, mapping: PIIMapping) returns (r: Option<seq<Field>>)
      requires Delivers(detect)
      modifies this, mapping
      ensures Walked(r, scanned, mapping.State())
           == WalkFields(anonymizer.config, detect, fields, old(scanned), old(mapping.State()))
      decreases fields, 0
    {
      var done: seq<Field> := [];
      ghost var all := WalkFields(anonymizer.config, detect, fields, scanned, mapping.State());
      assert fields[0..] == fields && (all.value.Some? ==> done + all.value.value == all.value.value);
      for i := 0 to |fields|
        invariant var rest := WalkFields(anonymizer.config, detect, fields[i..], scanned, mapping.State());
                  all == Walked(if rest.value.None? then None else Some(done + rest.value.value), rest.scanned, rest.after)
      {
        assert fields[i..][0] == fields[i] && fields[i..][1..] == fields[i + 1..];
        var item := WalkAnonymize(fields[i].value, mapping);
        if item == None {
          return None;
        }
        var field := Field(fields[i].key, item.value);
        ghost var rest := WalkFields(anonymizer.config, detect, fields[i + 1..], scanned, mapping.State());
        assert rest.value.Some? ==> done + ([field] + rest.value.value) == done + [field] + rest.value.value;
        done := done + [field];
      }
      assert fields[|fields|..] == [] && done + [] == done;
      return Some(done);
    }
  }
}
