/**
 privaite/pii/engine.py: what a scrubbed document holds at the end of every path of keys and indices.
 */
module ScrubbedLeaves {
  import opened Wrappers
  import opened JsonTree
  import opened Literals
  import opened Mapping
  import opened Anonymization
  import opened Walker
  import opened RestoredLeaves

  /** The digits of a text, counted. */
  function Digits(s: string): nat {
    |set i | 0 <= i < |s| && '0' <= s[i] <= '9'|
  }

  lemma {:induction false} DigitsAreCounted(s: string)
    ensures DigitCount(s) == Digits(s)
    decreases |s|
  {
    if s != "" {
      var n := |s| - 1;
      DigitsAreCounted(s[..n]);
      LastDigit(s);
      var before, all := set i | 0 <= i < n && '0' <= s[..n][i] <= '9', set i | 0 <= i < |s| && '0' <= s[i] <= '9';
      assert all == if '0' <= s[n] <= '9' then before + {n} else before;
    }
  }

  lemma {:induction false} LastDigit(s: string)
    requires s != ""
    ensures DigitCount(s) == DigitCount(s[..|s| - 1]) + if IsDigit(s[|s| - 1]) then 1 else 0
    decreases |s|
  {
    if |s| > 1 {
      LastDigit(s[1..]);
      assert s[1..][..|s| - 2] == s[..|s| - 1][1..];
    }
  }

  /** What a leaf's text is sent as: the anonymizer's answer to what the detectors report for it. */
  ghost predicate SentAs(cfg: Config, detect: Detector, text: string, sent: string)
    requires Delivers(detect)
  {
    if text == "" then sent == ""
    else exists n: nat, st: MapState {:trigger Answer(cfg, detect, text, n, st)} :: Answer(cfg, detect, text, n, st) == Some(sent)
  }

  ghost function Answer(cfg: Config, detect: Detector, text: string, n: nat, st: MapState): Option<string>
    requires Delivers(detect)
  {
    Anonymized(cfg, text, detect(n, text), st).text
  }

  /** What becomes of a value: every text is scanned, and every number of seven digits or more, which
      becomes a string only where something in it was found. */
  ghost predicate Scrubbed(cfg: Config, detect: Detector, x: Json, w: Json)
    requires Delivers(detect)
  {
    match x
    case String(s) => w.String? && SentAs(cfg, detect, s, w.s)
    case Number(digits) =>
      if Digits(digits) < 7 then w == x
      else (w == x && SentAs(cfg, detect, digits, digits)) || (w.String? && w.s != digits && SentAs(cfg, detect, digits, w.s))
    case Array(items) => w.Array? && |w.items| == |items|
    case Object(fields) => w.Object? && Keys(w.fields) == Keys(fields)
    case _ => w == x
  }

  ghost predicate ScrubbedAt(cfg: Config, detect: Detector, v: Json, w: Json, path: seq<Turn>)
    requires Delivers(detect)
  {
    match At(v, path)
    case None => At(w, path) == None
    case Some(x) => At(w, path).Some? && Scrubbed(cfg, detect, x, At(w, path).value)
  }

  // ----- the walk, step by step -----

  lemma {:induction false} ItemIsWalked(cfg: Config, detect: Detector, items: seq<Json>, n: nat, st: MapState, i: nat)
    returns (n': nat, st': MapState)
    requires Delivers(detect) && WalkItems(cfg, detect, items, n, st).value.Some?
    ensures |WalkItems(cfg, detect, items, n, st).value.value| == |items|
    ensures i < |items| ==> Walk(cfg, detect, items[i], n', st').value == Some(WalkItems(cfg, detect, items, n, st).value.value[i])
    decreases |items|
  {
    n', st' := n, st;
    if items != [] {
      var r := Walk(cfg, detect, items[0], n, st);
      n', st' := ItemIsWalked(cfg, detect, items[1..], r.scanned, r.after, if i > 0 then i - 1 else 0);
      if i == 0 { n', st' := n, st; }
    }
  }

  lemma {:induction false} FieldIsWalked(cfg: Config, detect: Detector, fields: seq<Field>, n: nat, st: MapState, key: string)
    returns (n': nat, st': MapState)
    requires Delivers(detect) && WalkFields(cfg, detect, fields, n, st).value.Some?
    ensures var walked := WalkFields(cfg, detect, fields, n, st).value.value;
            match Get(fields, key)
            case None => Get(walked, key) == None
            case Some(c) => Get(walked, key).Some? && Walk(cfg, detect, c, n', st').value == Get(walked, key)
    decreases |fields|
  {
    n', st' := n, st;
    if fields != [] {
      var r := Walk(cfg, detect, fields[0].value, n, st);
      var rest := WalkFields(cfg, detect, fields[1..], r.scanned, r.after).value.value;
      assert ([Field(fields[0].key, r.value.value)] + rest)[1..] == rest;
      if fields[0].key != key { n', st' := FieldIsWalked(cfg, detect, fields[1..], r.scanned, r.after, key); }
    }
  }

  lemma {:induction false} WalkKeepsKeys(cfg: Config, detect: Detector, fields: seq<Field>, n: nat, st: MapState)
    requires Delivers(detect) && WalkFields(cfg, detect, fields, n, st).value.Some?
    ensures Keys(WalkFields(cfg, detect, fields, n, st).value.value) == Keys(fields)
    decreases |fields|
  {
    if fields != [] {
      var r := Walk(cfg, detect, fields[0].value, n, st);
      var rest := WalkFields(cfg, detect, fields[1..], r.scanned, r.after).value.value;
      WalkKeepsKeys(cfg, detect, fields[1..], r.scanned, r.after);
      var walked := [Field(fields[0].key, r.value.value)] + rest;
      assert walked[1..] == rest;
      KeysOfRest(fields);
      KeysOfRest(walked);
    }
  }

  /** A child of the walked value is the walked child. */
  lemma {:induction false} ChildIsWalked(cfg: Config, detect: Detector, v: Json, n: nat, st: MapState, turn: Turn)
    returns (n': nat, st': MapState)
    requires Delivers(detect) && Walk(cfg, detect, v, n, st).value.Some?
    ensures var w := Walk(cfg, detect, v, n, st).value.value;
            match Child(v, turn)
            case None => Child(w, turn) == None
            case Some(c) => Child(w, turn).Some? && Walk(cfg, detect, c, n', st').value == Child(w, turn)
  {
    n', st' := n, st;
    match v
    case Array(items) => n', st' := ItemIsWalked(cfg, detect, items, n, st, if turn.Index? then turn.i else 0);
    case Object(fields) => if turn.Key? { n', st' := FieldIsWalked(cfg, detect, fields, n, st, turn.key); }
    case _ =>
  }

  lemma {:induction false} ScanIsSent(cfg: Config, detect: Detector, text: string, n: nat, st: MapState)
    requires Delivers(detect) && ScanText(cfg, detect, text, n, st).value.Some?
    ensures SentAs(cfg, detect, text, ScanText(cfg, detect, text, n, st).value.value)
  {
    if text != "" { assert Answer(cfg, detect, text, n, st) == ScanText(cfg, detect, text, n, st).value; }
  }

  lemma {:induction false} WalkScrubs(cfg: Config, detect: Detector, v: Json, n: nat, st: MapState)
    requires Delivers(detect) && Walk(cfg, detect, v, n, st).value.Some?
    ensures Scrubbed(cfg, detect, v, Walk(cfg, detect, v, n, st).value.value)
  {
    match v
    case String(s) => ScanIsSent(cfg, detect, s, n, st);
    case Number(digits) =>
      DigitsAreCounted(digits);
      if DigitCount(digits) >= MIN_NUMBER_DIGITS { ScanIsSent(cfg, detect, digits, n, st); }
    case Array(items) => var n', st' := ItemIsWalked(cfg, detect, items, n, st, 0);
    case Object(fields) => WalkKeepsKeys(cfg, detect, fields, n, st);
    case _ =>
  }

  /** Nothing of a document is sent unscanned: at the end of every path there is what becomes of the
      value there, and no path is lost or new. */
  lemma {:induction false} EveryLeafIsScanned(cfg: Config, detect: Detector, v: Json, n: nat, st: MapState, path: seq<Turn>)
    requires Delivers(detect) && Walk(cfg, detect, v, n, st).value.Some?
    ensures ScrubbedAt(cfg, detect, v, Walk(cfg, detect, v, n, st).value.value, path)
    decreases |path|
  {
    var w := Walk(cfg, detect, v, n, st).value.value;
    if path == [] {
      WalkScrubs(cfg, detect, v, n, st);
    } else {
      var n', st' := ChildIsWalked(cfg, detect, v, n, st, path[0]);
      match Child(v, path[0])
      case None =>
      case Some(c) =>
        EveryLeafIsScanned(cfg, detect, c, n', st', path[1..]);
        assert At(v, path) == At(c, path[1..]) && At(w, path) == At(Child(w, path[0]).value, path[1..]);
    }
  }
}
