/**
 privaite/pii/recognizer_secret.py: secrets inside string literals. A literal is unescaped with a
 map back to the source, so that what matches in the unescaped text is reported where it stands.
 */
module Unescaping {
  import opened Windows

  predicate Escapable(c: char) {
    c == '\\' || c == '"' || c == '\''
  }

  /** How many characters the first escape of a string takes. */
  function Unit(s: string): (n: nat)
    requires s != ""
    ensures 1 <= n <= |s|
  {
    if s[0] == '\\' && |s| > 1 && Escapable(s[1]) then 2 else 1
  }

  /** Quotes and backslashes without their escapes. */
  function Unescape(s: string): string {
    if s == "" then "" else [s[Unit(s) - 1]] + Unescape(s[Unit(s)..])
  }

  function UnescapeTimes(s: string, depth: nat): string {
    if depth == 0 then s else Unescape(UnescapeTimes(s, depth - 1))
  }

  /** A backslash before every quote and every backslash. */
  function EscapeQuotes(u: string): string {
    if u == "" then "" else (if Escapable(u[0]) then ['\\', u[0]] else [u[0]]) + EscapeQuotes(u[1..])
  }

  function EscapeTimes(u: string, depth: nat): string
    decreases depth
  {
    if depth == 0 then u else EscapeTimes(EscapeQuotes(u), depth - 1)
  }

  /** Unescaping undoes that. */
  lemma {:induction false} EscapedUnescapes(u: string)
    ensures Unescape(EscapeQuotes(u)) == u
    decreases |u|
  {
    if u != "" {
      var rest, s := EscapeQuotes(u[1..]), EscapeQuotes(u);
      EscapedUnescapes(u[1..]);
      assert Unit(s) == |s| - |rest| && s[Unit(s)..] == rest && s[Unit(s) - 1] == u[0];
    }
  }

  /** As often as it was done. */
  lemma {:induction false} EscapedTimesUnescapes(u: string, depth: nat)
    ensures UnescapeTimes(EscapeTimes(u, depth), depth) == u
    decreases depth
  {
    if depth > 0 {
      EscapedTimesUnescapes(EscapeQuotes(u), depth - 1);
      EscapedUnescapes(u);
    }
  }

  /** No backslash stands before a quote or a backslash. */
  predicate NoEscape(s: string) {
    forall i :: 0 <= i < |s| - 1 && s[i] == '\\' ==> s[i + 1] != '\\' && s[i + 1] != '"' && s[i + 1] != '\''
  }

  /** Any other string is as it was. */
  lemma {:induction false} OthersStay(s: string)
    requires NoEscape(s)
    ensures Unescape(s) == s
    decreases |s|
  {
    if s != "" {
      assert Unit(s) == 1;
      OthersStay(s[1..]);
    }
  }

  // ----- source maps -----

  /** Where each character of a view stands in the source. */
  type Map = seq<Offset>

  /** The characters of a view stand one after the other in the source. */
  ghost predicate Contiguous(at: Map) {
    && (forall i :: 0 <= i < |at| ==> at[i].lo < at[i].hi)
    && (forall i {:trigger Adjoins(at, i)} :: 0 <= i < |at| - 1 ==> Adjoins(at, i))
  }

  ghost predicate Adjoins(at: Map, i: int)
    requires 0 <= i < |at| - 1
  {
    at[i].hi == at[i + 1].lo
  }

  ghost predicate InSource(source: string, at: Map) {
    forall i :: 0 <= i < |at| ==> 0 <= at[i].lo <= at[i].hi <= |source|
  }

  /** The source of a stretch of the view. */
  function SourceOf(source: string, at: Map, i: int, j: int): string
    requires 0 <= i < j <= |at|
  {
    if 0 <= at[i].lo <= at[j - 1].hi <= |source| then source[at[i].lo..at[j - 1].hi] else ""
  }

  /** Any stretch of the view is what its source unescapes to, `depth` times over. */
  ghost predicate Views(source: string, view: string, at: Map, depth: nat) {
    && |at| == |view| && Contiguous(at) && InSource(source, at)
    && forall i, j {:trigger SourceOf(source, at, i, j)} :: 0 <= i < j <= |view| ==>
         UnescapeTimes(SourceOf(source, at, i, j), depth) == view[i..j]
  }

  function Itself(n: nat): Map {
    seq(n, i => Offset(i, i + 1))
  }

  lemma {:induction false} TextViewsItself(text: string)
    ensures Views(text, text, Itself(|text|), 0)
  {
    var at := Itself(|text|);
    forall i | 0 <= i < |at| - 1 ensures Adjoins(at, i) {}
  }

  // ----- unescaping a literal -----

  /** The cuts between the characters of an unescaped string, in the escaped one. */
  function Cuts(s: string): (cuts: seq<nat>)
    ensures cuts != [] && cuts[0] == 0
    ensures |cuts| == |Unescape(s)| + 1 && cuts[|cuts| - 1] == |s|
    decreases |s|
  {
    if s == "" then [0]
    else
      var rest := Cuts(s[Unit(s)..]);
      assert forall i :: 0 <= i < |rest| ==> 0 <= rest[i];
      [0] + seq(|rest|, i requires 0 <= i < |rest| => rest[i] + Unit(s))
  }

  lemma {:induction false} CutsGrow(s: string, i: nat)
    requires i < |Unescape(s)|
    ensures Cuts(s)[i] < Cuts(s)[i + 1] <= |s|
    decreases |s|
  {
    var u := Unit(s);
    var rest := s[u..];
    if i > 0 {
      CutsGrow(rest, i - 1);
    } else if |Unescape(rest)| > 0 {
      CutsGrow(rest, 0);
    }
  }

  /** A unit is the same whatever follows it. */
  lemma {:induction false} UnitStays(s: string, t: string)
    requires s != "" && t != "" && t <= s && Unit(s) <= |t|
    ensures Unit(t) == Unit(s)
  {
  }

  /** What stands up to a cut unescapes to what is before it. */
  lemma {:induction false} FrontUnescapes(s: string, j: nat)
    requires j <= |Unescape(s)|
    ensures Cuts(s)[j] <= |s|
    ensures Unescape(s[..Cuts(s)[j]]) == Unescape(s)[..j]
    decreases |s|
  {
    if j > 0 {
      var u, rest, n := Unit(s), s[Unit(s)..], Cuts(s)[j];
      FrontUnescapes(rest, j - 1);
      assert n == Cuts(rest)[j - 1] + u;
      var t := s[..n];
      UnitStays(s, t);
      assert t[u..] == rest[..Cuts(rest)[j - 1]];
      assert t[u - 1] == s[u - 1];
      assert Unescape(s) == [s[u - 1]] + Unescape(rest);
    }
  }

  lemma {:induction false} CutsShift(s: string, k: nat)
    requires 0 < k <= |Unescape(s)|
    ensures Cuts(s)[k] == Cuts(s[Unit(s)..])[k - 1] + Unit(s)
  {
  }

  lemma {:induction false} SliceOfRest<T>(s: seq<T>, u: nat, i: nat, j: nat)
    requires u <= |s| && i <= j <= |s| - u
    ensures s[u..][i..j] == s[i + u..j + u]
  {
  }

  /** What stands between two cuts unescapes to what is between them. */
  lemma {:induction false} MiddleUnescapes(s: string, i: nat, j: nat)
    requires i <= j <= |Unescape(s)|
    ensures Cuts(s)[i] <= Cuts(s)[j] <= |s|
    ensures Unescape(s[Cuts(s)[i]..Cuts(s)[j]]) == Unescape(s)[i..j]
    decreases |s|
  {
    if i == 0 {
      FrontUnescapes(s, j);
      assert s[0..Cuts(s)[j]] == s[..Cuts(s)[j]];
    } else {
      CutsShift(s, i);
      CutsShift(s, j);
      RestUnescapes(s);
      MiddleUnescapes(s[Unit(s)..], i - 1, j - 1);
      MiddleLater(s, Unescape(s), Cuts(s), Unit(s), Unescape(s[Unit(s)..]), Cuts(s[Unit(s)..]), i, j);
    }
  }

  lemma {:induction false} MiddleLater(s: string, decoded: string, cuts: seq<nat>, u: nat, decodedRest: string, cutsRest: seq<nat>, i: nat, j: nat)
    requires u <= |s| && 0 < i <= j <= |decoded| && |cuts| == |decoded| + 1 && |cutsRest| == |decoded|
    requires decodedRest == decoded[1..] && cuts[i] == cutsRest[i - 1] + u && cuts[j] == cutsRest[j - 1] + u
    requires cutsRest[i - 1] <= cutsRest[j - 1] <= |s[u..]|
    requires Unescape(s[u..][cutsRest[i - 1]..cutsRest[j - 1]]) == decodedRest[i - 1..j - 1]
    ensures cuts[i] <= cuts[j] <= |s| && Unescape(s[cuts[i]..cuts[j]]) == decoded[i..j]
  {
    SliceOfRest(s, u, cutsRest[i - 1], cutsRest[j - 1]);
    SliceOfRest(decoded, 1, i - 1, j - 1);
  }

  lemma {:induction false} RestUnescapes(s: string)
    requires s != ""
    ensures |Unescape(s)| > 0 && Unescape(s)[1..] == Unescape(s[Unit(s)..])
  {
  }

  /** Cut `i` and the next lie in a view of `n` characters. */
  predicate Between(cuts: seq<nat>, lo: nat, n: nat, i: int)
    requires 0 <= i < |cuts| - 1
  {
    lo + cuts[i] < lo + cuts[i + 1] <= n
  }

  predicate Within(cuts: seq<nat>, lo: nat, n: nat) {
    forall i {:trigger Between(cuts, lo, n, i)} :: 0 <= i < |cuts| - 1 ==> Between(cuts, lo, n, i)
  }

  function Stretch(s: string, cuts: seq<nat>, i: nat, j: nat): string
    requires i <= j < |cuts|
  {
    if cuts[i] <= cuts[j] <= |s| then s[cuts[i]..cuts[j]] else ""
  }

  /** The cuts of an escaped string, unit by unit. */
  ghost predicate Splits(s: string, decoded: string, cuts: seq<nat>) {
    && |cuts| == |decoded| + 1 && cuts[0] == 0 && cuts[|decoded|] == |s| && Within(cuts, 0, |s|)
    && forall i: nat, j: nat {:trigger Stretch(s, cuts, i, j)} :: i <= j <= |decoded| ==> Unescape(Stretch(s, cuts, i, j)) == decoded[i..j]
  }

  lemma {:induction false} UnescapeSplits(s: string)
    ensures Splits(s, Unescape(s), Cuts(s))
  {
    forall i | 0 <= i < |Cuts(s)| - 1 ensures Between(Cuts(s), 0, |s|, i) {
      CutsGrow(s, i);
    }
    forall i: nat, j: nat | i <= j <= |Unescape(s)| ensures Unescape(Stretch(s, Cuts(s), i, j)) == Unescape(s)[i..j] {
      MiddleUnescapes(s, i, j);
    }
  }

  lemma {:induction false} WithinMore(cuts: seq<nat>, lo: nat, m: nat, n: nat)
    requires Within(cuts, 0, m) && lo + m <= n
    ensures Within(cuts, lo, n)
  {
    forall i | 0 <= i < |cuts| - 1 ensures Between(cuts, lo, n, i) {
      assert Between(cuts, 0, m, i);
    }
  }

  lemma {:induction false} CutsIncrease(cuts: seq<nat>, lo: nat, n: nat, i: nat, j: nat)
    requires Within(cuts, lo, n) && i < j < |cuts|
    ensures cuts[i] < cuts[j] && lo + cuts[j] <= n
    decreases j - i
  {
    assert Between(cuts, lo, n, j - 1);
    if i < j - 1 { CutsIncrease(cuts, lo, n, i, j - 1); }
  }

  // ----- the view of a literal -----

  /** Where the unit after cut `i` stands. */
  function UnitAt(at: Map, lo: nat, cuts: seq<nat>, i: int): Offset
    requires Within(cuts, lo, |at|) && 0 <= i < |cuts| - 1
  {
    assert Between(cuts, lo, |at|, i);
    Offset(at[lo + cuts[i]].lo, at[lo + cuts[i + 1] - 1].hi)
  }

  /** The map of an unescaped stretch of a view. */
  function ViewMap(at: Map, lo: nat, cuts: seq<nat>): Map
    requires cuts != [] && Within(cuts, lo, |at|)
  {
    seq(|cuts| - 1, i requires 0 <= i < |cuts| - 1 => UnitAt(at, lo, cuts, i))
  }

  /** Where the characters of an unescaped literal stand in the source. */
  function LiteralMap(view: string, lo: nat, hi: nat, at: Map): Map
    requires lo <= hi <= |view| == |at|
  {
    UnescapeSplits(view[lo..hi]);
    WithinMore(Cuts(view[lo..hi]), lo, hi - lo, |at|);
    ViewMap(at, lo, Cuts(view[lo..hi]))
  }

  lemma {:induction false} ContiguousSpan(at: Map, i: nat, j: nat)
    requires Contiguous(at) && i <= j < |at|
    ensures at[i].lo <= at[j].lo && at[i].hi <= at[j].hi && at[i].lo < at[j].hi
    decreases j - i
  {
    if i < j {
      ContiguousSpan(at, i, j - 1);
      assert Adjoins(at, j - 1);
    }
  }

  /** The units stand in the source as their view did, without a gap. */
  lemma {:induction false} ViewMapIsContiguous(source: string, at: Map, lo: nat, cuts: seq<nat>)
    requires cuts != [] && Within(cuts, lo, |at|) && Contiguous(at) && InSource(source, at)
    ensures Contiguous(ViewMap(at, lo, cuts)) && InSource(source, ViewMap(at, lo, cuts))
  {
    var m := ViewMap(at, lo, cuts);
    forall i | 0 <= i < |m| ensures m[i].lo < m[i].hi && 0 <= m[i].lo && m[i].hi <= |source| {
      assert Between(cuts, lo, |at|, i);
      ContiguousSpan(at, lo + cuts[i], lo + cuts[i + 1] - 1);
    }
    forall i | 0 <= i < |m| - 1 ensures Adjoins(m, i) {
      assert Between(cuts, lo, |at|, i) && Between(cuts, lo, |at|, i + 1);
      assert Adjoins(at, lo + cuts[i + 1] - 1);
    }
  }

  /** The map of a literal starts and ends where the literal does: with no gap between, its units
      tile the place of the literal. */
  lemma {:induction false} MapTiles(view: string, lo: nat, hi: nat, at: Map)
    requires lo < hi <= |view| == |at|
    ensures var m := LiteralMap(view, lo, hi, at);
            m != [] && m[0].lo == at[lo].lo && m[|m| - 1].hi == at[hi - 1].hi
  {
    var s := view[lo..hi];
    var cuts := Cuts(s);
    UnescapeSplits(s);
    WithinMore(cuts, lo, hi - lo, |at|);
    assert Unescape(s) != "";
    var n := |cuts| - 1;
    assert ViewMap(at, lo, cuts)[0] == UnitAt(at, lo, cuts, 0);
    assert ViewMap(at, lo, cuts)[n - 1] == UnitAt(at, lo, cuts, n - 1);
    assert Between(cuts, lo, |at|, 0) && Between(cuts, lo, |at|, n - 1);
  }

  lemma {:induction false} SliceOfSlice(s: string, lo: nat, hi: nat, a: nat, b: nat)
    requires lo <= hi <= |s| && a <= b <= hi - lo
    ensures s[lo..hi][a..b] == s[lo + a..lo + b]
  {
    var x, y := s[lo..hi][a..b], s[lo + a..lo + b];
    forall k | 0 <= k < b - a ensures x[k] == y[k] {
      assert s[lo..hi][a + k] == s[lo + a + k];
    }
  }

  /** Unescaping once more keeps the map true: what a match in the literal is reported on
      unescapes, once for every level, to exactly the match. */
  lemma {:induction false} LiteralViews(source: string, view: string, lo: nat, hi: nat, at: Map, depth: nat)
    requires lo <= hi <= |view| && Views(source, view, at, depth)
    ensures Views(source, Unescape(view[lo..hi]), LiteralMap(view, lo, hi, at), depth + 1)
  {
    UnescapeSplits(view[lo..hi]);
    WithinMore(Cuts(view[lo..hi]), lo, hi - lo, |at|);
    SplitViews(source, view, lo, hi, at, depth, Unescape(view[lo..hi]), Cuts(view[lo..hi]));
  }

  lemma {:induction false} SplitViews(source: string, view: string, lo: nat, hi: nat, at: Map, depth: nat, decoded: string, cuts: seq<nat>)
    requires lo <= hi <= |view| && Views(source, view, at, depth)
    requires Splits(view[lo..hi], decoded, cuts) && Within(cuts, lo, |at|)
    ensures Views(source, decoded, ViewMap(at, lo, cuts), depth + 1)
  {
    var m := ViewMap(at, lo, cuts);
    ViewMapIsContiguous(source, at, lo, cuts);
    forall i, j | 0 <= i < j <= |decoded| ensures UnescapeTimes(SourceOf(source, m, i, j), depth + 1) == decoded[i..j] {
      StretchViews(source, view, lo, hi, at, depth, decoded, cuts, i, j);
    }
  }

  lemma {:induction false} StretchViews(source: string, view: string, lo: nat, hi: nat, at: Map, depth: nat, decoded: string, cuts: seq<nat>, i: nat, j: nat)
    requires lo <= hi <= |view| && Views(source, view, at, depth)
    requires Splits(view[lo..hi], decoded, cuts) && Within(cuts, lo, |at|) && i < j <= |decoded|
    ensures UnescapeTimes(SourceOf(source, ViewMap(at, lo, cuts), i, j), depth + 1) == decoded[i..j]
  {
    CutsIncrease(cuts, 0, hi - lo, i, j);
    SliceOfSlice(view, lo, hi, cuts[i], cuts[j]);
    SourceOfUnits(source, at, lo, cuts, i, j);
    assert Unescape(Stretch(view[lo..hi], cuts, i, j)) == decoded[i..j];
  }

  /** A stretch of the units stands where its ends do. */
  lemma {:induction false} SourceOfUnits(source: string, at: Map, lo: nat, cuts: seq<nat>, i: nat, j: nat)
    requires cuts != [] && Within(cuts, lo, |at|) && i < j < |cuts|
    ensures cuts[i] < cuts[j] && lo + cuts[j] <= |at|
    ensures SourceOf(source, ViewMap(at, lo, cuts), i, j) == SourceOf(source, at, lo + cuts[i], lo + cuts[j])
  {
    CutsIncrease(cuts, lo, |at|, i, j);
  }

  /** A part of a literal has been decoded, up to `index`. */
  ghost predicate Decoding(s: string, at: Map, lo: nat, whole: string, cuts: seq<nat>, index: nat, decoded: string, m: Map)
    requires cuts != [] && Within(cuts, lo, |at|)
  {
    && |decoded| == |m| <= |whole| && |cuts| == |whole| + 1
    && lo <= index <= lo + |s| && cuts[|m|] == index - lo
    && whole == decoded + Unescape(s[index - lo..])
    && forall i :: 0 <= i < |m| ==> m[i] == UnitAt(at, lo, cuts, i)
  }

  lemma {:induction false} DecodingNext(s: string, at: Map, lo: nat, whole: string, cuts: seq<nat>, index: nat, decoded: string, m: Map, next: nat)
    requires cuts != [] && Within(cuts, lo, |at|) && lo + |s| <= |at|
    requires Decoding(s, at, lo, whole, cuts, index, decoded, m)
    requires index < lo + |s| && next == index + Unit(s[index - lo..])
    requires |m| < |whole| && cuts[|m| + 1] == next - lo
    ensures next <= lo + |s|
    ensures Decoding(s, at, lo, whole, cuts, next, decoded + [s[next - 1 - lo]], m + [Offset(at[index].lo, at[next - 1].hi)])
  {
    TailUnescapes(s, index - lo, next - lo);
    var c, rest := s[next - 1 - lo], Unescape(s[next - lo..]);
    Reassociate(decoded, c, rest);
    DecodingStep(s, at, lo, whole, cuts, index, decoded, m, next);
  }

  lemma {:induction false} TailUnescapes(s: string, n: nat, next: nat)
    requires n < |s| && next == n + Unit(s[n..])
    ensures next <= |s| && Unescape(s[n..]) == [s[next - 1]] + Unescape(s[next..])
  {
    assert s[n..][next - n..] == s[next..];
  }

  lemma {:induction false} DecodingStep(s: string, at: Map, lo: nat, whole: string, cuts: seq<nat>, index: nat, decoded: string, m: Map, next: nat)
    requires cuts != [] && Within(cuts, lo, |at|) && Decoding(s, at, lo, whole, cuts, index, decoded, m)
    requires |m| < |whole| && cuts[|m| + 1] == next - lo && index < next <= lo + |s| <= |at|
    requires next - 1 - lo < |s| && whole == (decoded + [s[next - 1 - lo]]) + Unescape(s[next - lo..])
    ensures Decoding(s, at, lo, whole, cuts, next, decoded + [s[next - 1 - lo]], m + [Offset(at[index].lo, at[next - 1].hi)])
  {
  }

  lemma {:induction false} Reassociate<T>(a: seq<T>, x: T, b: seq<T>)
    ensures a + ([x] + b) == (a + [x]) + b
  {
  }

  /** One character of a literal, and where the next one starts. */
  method NextCharacter(view: string, index: nat, hi: nat) returns (character: char, next: nat)
    requires index < hi <= |view|
    ensures next == index + Unit(view[index..hi]) && character == view[next - 1]
  {
    next := index + 1;
    character := view[index];
    if character == '\\' && next < hi && Escapable(view[next]) {
      character := view[next];
      next := next + 1;
    }
  }

  /** The loop over the characters of a literal. */
  method DecodeLiteral(view: string, lo: nat, hi: nat, at: Map) returns (decoded: string, m: Map)
    requires lo <= hi <= |view| == |at|
    ensures decoded == Unescape(view[lo..hi]) && m == LiteralMap(view, lo, hi, at)
  {
    decoded, m := "", [];
    var index := lo;
    ghost var s := view[lo..hi];
    ghost var whole, cuts := Unescape(s), Cuts(s);
    UnescapeSplits(s);
    WithinMore(cuts, lo, hi - lo, |at|);
    assert s[0..] == s && "" + whole == whole;
    while index < hi
      invariant lo <= index <= hi && Decoding(s, at, lo, whole, cuts, index, decoded, m)
    {
      SliceTail(view, lo, hi, index);
      var character, next := NextCharacter(view, index, hi);
      NextCut(s, |m|, index - lo, next - index);
      DecodingNext(s, at, lo, whole, cuts, index, decoded, m, next);
      decoded := decoded + [character];
      m := m + [Offset(at[index].lo, at[next - 1].hi)];
      index := next;
    }
    DecodingDone(s, at, lo, whole, cuts, decoded, m);
  }

  lemma {:induction false} DecodingDone(s: string, at: Map, lo: nat, whole: string, cuts: seq<nat>, decoded: string, m: Map)
    requires cuts != [] && Within(cuts, lo, |at|) && Decoding(s, at, lo, whole, cuts, lo + |s|, decoded, m)
    ensures decoded == whole && m == ViewMap(at, lo, cuts)
  {
    assert s[|s|..] == "" && decoded + "" == decoded;
  }

  lemma {:induction false} SliceTail(view: string, lo: nat, hi: nat, index: nat)
    requires lo <= index <= hi <= |view|
    ensures view[lo..hi][index - lo..] == view[index..hi]
  {
  }

  /** The cut after the next unit. */
  lemma {:induction false} NextCut(s: string, k: nat, n: nat, u: nat)
    requires k <= |Unescape(s)| && Cuts(s)[k] == n < |s| && u == Unit(s[n..])
    ensures k < |Unescape(s)| && Cuts(s)[k + 1] == n + u
    decreases |s|
  {
    if k > 0 {
      var v, rest := Unit(s), s[Unit(s)..];
      CutsShift(s, k);
      assert s[n..] == rest[n - v..];
      NextCut(rest, k - 1, n - v, u);
    } else {
      assert s[0..] == s;
    }
  }
}
