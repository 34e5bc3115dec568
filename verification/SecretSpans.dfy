/**
 privaite/pii/recognizer_secret.py: what is reported for secrets inside command literals, and
 which of all the results are kept.
 */
module SecretSpans {
  import opened Wrappers
  import opened Windows
  import opened Unescaping

  /** The string literals of a text, whether one holds an option name, and the values that match
      in it. The patterns are foreign code: all that is known is that they match inside the text. */
  datatype Rules = Rules(literals: string -> seq<Offset>, prefixed: string -> bool, values: string -> seq<Offset>) {
    ghost predicate Sound() {
      && (forall s, k {:trigger literals(s)[k]} :: 0 <= k < |literals(s)| ==> 0 <= literals(s)[k].lo <= literals(s)[k].hi <= |s|)
      && (forall s, k {:trigger values(s)[k]} :: 0 <= k < |values(s)| ==> 0 <= values(s)[k].lo < values(s)[k].hi <= |s|)
    }
  }

  const MAX_DEPTH := 2

  /** Where the first values found in a view stand in the source. */
  function Reported(at: Map, values: seq<Offset>): seq<Offset>
    requires forall k :: 0 <= k < |values| ==> 0 <= values[k].lo < values[k].hi <= |at|
  {
    seq(|values|, k requires 0 <= k < |values| => Offset(at[values[k].lo].lo, at[values[k].hi - 1].hi))
  }

  datatype View = View(text: string, at: Map)

  /** The `k`th literal of a view, unescaped, with its map to the source; none where there is no
      such literal, or it holds no option name. */
  function Child(rules: Rules, v: View, k: nat): (r: Option<View>)
    requires rules.Sound() && |v.at| == |v.text|
    ensures r.Some? ==> |r.value.at| == |r.value.text|
  {
    if k >= |rules.literals(v.text)| then None
    else
      var literal := rules.literals(v.text)[k];
      var s := v.text[literal.lo..literal.hi];
      if rules.prefixed(s) then Some(View(Unescape(s), LiteralMap(v.text, literal.lo, literal.hi, v.at))) else None
  }

  /** What a view reports, as the code goes through it. */
  function ReportedIn(rules: Rules, v: View): seq<Offset>
    requires rules.Sound() && |v.at| == |v.text|
  {
    assert forall k :: 0 <= k < |rules.values(v.text)| ==> 0 <= rules.values(v.text)[k].lo < rules.values(v.text)[k].hi <= |v.at|;
    Reported(v.at, rules.values(v.text))
  }

  function LiteralResults(rules: Rules, v: View, depth: nat, k: nat): seq<Offset>
    requires rules.Sound() && |v.at| == |v.text| && depth < MAX_DEPTH
    decreases MAX_DEPTH - depth, 0
  {
    match Child(rules, v, k)
    case None => []
    case Some(c) => ReportedIn(rules, c) + CliResults(rules, c, depth + 1)
  }

  /** What is found in the literals of a view, and in theirs, down to the greatest depth. */
  function CliResults(rules: Rules, v: View, depth: nat): seq<Offset>
    requires rules.Sound() && |v.at| == |v.text|
    decreases MAX_DEPTH - depth, 2
  {
    if depth >= MAX_DEPTH then [] else Concat(Parts(rules, v, depth))
  }

  /** Literal by literal. */
  function Parts(rules: Rules, v: View, depth: nat): seq<seq<Offset>>
    requires rules.Sound() && |v.at| == |v.text| && depth < MAX_DEPTH
    decreases MAX_DEPTH - depth, 1
  {
    seq(|rules.literals(v.text)|, k requires 0 <= k < |rules.literals(v.text)| => LiteralResults(rules, v, depth, k))
  }

  function Concat<T>(parts: seq<seq<T>>): seq<T> {
    if parts == [] then [] else Concat(parts[..|parts| - 1]) + parts[|parts| - 1]
  }

  lemma {:induction false} InConcat<T(!new)>(parts: seq<seq<T>>, x: T)
    ensures x in Concat(parts) <==> exists k :: 0 <= k < |parts| && x in parts[k]
    decreases |parts|
  {
    if parts != [] {
      var n := |parts| - 1;
      InConcat(parts[..n], x);
      if k :| 0 <= k < |parts| && x in parts[k] {
        assert k < n ==> x in parts[..n][k];
      }
    }
  }

  function Source(text: string): View {
    View(text, Itself(|text|))
  }

  // ----- the literals of a source -----

  /** The literal of a source that a path of numbers leads to, a literal within a literal. */
  function Nested(rules: Rules, source: string, path: seq<nat>): (r: Option<View>)
    requires rules.Sound()
    ensures r.Some? ==> |r.value.at| == |r.value.text|
  {
    if path == [] then Some(Source(source))
    else
      var parent := Nested(rules, source, path[..|path| - 1]);
      if parent.Some? then Child(rules, parent.value, path[|path| - 1]) else None
  }

  /** A literal is gone into if and only if it is there and holds an option name, and then unescaped. */
  lemma {:induction false} ChildExactly(rules: Rules, v: View, k: nat)
    requires rules.Sound() && |v.at| == |v.text|
    ensures var literals := rules.literals(v.text);
            && (Child(rules, v, k).Some? <==> k < |literals| && rules.prefixed(v.text[literals[k].lo..literals[k].hi]))
            && (Child(rules, v, k).Some? ==> Child(rules, v, k).value.text == Unescape(v.text[literals[k].lo..literals[k].hi]))
  {
  }

  /** Its units tile what they stand on, and every stretch of it unescapes from there. */
  lemma {:induction false} NestedViews(rules: Rules, source: string, path: seq<nat>)
    requires rules.Sound() && Nested(rules, source, path).Some?
    ensures var v := Nested(rules, source, path).value; Views(source, v.text, v.at, |path|)
    decreases |path|
  {
    if path == [] {
      TextViewsItself(source);
    } else {
      var n := |path| - 1;
      NestedViews(rules, source, path[..n]);
      ChildViews(rules, source, Nested(rules, source, path[..n]).value, path[n], n);
    }
  }

  lemma {:induction false} ChildViews(rules: Rules, source: string, v: View, k: nat, d: nat)
    requires rules.Sound() && Views(source, v.text, v.at, d) && Child(rules, v, k).Some?
    ensures var c := Child(rules, v, k).value; Views(source, c.text, c.at, d + 1)
  {
    var literal := rules.literals(v.text)[k];
    LiteralViews(source, v.text, literal.lo, literal.hi, v.at, d);
  }

  /** `r` is where the `k`th value of a view stands. */
  ghost predicate StandsAt(rules: Rules, v: View, k: nat, r: Offset)
    requires |v.at| == |v.text|
  {
    && k < |rules.values(v.text)| && 0 <= rules.values(v.text)[k].lo < rules.values(v.text)[k].hi <= |v.text|
    && r == Offset(v.at[rules.values(v.text)[k].lo].lo, v.at[rules.values(v.text)[k].hi - 1].hi)
  }

  /** `r` is where the `k`th value stands that matches in the literal at the end of a path. */
  ghost predicate IsMatch(rules: Rules, source: string, path: seq<nat>, k: nat, r: Offset)
    requires rules.Sound()
  {
    Nested(rules, source, path).Some? && StandsAt(rules, Nested(rules, source, path).value, k, r)
  }

  ghost predicate Matches(rules: Rules, source: string, r: Offset)
    requires rules.Sound()
  {
    exists path, k :: (|path| == 1 || |path| == 2) && IsMatch(rules, source, path, k, r)
  }

  ghost predicate AllMatch(rules: Rules, source: string, results: seq<Offset>)
    requires rules.Sound()
  {
    forall r :: r in results ==> Matches(rules, source, r)
  }

  lemma {:induction false} AllMatchConcat(rules: Rules, source: string, a: seq<Offset>, b: seq<Offset>)
    requires rules.Sound() && AllMatch(rules, source, a) && AllMatch(rules, source, b)
    ensures AllMatch(rules, source, a + b)
  {
  }

  // ----- what is reported is what matches -----

  lemma {:induction false} ReportedStands(rules: Rules, v: View, r: Offset)
    requires rules.Sound() && |v.at| == |v.text|
    ensures r in ReportedIn(rules, v) <==> exists k: nat :: StandsAt(rules, v, k, r)
  {
    var out := ReportedIn(rules, v);
    if r in out {
      var k :| 0 <= k < |out| && out[k] == r;
      assert StandsAt(rules, v, k, r);
    }
    if k: nat :| StandsAt(rules, v, k, r) {
      assert out[k] == r;
    }
  }

  lemma {:induction false} CliResultsMatch(rules: Rules, source: string, path: seq<nat>, v: View)
    requires rules.Sound() && Nested(rules, source, path) == Some(v)
    ensures AllMatch(rules, source, CliResults(rules, v, |path|))
    decreases MAX_DEPTH - |path|, 1
  {
    if |path| < MAX_DEPTH {
      forall r | r in CliResults(rules, v, |path|) ensures Matches(rules, source, r) {
        var k := ResultIsOfLiteral(rules, v, |path|, r);
        LiteralMatches(rules, source, path, v, k);
      }
    }
  }

  lemma {:induction false} ResultIsOfLiteral(rules: Rules, v: View, depth: nat, r: Offset) returns (k: nat)
    requires rules.Sound() && |v.at| == |v.text| && depth < MAX_DEPTH && r in CliResults(rules, v, depth)
    ensures r in LiteralResults(rules, v, depth, k)
  {
    var parts := Parts(rules, v, depth);
    InConcat(parts, r);
    k :| 0 <= k < |parts| && r in parts[k];
  }

  lemma {:induction false} LiteralMatches(rules: Rules, source: string, path: seq<nat>, v: View, k: nat)
    requires rules.Sound() && Nested(rules, source, path) == Some(v) && |path| < MAX_DEPTH
    ensures AllMatch(rules, source, LiteralResults(rules, v, |path|, k))
    decreases MAX_DEPTH - |path|, 0
  {
    if Child(rules, v, k).Some? {
      var c, longer := Child(rules, v, k).value, path + [k];
      assert longer[..|path|] == path;
      ViewMatches(rules, source, longer, c);
      CliResultsMatch(rules, source, longer, c);
      AllMatchConcat(rules, source, ReportedIn(rules, c), CliResults(rules, c, |longer|));
    }
  }

  lemma {:induction false} ViewMatches(rules: Rules, source: string, path: seq<nat>, v: View)
    requires rules.Sound() && Nested(rules, source, path) == Some(v) && 0 < |path| <= MAX_DEPTH
    ensures AllMatch(rules, source, ReportedIn(rules, v))
  {
    forall r | r in ReportedIn(rules, v) ensures Matches(rules, source, r) {
      ReportedStands(rules, v, r);
      var k: nat :| StandsAt(rules, v, k, r);
      assert IsMatch(rules, source, path, k, r);
    }
  }

  // ----- what matches is reported -----

  lemma {:induction false} LiteralIsReported(rules: Rules, v: View, depth: nat, k: nat, r: Offset)
    requires rules.Sound() && |v.at| == |v.text| && depth < MAX_DEPTH && r in LiteralResults(rules, v, depth, k)
    ensures r in CliResults(rules, v, depth)
  {
    var parts := Parts(rules, v, depth);
    assert r in parts[k];
    InConcat(parts, r);
  }

  /** What a literal of the source gives is among the results of the source. */
  lemma {:induction false} NestedIsReported(rules: Rules, source: string, path: seq<nat>, v: View, r: Offset)
    requires rules.Sound() && |path| <= MAX_DEPTH && Nested(rules, source, path) == Some(v)
    requires r in CliResults(rules, v, |path|) || (path != [] && r in ReportedIn(rules, v))
    ensures r in CliResults(rules, Source(source), 0)
    decreases |path|
  {
    if path != [] {
      var n := |path| - 1;
      var parent := Nested(rules, source, path[..n]).value;
      assert r in LiteralResults(rules, parent, n, path[n]);
      LiteralIsReported(rules, parent, n, path[n], r);
      NestedIsReported(rules, source, path[..n], parent, r);
    }
  }

  /** What is reported in a text is where the values stand that match in its literals, down to the
      greatest depth: all of them and nothing else. */
  lemma {:induction false} ReportedIsMatched(rules: Rules, text: string, r: Offset)
    requires rules.Sound()
    ensures r in CliResults(rules, Source(text), 0) <==> Matches(rules, text, r)
  {
    CliResultsMatch(rules, text, [], Source(text));
    if path, k :| (|path| == 1 || |path| == 2) && IsMatch(rules, text, path, k, r) {
      var v := Nested(rules, text, path).value;
      ReportedStands(rules, v, r);
      NestedIsReported(rules, text, path, v, r);
    }
  }

  /** There the source, unescaped once for each level, reads exactly as the value. */
  lemma {:induction false} MatchUnescapes(rules: Rules, source: string, path: seq<nat>, k: nat, r: Offset)
    requires rules.Sound() && IsMatch(rules, source, path, k, r)
    ensures 0 <= r.lo < r.hi <= |source|
    ensures var v := Nested(rules, source, path).value;
            UnescapeTimes(source[r.lo..r.hi], |path|) == v.text[rules.values(v.text)[k].lo..rules.values(v.text)[k].hi]
  {
    NestedViews(rules, source, path);
    StandsUnescapes(rules, source, Nested(rules, source, path).value, |path|, k, r);
  }

  lemma {:induction false} StandsUnescapes(rules: Rules, source: string, v: View, d: nat, k: nat, r: Offset)
    requires Views(source, v.text, v.at, d) && StandsAt(rules, v, k, r)
    ensures 0 <= r.lo < r.hi <= |source|
    ensures UnescapeTimes(source[r.lo..r.hi], d) == v.text[rules.values(v.text)[k].lo..rules.values(v.text)[k].hi]
  {
    StretchUnescapes(source, v.text, v.at, d, rules.values(v.text)[k].lo, rules.values(v.text)[k].hi);
  }

  lemma {:induction false} StretchUnescapes(source: string, view: string, at: Map, d: nat, lo: int, hi: int)
    requires Views(source, view, at, d) && 0 <= lo < hi <= |view|
    ensures 0 <= at[lo].lo < at[hi - 1].hi <= |source|
    ensures UnescapeTimes(source[at[lo].lo..at[hi - 1].hi], d) == view[lo..hi]
  {
    ContiguousSpan(at, lo, hi - 1);
    assert UnescapeTimes(SourceOf(source, at, lo, hi), d) == view[lo..hi];
  }

  // ----- the code -----

  method CliLiteralResults(rules: Rules, v: View, depth: nat) returns (results: seq<Offset>)
    requires rules.Sound() && |v.at| == |v.text|
    ensures results == CliResults(rules, v, depth)
    decreases MAX_DEPTH - depth, 1
  {
    if depth >= MAX_DEPTH {
      return [];
    }
    results := [];
    var count := |rules.literals(v.text)|;
    ghost var parts := Parts(rules, v, depth);
    for n := 0 to count
      invariant results == Concat(parts[..n])
    {
      var found := OneLiteral(rules, v, depth, n);
      assert found == parts[n];
      ConcatNext(parts, n);
      results := results + found;
    }
    assert parts[..count] == parts;
  }

  /** One turn of the loop: a literal without an option name is passed over. */
  method OneLiteral(rules: Rules, v: View, depth: nat, n: nat) returns (results: seq<Offset>)
    requires rules.Sound() && |v.at| == |v.text| && depth < MAX_DEPTH && n < |rules.literals(v.text)|
    ensures results == LiteralResults(rules, v, depth, n)
    decreases MAX_DEPTH - depth, 0
  {
    var literal := rules.literals(v.text)[n];
    if !rules.prefixed(v.text[literal.lo..literal.hi]) {
      return [];
    }
    var decoded, m := DecodeLiteral(v.text, literal.lo, literal.hi, v.at);
    var found := ReportValues(m, rules.values(decoded));
    var deeper := CliLiteralResults(rules, View(decoded, m), depth + 1);
    results := found + deeper;
  }

  lemma {:induction false} ConcatNext<T>(parts: seq<seq<T>>, n: nat)
    requires n < |parts|
    ensures Concat(parts[..n + 1]) == Concat(parts[..n]) + parts[n]
  {
    assert parts[..n + 1][..n] == parts[..n];
  }

  method ReportValues(m: Map, values: seq<Offset>) returns (found: seq<Offset>)
    requires forall k :: 0 <= k < |values| ==> 0 <= values[k].lo < values[k].hi <= |m|
    ensures found == Reported(m, values)
  {
    found := [];
    for k := 0 to |values|
      invariant found == Reported(m, values)[..k]
    {
      found := found + [Offset(m[values[k].lo].lo, m[values[k].hi - 1].hi)];
    }
  }

  // ----- which results are kept -----

  /** By start, the longest first. */
  predicate Before(a: Offset, b: Offset) {
    a.lo < b.lo || (a.lo == b.lo && a.hi >= b.hi)
  }

  function Insert(r: Offset, sorted: seq<Offset>): seq<Offset> {
    if sorted == [] || Before(r, sorted[0]) then [r] + sorted else [sorted[0]] + Insert(r, sorted[1..])
  }

  function Sort(results: seq<Offset>): seq<Offset> {
    if results == [] then [] else Insert(results[0], Sort(results[1..]))
  }

  ghost predicate Sorted(s: seq<Offset>) {
    forall i, j :: 0 <= i < j < |s| ==> Before(s[i], s[j])
  }

  lemma {:induction false} InsertSorts(r: Offset, sorted: seq<Offset>)
    requires Sorted(sorted)
    ensures Sorted(Insert(r, sorted)) && forall x :: x in Insert(r, sorted) <==> x == r || x in sorted
    decreases |sorted|
  {
    if sorted != [] && !Before(r, sorted[0]) {
      InsertSorts(r, sorted[1..]);
      var rest := Insert(r, sorted[1..]);
      assert sorted == [sorted[0]] + sorted[1..];
      forall j | 0 <= j < |rest| ensures Before(sorted[0], rest[j]) {
        assert rest[j] in rest;
      }
    }
  }

  lemma {:induction false} SortSorts(results: seq<Offset>)
    ensures Sorted(Sort(results)) && forall x :: x in Sort(results) <==> x in results
    decreases |results|
  {
    if results != [] {
      SortSorts(results[1..]);
      InsertSorts(results[0], Sort(results[1..]));
      assert results == [results[0]] + results[1..];
    }
  }

  predicate Inside(a: Offset, b: Offset) {
    b.lo <= a.lo && a.hi <= b.hi
  }

  /** Starts and ends strictly increase, so no kept result lies in another. */
  ghost predicate Staggered(kept: seq<Offset>) {
    forall i, j :: 0 <= i < j < |kept| ==> kept[i].lo < kept[j].lo && kept[i].hi < kept[j].hi
  }

  ghost predicate InSome(r: Offset, kept: seq<Offset>) {
    exists k :: k in kept && Inside(r, k)
  }

  /** One of the first `n` results. */
  ghost predicate Among(r: Offset, sorted: seq<Offset>, n: nat)
    requires n <= |sorted|
  {
    exists j :: 0 <= j < n && sorted[j] == r
  }

  /** The first `n` results have been looked at. */
  ghost predicate Keeping(sorted: seq<Offset>, n: nat, complete: seq<Offset>, covered: int)
    requires n <= |sorted|
  {
    && Staggered(complete) && (complete == [] ==> n == 0)
    && covered == (if complete == [] then 0 else complete[|complete| - 1].hi)
    && (forall i :: 0 <= i < |complete| ==> Among(complete[i], sorted, n))
    && (forall i :: 0 <= i < n ==> InSome(sorted[i], complete))
  }

  lemma {:induction false} KeepNext(sorted: seq<Offset>, n: nat, complete: seq<Offset>, covered: int)
    requires Sorted(sorted) && n < |sorted| && 0 <= sorted[n].lo < sorted[n].hi && sorted[n].hi > covered
    requires Keeping(sorted, n, complete, covered)
    ensures Keeping(sorted, n + 1, complete + [sorted[n]], sorted[n].hi)
  {
    var r, more := sorted[n], complete + [sorted[n]];
    forall i | 0 <= i < |complete| ensures complete[i].lo < r.lo && complete[i].hi < r.hi {
      assert complete[i].hi <= covered;
      AmongBefore(complete[i], sorted, n);
    }
    AppendStaggered(complete, r);
    AllInSome(sorted, n, complete);
    AllAmong(sorted, n, complete);
  }

  lemma {:induction false} AllInSome(sorted: seq<Offset>, n: nat, complete: seq<Offset>)
    requires n < |sorted| && forall i :: 0 <= i < n ==> InSome(sorted[i], complete)
    ensures forall i :: 0 <= i < n + 1 ==> InSome(sorted[i], complete + [sorted[n]])
  {
    var more := complete + [sorted[n]];
    forall i | 0 <= i <= n ensures InSome(sorted[i], more) {
      if i < n { StillInSome(sorted[i], complete, more); } else { assert sorted[n] in more && Inside(sorted[n], sorted[n]); }
    }
  }

  lemma {:induction false} AllAmong(sorted: seq<Offset>, n: nat, complete: seq<Offset>)
    requires n < |sorted| && forall i :: 0 <= i < |complete| ==> Among(complete[i], sorted, n)
    ensures forall i :: 0 <= i < |complete| + 1 ==> Among((complete + [sorted[n]])[i], sorted, n + 1)
  {
    var more := complete + [sorted[n]];
    forall i | 0 <= i < |more| ensures Among(more[i], sorted, n + 1) {
      if i < |complete| { AmongMore(complete[i], sorted, n); } else { assert sorted[n] == more[i]; }
    }
  }

  lemma {:induction false} AppendStaggered(kept: seq<Offset>, r: Offset)
    requires Staggered(kept) && forall i :: 0 <= i < |kept| ==> kept[i].lo < r.lo && kept[i].hi < r.hi
    ensures Staggered(kept + [r])
  {
  }

  lemma {:induction false} AmongBefore(x: Offset, sorted: seq<Offset>, n: nat)
    requires Sorted(sorted) && n < |sorted| && Among(x, sorted, n)
    ensures Before(x, sorted[n])
  {
    var j :| 0 <= j < n && sorted[j] == x;
  }

  lemma {:induction false} AmongMore(x: Offset, sorted: seq<Offset>, n: nat)
    requires n < |sorted| && Among(x, sorted, n)
    ensures Among(x, sorted, n + 1)
  {
  }

  lemma {:induction false} StillInSome(r: Offset, kept: seq<Offset>, more: seq<Offset>)
    requires InSome(r, kept) && kept <= more
    ensures InSome(r, more)
  {
    var k :| k in kept && Inside(r, k);
    assert k in more;
  }

  lemma {:induction false} SkipNext(sorted: seq<Offset>, n: nat, complete: seq<Offset>, covered: int)
    requires Sorted(sorted) && n < |sorted| && 0 <= sorted[n].lo < sorted[n].hi && sorted[n].hi <= covered
    requires Keeping(sorted, n, complete, covered)
    ensures Keeping(sorted, n + 1, complete, covered)
  {
    var last := complete[|complete| - 1];
    AmongBefore(last, sorted, n);
    assert last in complete && Inside(sorted[n], last);
    forall i | 0 <= i < |complete| ensures Among(complete[i], sorted, n + 1) {
      AmongMore(complete[i], sorted, n);
    }
  }

  /** The kept results are results, staggered, and every result lies inside one of them. */
  method KeepComplete(results: seq<Offset>) returns (complete: seq<Offset>)
    requires forall r :: r in results ==> 0 <= r.lo < r.hi
    ensures Staggered(complete)
    ensures forall k :: k in complete ==> k in results
    ensures forall r :: r in results ==> InSome(r, complete)
  {
    SortSorts(results);
    var sorted := Sort(results);
    complete := [];
    var covered := 0;
    for n := 0 to |sorted|
      invariant Keeping(sorted, n, complete, covered)
    {
      assert sorted[n] in results;
      if sorted[n].hi > covered {
        KeepNext(sorted, n, complete, covered);
        complete := complete + [sorted[n]];
        covered := sorted[n].hi;
      } else {
        SkipNext(sorted, n, complete, covered);
      }
    }
    forall k | k in complete ensures k in results {
      assert Among(k, sorted, |sorted|);
    }
    forall r | r in results ensures InSome(r, complete) {
      assert r in sorted;
    }
  }
}
