/**
 Operator exemptions (privaite/pii/allow_list.py): which merged spans are let through,
 judged on every raw detection under them.
 */
module AllowList {
  import opened Wrappers
  import opened Entities
  import opened Merge

  const MAX_ALLOWED_LENGTH := 1024

  const ALWAYS_PROTECTED: set<string> := {"SECRET"}

  /** `matches` is an exact or a full-match test; no types means any type that is not protected. */
  datatype Rule = Rule(matches: string -> bool, entityTypes: Option<set<string>>) {
    predicate Allows(entityType: string, value: string, protected: set<string>) {
      && (match entityTypes
          case None => entityType !in protected
          case Some(types) => entityType in types)
      && |value| <= MAX_ALLOWED_LENGTH
      && matches(value)
    }
  }

  /** Some rule admits this detection, on its own type and text. */
  predicate Admitted(text: string, d: Entity, rules: seq<Rule>, protected: set<string>)
    requires 0 <= d.start <= d.end <= |text|
  {
    exists i :: 0 <= i < |rules| && rules[i].Allows(d.entityType, text[d.start..d.end], protected)
  }

  predicate Overlaps(span: Entity, d: Entity) {
    span.start < d.end && d.start < span.end
  }

  /** None when no detection touches the span, else whether every one that does is admitted. */
  function Judge(text: string, raw: seq<Entity>, rules: seq<Rule>, protected: set<string>, span: Entity): (r: Option<bool>)
    requires InText(text, raw)
    ensures r == None <==> forall d :: d in raw ==> !Overlaps(span, d)
    ensures r == Some(true) ==> forall i :: 0 <= i < |raw| && Overlaps(span, raw[i]) ==> Admitted(text, raw[i], rules, protected)
    ensures r == Some(false) ==> exists i :: 0 <= i < |raw| && Overlaps(span, raw[i]) && !Admitted(text, raw[i], rules, protected)
  {
    if raw == [] then None
    else
      var n := |raw| - 1;
      assert raw == raw[..n] + [raw[n]];
      var before := Judge(text, raw[..n], rules, protected, span);
      if !Overlaps(span, raw[n]) then before
      else Some((before == None || before.value) && Admitted(text, raw[n], rules, protected))
  }

  /** A span is let through when a detection touches it and every one that does is admitted. */
  ghost predicate LetThrough(text: string, raw: seq<Entity>, rules: seq<Rule>, protected: set<string>, span: Entity)
    requires InText(text, raw)
  {
    && (exists i :: 0 <= i < |raw| && Overlaps(span, raw[i]))
    && (forall i :: 0 <= i < |raw| && Overlaps(span, raw[i]) ==> Admitted(text, raw[i], rules, protected))
  }

  lemma {:induction false} JudgeLetsThrough(text: string, raw: seq<Entity>, rules: seq<Rule>, protected: set<string>, span: Entity)
    requires InText(text, raw)
    ensures Judge(text, raw, rules, protected, span) == Some(true) <==> LetThrough(text, raw, rules, protected, span)
  {
    match Judge(text, raw, rules, protected, span)
    case None =>
      NoneNotLet(text, raw, rules, protected, span);
    case Some(true) =>
      var d :| d in raw && Overlaps(span, d);
      var i :| 0 <= i < |raw| && raw[i] == d;
    case Some(false) =>
      var i :| 0 <= i < |raw| && Overlaps(span, raw[i]) && !Admitted(text, raw[i], rules, protected);
      assert !LetThrough(text, raw, rules, protected, span);
  }

  lemma {:induction false} NoneNotLet(text: string, raw: seq<Entity>, rules: seq<Rule>, protected: set<string>, span: Entity)
    requires InText(text, raw) && forall d :: d in raw ==> !Overlaps(span, d)
    ensures !LetThrough(text, raw, rules, protected, span)
  {
    forall i | 0 <= i < |raw| ensures !Overlaps(span, raw[i]) {
      assert raw[i] in raw;
    }
  }

  /** An admitted detection touches the span. */
  predicate AllowedUnder(text: string, raw: seq<Entity>, rules: seq<Rule>, protected: set<string>, span: Entity)
    requires InText(text, raw)
  {
    exists i :: 0 <= i < |raw| && Overlaps(span, raw[i]) && Admitted(text, raw[i], rules, protected)
  }

  /** The merged spans with the given verdict, in order. */
  function Select(text: string, merged: seq<Entity>, raw: seq<Entity>, rules: seq<Rule>, protected: set<string>, through: bool): (r: seq<Entity>)
    requires InText(text, raw)
  {
    if merged == [] then []
    else
      var n := |merged| - 1;
      Select(text, merged[..n], raw, rules, protected, through)
      + if (Judge(text, raw, rules, protected, merged[n]) == Some(true)) == through then [merged[n]] else []
  }

  /** The refused detections that touch a span with an admitted one, in order. */
  ghost predicate StandsInTheWay(text: string, merged: seq<Entity>, raw: seq<Entity>, rules: seq<Rule>, protected: set<string>, d: Entity)
    requires InText(text, raw) && 0 <= d.start <= d.end <= |text|
  {
    && !Admitted(text, d, rules, protected)
    && exists i :: 0 <= i < |merged| && Overlaps(merged[i], d) && AllowedUnder(text, raw, rules, protected, merged[i])
  }

  ghost function InTheWay(text: string, merged: seq<Entity>, raw: seq<Entity>, rules: seq<Rule>, protected: set<string>, n: nat): seq<Entity>
    requires InText(text, raw) && n <= |raw|
  {
    if n == 0 then []
    else
      InTheWay(text, merged, raw, rules, protected, n - 1)
      + if StandsInTheWay(text, merged, raw, rules, protected, raw[n - 1]) then [raw[n - 1]] else []
  }

  datatype Verdict = Verdict(redacted: seq<Entity>, allowed: seq<Entity>, notAllowed: seq<Entity>)

  ghost function Applied(text: string, merged: seq<Entity>, raw: seq<Entity>, rules: seq<Rule>, protected: set<string>): Verdict
    requires InText(text, raw)
  {
    if rules == [] || merged == [] then Verdict(merged, [], [])
    else Verdict(Select(text, merged, raw, rules, protected, false),
                 Select(text, merged, raw, rules, protected, true),
                 InTheWay(text, merged, raw, rules, protected, |raw|))
  }

  /** With no rule nothing is admitted, so the shortcut changes nothing. */
  lemma {:induction false} NoRulesRedactAll(text: string, merged: seq<Entity>, raw: seq<Entity>, protected: set<string>)
    requires InText(text, raw)
    ensures Select(text, merged, raw, [], protected, false) == merged
    decreases |merged|
  {
    if merged != [] {
      var n := |merged| - 1;
      NoRulesRedactAll(text, merged[..n], raw, protected);
      JudgeLetsThrough(text, raw, [], protected, merged[n]);
      assert merged == merged[..n] + [merged[n]];
    }
  }

  lemma {:induction false} SelectElements(text: string, merged: seq<Entity>, raw: seq<Entity>, rules: seq<Rule>, protected: set<string>, through: bool)
    requires InText(text, raw)
    ensures forall m :: m in Select(text, merged, raw, rules, protected, through) <==>
                        m in merged && (LetThrough(text, raw, rules, protected, m) <==> through)
    decreases |merged|
  {
    if merged != [] {
      var n := |merged| - 1;
      SelectElements(text, merged[..n], raw, rules, protected, through);
      assert merged == merged[..n] + [merged[n]];
      JudgeLetsThrough(text, raw, rules, protected, merged[n]);
    }
  }

  /** The spans of `whole`, one by one from the end, each the last of `a` or of `b`. */
  ghost predicate Interleaves(whole: seq<Entity>, a: seq<Entity>, b: seq<Entity>) {
    if whole == [] then a == [] && b == []
    else
      var n := |whole| - 1;
      || (a != [] && a[|a| - 1] == whole[n] && Interleaves(whole[..n], a[..|a| - 1], b))
      || (b != [] && b[|b| - 1] == whole[n] && Interleaves(whole[..n], a, b[..|b| - 1]))
  }

  lemma {:induction false} InterleavesNext(whole: seq<Entity>, a: seq<Entity>, b: seq<Entity>, x: Entity)
    requires Interleaves(whole, a, b)
    ensures Interleaves(whole + [x], a + [x], b) && Interleaves(whole + [x], a, b + [x])
  {
    assert (whole + [x])[..|whole|] == whole && (a + [x])[..|a|] == a && (b + [x])[..|b|] == b;
  }

  lemma {:induction false} SelectInOrder(text: string, merged: seq<Entity>, raw: seq<Entity>, rules: seq<Rule>, protected: set<string>)
    requires InText(text, raw)
    ensures Interleaves(merged, Select(text, merged, raw, rules, protected, false), Select(text, merged, raw, rules, protected, true))
    decreases |merged|
  {
    if merged != [] {
      var n := |merged| - 1;
      var kept, allowed := Select(text, merged[..n], raw, rules, protected, false), Select(text, merged[..n], raw, rules, protected, true);
      SelectInOrder(text, merged[..n], raw, rules, protected);
      InterleavesNext(merged[..n], kept, allowed, merged[n]);
      assert merged == merged[..n] + [merged[n]] && kept + [] == kept && allowed + [] == allowed;
    }
  }

  /** A span is redacted or allowed, never both and never neither, and both lists keep the order
      of the merged spans. */
  lemma {:induction false} SelectPartitions(text: string, merged: seq<Entity>, raw: seq<Entity>, rules: seq<Rule>, protected: set<string>)
    requires InText(text, raw)
    ensures var kept := Select(text, merged, raw, rules, protected, false);
            var allowed := Select(text, merged, raw, rules, protected, true);
            multiset(kept) + multiset(allowed) == multiset(merged) && Interleaves(merged, kept, allowed)
  {
    SelectInOrder(text, merged, raw, rules, protected);
    AllInterleaved(merged, Select(text, merged, raw, rules, protected, false), Select(text, merged, raw, rules, protected, true));
  }

  lemma {:induction false} AllInterleaved(whole: seq<Entity>, a: seq<Entity>, b: seq<Entity>)
    requires Interleaves(whole, a, b)
    ensures multiset(a) + multiset(b) == multiset(whole)
    decreases |whole|
  {
    if whole != [] {
      var n := |whole| - 1;
      WithLast(whole);
      if a != [] && a[|a| - 1] == whole[n] && Interleaves(whole[..n], a[..|a| - 1], b) {
        AllInterleaved(whole[..n], a[..|a| - 1], b);
        WithLast(a);
      } else {
        AllInterleaved(whole[..n], a, b[..|b| - 1]);
        WithLast(b);
      }
    }
  }

  lemma {:induction false} WithLast(s: seq<Entity>)
    requires s != []
    ensures multiset(s) == multiset(s[..|s| - 1]) + multiset{s[|s| - 1]}
  {
    assert s == s[..|s| - 1] + [s[|s| - 1]];
  }

  lemma {:induction false} SelectStaysDisjoint(text: string, merged: seq<Entity>, raw: seq<Entity>, rules: seq<Rule>, protected: set<string>, through: bool)
    requires InText(text, raw) && Disjoint(merged)
    ensures Disjoint(Select(text, merged, raw, rules, protected, through))
    decreases |merged|
  {
    if merged != [] {
      var n := |merged| - 1;
      SelectStaysDisjoint(text, merged[..n], raw, rules, protected, through);
      SelectElements(text, merged[..n], raw, rules, protected, through);
      var rest := Select(text, merged[..n], raw, rules, protected, through);
      forall i | 0 <= i < |rest| ensures rest[i].end <= merged[n].start {
        assert rest[i] in merged[..n];
        var j :| 0 <= j < n && merged[..n][j] == rest[i];
        assert merged[j].end <= merged[n].start;
      }
    }
  }

  // ----- bisect -----

  predicate NonDecreasing(a: seq<int>) {
    forall i, j :: 0 <= i < j < |a| ==> a[i] <= a[j]
  }

  /** bisect_right: behind the elements up to `x`. */
  method BisectRight(a: seq<int>, x: int) returns (lo: nat)
    requires NonDecreasing(a)
    ensures lo <= |a|
    ensures forall i :: 0 <= i < |a| ==> (i < lo <==> a[i] <= x)
  {
    lo := 0;
    var hi := |a|;
    while lo < hi
      invariant lo <= hi <= |a|
      invariant forall i :: 0 <= i < lo ==> a[i] <= x
      invariant forall i :: hi <= i < |a| ==> x < a[i]
    {
      var mid := (lo + hi) / 2;
      if x < a[mid] {
        hi := mid;
      } else {
        lo := mid + 1;
      }
    }
  }

  /** bisect_left: behind the elements below `x`. */
  method BisectLeft(a: seq<int>, x: int) returns (lo: nat)
    requires NonDecreasing(a)
    ensures lo <= |a|
    ensures forall i :: 0 <= i < |a| ==> (i < lo <==> a[i] < x)
  {
    lo := 0;
    var hi := |a|;
    while lo < hi
      invariant lo <= hi <= |a|
      invariant forall i :: 0 <= i < lo ==> a[i] < x
      invariant forall i :: hi <= i < |a| ==> x <= a[i]
    {
      var mid := (lo + hi) / 2;
      if a[mid] < x {
        lo := mid + 1;
      } else {
        hi := mid;
      }
    }
  }

  predicate SortedAndDisjoint(spans: seq<Entity>) {
    && (forall i :: 0 <= i < |spans| - 1 ==> spans[i].end <= spans[i + 1].start)
    && (forall i :: 0 <= i < |spans| - 1 ==> spans[i].start <= spans[i + 1].start)
  }

  /** Neighbours in order make the whole lists of starts and ends ordered. */
  lemma {:induction false} NeighboursOrder(spans: seq<Entity>, i: nat, j: nat)
    requires SortedAndDisjoint(spans) && i < j < |spans|
    requires forall k :: 0 <= k < |spans| ==> spans[k].start <= spans[k].end
    ensures spans[i].start <= spans[j].start && spans[i].end <= spans[j].end
    decreases j
  {
    if i < j - 1 { NeighboursOrder(spans, i, j - 1); }
    assert spans[j - 1].end <= spans[j - 1 + 1].start;
  }

  /** The spans a detection touches, by index: one range of the ordered spans, or a scan. */
  method Touched(merged: seq<Entity>, d: Entity) returns (touched: seq<nat>)
    requires forall k :: 0 <= k < |merged| ==> merged[k].start <= merged[k].end
    ensures forall i: nat :: i in touched <==> i < |merged| && Overlaps(merged[i], d)
  {
    if SortedAndDisjoint(merged) {
      var starts := seq(|merged|, i requires 0 <= i < |merged| => merged[i].start);
      var ends := seq(|merged|, i requires 0 <= i < |merged| => merged[i].end);
      forall i, j | 0 <= i < j < |merged| ensures starts[i] <= starts[j] && ends[i] <= ends[j] {
        NeighboursOrder(merged, i, j);
      }
      var lo := BisectRight(ends, d.start);
      var hi := BisectLeft(starts, d.end);
      forall i: nat | i < |merged| ensures Overlaps(merged[i], d) <==> lo <= i < hi {
        assert ends[i] <= d.start <==> i < lo;
        assert starts[i] < d.end <==> i < hi;
      }
      touched := if lo <= hi then seq(hi - lo, k requires 0 <= k < hi - lo => lo + k) else [];
      forall i: nat ensures i in touched <==> i < |merged| && Overlaps(merged[i], d) {
        if lo <= i < hi { assert touched[i - lo] == i; }
      }
    } else {
      touched := [];
      for i := 0 to |merged|
        invariant forall k: nat :: k in touched <==> k < i && Overlaps(merged[k], d)
      {
        if merged[i].start < d.end && d.start < merged[i].end {
          touched := touched + [i];
        }
      }
    }
  }

  // ----- the verdicts -----

  /** What the two lists hold after the first `n` detections. */
  ghost predicate Tracks(text: string, merged: seq<Entity>, raw: seq<Entity>, rules: seq<Rule>, protected: set<string>,
                         verdict: seq<Option<bool>>, allowedUnder: seq<bool>)
    requires InText(text, raw)
  {
    && |verdict| == |allowedUnder| == |merged|
    && forall i :: 0 <= i < |merged| ==>
                     && verdict[i] == Judge(text, raw, rules, protected, merged[i])
                     && allowedUnder[i] == AllowedUnder(text, raw, rules, protected, merged[i])
  }

  method Update(text: string, merged: seq<Entity>, raw: seq<Entity>, d: Entity, rules: seq<Rule>, protected: set<string>,
                touched: seq<nat>, ok: bool, verdict: seq<Option<bool>>, allowedUnder: seq<bool>)
    returns (verdict': seq<Option<bool>>, allowedUnder': seq<bool>)
    requires InText(text, raw + [d])
    requires InText(text, raw) && Tracks(text, merged, raw, rules, protected, verdict, allowedUnder)
    requires forall i: nat :: i in touched <==> i < |merged| && Overlaps(merged[i], d)
    requires ok == ((raw + [d])[|raw|] == d && Admitted(text, d, rules, protected))
    ensures Tracks(text, merged, raw + [d], rules, protected, verdict', allowedUnder')
  {
    verdict', allowedUnder' := verdict, allowedUnder;
    for k := 0 to |touched|
      invariant |verdict'| == |allowedUnder'| == |merged|
      invariant forall i: nat :: i < |merged| ==>
                  verdict'[i] == if i in touched[..k] then Some((verdict[i] == None || verdict[i].value) && ok) else verdict[i]
      invariant forall i: nat :: i < |merged| ==>
                  allowedUnder'[i] == if i in touched[..k] then allowedUnder[i] || ok else allowedUnder[i]
    {
      var i := touched[k];
      assert i in touched;
      assert touched[..k + 1] == touched[..k] + [i];
      var previous := verdict'[i];
      verdict' := verdict'[i := Some(if previous == None then ok else previous.value && ok)];
      allowedUnder' := allowedUnder'[i := allowedUnder'[i] || ok];
    }
    assert touched[..|touched|] == touched;
    ghost var all := raw + [d];
    assert all[..|raw|] == raw;
    forall i | 0 <= i < |merged|
      ensures AllowedUnder(text, all, rules, protected, merged[i])
          <==> AllowedUnder(text, raw, rules, protected, merged[i]) || (Overlaps(merged[i], d) && ok)
    {
      if AllowedUnder(text, raw, rules, protected, merged[i]) {
        var j :| 0 <= j < |raw| && Overlaps(merged[i], raw[j]) && Admitted(text, raw[j], rules, protected);
        assert all[j] == raw[j];
      }
      if AllowedUnder(text, all, rules, protected, merged[i]) {
        var j :| 0 <= j < |all| && Overlaps(merged[i], all[j]) && Admitted(text, all[j], rules, protected);
        assert j < |raw| ==> all[j] == raw[j];
      }
    }
  }

  predicate Touches(merged: seq<Entity>, d: Entity) {
    exists i :: 0 <= i < |merged| && Overlaps(merged[i], d)
  }

  /** The detections among the first `n` that no rule admits and that touch a merged span. */
  ghost function RefusedOf(text: string, merged: seq<Entity>, raw: seq<Entity>, rules: seq<Rule>, protected: set<string>, n: nat): seq<Entity>
    requires InText(text, raw) && n <= |raw|
  {
    if n == 0 then []
    else
      RefusedOf(text, merged, raw, rules, protected, n - 1)
      + if !Admitted(text, raw[n - 1], rules, protected) && Touches(merged, raw[n - 1]) then [raw[n - 1]] else []
  }

  /** Of some refused detections, those that touch a span with an admitted one. */
  ghost function OverAllowed(text: string, merged: seq<Entity>, raw: seq<Entity>, rules: seq<Rule>, protected: set<string>, ds: seq<Entity>): seq<Entity>
    requires InText(text, raw)
  {
    if ds == [] then []
    else
      var n := |ds| - 1;
      OverAllowed(text, merged, raw, rules, protected, ds[..n])
      + if exists i :: 0 <= i < |merged| && Overlaps(merged[i], ds[n]) && AllowedUnder(text, raw, rules, protected, merged[i])
        then [ds[n]] else []
  }

  lemma {:induction false} RefusedInTheWay(text: string, merged: seq<Entity>, raw: seq<Entity>, rules: seq<Rule>, protected: set<string>, n: nat)
    requires InText(text, raw) && n <= |raw|
    ensures OverAllowed(text, merged, raw, rules, protected, RefusedOf(text, merged, raw, rules, protected, n))
         == InTheWay(text, merged, raw, rules, protected, n)
  {
    if n > 0 {
      RefusedInTheWay(text, merged, raw, rules, protected, n - 1);
      var before := RefusedOf(text, merged, raw, rules, protected, n - 1);
      var d := raw[n - 1];
      assert (before + [d])[..|before|] == before;
      assert before + [] == before;
    }
  }

  datatype Refusal = Refusal(touched: seq<nat>, detection: Entity)

  ghost predicate Faithful(merged: seq<Entity>, refused: seq<Refusal>, ds: seq<Entity>) {
    && |refused| == |ds|
    && forall k :: 0 <= k < |ds| ==>
                     && refused[k].detection == ds[k]
                     && forall i: nat :: i in refused[k].touched <==> i < |merged| && Overlaps(merged[i], ds[k])
  }

  /** The loop over the raw detections. */
  method JudgeAll(text: string, merged: seq<Entity>, raw: seq<Entity>, rules: seq<Rule>, protected: set<string>)
    returns (verdict: seq<Option<bool>>, allowedUnder: seq<bool>, refused: seq<Refusal>)
    requires InText(text, merged) && InText(text, raw)
    ensures Tracks(text, merged, raw, rules, protected, verdict, allowedUnder)
    ensures Faithful(merged, refused, RefusedOf(text, merged, raw, rules, protected, |raw|))
  {
    verdict := seq(|merged|, _ => None);
    allowedUnder := seq(|merged|, _ => false);
    refused := [];
    for n := 0 to |raw|
      invariant InText(text, raw[..n])
      invariant Tracks(text, merged, raw[..n], rules, protected, verdict, allowedUnder)
      invariant Faithful(merged, refused, RefusedOf(text, merged, raw, rules, protected, n))
    {
      var d := raw[n];
      assert raw[..n + 1] == raw[..n] + [d];
      var touched := Touched(merged, d);
      TouchedOrNot(merged, d, touched);
      assert RefusedOf(text, merged, raw, rules, protected, n) + [] == RefusedOf(text, merged, raw, rules, protected, n);
      if touched == [] {
        UntouchedTracks(text, merged, raw[..n], d, rules, protected, verdict, allowedUnder);
        continue;
      }
      var ok := Admitted(text, d, rules, protected);
      verdict, allowedUnder := Update(text, merged, raw[..n], d, rules, protected, touched, ok, verdict, allowedUnder);
      if !ok {
        refused := refused + [Refusal(touched, d)];
      }
    }
    assert raw[..|raw|] == raw;
  }

  method Sieve(text: string, merged: seq<Entity>, ghost raw: seq<Entity>, ghost rules: seq<Rule>, ghost protected: set<string>,
               verdict: seq<Option<bool>>, ghost allowedUnder: seq<bool>)
    returns (kept: seq<Entity>, allowed: seq<Entity>)
    requires InText(text, raw) && Tracks(text, merged, raw, rules, protected, verdict, allowedUnder)
    ensures kept == Select(text, merged, raw, rules, protected, false)
    ensures allowed == Select(text, merged, raw, rules, protected, true)
  {
    kept, allowed := [], [];
    for i := 0 to |merged|
      invariant kept == Select(text, merged[..i], raw, rules, protected, false)
      invariant allowed == Select(text, merged[..i], raw, rules, protected, true)
    {
      assert merged[..i + 1][..i] == merged[..i];
      assert kept + [] == kept && allowed + [] == allowed;
      if verdict[i] == Some(true) {
        allowed := allowed + [merged[i]];
      } else {
        kept := kept + [merged[i]];
      }
    }
    assert merged[..|merged|] == merged;
  }

  method CollectNotAllowed(text: string, merged: seq<Entity>, ghost raw: seq<Entity>, ghost rules: seq<Rule>, ghost protected: set<string>,
                           ghost verdict: seq<Option<bool>>, allowedUnder: seq<bool>, refused: seq<Refusal>, ghost ds: seq<Entity>)
    returns (notAllowed: seq<Entity>)
    requires InText(text, raw) && Tracks(text, merged, raw, rules, protected, verdict, allowedUnder)
    requires Faithful(merged, refused, ds)
    ensures notAllowed == OverAllowed(text, merged, raw, rules, protected, ds)
  {
    notAllowed := [];
    for k := 0 to |refused|
      invariant notAllowed == OverAllowed(text, merged, raw, rules, protected, ds[..k])
    {
      assert ds[..k + 1][..k] == ds[..k];
      AnyTouched(merged, refused[k].touched, allowedUnder, ds[k]);
      assert notAllowed + [] == notAllowed;
      if exists j :: 0 <= j < |refused[k].touched| && allowedUnder[refused[k].touched[j]] {
        notAllowed := notAllowed + [refused[k].detection];
      }
    }
    assert ds[..|ds|] == ds;
  }

  /** The three lists of a verdict: merged spans to redact, merged spans an exemption covers, and
      the raw detections because of which a partly exempt span is redacted. */
  method ApplyAllowList(text: string, merged: seq<Entity>, raw: seq<Entity>, rules: seq<Rule>, protected: set<string>)
    returns (v: Verdict)
    requires InText(text, merged) && InText(text, raw)
    ensures v == Applied(text, merged, raw, rules, protected)
  {
    if rules == [] || merged == [] {
      return Verdict(merged, [], []);
    }
    var verdict, allowedUnder, refused := JudgeAll(text, merged, raw, rules, protected);
    var kept, allowed := Sieve(text, merged, raw, rules, protected, verdict, allowedUnder);
    RefusedInTheWay(text, merged, raw, rules, protected, |raw|);
    var notAllowed := CollectNotAllowed(text, merged, raw, rules, protected, verdict, allowedUnder, refused,
                                        RefusedOf(text, merged, raw, rules, protected, |raw|));
    return Verdict(kept, allowed, notAllowed);
  }

  lemma {:induction false} TouchedOrNot(merged: seq<Entity>, d: Entity, touched: seq<nat>)
    requires forall i: nat :: i in touched <==> i < |merged| && Overlaps(merged[i], d)
    ensures touched != [] <==> Touches(merged, d)
  {
    if touched != [] { assert touched[0] in touched; }
    if Touches(merged, d) {
      var i: nat :| i < |merged| && Overlaps(merged[i], d);
      assert i in touched;
    }
  }

  lemma {:induction false} AnyTouched(merged: seq<Entity>, touched: seq<nat>, under: seq<bool>, d: Entity)
    requires |under| == |merged|
    requires forall i: nat :: i in touched <==> i < |merged| && Overlaps(merged[i], d)
    ensures forall j :: 0 <= j < |touched| ==> touched[j] < |under|
    ensures (exists j :: 0 <= j < |touched| && under[touched[j]])
        <==> exists i :: 0 <= i < |merged| && Overlaps(merged[i], d) && under[i]
  {
    forall j | 0 <= j < |touched| ensures touched[j] < |under| && Overlaps(merged[touched[j]], d) {
      assert touched[j] in touched;
    }
    if i: nat :| i < |merged| && Overlaps(merged[i], d) && under[i] {
      assert i in touched;
      var j :| 0 <= j < |touched| && touched[j] == i;
      assert under[touched[j]];
    }
  }

  /** A detection that touches nothing leaves every verdict as it is. */
  lemma {:induction false} UntouchedTracks(text: string, merged: seq<Entity>, raw: seq<Entity>, d: Entity, rules: seq<Rule>, protected: set<string>,
                                           verdict: seq<Option<bool>>, allowedUnder: seq<bool>)
    requires InText(text, raw) && InText(text, raw + [d])
    requires Tracks(text, merged, raw, rules, protected, verdict, allowedUnder)
    requires !Touches(merged, d)
    ensures Tracks(text, merged, raw + [d], rules, protected, verdict, allowedUnder)
  {
    var all := raw + [d];
    assert all[..|raw|] == raw;
    forall i | 0 <= i < |merged|
      ensures Judge(text, all, rules, protected, merged[i]) == Judge(text, raw, rules, protected, merged[i])
      ensures AllowedUnder(text, all, rules, protected, merged[i]) == AllowedUnder(text, raw, rules, protected, merged[i])
    {
      assert !Overlaps(merged[i], d);
      forall j | 0 <= j < |raw| ensures all[j] == raw[j] {}
      if AllowedUnder(text, raw, rules, protected, merged[i]) {
        var j :| 0 <= j < |raw| && Overlaps(merged[i], raw[j]) && Admitted(text, raw[j], rules, protected);
        assert all[j] == raw[j];
      }
    }
  }
}
