/**
 The batch restore of privaite/pii/deanonymizer.py (`_deanonymize_exact`): one pass
 over the text which, at each position, swaps the longest fake that starts there
 for its original. It is the specification the streaming restorers are held to.
 */
module DeAnonymizer {
  import opened Literals

  /** Fake to original. An empty fake is never matched (the batch pass filters it out and
      the trie has no edge for it). */
  type Fakes = map<string, string>

  /** Length of the longest non-empty fake of at most `n` characters that starts `s`, 0 if none. */
  function MatchLen(m: Fakes, s: string, n: nat): (k: nat)
    requires n <= |s|
    ensures k <= n
    ensures k > 0 ==> s[..k] in m
    ensures forall j :: k < j <= n ==> s[..j] !in m
  {
    if n == 0 then 0
    else if s[..n] in m then n
    else MatchLen(m, s, n - 1)
  }

  function Longest(m: Fakes, s: string): (k: nat)
    ensures k <= |s|
    ensures k > 0 ==> s[..k] in m
  {
    MatchLen(m, s, |s|)
  }

  lemma {:induction false} LongestIsMaximal(m: Fakes, s: string)
    ensures forall j :: Longest(m, s) < j <= |s| ==> s[..j] !in m
  {
  }

  function Restore(m: Fakes, s: string): string
    decreases |s|
  {
    if s == "" then ""
    else
      var k := Longest(m, s);
      if k > 0 then m[s[..k]] + Restore(m, s[k..])
      else [s[0]] + Restore(m, s[1..])
  }

  /** The fake, if any, that the pass takes at the start of a text is fixed by what the
      text starts with: it is the only length that is maximal. */
  lemma {:induction false} LongestIs(m: Fakes, s: string, k: nat)
    requires k <= |s|
    requires k > 0 ==> s[..k] in m
    requires forall j :: k < j <= |s| ==> s[..j] !in m
    ensures Longest(m, s) == k
  {
  }

  ghost predicate Bracketing(m: Fakes) {
    forall k :: k in m ==> Bracketed(k)
  }

  /** `s` holds a fake at position `i`, over `n` characters. */
  ghost predicate Holds(m: Fakes, s: string, i: nat, n: nat) {
    0 < n && i + n <= |s| && s[i..i + n] in m
  }

  /** No fake reaches from `a` into `b`. */
  ghost predicate CutSafe(m: Fakes, a: string, b: string) {
    forall i: nat, n: nat :: i < |a| && Holds(m, a + b, i, n) ==> i + n <= |a|
  }

  lemma {:induction false} HoldsShift(m: Fakes, s: string, k: nat)
    requires k <= |s|
    ensures forall i: nat, n: nat :: Holds(m, s[k..], i, n) <==> Holds(m, s, k + i, n)
  {
    forall i: nat, n: nat ensures Holds(m, s[k..], i, n) <==> Holds(m, s, k + i, n) {
      if k + i + n <= |s| { assert s[k..][i..i + n] == s[k + i..k + i + n]; }
    }
  }

  lemma {:induction false} CutLongest(m: Fakes, a: string, b: string)
    requires CutSafe(m, a, b) && a != ""
    ensures Longest(m, a) == Longest(m, a + b)
  {
    var s := a + b;
    var k := Longest(m, s);
    LongestIsMaximal(m, s);
    assert k > 0 ==> Holds(m, s, 0, k) by { assert s[0..0 + k] == s[..k]; }
    assert forall j :: 0 <= j <= |a| ==> a[..j] == s[..j];
    LongestIs(m, a, k);
  }

  lemma {:induction false} CutTail(m: Fakes, a: string, b: string, d: nat)
    requires CutSafe(m, a, b) && d <= |a|
    ensures CutSafe(m, a[d..], b)
  {
    var s := a + b;
    assert s[d..] == a[d..] + b;
    HoldsShift(m, s, d);
    forall i: nat, n: nat | i < |a[d..]| && Holds(m, a[d..] + b, i, n) ensures i + n <= |a[d..]| {
      assert Holds(m, s, d + i, n);
    }
  }

  lemma {:induction false} CutAt(a: string, b: string, d: nat)
    requires d <= |a|
    ensures (a + b)[d..] == a[d..] + b && (a + b)[..d] == a[..d]
  {
  }

  /** Restoring can be done piece by piece wherever no fake is cut. */
  lemma {:induction false} RestoreSplit(m: Fakes, a: string, b: string)
    requires CutSafe(m, a, b)
    ensures Restore(m, a + b) == Restore(m, a) + Restore(m, b)
    decreases |a|
  {
    if a == "" {
      assert a + b == b;
    } else {
      CutLongest(m, a, b);
      var k := Longest(m, a);
      var d := if k > 0 then k else 1;
      CutAt(a, b, d);
      CutAt(a, b, k);
      CutTail(m, a, b, d);
      RestoreSplit(m, a[d..], b);
      if k > 0 {
        assert Restore(m, a + b) == m[a[..k]] + Restore(m, a[k..] + b);
      } else {
        assert Restore(m, a + b) == [a[0]] + Restore(m, a[1..] + b);
      }
    }
  }

  /** A text in which no fake occurs is fixed by the restore. */
  lemma {:induction false} RestoreFixes(m: Fakes, s: string)
    requires forall i: nat, n: nat :: !Holds(m, s, i, n)
    ensures Restore(m, s) == s
    decreases |s|
  {
    if s != "" {
      var k := Longest(m, s);
      assert k > 0 ==> Holds(m, s, 0, k) by { assert s[0..0 + k] == s[..k]; }
      HoldsShift(m, s, 1);
      RestoreFixes(m, s[1..]);
    }
  }

  /** A complete fake is restored to its original: nothing longer starts there. */
  lemma {:induction false} RestoreFake(m: Fakes, k: string)
    requires k in m && k != ""
    ensures Restore(m, k) == m[k]
  {
    assert k[..|k|] == k;
    LongestIs(m, k, |k|);
    assert k[|k|..] == "";
  }

  /** The restore only depends on the fakes that occur in the text. */
  lemma {:induction false} RestoreAgrees(m: Fakes, m': Fakes, s: string)
    requires forall k :: k in m ==> k in m' && m'[k] == m[k]
    requires forall i: nat, n: nat :: Holds(m', s, i, n) ==> Holds(m, s, i, n)
    ensures Restore(m', s) == Restore(m, s)
    decreases |s|
  {
    if s != "" {
      var k' := Longest(m', s);
      assert k' > 0 ==> Holds(m', s, 0, k') by { assert s[0..0 + k'] == s[..k']; }
      if k' > 0 { assert Holds(m, s, 0, k'); assert s[0..0 + k'] == s[..k']; }
      LongestIsMaximal(m', s);
      LongestIs(m, s, k');
      var d := if k' > 0 then k' else 1;
      HoldsShift(m, s, d);
      HoldsShift(m', s, d);
      forall i: nat, n: nat | Holds(m', s[d..], i, n) ensures Holds(m, s[d..], i, n) {
        assert Holds(m', s, d + i, n);
      }
      RestoreAgrees(m, m', s[d..]);
    }
  }

  /** Inside a bracketed substring there is no other opening bracket, and no other closing one. */
  lemma {:induction false} BracketsInside(s: string, i: nat, n: nat)
    requires i + n <= |s| && Bracketed(s[i..i + n])
    ensures forall p :: i < p < i + n ==> s[p] != '<'
    ensures forall p :: i <= p < i + n - 1 ==> s[p] != '>'
  {
    var k := s[i..i + n];
    forall p | i <= p < i + n ensures s[p] == k[p - i] {}
  }

  /** No bracketed fake reaches across the `<` that opens another piece of text. */
  lemma {:induction false} CutBeforeOpen(m: Fakes, a: string, b: string)
    requires Bracketing(m)
    requires b != "" && b[0] == '<'
    ensures CutSafe(m, a, b)
  {
    var s := a + b;
    assert s[|a|] == '<';
    forall i: nat, n: nat | i < |a| && Holds(m, s, i, n) ensures i + n <= |a| {
      BracketsInside(s, i, n);
    }
  }

  /** No bracketed fake starts before the `>` that closes a piece of text and goes on after it. */
  lemma {:induction false} CutAfterClose(m: Fakes, a: string, b: string)
    requires Bracketing(m)
    requires a != "" && a[|a| - 1] == '>'
    ensures CutSafe(m, a, b)
  {
    var s := a + b;
    assert s[|a| - 1] == '>';
    forall i: nat, n: nat | i < |a| && Holds(m, s, i, n) ensures i + n <= |a| {
      BracketsInside(s, i, n);
    }
  }

  /** A fake in the middle of a text is restored on its own, and so is the text around it. */
  lemma {:induction false} RestoreAround(m: Fakes, a: string, k: string, b: string)
    requires Bracketing(m) && k in m
    ensures Restore(m, a + (k + b)) == Restore(m, a) + (m[k] + Restore(m, b))
  {
    assert Bracketed(k);
    CutBeforeOpen(m, a, k + b);
    RestoreSplit(m, a, k + b);
    CutAfterClose(m, k, b);
    RestoreSplit(m, k, b);
    RestoreFake(m, k);
  }
}
