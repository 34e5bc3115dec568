/**
 privaite/pii/detector_onnx.py: the check that the tokens leave no text out, and what it is
 worth after the windows have been stitched.
 */
module TextCoverage {
  import opened Windows
  import opened Stitching

  ghost predicate Held(tokens: seq<Offset>, p: int) {
    exists t :: t in tokens && t.lo <= p < t.hi
  }

  ghost predicate InText(tokens: seq<Offset>, text: string) {
    forall t :: t in tokens ==> 0 <= t.lo <= t.hi <= |text|
  }

  predicate AllIgnorable(gap: string, ignorable: char -> bool) {
    forall i :: 0 <= i < |gap| ==> ignorable(gap[i])
  }

  /** Every character before `end` is in a token or may be left out. */
  ghost predicate Accounted(tokens: seq<Offset>, text: string, ignorable: char -> bool, end: int) {
    forall p :: 0 <= p < end && p < |text| ==> Held(tokens, p) || ignorable(text[p])
  }

  const START := Offset(0, 0)

  /** The last token that stands for text. */
  function LastOf(kept: seq<Offset>): Offset {
    if kept == [] then START else kept[|kept| - 1]
  }

  /** Whether one more token passes, after the last one that stands for text. */
  predicate Passes(last: Offset, t: Offset, text: string, ignorable: char -> bool) {
    && 0 <= t.lo <= t.hi <= |text|
    && (t.lo != t.hi ==> last.lo <= t.lo && last.hi <= t.hi)
    && (t.lo != t.hi && 0 <= last.hi < t.lo ==> AllIgnorable(text[last.hi..t.lo], ignorable))
  }

  ghost predicate Scanned(tokens: seq<Offset>, text: string, ignorable: char -> bool) {
    && InText(tokens, text) && Monotone(Kept(tokens))
    && Accounted(tokens, text, ignorable, LastOf(Kept(tokens)).hi)
  }

  lemma {:induction false} LastIsKept(tokens: seq<Offset>)
    requires Kept(tokens) != []
    ensures LastOf(Kept(tokens)) in tokens
  {
    KeptMembers(tokens);
    assert LastOf(Kept(tokens)) in Kept(tokens);
  }

  /** Tokens that pass one by one, and only those, are in the text, in order and without gaps. */
  lemma {:induction false} ScanNext(tokens: seq<Offset>, t: Offset, text: string, ignorable: char -> bool)
    requires InText(tokens, text)
    ensures Scanned(tokens + [t], text, ignorable) <==>
            Scanned(tokens, text, ignorable) && Passes(LastOf(Kept(tokens)), t, text, ignorable)
  {
    KeptNext(tokens, t);
    if Kept(tokens) != [] { LastIsKept(tokens); }
    if Scanned(tokens, text, ignorable) && Passes(LastOf(Kept(tokens)), t, text, ignorable) {
      PassedIsScanned(tokens, t, text, ignorable);
    }
    if Scanned(tokens + [t], text, ignorable) {
      ScannedHasPassed(tokens, t, text, ignorable);
    }
  }

  lemma {:induction false} KeptNext(tokens: seq<Offset>, t: Offset)
    ensures Kept(tokens + [t]) == if t.lo == t.hi then Kept(tokens) else Kept(tokens) + [t]
  {
    assert (tokens + [t])[..|tokens|] == tokens;
  }

  lemma {:induction false} PassedIsScanned(tokens: seq<Offset>, t: Offset, text: string, ignorable: char -> bool)
    requires Scanned(tokens, text, ignorable) && Passes(LastOf(Kept(tokens)), t, text, ignorable)
    ensures Scanned(tokens + [t], text, ignorable)
  {
    KeptNext(tokens, t);
    GapPassed(tokens, t, text, ignorable);
    if t.lo != t.hi { OrderedNext(Kept(tokens), t); }
    MoreInText(tokens, t, text);
  }

  lemma {:induction false} MoreInText(tokens: seq<Offset>, t: Offset, text: string)
    requires InText(tokens, text) && 0 <= t.lo <= t.hi <= |text|
    ensures InText(tokens + [t], text)
  {
  }

  lemma {:induction false} OrderedNext(kept: seq<Offset>, t: Offset)
    requires Monotone(kept) && (kept != [] ==> LastOf(kept).lo <= t.lo && LastOf(kept).hi <= t.hi)
    ensures Monotone(kept + [t])
  {
  }

  lemma {:induction false} ScannedHasPassed(tokens: seq<Offset>, t: Offset, text: string, ignorable: char -> bool)
    requires InText(tokens, text) && Scanned(tokens + [t], text, ignorable)
    requires Kept(tokens) != [] ==> LastOf(Kept(tokens)) in tokens
    ensures Scanned(tokens, text, ignorable) && Passes(LastOf(Kept(tokens)), t, text, ignorable)
  {
    assert t in tokens + [t];
    KeptPrefix(tokens, t);
    GapAccounted(tokens, t, text, ignorable);
  }

  lemma {:induction false} KeptPrefix(tokens: seq<Offset>, t: Offset)
    requires Monotone(Kept(tokens + [t]))
    ensures Monotone(Kept(tokens))
    ensures t.lo != t.hi && Kept(tokens) != [] ==> LastOf(Kept(tokens)).lo <= t.lo && LastOf(Kept(tokens)).hi <= t.hi
  {
    var more, kept := Kept(tokens + [t]), Kept(tokens);
    assert (tokens + [t])[..|tokens|] == tokens;
    forall i | 0 <= i < |kept| ensures kept[i] == more[i] {}
    if t.lo != t.hi { assert more[|kept|] == t; }
  }

  lemma {:induction false} GapPassed(tokens: seq<Offset>, t: Offset, text: string, ignorable: char -> bool)
    requires Scanned(tokens, text, ignorable) && Passes(LastOf(Kept(tokens)), t, text, ignorable)
    ensures Accounted(tokens + [t], text, ignorable, LastOf(Kept(tokens)).hi)
    ensures t.lo != t.hi ==> Accounted(tokens + [t], text, ignorable, t.hi)
  {
    var more, last := tokens + [t], LastOf(Kept(tokens));
    if Kept(tokens) != [] { LastIsKept(tokens); }
    forall p | 0 <= p < |text| && (p < last.hi || (t.lo != t.hi && p < t.hi))
      ensures Held(more, p) || ignorable(text[p])
    {
      if p < last.hi {
        if Held(tokens, p) {
          var u :| u in tokens && u.lo <= p < u.hi;
          assert u in more;
        }
      } else if t.lo <= p {
        assert t in more;
      } else {
        assert text[last.hi..t.lo][p - last.hi] == text[p];
      }
    }
  }

  lemma {:induction false} GapAccounted(tokens: seq<Offset>, t: Offset, text: string, ignorable: char -> bool)
    requires InText(tokens, text) && Scanned(tokens + [t], text, ignorable) && Monotone(Kept(tokens))
    requires t.lo != t.hi && Kept(tokens) != [] ==> LastOf(Kept(tokens)).lo <= t.lo && LastOf(Kept(tokens)).hi <= t.hi
    ensures Accounted(tokens, text, ignorable, LastOf(Kept(tokens)).hi)
    ensures t.lo != t.hi && 0 <= LastOf(Kept(tokens)).hi < t.lo <= |text| ==>
              AllIgnorable(text[LastOf(Kept(tokens)).hi..t.lo], ignorable)
  {
    if Kept(tokens) != [] { LastIsKept(tokens); }
    EarlierAccounted(tokens, t, text, ignorable);
    if t.lo != t.hi && 0 <= LastOf(Kept(tokens)).hi < t.lo <= |text| {
      GapIgnorable(tokens, t, text, ignorable);
    }
  }

  lemma {:induction false} EarlierAccounted(tokens: seq<Offset>, t: Offset, text: string, ignorable: char -> bool)
    requires Scanned(tokens + [t], text, ignorable)
    requires t.lo != t.hi && Kept(tokens) != [] ==> LastOf(Kept(tokens)).lo <= t.lo && LastOf(Kept(tokens)).hi <= t.hi
    requires Kept(tokens) != [] ==> LastOf(Kept(tokens)) in tokens
    ensures Accounted(tokens, text, ignorable, LastOf(Kept(tokens)).hi)
  {
    var more, last := tokens + [t], LastOf(Kept(tokens));
    assert more[..|tokens|] == tokens;
    forall p | 0 <= p < |text| && p < last.hi ensures Held(tokens, p) || ignorable(text[p]) {
      if !ignorable(text[p]) {
        assert Held(more, p);
        var u :| u in more && u.lo <= p < u.hi;
        if u !in tokens {
          assert last in tokens && last.lo <= p < last.hi;
        }
      }
    }
  }

  lemma {:induction false} GapIgnorable(tokens: seq<Offset>, t: Offset, text: string, ignorable: char -> bool)
    requires Scanned(tokens + [t], text, ignorable) && Monotone(Kept(tokens))
    requires t.lo != t.hi && 0 <= LastOf(Kept(tokens)).hi < t.lo <= t.hi <= |text|
    ensures AllIgnorable(text[LastOf(Kept(tokens)).hi..t.lo], ignorable)
  {
    var more, last := tokens + [t], LastOf(Kept(tokens));
    assert more[..|tokens|] == tokens;
    forall i | 0 <= i < t.lo - last.hi ensures ignorable(text[last.hi..t.lo][i]) {
      var p := last.hi + i;
      assert Held(more, p) || ignorable(text[p]);
      if Held(more, p) {
        var u :| u in more && u.lo <= p < u.hi;
        EarlierEnds(tokens, u);
      }
    }
  }

  /** No token reaches further than the last. */
  lemma {:induction false} EarlierEnds(tokens: seq<Offset>, u: Offset)
    requires Monotone(Kept(tokens))
    ensures u in tokens && u.lo < u.hi ==> u.hi <= LastOf(Kept(tokens)).hi
  {
    KeptMembers(tokens);
    if u in tokens && u.lo < u.hi {
      assert u in Kept(tokens);
      var i :| 0 <= i < |Kept(tokens)| && Kept(tokens)[i] == u;
    }
  }

  /** The text is covered: the tokens lie in it and go forward, and what no token holds may be
      left out. */
  ghost predicate Covered(tokens: seq<Offset>, text: string, ignorable: char -> bool) {
    && InText(tokens, text) && Monotone(Kept(tokens))
    && Accounted(tokens, text, ignorable, |text|)
  }

  lemma {:induction false} NotScanned(tokens: seq<Offset>, text: string, ignorable: char -> bool, n: nat)
    requires n < |tokens| && Scanned(tokens[..n], text, ignorable)
    requires !Passes(LastOf(Kept(tokens[..n])), tokens[n], text, ignorable)
    ensures !Covered(tokens, text, ignorable)
  {
    ScanNext(tokens[..n], tokens[n], text, ignorable);
    assert tokens[..n] + [tokens[n]] == tokens[..n + 1];
    if Covered(tokens, text, ignorable) {
      PrefixScanned(tokens, text, ignorable, n + 1);
      assert false;
    }
  }

  lemma {:induction false} PrefixScanned(tokens: seq<Offset>, text: string, ignorable: char -> bool, n: nat)
    requires n <= |tokens| && Covered(tokens, text, ignorable)
    ensures Scanned(tokens[..n], text, ignorable)
    decreases |tokens| - n
  {
    if n == |tokens| {
      assert tokens[..n] == tokens;
    } else {
      PrefixScanned(tokens, text, ignorable, n + 1);
      assert tokens[..n] + [tokens[n]] == tokens[..n + 1];
      assert InText(tokens[..n], text);
      ScanNext(tokens[..n], tokens[n], text, ignorable);
    }
  }

  lemma {:induction false} CoveredAtEnd(tokens: seq<Offset>, text: string, ignorable: char -> bool)
    requires Scanned(tokens, text, ignorable)
    ensures 0 <= LastOf(Kept(tokens)).hi <= |text|
    ensures Covered(tokens, text, ignorable) <==> AllIgnorable(text[LastOf(Kept(tokens)).hi..], ignorable)
  {
    var last := LastOf(Kept(tokens));
    if Kept(tokens) != [] { LastIsKept(tokens); }
    var tail := text[last.hi..];
    if AllIgnorable(tail, ignorable) {
      forall p | 0 <= p < |text| ensures Held(tokens, p) || ignorable(text[p]) {
        if p >= last.hi { assert tail[p - last.hi] == text[p]; }
      }
    }
    if Covered(tokens, text, ignorable) {
      forall i | 0 <= i < |tail| ensures ignorable(tail[i]) {
        if Held(tokens, last.hi + i) {
          var u :| u in tokens && u.lo <= last.hi + i < u.hi;
          EarlierEnds(tokens, u);
        }
      }
    }
  }

  /** The check accepts exactly the token sequences that leave no text out. */
  method CheckTextCoverage(tokens: seq<Offset>, text: string, ignorable: char -> bool) returns (ok: bool)
    ensures ok <==> Covered(tokens, text, ignorable)
  {
    var previous, covered := 0, 0;
    for n := 0 to |tokens|
      invariant Scanned(tokens[..n], text, ignorable)
      invariant Offset(previous, covered) == LastOf(Kept(tokens[..n]))
    {
      var t := tokens[n];
      ScanNext(tokens[..n], t, text, ignorable);
      CoveredAtEnd(tokens[..n], text, ignorable);
      assert tokens[..n] + [t] == tokens[..n + 1] && tokens[..n + 1][..n] == tokens[..n];
      if !(0 <= t.lo <= t.hi <= |text|) {
        NotScanned(tokens, text, ignorable, n);
        return false;
      }
      if t.lo == t.hi {
        continue;
      }
      if t.lo < previous || t.hi < covered {
        NotScanned(tokens, text, ignorable, n);
        return false;
      }
      if t.lo > covered && !AllIgnorable(text[covered..t.lo], ignorable) {
        NotScanned(tokens, text, ignorable, n);
        return false;
      }
      previous, covered := t.lo, t.hi;
    }
    assert tokens[..|tokens|] == tokens;
    CoveredAtEnd(tokens, text, ignorable);
    return covered >= |text| || AllIgnorable(text[covered..], ignorable);
  }

  /**
   The whole scan: once the text check has passed, the stitched tokens still go forward through
   the text, and every character that may not be left out lies in one of them.
   */
  lemma {:induction false} ScanLosesNoText(tokens: seq<Offset>, text: string, ignorable: char -> bool,
                                           ranges: seq<Offset>, window: int, overlap: int, rows: seq<Row>)
    requires Covered(tokens, text, ignorable)
    requires RowsOf(tokens, ranges, window, overlap, rows) && rows != []
    ensures Cuttable(rows, Shares(rows, overlap))
    ensures var stitched := Stitched(rows, Shares(rows, overlap), |rows|);
            && Monotone(stitched.offsets) && InText(stitched.offsets, text)
            && Accounted(stitched.offsets, text, ignorable, |text|)
  {
    StitchingLosesNoText(tokens, ranges, window, overlap, rows);
    KeptMembers(tokens);
    var stitched := Stitched(rows, Shares(rows, overlap), |rows|).offsets;
    forall p | 0 <= p < |text| ensures Held(stitched, p) || ignorable(text[p]) {
      if Held(tokens, p) {
        var t :| t in tokens && t.lo <= p < t.hi;
        assert t in stitched;
      }
    }
  }
}
