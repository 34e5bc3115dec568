/**
 privaite/pii/detector_onnx.py: a long text is run through the model in overlapping windows
 of tokens, and the predictions are stitched back into one sequence.
 */
module Windows {
  import opened Wrappers

  /** Where a token lies in the text, or a window in the tokens: `lo` included, `hi` not. */
  datatype Offset = Offset(lo: int, hi: int)

  function Min(a: int, b: int): int {
    if a < b then a else b
  }

  // ----- the windows -----

  /** The windows of `n` tokens: full ones, each sharing `overlap` tokens with the next, up to
      the first that reaches the end. */
  ghost predicate Tiles(ranges: seq<Offset>, n: int, window: int, overlap: int) {
    && (ranges == [] <==> n == 0)
    && (forall i :: 0 <= i < |ranges| ==> 0 <= ranges[i].lo < n && ranges[i].hi == Min(ranges[i].lo + window, n))
    && (forall i {:trigger Overlaps(ranges, overlap, i)} :: 0 <= i < |ranges| - 1 ==>
          ranges[i].hi < n && Overlaps(ranges, overlap, i))
    && (ranges != [] ==> ranges[0].lo == 0 && ranges[|ranges| - 1].hi == n)
  }

  ghost predicate Overlaps(ranges: seq<Offset>, overlap: int, i: int)
    requires 0 <= i < |ranges| - 1
  {
    ranges[i + 1].lo == ranges[i].hi - overlap
  }

  method WindowRanges(n: nat, window: int, overlap: int) returns (r: Option<seq<Offset>>)
    ensures r.Some? <==> 0 <= overlap < window
    ensures r.Some? ==> Tiles(r.value, n, window, overlap)
  {
    if !(0 <= overlap < window) {
      return None;
    }
    var ranges: seq<Offset> := [];
    var start := 0;
    while start < n
      invariant 0 <= start && (ranges == [] <==> start == 0)
      invariant forall i :: 0 <= i < |ranges| ==>
                  0 <= ranges[i].lo && ranges[i].hi < n && ranges[i].hi == ranges[i].lo + window
      invariant forall i {:trigger Overlaps(ranges, overlap, i)} :: 0 <= i < |ranges| - 1 ==> Overlaps(ranges, overlap, i)
      invariant ranges != [] ==> ranges[0].lo == 0 && start == ranges[|ranges| - 1].hi - overlap
      decreases n - start
    {
      var end := Min(start + window, n);
      ghost var before := ranges;
      ranges := ranges + [Offset(start, end)];
      forall i | 0 <= i < |ranges| - 1 ensures Overlaps(ranges, overlap, i) {
        if i < |before| - 1 { assert Overlaps(before, overlap, i); }
      }
      if end == n {
        return Some(ranges);
      }
      start := start + (window - overlap);
    }
    return Some(ranges);
  }

  /** How far some windows reach. */
  function Reach(ranges: seq<Offset>): int {
    if ranges == [] then 0
    else
      var before := Reach(ranges[..|ranges| - 1]);
      var hi := ranges[|ranges| - 1].hi;
      if before < hi then hi else before
  }

  /** Each window is one of the tokens, and starts no later than the ones before it reach. */
  ghost predicate Gapless(ranges: seq<Offset>, n: int) {
    && (forall i :: 0 <= i < |ranges| ==> 0 <= ranges[i].lo <= Reach(ranges[..i]) && ranges[i].lo < ranges[i].hi <= n)
    && Reach(ranges) == n
  }

  method CheckWindowCoverage(ranges: seq<Offset>, n: int) returns (ok: bool)
    ensures ok <==> Gapless(ranges, n)
  {
    var covered := 0;
    for i := 0 to |ranges|
      invariant covered == Reach(ranges[..i])
      invariant forall j :: 0 <= j < i ==> 0 <= ranges[j].lo <= Reach(ranges[..j]) && ranges[j].lo < ranges[j].hi <= n
    {
      var r := ranges[i];
      if !(0 <= r.lo <= covered) || !(r.lo < r.hi <= n) {
        return false;
      }
      assert ranges[..i + 1][..i] == ranges[..i];
      covered := if covered < r.hi then r.hi else covered;
    }
    assert ranges[..|ranges|] == ranges;
    return covered == n;
  }

  /** Windows that pass the check leave no token out. */
  lemma {:induction false} GaplessCovers(ranges: seq<Offset>, p: int)
    requires forall i :: 0 <= i < |ranges| ==> ranges[i].lo <= Reach(ranges[..i])
    requires 0 <= p < Reach(ranges)
    ensures exists i :: 0 <= i < |ranges| && ranges[i].lo <= p < ranges[i].hi
    decreases |ranges|
  {
    var n := |ranges| - 1;
    var front := ranges[..n];
    if p < Reach(front) {
      forall i | 0 <= i < n ensures front[i].lo <= Reach(front[..i]) {
        assert front[..i] == ranges[..i];
      }
      GaplessCovers(front, p);
      var i :| 0 <= i < n && front[i].lo <= p < front[i].hi;
      assert ranges[i] == front[i];
    } else {
      assert ranges[n].lo <= p < ranges[n].hi;
    }
  }

  /** The windows always pass the check. */
  lemma {:induction false} WindowsPass(ranges: seq<Offset>, n: int, window: int, overlap: int)
    requires 0 <= overlap < window && 0 <= n && Tiles(ranges, n, window, overlap)
    ensures Gapless(ranges, n)
  {
    ReachIsLast(ranges, n, window, overlap, |ranges|);
    assert ranges[..|ranges|] == ranges;
    forall i | 0 <= i < |ranges| ensures ranges[i].lo <= Reach(ranges[..i]) {
      ReachIsLast(ranges, n, window, overlap, i);
      if i > 0 { assert Overlaps(ranges, overlap, i - 1); }
    }
  }

  lemma {:induction false} ReachIsLast(ranges: seq<Offset>, n: int, window: int, overlap: int, i: nat)
    requires 0 <= overlap < window && 0 <= n && Tiles(ranges, n, window, overlap) && i <= |ranges|
    ensures Reach(ranges[..i]) == if i == 0 then 0 else ranges[i - 1].hi
    decreases i
  {
    if i > 0 {
      ReachIsLast(ranges, n, window, overlap, i - 1);
      assert ranges[..i][..i - 1] == ranges[..i - 1];
      if i > 1 { assert Overlaps(ranges, overlap, i - 2); }
    }
  }

  // ----- the tokens that stand for text -----

  /** The tokens that map to source characters. */
  function Kept(tokens: seq<Offset>): seq<Offset> {
    if tokens == [] then []
    else
      var n := |tokens| - 1;
      Kept(tokens[..n]) + if tokens[n].lo == tokens[n].hi then [] else [tokens[n]]
  }

  lemma {:induction false} KeptConcat(a: seq<Offset>, b: seq<Offset>)
    ensures Kept(a + b) == Kept(a) + Kept(b)
    decreases |b|
  {
    if b == [] {
      assert a + b == a;
    } else {
      var n := |b| - 1;
      assert (a + b)[..|a| + n] == a + b[..n];
      KeptConcat(a, b[..n]);
    }
  }

  lemma {:induction false} KeptMembers(tokens: seq<Offset>)
    ensures |Kept(tokens)| <= |tokens|
    ensures forall t :: t in Kept(tokens) <==> t in tokens && t.lo != t.hi
    decreases |tokens|
  {
    if tokens != [] {
      var n := |tokens| - 1;
      KeptMembers(tokens[..n]);
      assert tokens == tokens[..n] + [tokens[n]];
    }
  }

  lemma {:induction false} KeptAll(tokens: seq<Offset>)
    requires forall t :: t in tokens ==> t.lo != t.hi
    ensures Kept(tokens) == tokens
    decreases |tokens|
  {
    if tokens != [] {
      var n := |tokens| - 1;
      KeptAll(tokens[..n]);
      assert tokens == tokens[..n] + [tokens[n]];
    }
  }

  /** How many tokens before the `i`th stand for text. */
  function Rank(tokens: seq<Offset>, i: int): nat
    requires 0 <= i <= |tokens|
  {
    |Kept(tokens[..i])|
  }

  /** The kept tokens of a window are a stretch of the kept tokens. */
  lemma {:induction false} WindowOfKept(tokens: seq<Offset>, lo: int, hi: int)
    requires 0 <= lo <= hi <= |tokens|
    ensures Rank(tokens, lo) <= Rank(tokens, hi) <= |Kept(tokens)|
    ensures Rank(tokens, hi) - Rank(tokens, lo) <= hi - lo
    ensures Kept(tokens[lo..hi]) == Kept(tokens)[Rank(tokens, lo)..Rank(tokens, hi)]
  {
    assert tokens[..hi] == tokens[..lo] + tokens[lo..hi];
    assert tokens == tokens[..hi] + tokens[hi..];
    KeptConcat(tokens[..lo], tokens[lo..hi]);
    KeptConcat(tokens[..hi], tokens[hi..]);
    KeptMembers(tokens[lo..hi]);
  }

  // ----- stitching -----

  /** The predictions for one window: a label, a score and the place of each token. */
  datatype Row = Row(labels: seq<string>, scores: seq<real>, offsets: seq<Offset>) {
    predicate Valid() {
      |labels| == |scores| == |offsets|
    }

    function Slice(lo: int, hi: int): Row
      requires Valid() && 0 <= lo <= hi <= |offsets|
    {
      Row(labels[lo..hi], scores[lo..hi], offsets[lo..hi])
    }

    function Append(other: Row): Row {
      Row(labels + other.labels, scores + other.scores, offsets + other.offsets)
    }
  }

  const NOTHING := Row([], [], [])

  /** The last `k` tokens of a row are the first `k` of the next. */
  predicate Runs(prev: seq<Offset>, cur: seq<Offset>, k: int)
    requires 0 <= k <= |prev| && k <= |cur|
  {
    prev[|prev| - k..] == cur[..k]
  }

  function LongestRun(prev: seq<Offset>, cur: seq<Offset>, limit: nat): (k: nat)
    requires limit <= |prev| && limit <= |cur|
    ensures k <= limit && Runs(prev, cur, k)
    ensures forall j :: k < j <= limit ==> !Runs(prev, cur, j)
  {
    if limit == 0 || Runs(prev, cur, limit) then limit else LongestRun(prev, cur, limit - 1)
  }

  /** The expected run where it is one, otherwise the longest. */
  function SharedRun(prev: seq<Offset>, cur: seq<Offset>, overlap: nat): (k: nat)
    ensures k <= |prev| && k <= |cur| && Runs(prev, cur, k)
  {
    var limit := Min(|prev|, |cur|);
    var expected := Min(overlap, limit);
    if expected != 0 && Runs(prev, cur, expected) then expected else LongestRun(prev, cur, limit)
  }

  method SharedRunLength(prev: seq<Offset>, cur: seq<Offset>, overlap: nat) returns (k: nat)
    ensures k == SharedRun(prev, cur, overlap)
  {
    var limit := Min(|prev|, |cur|);
    var expected := Min(overlap, limit);
    if expected != 0 && Runs(prev, cur, expected) {
      return expected;
    }
    k := limit;
    while k > 0
      invariant 0 <= k <= limit
      invariant LongestRun(prev, cur, limit) == LongestRun(prev, cur, k)
    {
      if Runs(prev, cur, k) {
        return k;
      }
      k := k - 1;
    }
  }

  function Shares(rows: seq<Row>, overlap: nat): (shared: seq<nat>)
    requires rows != []
  {
    seq(|rows| - 1, r requires 0 <= r < |rows| - 1 => SharedRun(rows[r].offsets, rows[r + 1].offsets, overlap))
  }

  /** Where row `r` is cut: half of what it shares with its neighbours is theirs. */
  function Head(shared: seq<nat>, r: int): nat
    requires 0 <= r <= |shared|
  {
    if r > 0 then shared[r - 1] / 2 else 0
  }

  function Dropped(shared: seq<nat>, r: int): nat
    requires 0 <= r <= |shared|
  {
    if r < |shared| then shared[r] - shared[r] / 2 else 0
  }

  ghost predicate Cuttable(rows: seq<Row>, shared: seq<nat>) {
    && |shared| + 1 == |rows|
    && forall r :: 0 <= r < |rows| ==> rows[r].Valid() && Head(shared, r) + Dropped(shared, r) <= |rows[r].offsets|
  }

  /** The two cuts of a row never cross. */
  lemma {:induction false} SharesCut(rows: seq<Row>, overlap: nat)
    requires rows != [] && forall r :: 0 <= r < |rows| ==> rows[r].Valid()
    ensures Cuttable(rows, Shares(rows, overlap))
  {
    var shared := Shares(rows, overlap);
    forall r | 0 <= r < |rows| ensures Head(shared, r) + Dropped(shared, r) <= |rows[r].offsets| {
      assert r > 0 ==> shared[r - 1] <= |rows[r].offsets|;
      assert r < |shared| ==> shared[r] <= |rows[r].offsets|;
    }
  }

  function Piece(rows: seq<Row>, shared: seq<nat>, r: int): Row
    requires Cuttable(rows, shared) && 0 <= r < |rows|
  {
    rows[r].Slice(Head(shared, r), |rows[r].offsets| - Dropped(shared, r))
  }

  function Stitched(rows: seq<Row>, shared: seq<nat>, n: nat): Row
    requires Cuttable(rows, shared) && n <= |rows|
  {
    if n == 0 then NOTHING else Stitched(rows, shared, n - 1).Append(Piece(rows, shared, n - 1))
  }

  method ShareAll(rows: seq<Row>, overlap: nat) returns (shared: seq<nat>)
    requires rows != []
    ensures shared == Shares(rows, overlap)
  {
    shared := [];
    for r := 0 to |rows| - 1
      invariant |shared| == r
      invariant forall i :: 0 <= i < r ==> shared[i] == SharedRun(rows[i].offsets, rows[i + 1].offsets, overlap)
    {
      var k := SharedRunLength(rows[r].offsets, rows[r + 1].offsets, overlap);
      shared := shared + [k];
    }
  }

  /** The pieces of the rows, one after the other. */
  method Join(rows: seq<Row>, shared: seq<nat>) returns (stitched: Row)
    requires Cuttable(rows, shared)
    ensures stitched == Stitched(rows, shared, |rows|)
  {
    stitched := NOTHING;
    for r := 0 to |rows|
      invariant stitched == Stitched(rows, shared, r)
    {
      var row := rows[r];
      var head := if r > 0 then shared[r - 1] / 2 else 0;
      var tail := |row.offsets|;
      if r < |rows| - 1 {
        tail := tail - (shared[r] - shared[r] / 2);
      }
      assert head == Head(shared, r) && |row.offsets| - tail == Dropped(shared, r);
      stitched := Row(stitched.labels + row.labels[head..tail],
                      stitched.scores + row.scores[head..tail],
                      stitched.offsets + row.offsets[head..tail]);
    }
  }

  method StitchWindows(rows: seq<Row>, overlap: nat) returns (stitched: Row)
    requires forall r :: 0 <= r < |rows| ==> rows[r].Valid()
    ensures rows == [] ==> stitched == NOTHING
    ensures rows != [] ==> Cuttable(rows, Shares(rows, overlap))
    ensures rows != [] ==> stitched == Stitched(rows, Shares(rows, overlap), |rows|)
  {
    if rows == [] {
      return NOTHING;
    }
    SharesCut(rows, overlap);
    if |rows| == 1 {
      SingleRow(rows[0], overlap);
      assert rows == [rows[0]];
      return rows[0];
    }
    var shared := ShareAll(rows, overlap);
    stitched := Join(rows, shared);
  }

  /** A single window is kept as it is. */
  lemma {:induction false} SingleRow(row: Row, overlap: nat)
    requires row.Valid()
    ensures Cuttable([row], Shares([row], overlap))
    ensures Stitched([row], Shares([row], overlap), 1) == row
  {
    assert Stitched([row], Shares([row], overlap), 0) == NOTHING;
    assert Piece([row], Shares([row], overlap), 0) == row;
    assert NOTHING.Append(row) == row;
  }
}
