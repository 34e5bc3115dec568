/**
 privaite/pii/detector_onnx.py: what stitching the windows keeps of the tokens.
 */
module Stitching {
  import opened Windows

  /** `part` is what lies at a place in `whole`. */
  ghost predicate Copies(part: seq<Offset>, whole: seq<Offset>, place: Offset) {
    && 0 <= place.lo <= place.hi <= |whole| && |part| == place.hi - place.lo
    && forall i :: 0 <= i < |part| ==> part[i] == whole[place.lo + i]
  }

  ghost predicate Placed(kept: seq<Offset>, rows: seq<Row>, at: seq<Offset>, r: int)
    requires |at| == |rows| && 0 <= r < |rows|
  {
    rows[r].Valid() && Copies(rows[r].offsets, kept, at[r])
  }

  /** Row `r` and the next share tokens or touch. */
  ghost predicate Neighbours(at: seq<Offset>, r: int)
    requires 0 <= r < |at| - 1
  {
    at[r].lo <= at[r + 1].lo <= at[r].hi <= at[r + 1].hi
  }

  /** Row `r` holds the kept tokens `at[r]`. */
  ghost predicate Layout(kept: seq<Offset>, rows: seq<Row>, at: seq<Offset>) {
    && |at| == |rows| > 0 && at[0].lo == 0 && at[|at| - 1].hi == |kept|
    && (forall r {:trigger Placed(kept, rows, at, r)} :: 0 <= r < |rows| ==> Placed(kept, rows, at, r))
    && (forall r {:trigger Neighbours(at, r)} :: 0 <= r < |rows| - 1 ==> Neighbours(at, r))
  }

  /** How many tokens row `r` and the next really share. */
  function TrueShare(at: seq<Offset>, r: int): int
    requires 0 <= r < |at| - 1
  {
    at[r].hi - at[r + 1].lo
  }

  /** The tokens row `r` gives to the result. */
  function Start(shared: seq<nat>, at: seq<Offset>, r: int): int
    requires |shared| + 1 == |at| && 0 <= r < |at|
  {
    at[r].lo + Head(shared, r)
  }

  function End(shared: seq<nat>, at: seq<Offset>, r: int): int
    requires |shared| + 1 == |at| && 0 <= r < |at|
  {
    at[r].hi - Dropped(shared, r)
  }

  /** A run between row `r` and the next, no shorter than the true one. */
  ghost predicate RunFound(rows: seq<Row>, at: seq<Offset>, shared: seq<nat>, r: int)
    requires |shared| + 1 == |at| == |rows| && 0 <= r < |shared|
  {
    && TrueShare(at, r) <= shared[r] <= |rows[r].offsets| && shared[r] <= |rows[r + 1].offsets|
    && Runs(rows[r].offsets, rows[r + 1].offsets, shared[r])
  }

  /** A layout with the runs that were found between its rows. */
  ghost predicate Found(kept: seq<Offset>, rows: seq<Row>, at: seq<Offset>, shared: seq<nat>) {
    && Layout(kept, rows, at) && Cuttable(rows, shared)
    && forall r {:trigger RunFound(rows, at, shared, r)} :: 0 <= r < |shared| ==> RunFound(rows, at, shared, r)
  }

  /** The run found is the true one. */
  ghost predicate Exact(at: seq<Offset>, shared: seq<nat>, r: int)
    requires |shared| + 1 == |at| && 0 <= r < |shared|
  {
    shared[r] == TrueShare(at, r)
  }

  ghost predicate Aligned(at: seq<Offset>, shared: seq<nat>)
    requires |shared| + 1 == |at|
  {
    forall r {:trigger Exact(at, shared, r)} :: 0 <= r < |shared| ==> Exact(at, shared, r)
  }

  // ----- the run that is found -----

  lemma {:induction false} RunsAt(prev: seq<Offset>, cur: seq<Offset>, k: int)
    requires 0 <= k <= |prev| && k <= |cur|
    ensures Runs(prev, cur, k) <==> forall i :: 0 <= i < k ==> prev[|prev| - k + i] == cur[i]
  {
    var a, b := prev[|prev| - k..], cur[..k];
    assert forall i :: 0 <= i < k ==> a[i] == prev[|prev| - k + i];
    if forall i :: 0 <= i < k ==> prev[|prev| - k + i] == cur[i] {
      assert a == b;
    }
  }

  /** The true run is found, or a longer one; it is found if it is as long as expected. */
  lemma {:induction false} RunIsLongEnough(prev: seq<Offset>, cur: seq<Offset>, overlap: nat, t: nat)
    requires t <= |prev| && t <= |cur| && t <= overlap && Runs(prev, cur, t)
    ensures t <= SharedRun(prev, cur, overlap)
    ensures t == overlap > 0 ==> SharedRun(prev, cur, overlap) == t
  {
  }

  lemma {:induction false} TrueRun(kept: seq<Offset>, prev: seq<Offset>, cur: seq<Offset>, a: Offset, b: Offset)
    requires Copies(prev, kept, a) && Copies(cur, kept, b)
    requires a.lo <= b.lo <= a.hi <= b.hi
    ensures Runs(prev, cur, a.hi - b.lo)
  {
    RunsAt(prev, cur, a.hi - b.lo);
  }

  lemma {:induction false} RunsAreFound(kept: seq<Offset>, rows: seq<Row>, at: seq<Offset>, overlap: nat)
    requires Layout(kept, rows, at)
    requires forall r {:trigger TrueShare(at, r)} :: 0 <= r < |rows| - 1 ==> TrueShare(at, r) <= overlap
    ensures Found(kept, rows, at, Shares(rows, overlap))
    ensures overlap > 0 && (forall r {:trigger TrueShare(at, r)} :: 0 <= r < |rows| - 1 ==> TrueShare(at, r) == overlap) ==>
              Aligned(at, Shares(rows, overlap))
  {
    forall r | 0 <= r < |rows| ensures rows[r].Valid() {
      assert Placed(kept, rows, at, r);
    }
    SharesCut(rows, overlap);
    var shared := Shares(rows, overlap);
    forall r | 0 <= r < |shared|
      ensures RunFound(rows, at, shared, r)
      ensures TrueShare(at, r) == overlap > 0 ==> Exact(at, shared, r)
    {
      assert Placed(kept, rows, at, r) && Placed(kept, rows, at, r + 1) && Neighbours(at, r);
      TrueRun(kept, rows[r].offsets, rows[r + 1].offsets, at[r], at[r + 1]);
      RunIsLongEnough(rows[r].offsets, rows[r + 1].offsets, overlap, TrueShare(at, r));
    }
  }

  /** A run compares the kept tokens with themselves, moved by what it is too long. */
  lemma {:induction false} ShiftOf(kept: seq<Offset>, prev: seq<Offset>, cur: seq<Offset>, a: Offset, b: Offset, k: nat, i: int)
    requires Copies(prev, kept, a) && Copies(cur, kept, b)
    requires k <= |prev| && k <= |cur| && Runs(prev, cur, k) && 0 <= i < k
    ensures kept[a.hi - k + i] == kept[b.lo + i]
  {
    RunsAt(prev, cur, k);
    assert prev[|prev| - k + i] == cur[i];
  }

  lemma {:induction false} RunIsShift(kept: seq<Offset>, rows: seq<Row>, at: seq<Offset>, shared: seq<nat>, r: int, i: int)
    requires Found(kept, rows, at, shared) && 0 <= r < |shared| && 0 <= i < shared[r]
    ensures 0 <= at[r].hi - shared[r] + i < |kept| && 0 <= at[r + 1].lo + i < |kept|
    ensures kept[at[r].hi - shared[r] + i] == kept[at[r + 1].lo + i]
  {
    assert Placed(kept, rows, at, r) && Placed(kept, rows, at, r + 1) && RunFound(rows, at, shared, r);
    ShiftOf(kept, rows[r].offsets, rows[r + 1].offsets, at[r], at[r + 1], shared[r], i);
  }

  ghost predicate Distinct(s: seq<Offset>) {
    forall i, j :: 0 <= i < j < |s| ==> s[i] != s[j]
  }

  /** Tokens that can be told apart leave only the true run. */
  lemma {:induction false} DistinctIsAligned(kept: seq<Offset>, rows: seq<Row>, at: seq<Offset>, shared: seq<nat>)
    requires Found(kept, rows, at, shared) && Distinct(kept)
    ensures Aligned(at, shared)
  {
    forall r | 0 <= r < |shared| ensures Exact(at, shared, r) {
      assert RunFound(rows, at, shared, r) && Neighbours(at, r);
      if shared[r] > 0 {
        RunIsShift(kept, rows, at, shared, r, 0);
      }
    }
  }

  // ----- the pieces -----

  /** What row `r` gives: the kept tokens from its start to its end, with its predictions. */
  lemma {:induction false} PieceAt(kept: seq<Offset>, rows: seq<Row>, at: seq<Offset>, shared: seq<nat>, r: int)
    requires Found(kept, rows, at, shared) && 0 <= r < |rows|
    ensures var (piece, start, end) := (Piece(rows, shared, r), Start(shared, at, r), End(shared, at, r));
            && piece.Valid() && 0 <= start <= end <= |kept| && Copies(piece.offsets, kept, Offset(start, end))
            && (forall j :: 0 <= j < |piece.labels| ==> piece.labels[j] == rows[r].labels[Head(shared, r) + j])
            && (forall j :: 0 <= j < |piece.scores| ==> piece.scores[j] == rows[r].scores[Head(shared, r) + j])
  {
    assert Placed(kept, rows, at, r);
  }

  /** Where one piece ends and the next starts. */
  lemma {:induction false} NextStart(kept: seq<Offset>, rows: seq<Row>, at: seq<Offset>, shared: seq<nat>, r: int)
    requires Found(kept, rows, at, shared) && 0 <= r < |shared|
    ensures Start(shared, at, r + 1) == End(shared, at, r) + (shared[r] - TrueShare(at, r))
    ensures shared[r] >= TrueShare(at, r)
  {
    assert RunFound(rows, at, shared, r);
  }

  // ----- the exact result -----

  /** Token `j` of the result is the prediction of row `r` for that token. */
  ghost predicate KeptFrom(rows: seq<Row>, at: seq<Offset>, shared: seq<nat>, stitched: Row, j: int, r: int)
    requires |rows| == |at| == |shared| + 1 && stitched.Valid()
  {
    && 0 <= r < |rows| && rows[r].Valid() && 0 <= j < |stitched.offsets|
    && 0 <= j - at[r].lo < |rows[r].offsets|
    && Start(shared, at, r) <= j < End(shared, at, r)
    && stitched.labels[j] == rows[r].labels[j - at[r].lo]
    && stitched.scores[j] == rows[r].scores[j - at[r].lo]
    && stitched.offsets[j] == rows[r].offsets[j - at[r].lo]
  }

  /** With the true runs the result is the kept tokens, once and in order. */
  lemma {:induction false} AlignedIsExact(kept: seq<Offset>, rows: seq<Row>, at: seq<Offset>, shared: seq<nat>, n: nat)
    requires Found(kept, rows, at, shared) && Aligned(at, shared) && 0 < n <= |rows|
    ensures Stitched(rows, shared, n).Valid()
    ensures Copies(Stitched(rows, shared, n).offsets, kept, Offset(0, End(shared, at, n - 1)))
    decreases n
  {
    PieceAt(kept, rows, at, shared, n - 1);
    if n == 1 {
      assert Stitched(rows, shared, 0) == NOTHING;
    } else {
      AlignedIsExact(kept, rows, at, shared, n - 1);
      NextStart(kept, rows, at, shared, n - 2);
      assert Exact(at, shared, n - 2);
    }
  }

  lemma {:induction false} FromPiece(kept: seq<Offset>, rows: seq<Row>, at: seq<Offset>, shared: seq<nat>, r: nat, before: Row, j: int)
    requires Found(kept, rows, at, shared) && r < |rows|
    requires before.Valid() && |before.offsets| == Start(shared, at, r) <= j < End(shared, at, r)
    ensures before.Append(Piece(rows, shared, r)).Valid()
    ensures KeptFrom(rows, at, shared, before.Append(Piece(rows, shared, r)), j, r)
  {
    PieceAt(kept, rows, at, shared, r);
    assert Placed(kept, rows, at, r);
  }

  /** Each with the prediction of a row that holds it. */
  lemma {:induction false} RowOf(kept: seq<Offset>, rows: seq<Row>, at: seq<Offset>, shared: seq<nat>, n: nat, j: int) returns (r: int)
    requires Found(kept, rows, at, shared) && Aligned(at, shared) && 0 < n <= |rows|
    requires 0 <= j < End(shared, at, n - 1)
    ensures Stitched(rows, shared, n).Valid() && KeptFrom(rows, at, shared, Stitched(rows, shared, n), j, r)
    decreases n
  {
    var before, whole := Stitched(rows, shared, n - 1), Stitched(rows, shared, n);
    assert whole == before.Append(Piece(rows, shared, n - 1));
    AlignedIsExact(kept, rows, at, shared, n);
    if n == 1 {
      assert before == NOTHING;
      FromPiece(kept, rows, at, shared, 0, before, j);
      return 0;
    }
    AlignedIsExact(kept, rows, at, shared, n - 1);
    NextStart(kept, rows, at, shared, n - 2);
    assert Exact(at, shared, n - 2);
    if j < End(shared, at, n - 2) {
      r := RowOf(kept, rows, at, shared, n - 1, j);
      assert KeptFrom(rows, at, shared, before, j, r);
    } else {
      FromPiece(kept, rows, at, shared, n - 1, before, j);
      r := n - 1;
    }
  }

  // ----- the result in general -----

  lemma {:induction false} StitchedIsValid(rows: seq<Row>, shared: seq<nat>, n: nat)
    requires Cuttable(rows, shared) && n <= |rows|
    ensures Stitched(rows, shared, n).Valid()
    decreases n
  {
    if n > 0 {
      StitchedIsValid(rows, shared, n - 1);
    }
  }

  /** The result holds what each piece gives it. */
  lemma {:induction false} StitchedHas(kept: seq<Offset>, rows: seq<Row>, at: seq<Offset>, shared: seq<nat>, n: nat, r: int, j: int)
    requires Found(kept, rows, at, shared) && n <= |rows|
    requires 0 <= r < n && Start(shared, at, r) <= j < End(shared, at, r)
    ensures 0 <= j < |kept| && kept[j] in Stitched(rows, shared, n).offsets
    decreases n
  {
    if r == n - 1 {
      PieceAt(kept, rows, at, shared, r);
      assert Piece(rows, shared, r).offsets[j - Start(shared, at, r)] == kept[j];
    } else {
      StitchedHas(kept, rows, at, shared, n - 1, r, j);
    }
  }

  ghost predicate Monotone(s: seq<Offset>) {
    forall i, j :: 0 <= i <= j < |s| ==> s[i].lo <= s[j].lo && s[i].hi <= s[j].hi
  }

  /** An offset of the kept tokens before the `end`th. */
  ghost predicate Among(x: Offset, kept: seq<Offset>, end: int) {
    exists j :: 0 <= j < end && j < |kept| && kept[j] == x
  }

  lemma {:induction false} AppendedInOrder(kept: seq<Offset>, before: seq<Offset>, piece: seq<Offset>, middle: int, start: int, end: int)
    requires Monotone(kept) && Monotone(before) && middle <= start
    requires forall x :: x in before ==> Among(x, kept, middle)
    requires Copies(piece, kept, Offset(start, end))
    ensures Monotone(before + piece)
    ensures forall x :: x in before + piece ==> Among(x, kept, end)
  {
    forall i, j | 0 <= i < |before| && 0 <= j < |piece|
      ensures before[i].lo <= piece[j].lo && before[i].hi <= piece[j].hi
    {
      assert before[i] in before;
      var k :| 0 <= k < middle && k < |kept| && kept[k] == before[i];
    }
    forall x | x in piece ensures Among(x, kept, end) {
      var i :| 0 <= i < |piece| && piece[i] == x;
      assert kept[start + i] == x;
    }
  }

  /** The result is made of kept tokens, in their order. */
  lemma {:induction false} StitchedOnly(kept: seq<Offset>, rows: seq<Row>, at: seq<Offset>, shared: seq<nat>, n: nat)
    requires Found(kept, rows, at, shared) && 0 < n <= |rows| && Monotone(kept)
    ensures forall x :: x in Stitched(rows, shared, n).offsets ==> Among(x, kept, End(shared, at, n - 1))
    ensures Monotone(Stitched(rows, shared, n).offsets)
    decreases n
  {
    var before := Stitched(rows, shared, n - 1).offsets;
    var middle := if n == 1 then 0 else End(shared, at, n - 2);
    if n > 1 {
      StitchedOnly(kept, rows, at, shared, n - 1);
      NextStart(kept, rows, at, shared, n - 2);
    }
    PieceAt(kept, rows, at, shared, n - 1);
    AppendedInOrder(kept, before, Piece(rows, shared, n - 1).offsets, middle, Start(shared, at, n - 1), End(shared, at, n - 1));
  }

  /** A run that is too long passes over copies of the token that comes next. */
  lemma {:induction false} SkippedIsRepeated(kept: seq<Offset>, rows: seq<Row>, at: seq<Offset>, shared: seq<nat>, r: int, i: int)
    requires Found(kept, rows, at, shared) && Monotone(kept) && 0 <= r < |shared|
    requires End(shared, at, r) <= i < Start(shared, at, r + 1)
    ensures 0 <= i < Start(shared, at, r + 1) < |kept| && kept[i] == kept[Start(shared, at, r + 1)]
  {
    NextStart(kept, rows, at, shared, r);
    assert RunFound(rows, at, shared, r) && Neighbours(at, r);
    RunIsShift(kept, rows, at, shared, r, shared[r] / 2);
  }

  /** Every kept token from the start of row `r` on is in the result, or a copy of it. */
  lemma {:induction false} NothingLost(kept: seq<Offset>, rows: seq<Row>, at: seq<Offset>, shared: seq<nat>, r: int, j: int)
    requires Found(kept, rows, at, shared) && Monotone(kept)
    requires 0 <= r < |rows| && Start(shared, at, r) <= j < |kept|
    ensures 0 <= j && kept[j] in Stitched(rows, shared, |rows|).offsets
    decreases |rows| - r
  {
    PieceAt(kept, rows, at, shared, r);
    if j < End(shared, at, r) {
      StitchedHas(kept, rows, at, shared, |rows|, r, j);
    } else if j < Start(shared, at, r + 1) {
      SkippedIsRepeated(kept, rows, at, shared, r, j);
      NothingLost(kept, rows, at, shared, r + 1, Start(shared, at, r + 1));
    } else {
      NothingLost(kept, rows, at, shared, r + 1, j);
    }
  }

  /** The result is as long as the kept tokens if and only if every run found is the true one. */
  lemma {:induction false} StitchedCount(kept: seq<Offset>, rows: seq<Row>, at: seq<Offset>, shared: seq<nat>, n: nat)
    requires Found(kept, rows, at, shared) && 0 < n <= |rows|
    ensures |Stitched(rows, shared, n).offsets| <= End(shared, at, n - 1)
    ensures |Stitched(rows, shared, n).offsets| == End(shared, at, n - 1) <==>
            forall r {:trigger Exact(at, shared, r)} :: 0 <= r < n - 1 ==> Exact(at, shared, r)
    decreases n
  {
    PieceAt(kept, rows, at, shared, n - 1);
    if n > 1 {
      StitchedCount(kept, rows, at, shared, n - 1);
      NextStart(kept, rows, at, shared, n - 2);
      assert Exact(at, shared, n - 2) <==> Start(shared, at, n - 1) == End(shared, at, n - 2);
    } else {
      assert Stitched(rows, shared, 0) == NOTHING;
    }
  }

  // ----- the windows of a text -----

  ghost predicate RowFor(tokens: seq<Offset>, range: Offset, row: Row) {
    && 0 <= range.lo <= range.hi <= |tokens|
    && row.Valid() && row.offsets == Kept(tokens[range.lo..range.hi])
  }

  /** The rows of a tokenized text: one per window, with the tokens that stand for text. */
  ghost predicate RowsOf(tokens: seq<Offset>, ranges: seq<Offset>, window: int, overlap: int, rows: seq<Row>) {
    && 0 <= overlap < window && Tiles(ranges, |tokens|, window, overlap) && |rows| == |ranges|
    && forall r {:trigger RowFor(tokens, ranges[r], rows[r])} :: 0 <= r < |rows| ==> RowFor(tokens, ranges[r], rows[r])
  }

  /** The place of a window in the kept tokens. */
  function PlaceOf(tokens: seq<Offset>, range: Offset): Offset {
    if 0 <= range.lo <= range.hi <= |tokens| then Offset(Rank(tokens, range.lo), Rank(tokens, range.hi)) else range
  }

  function Places(tokens: seq<Offset>, ranges: seq<Offset>): seq<Offset> {
    seq(|ranges|, r requires 0 <= r < |ranges| => PlaceOf(tokens, ranges[r]))
  }

  ghost predicate NoneDropped(tokens: seq<Offset>) {
    forall t :: t in tokens ==> t.lo != t.hi
  }

  lemma {:induction false} PlaceIsRange(tokens: seq<Offset>, range: Offset)
    requires NoneDropped(tokens) && 0 <= range.lo <= range.hi <= |tokens|
    ensures PlaceOf(tokens, range) == range
  {
    KeptAll(tokens[..range.lo]);
    KeptAll(tokens[..range.hi]);
  }

  /** Two neighbouring windows, in the kept tokens. */
  lemma {:induction false} PlacesTouch(tokens: seq<Offset>, a: Offset, b: Offset)
    requires 0 <= a.lo <= b.lo <= a.hi <= b.hi <= |tokens|
    ensures var (p, q) := (PlaceOf(tokens, a), PlaceOf(tokens, b));
            p.lo <= q.lo <= p.hi <= q.hi && p.hi - q.lo <= a.hi - b.lo
  {
    WindowOfKept(tokens, a.lo, b.lo);
    WindowOfKept(tokens, b.lo, a.hi);
    WindowOfKept(tokens, a.hi, b.hi);
  }

  lemma {:induction false} RowIsPlaced(tokens: seq<Offset>, range: Offset, row: Row)
    requires RowFor(tokens, range, row)
    ensures Copies(row.offsets, Kept(tokens), PlaceOf(tokens, range))
  {
    WindowOfKept(tokens, range.lo, range.hi);
  }

  lemma {:induction false} WindowsTouch(tokens: seq<Offset>, ranges: seq<Offset>, window: int, overlap: int, r: int)
    requires 0 <= overlap < window && Tiles(ranges, |tokens|, window, overlap) && 0 <= r < |ranges| - 1
    ensures Neighbours(Places(tokens, ranges), r)
    ensures TrueShare(Places(tokens, ranges), r) <= overlap
    ensures NoneDropped(tokens) ==> TrueShare(Places(tokens, ranges), r) == overlap
  {
    var a, b := ranges[r], ranges[r + 1];
    assert Overlaps(ranges, overlap, r);
    PlacesTouch(tokens, a, b);
    if NoneDropped(tokens) {
      PlaceIsRange(tokens, a);
      PlaceIsRange(tokens, b);
    }
  }

  lemma {:induction false} RowsAreLaidOut(tokens: seq<Offset>, ranges: seq<Offset>, window: int, overlap: int, rows: seq<Row>)
    requires RowsOf(tokens, ranges, window, overlap, rows) && rows != []
    ensures Layout(Kept(tokens), rows, Places(tokens, ranges))
    ensures forall r {:trigger TrueShare(Places(tokens, ranges), r)} :: 0 <= r < |rows| - 1 ==>
              && TrueShare(Places(tokens, ranges), r) <= overlap
              && (NoneDropped(tokens) ==> TrueShare(Places(tokens, ranges), r) == overlap)
  {
    var at := Places(tokens, ranges);
    forall r | 0 <= r < |rows| ensures Placed(Kept(tokens), rows, at, r) {
      assert RowFor(tokens, ranges[r], rows[r]);
      RowIsPlaced(tokens, ranges[r], rows[r]);
    }
    forall r | 0 <= r < |rows| - 1
      ensures Neighbours(at, r) && TrueShare(at, r) <= overlap
      ensures NoneDropped(tokens) ==> TrueShare(at, r) == overlap
    {
      WindowsTouch(tokens, ranges, window, overlap, r);
    }
    PlaceEnds(tokens, ranges[0], ranges[|rows| - 1]);
  }

  lemma {:induction false} PlaceEnds(tokens: seq<Offset>, first: Offset, last: Offset)
    requires 0 == first.lo <= first.hi <= |tokens| && 0 <= last.lo <= last.hi == |tokens|
    ensures PlaceOf(tokens, first).lo == 0 && PlaceOf(tokens, last).hi == |Kept(tokens)|
  {
    assert tokens[..0] == [] && tokens[..|tokens|] == tokens;
  }

  /** Token `j` of the result has the prediction of a window that holds it; where every token
      stands for text, one that sees half the overlap on either side of it, or an end. */
  ghost predicate Predicted(tokens: seq<Offset>, ranges: seq<Offset>, overlap: nat, rows: seq<Row>, stitched: Row, j: int)
    requires rows != [] && |rows| == |ranges| && stitched.Valid()
  {
    exists r :: KeptFrom(rows, Places(tokens, ranges), Shares(rows, overlap), stitched, j, r)
             && (NoneDropped(tokens) ==> Context(tokens, ranges, overlap, r, j))
  }

  ghost predicate Context(tokens: seq<Offset>, ranges: seq<Offset>, overlap: int, r: int, j: int) {
    && 0 <= r < |ranges| && ranges[r].lo <= j < ranges[r].hi
    && (ranges[r].lo == 0 || j - ranges[r].lo >= overlap / 2)
    && (ranges[r].hi == |tokens| || ranges[r].hi - 1 - j >= overlap / 2)
  }

  lemma {:induction false} HalfTheOverlap(tokens: seq<Offset>, ranges: seq<Offset>, window: int, overlap: int, rows: seq<Row>, r: int, j: int)
    requires RowsOf(tokens, ranges, window, overlap, rows) && NoneDropped(tokens)
    requires 0 <= r < |rows| && Aligned(Places(tokens, ranges), Shares(rows, overlap))
    requires Start(Shares(rows, overlap), Places(tokens, ranges), r) <= j < End(Shares(rows, overlap), Places(tokens, ranges), r)
    ensures Context(tokens, ranges, overlap, r, j)
  {
    var at, shared := Places(tokens, ranges), Shares(rows, overlap);
    RowsAreLaidOut(tokens, ranges, window, overlap, rows);
    PlaceIsRange(tokens, ranges[r]);
    if r > 0 { assert Exact(at, shared, r - 1) && TrueShare(at, r - 1) == overlap; }
    if r < |shared| { assert Exact(at, shared, r) && TrueShare(at, r) == overlap; }
  }

  /**
   Stitching is exact for tokens that can be told apart by where they lie, and for texts all of
   whose tokens stand for text: each kept token once and in order, with a prediction made in context.
   */
  lemma {:induction false} StitchingIsExact(tokens: seq<Offset>, ranges: seq<Offset>, window: int, overlap: int, rows: seq<Row>)
    requires RowsOf(tokens, ranges, window, overlap, rows) && rows != []
    requires Distinct(Kept(tokens)) || (NoneDropped(tokens) && overlap > 0)
    ensures Cuttable(rows, Shares(rows, overlap))
    ensures var stitched := Stitched(rows, Shares(rows, overlap), |rows|);
            && stitched.Valid() && stitched.offsets == Kept(tokens)
            && forall j {:trigger Predicted(tokens, ranges, overlap, rows, stitched, j)} :: 0 <= j < |stitched.offsets| ==>
                 Predicted(tokens, ranges, overlap, rows, stitched, j)
  {
    var at, shared, kept := Places(tokens, ranges), Shares(rows, overlap), Kept(tokens);
    RowsAreLaidOut(tokens, ranges, window, overlap, rows);
    RunsAreFound(kept, rows, at, overlap);
    if Distinct(kept) {
      DistinctIsAligned(kept, rows, at, shared);
    }
    AlignedIsExact(kept, rows, at, shared, |rows|);
    var stitched := Stitched(rows, shared, |rows|);
    assert stitched.offsets == kept;
    forall j | 0 <= j < |stitched.offsets| ensures Predicted(tokens, ranges, overlap, rows, stitched, j) {
      var r := RowOf(kept, rows, at, shared, |rows|, j);
      if NoneDropped(tokens) {
        HalfTheOverlap(tokens, ranges, window, overlap, rows, r, j);
      }
    }
  }

  /**
   Whatever the tokens, as long as they do not go backwards in the text: stitching drops only
   copies, so the tokens of the result lie exactly where the kept tokens do, in the same order.
   */
  lemma {:induction false} StitchingLosesNoText(tokens: seq<Offset>, ranges: seq<Offset>, window: int, overlap: int, rows: seq<Row>)
    requires RowsOf(tokens, ranges, window, overlap, rows) && rows != [] && Monotone(Kept(tokens))
    ensures Cuttable(rows, Shares(rows, overlap))
    ensures var stitched := Stitched(rows, Shares(rows, overlap), |rows|);
            && Monotone(stitched.offsets)
            && (forall x :: x in stitched.offsets <==> x in Kept(tokens))
  {
    var at, shared, kept := Places(tokens, ranges), Shares(rows, overlap), Kept(tokens);
    RowsAreLaidOut(tokens, ranges, window, overlap, rows);
    RunsAreFound(kept, rows, at, overlap);
    StitchedOnly(kept, rows, at, shared, |rows|);
    var stitched := Stitched(rows, shared, |rows|).offsets;
    forall x | x in kept ensures x in stitched {
      var j :| 0 <= j < |kept| && kept[j] == x;
      NothingLost(kept, rows, at, shared, 0, j);
    }
    forall x | x in stitched ensures x in kept {
      assert Among(x, kept, End(shared, at, |rows| - 1));
    }
  }

  // ----- when no copy is dropped -----

  /** The tokens shared by the rows at `a` and `b`, with `s` more in front of them, read like those
      with `s` more behind them. */
  ghost predicate RepeatsBy(kept: seq<Offset>, a: Offset, b: Offset, s: int)
    requires 0 <= a.lo <= b.lo <= a.hi <= b.hi <= |kept|
  {
    0 < s <= b.lo - a.lo && s <= b.hi - a.hi && kept[b.lo - s..a.hi] == kept[b.lo..a.hi + s]
  }

  ghost predicate Repeats(kept: seq<Offset>, a: Offset, b: Offset)
    requires 0 <= a.lo <= b.lo <= a.hi <= b.hi <= |kept|
  {
    exists s :: RepeatsBy(kept, a, b, s)
  }

  lemma {:induction false} CopiesAre(part: seq<Offset>, whole: seq<Offset>, place: Offset)
    requires Copies(part, whole, place)
    ensures part == whole[place.lo..place.hi]
  {
  }

  lemma {:induction false} LongerRun(kept: seq<Offset>, prev: seq<Offset>, cur: seq<Offset>, a: Offset, b: Offset, s: int)
    requires Copies(prev, kept, a) && Copies(cur, kept, b) && a.lo <= b.lo <= a.hi <= b.hi
    requires 0 < s <= b.lo - a.lo && s <= b.hi - a.hi
    ensures Runs(prev, cur, a.hi - b.lo + s) <==> RepeatsBy(kept, a, b, s)
  {
    CopiesAre(prev, kept, a);
    CopiesAre(cur, kept, b);
    var k := a.hi - b.lo + s;
    assert prev[|prev| - k..] == kept[b.lo - s..a.hi] && cur[..k] == kept[b.lo..a.hi + s];
  }

  /** The run found is the true one, of `t` tokens, if and only if that is the expected one or the
      tokens around it do not repeat. */
  lemma {:induction false} TrueRunIsFound(kept: seq<Offset>, prev: seq<Offset>, cur: seq<Offset>, a: Offset, b: Offset, overlap: nat)
    requires Copies(prev, kept, a) && Copies(cur, kept, b) && a.lo <= b.lo <= a.hi <= b.hi
    requires a.hi - b.lo <= overlap
    ensures SharedRun(prev, cur, overlap) == a.hi - b.lo <==> a.hi - b.lo == overlap > 0 || !Repeats(kept, a, b)
  {
    var t, k := a.hi - b.lo, SharedRun(prev, cur, overlap);
    TrueRun(kept, prev, cur, a, b);
    RunIsLongEnough(prev, cur, overlap, t);
    if k > t {
      LongerRun(kept, prev, cur, a, b, k - t);
    } else if Repeats(kept, a, b) {
      var s :| RepeatsBy(kept, a, b, s);
      LongerRun(kept, prev, cur, a, b, s);
    }
  }

  /** Row `r` and the next share all the overlap, or the tokens around it do not repeat. */
  ghost predicate Told(kept: seq<Offset>, at: seq<Offset>, overlap: nat, r: int) {
    && 0 <= r < |at| - 1 && 0 <= at[r].lo && Neighbours(at, r) && at[r + 1].hi <= |kept|
    && (TrueShare(at, r) == overlap > 0 || !Repeats(kept, at[r], at[r + 1]))
  }

  /** At no seam is a token taken for another. */
  ghost predicate AllTold(kept: seq<Offset>, at: seq<Offset>, overlap: nat) {
    forall r {:trigger Told(kept, at, overlap, r)} :: 0 <= r < |at| - 1 ==> Told(kept, at, overlap, r)
  }

  lemma {:induction false} ExactIsTold(kept: seq<Offset>, rows: seq<Row>, at: seq<Offset>, overlap: nat, r: int)
    requires Layout(kept, rows, at) && 0 <= r < |rows| - 1 && TrueShare(at, r) <= overlap
    ensures Exact(at, Shares(rows, overlap), r) <==> Told(kept, at, overlap, r)
  {
    assert Placed(kept, rows, at, r) && Placed(kept, rows, at, r + 1) && Neighbours(at, r);
    TrueRunIsFound(kept, rows[r].offsets, rows[r + 1].offsets, at[r], at[r + 1], overlap);
  }

  lemma {:induction false} AlignedIsTold(kept: seq<Offset>, rows: seq<Row>, at: seq<Offset>, overlap: nat)
    requires Layout(kept, rows, at)
    requires forall r {:trigger TrueShare(at, r)} :: 0 <= r < |rows| - 1 ==> TrueShare(at, r) <= overlap
    ensures Aligned(at, Shares(rows, overlap)) <==> AllTold(kept, at, overlap)
  {
    var shared := Shares(rows, overlap);
    forall r {:trigger Exact(at, shared, r)} {:trigger Told(kept, at, overlap, r)} | 0 <= r < |rows| - 1
      ensures Exact(at, shared, r) <==> Told(kept, at, overlap, r)
    {
      assert TrueShare(at, r) <= overlap;
      ExactIsTold(kept, rows, at, overlap, r);
    }
  }

  /** No copy is dropped if and only if at every seam the windows share all the overlap, or the
      kept tokens around it do not repeat. */
  lemma {:induction false} StitchingKeepsCopies(tokens: seq<Offset>, ranges: seq<Offset>, window: int, overlap: int, rows: seq<Row>)
    requires RowsOf(tokens, ranges, window, overlap, rows) && rows != []
    ensures Cuttable(rows, Shares(rows, overlap))
    ensures |Stitched(rows, Shares(rows, overlap), |rows|).offsets| == |Kept(tokens)|
       <==> AllTold(Kept(tokens), Places(tokens, ranges), overlap)
  {
    var at, kept := Places(tokens, ranges), Kept(tokens);
    RowsAreLaidOut(tokens, ranges, window, overlap, rows);
    RunsAreFound(kept, rows, at, overlap);
    StitchedCount(kept, rows, at, Shares(rows, overlap), |rows|);
    AlignedIsTold(kept, rows, at, overlap);
  }

  /** Tokens that do not go backwards repeat exactly where all of them lie on the same characters:
      those shared, one before and one behind. */
  lemma {:induction false} RepeatsIsConstant(kept: seq<Offset>, a: Offset, b: Offset)
    requires 0 <= a.lo <= b.lo <= a.hi <= b.hi <= |kept| && Monotone(kept)
    ensures Repeats(kept, a, b) <==>
            a.lo < b.lo && a.hi < b.hi && forall i :: b.lo - 1 <= i <= a.hi ==> kept[i] == kept[a.hi]
  {
    if s :| RepeatsBy(kept, a, b, s) {
      RepeatIsConstant(kept, a, b, s);
    }
    if a.lo < b.lo && a.hi < b.hi && forall i :: b.lo - 1 <= i <= a.hi ==> kept[i] == kept[a.hi] {
      assert kept[b.lo - 1..a.hi] == kept[b.lo..a.hi + 1];
      assert RepeatsBy(kept, a, b, 1);
    }
  }

  lemma {:induction false} RepeatIsConstant(kept: seq<Offset>, a: Offset, b: Offset, s: int)
    requires 0 <= a.lo <= b.lo <= a.hi <= b.hi <= |kept| && Monotone(kept) && RepeatsBy(kept, a, b, s)
    ensures forall i :: b.lo - 1 <= i <= a.hi ==> kept[i] == kept[a.hi]
  {
    forall i | b.lo - 1 <= i <= a.hi ensures kept[i] == kept[a.hi] {
      Constant(kept, b.lo - s, a.hi, s, i);
    }
  }

  /** Tokens that read alike when moved by `s` are all alike up to the last one moved to. */
  lemma {:induction false} Constant(kept: seq<Offset>, lo: int, hi: int, s: int, i: int)
    requires Monotone(kept) && 0 < s && 0 <= lo <= lo + s - 1 <= i <= hi && hi + s <= |kept|
    requires kept[lo..hi] == kept[lo + s..hi + s]
    ensures kept[i] == kept[hi]
    decreases hi - i
  {
    if i < hi {
      assert kept[lo..hi][i - lo] == kept[lo + s..hi + s][i - lo];
      Constant(kept, lo, hi, s, i + 1);
    }
  }

  lemma {:induction false} KeptNone(tokens: seq<Offset>)
    requires forall t :: t in tokens ==> t.lo == t.hi
    ensures Kept(tokens) == []
    decreases |tokens|
  {
    if tokens != [] { KeptNone(tokens[..|tokens| - 1]); }
  }

  /** One token that stands for text, and others around it that do not. */
  lemma {:induction false} KeptOne(a: seq<Offset>, x: Offset, b: seq<Offset>)
    requires x.lo != x.hi && forall t :: t in a + b ==> t.lo == t.hi
    ensures Kept(a + [x] + b) == [x]
  {
    KeptNone(a);
    KeptNone(b);
    KeptAll([x]);
    KeptConcat(a + [x], b);
    KeptConcat(a, [x]);
  }

  function Empties(n: nat): seq<Offset> {
    seq(n, _ => Offset(0, 0))
  }

  /** The same token at either end of two windows, and nothing that stands for text between. */
  function FarCopies(x: Offset, window: nat, overlap: nat): seq<Offset>
    requires overlap < window
  {
    [x] + Empties(2 * window - overlap - 2) + [x]
  }

  function TwoWindows(window: nat, overlap: nat): seq<Offset> {
    [Offset(0, window), Offset(window - overlap, 2 * window - overlap)]
  }

  /** Two windows with one token that stands for text in each, at its far end. */
  ghost predicate FarApart(tokens: seq<Offset>, ranges: seq<Offset>, x: Offset, window: nat, overlap: nat) {
    && overlap < window && |tokens| == 2 * window - overlap && Kept(tokens) == [x, x]
    && Kept(tokens[..window]) == [x] && Kept(tokens[window - overlap..]) == [x] && Kept(tokens[..window - overlap]) == [x]
    && |ranges| == 2 && ranges[0] == Offset(0, window) && ranges[1] == Offset(window - overlap, |tokens|)
  }

  lemma {:induction false} FarCopiesKept(x: Offset, window: nat, overlap: nat)
    requires x.lo != x.hi && overlap < window
    ensures FarApart(FarCopies(x, window, overlap), TwoWindows(window, overlap), x, window, overlap)
  {
    var tokens := FarCopies(x, window, overlap);
    FrontOfCopies(x, window, overlap, window);
    FrontOfCopies(x, window, overlap, window - overlap);
    assert tokens[window - overlap..] == Empties(window - 1) + [x] + [];
    KeptOne(Empties(window - 1), x, []);
    assert tokens == tokens[..window - overlap] + tokens[window - overlap..];
    KeptConcat(tokens[..window - overlap], tokens[window - overlap..]);
  }

  lemma {:induction false} FrontOfCopies(x: Offset, window: nat, overlap: nat, n: nat)
    requires x.lo != x.hi && overlap < window && 0 < n < 2 * window - overlap
    ensures Kept(FarCopies(x, window, overlap)[..n]) == [x]
  {
    assert FarCopies(x, window, overlap)[..n] == [] + [x] + Empties(n - 1);
    KeptOne([], x, Empties(n - 1));
  }

  lemma {:induction false} FarApartRows(tokens: seq<Offset>, ranges: seq<Offset>, rows: seq<Row>, x: Offset, window: nat, overlap: nat)
    requires FarApart(tokens, ranges, x, window, overlap)
    requires |rows| == 2 && rows[0].Valid() && rows[0].offsets == [x] && rows[1].Valid() && rows[1].offsets == [x]
    ensures RowsOf(tokens, ranges, window, overlap, rows)
  {
    assert tokens[0..window] == tokens[..window] && tokens[window - overlap..|tokens|] == tokens[window - overlap..];
    assert RowFor(tokens, ranges[0], rows[0]) && RowFor(tokens, ranges[1], rows[1]);
    assert Overlaps(ranges, overlap, 0);
  }

  lemma {:induction false} FarApartPlaces(tokens: seq<Offset>, ranges: seq<Offset>, x: Offset, window: nat, overlap: nat)
    requires FarApart(tokens, ranges, x, window, overlap)
    ensures PlaceOf(tokens, ranges[0]) == Offset(0, 1) && PlaceOf(tokens, ranges[1]) == Offset(1, 2)
  {
    assert tokens[..0] == [] && tokens[..|tokens|] == tokens;
  }

  lemma {:induction false} CopiesAreNotTold(kept: seq<Offset>, at: seq<Offset>, x: Offset, overlap: nat)
    requires |kept| == 2 && kept[0] == kept[1] == x && |at| == 2 && at[0] == Offset(0, 1) && at[1] == Offset(1, 2)
    ensures !AllTold(kept, at, overlap)
  {
    assert kept[0..1] == [x] && kept[1..2] == [x];
    assert RepeatsBy(kept, at[0], at[1], 1);
    assert !Told(kept, at, overlap, 0);
  }

  lemma {:induction false} FarApartDrops(tokens: seq<Offset>, ranges: seq<Offset>, rows: seq<Row>, x: Offset, window: nat, overlap: nat)
    requires FarApart(tokens, ranges, x, window, overlap)
    requires |rows| == 2 && rows[0].Valid() && rows[0].offsets == [x] && rows[1].Valid() && rows[1].offsets == [x]
    ensures RowsOf(tokens, ranges, window, overlap, rows) && Cuttable(rows, Shares(rows, overlap))
    ensures |Stitched(rows, Shares(rows, overlap), 2).offsets| < |Kept(tokens)|
  {
    FarApartRows(tokens, ranges, rows, x, window, overlap);
    FarApartPlaces(tokens, ranges, x, window, overlap);
    CopiesAreNotTold(Kept(tokens), Places(tokens, ranges), x, overlap);
    StitchingKeepsCopies(tokens, ranges, window, overlap, rows);
    StitchedIsShort(tokens, ranges, window, overlap, rows);
  }

  /** For every geometry of the windows there are tokens of which a copy is lost: the same token
      twice, with none between that stands for text, is taken for one that the windows share. */
  lemma {:induction false} StitchingCanDropCopies(x: Offset, row: Row, window: nat, overlap: nat)
    returns (tokens: seq<Offset>, ranges: seq<Offset>, rows: seq<Row>)
    requires x.lo != x.hi && row.Valid() && row.offsets == [x] && overlap < window
    ensures tokens == FarCopies(x, window, overlap) && rows == [row, row]
    ensures RowsOf(tokens, ranges, window, overlap, rows) && Cuttable(rows, Shares(rows, overlap))
    ensures |Stitched(rows, Shares(rows, overlap), |rows|).offsets| < |Kept(tokens)|
  {
    tokens, ranges, rows := FarCopies(x, window, overlap), TwoWindows(window, overlap), [row, row];
    FarCopiesKept(x, window, overlap);
    FarApartDrops(tokens, ranges, rows, x, window, overlap);
  }

  lemma {:induction false} StitchedIsShort(tokens: seq<Offset>, ranges: seq<Offset>, window: int, overlap: int, rows: seq<Row>)
    requires RowsOf(tokens, ranges, window, overlap, rows) && rows != []
    ensures Cuttable(rows, Shares(rows, overlap)) && |Stitched(rows, Shares(rows, overlap), |rows|).offsets| <= |Kept(tokens)|
  {
    RowsAreLaidOut(tokens, ranges, window, overlap, rows);
    RunsAreFound(Kept(tokens), rows, Places(tokens, ranges), overlap);
    StitchedCount(Kept(tokens), rows, Places(tokens, ranges), Shares(rows, overlap), |rows|);
  }
}
