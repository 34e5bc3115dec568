/**
 privaite/pii/detector_onnx.py: what the labels of a model mean, read off their text.
 */
module LabelReading {
  import opened Wrappers
  import opened Windows
  import opened Stitching
  import opened TextCoverage
  import opened SpanDecoding

  const LETTERS: set<string> := {"S", "B", "I", "E"}

  /** The label a model writes: a letter, a dash and a type. */
  function Mark(x: string, e: string): string {
    x + "-" + e
  }

  ghost predicate IsMark(mark: string) {
    exists x, e :: x in LETTERS && mark == Mark(x, e)
  }

  lemma {:induction false} DashBehind(x: string, e: string)
    requires '-' !in x
    ensures Dash(Mark(x, e)) == |x|
    decreases |x|
  {
    if x != "" {
      assert Mark(x, e)[1..] == Mark(x[1..], e);
      DashBehind(x[1..], e);
    }
  }

  function Letter(x: string): Prefix
    requires x in LETTERS
  {
    if x == "S" then Single else if x == "B" then Begin else if x == "I" then Inside else End
  }

  /** What a label of that form is taken for. */
  lemma {:induction false} MarkIsTaken(x: string, e: string)
    requires x in LETTERS
    ensures TagOf(Mark(x, e)) == Tag(Letter(x), e)
  {
    var mark := Mark(x, e);
    DashBehind(x, e);
    assert mark[..|x|] == x && mark[|x| + 1..] == e;
    assert mark[1] == '-' && "O"[0] == 'O';
  }

  lemma {:induction false} DashIs(mark: string)
    requires Dash(mark) < |mark|
    ensures mark[Dash(mark)] == '-' && mark == Mark(mark[..Dash(mark)], mark[Dash(mark) + 1..])
    decreases |mark|
  {
    if mark[0] != '-' { DashIs(mark[1..]); }
  }

  /** Every label that marks something has that form, with its type behind the dash. */
  lemma {:induction false} TakenIsMark(mark: string) returns (x: string)
    requires Marks(TagOf(mark))
    ensures x in LETTERS && mark == Mark(x, TagOf(mark).etype) && TagOf(mark).prefix == Letter(x)
  {
    DashIs(mark);
    x := mark[..Dash(mark)];
    MarkIsTaken(x, TagOf(mark).etype);
  }

  lemma {:induction false} MarksExactly(mark: string)
    ensures Marks(TagOf(mark)) <==> IsMark(mark)
  {
    if Marks(TagOf(mark)) { var x := TakenIsMark(mark); }
    if x, e :| x in LETTERS && mark == Mark(x, e) { MarkIsTaken(x, e); }
  }

  /** One label, one letter and one type. */
  lemma {:induction false} TakenExactly(mark: string, x: string, e: string)
    requires x in LETTERS
    ensures mark == Mark(x, e) <==> TagOf(mark) == Tag(Letter(x), e)
  {
    MarkIsTaken(x, e);
    if TagOf(mark) == Tag(Letter(x), e) {
      var y := TakenIsMark(mark);
      SameLetter(x, y);
    }
  }

  lemma {:induction false} SameLetter(x: string, y: string)
    requires x in LETTERS && y in LETTERS && Letter(x) == Letter(y)
    ensures x == y
  {
  }

  // ----- groups, read off the labels -----

  /** A label that goes on with a group of this type. */
  predicate GoesOn(mark: string, e: string) {
    mark == Mark("I", e) || mark == Mark("E", e)
  }

  /** A label that closes a group of this type behind itself: a single, or an end that is not also its
      start. */
  predicate CloseBehind(mark: string, e: string, isFirst: bool) {
    mark == Mark("S", e) || (mark == Mark("E", e) && !isFirst)
  }

  lemma {:induction false} GoesOnExactly(mark: string, e: string)
    ensures GoesOn(mark, e) <==> Continues(mark, e)
  {
    TakenExactly(mark, "I", e);
    TakenExactly(mark, "E", e);
  }

  lemma {:induction false} ClosesExactly(labels: seq<string>, first: int, i: int, e: string)
    requires 0 <= first <= i < |labels| && TagOf(labels[i]).etype == e
    ensures CloseBehind(labels[i], e, i == first) <==> Sealed(labels, first, i)
  {
    TakenExactly(labels[i], "S", e);
    TakenExactly(labels[i], "E", e);
  }

  /** Token `i` belongs to a run of type `e` that starts at `first`: it goes on with what stands before
      it, and that was not closed. */
  predicate RunsOn(labels: seq<string>, first: int, e: string, i: int)
    requires 0 <= first < i < |labels|
  {
    GoesOn(labels[i], e) && !CloseBehind(labels[i - 1], e, i - 1 == first)
  }

  /** From a mark of its type on, all the labels that go on with it, up to one that closes it. */
  ghost predicate IsRun(labels: seq<string>, g: Group) {
    && g.first <= g.last < |labels|
    && (exists x :: x in LETTERS && labels[g.first] == Mark(x, g.etype))
    && (forall i {:trigger RunsOn(labels, g.first, g.etype, i)} :: g.first < i <= g.last ==> RunsOn(labels, g.first, g.etype, i))
    && (g.last + 1 < |labels| ==> !RunsOn(labels, g.first, g.etype, g.last + 1))
  }

  lemma {:induction false} TypeInGroup(labels: seq<string>, g: Group, i: int)
    requires IsGroup(labels, g) && g.first <= i <= g.last
    ensures TagOf(labels[i]).etype == g.etype
  {
    if i > g.first { assert Joins(labels, g.first, g.etype, i); }
  }

  lemma {:induction false} JoinsExactly(labels: seq<string>, g: Group, i: int)
    requires IsGroup(labels, g) && g.first < i <= g.last + 1 && i < |labels|
    ensures RunsOn(labels, g.first, g.etype, i) <==> Joins(labels, g.first, g.etype, i)
  {
    TypeInGroup(labels, g, i - 1);
    GoesOnExactly(labels[i], g.etype);
    ClosesExactly(labels, g.first, i - 1, g.etype);
  }

  lemma {:induction false} GroupIsRun(labels: seq<string>, g: Group)
    requires IsGroup(labels, g) && IsWhole(labels, g)
    ensures IsRun(labels, g)
  {
    var x := TakenIsMark(labels[g.first]);
    forall i {:trigger RunsOn(labels, g.first, g.etype, i)} | g.first < i <= g.last ensures RunsOn(labels, g.first, g.etype, i) {
      assert Joins(labels, g.first, g.etype, i);
      JoinsExactly(labels, g, i);
    }
    if g.last + 1 < |labels| { JoinsExactly(labels, g, g.last + 1); }
  }

  /** The groups are the runs of the labels: in order, apart, and every mark in one of them; no other
      label is in any. */
  lemma {:induction false} GroupsAreRuns(labels: seq<string>)
    ensures Ordered(Groups(labels)) && forall g :: g in Groups(labels) ==> IsRun(labels, g)
    ensures forall i :: 0 <= i < |labels| ==> (IsMark(labels[i]) <==> InSome(Groups(labels), i))
  {
    EveryMarkInOneGroup(labels);
    forall g | g in Groups(labels) ensures IsRun(labels, g) {
      GroupIsRun(labels, g);
    }
    forall i | 0 <= i < |labels| ensures IsMark(labels[i]) <==> InSome(Groups(labels), i) {
      MarksExactly(labels[i]);
    }
  }

  lemma {:induction false} SameMark(x: string, e: string, y: string, f: string)
    requires x in LETTERS && y in LETTERS && Mark(x, e) == Mark(y, f)
    ensures x == y && e == f
  {
    MarkIsTaken(x, e);
    MarkIsTaken(y, f);
    SameLetter(x, y);
  }

  lemma {:induction false} RunHasType(labels: seq<string>, g: Group, i: nat, x: string, e: string)
    requires IsRun(labels, g) && g.first <= i <= g.last && x in LETTERS && labels[i] == Mark(x, e)
    ensures g.etype == e && (i > g.first ==> x == "I" || x == "E")
  {
    if i == g.first {
      var y :| y in LETTERS && labels[g.first] == Mark(y, g.etype);
      SameMark(x, e, y, g.etype);
    } else {
      assert RunsOn(labels, g.first, g.etype, i);
      if labels[i] == Mark("I", g.etype) { SameMark(x, e, "I", g.etype); } else { SameMark(x, e, "E", g.etype); }
    }
  }

  /** A single is a group of its own, a begin opens one, every mark is in one of its own type, and an
      end closes the group it joins. */
  lemma {:induction false} MarkOpensOrJoins(labels: seq<string>, i: nat, x: string, e: string) returns (g: Group)
    requires i < |labels| && x in LETTERS && labels[i] == Mark(x, e)
    ensures g in Groups(labels) && IsRun(labels, g) && g.first <= i <= g.last && g.etype == e
    ensures x == "S" || x == "B" ==> g.first == i
    ensures x == "S" ==> g.last == i
    ensures x == "E" && g.first < i ==> g.last == i
  {
    GroupsAreRuns(labels);
    assert IsMark(labels[i]);
    g :| g in Groups(labels) && g.first <= i <= g.last;
    RunHasType(labels, g, i, x, e);
    if g.last > i {
      assert RunsOn(labels, g.first, g.etype, i + 1);
    }
  }

  /** A character of a token with a mark is reported under the type of the mark. */
  lemma {:induction false} LabelledTextIsReported(scene: Scene, labels: seq<string>, i: int, p: int, x: string, e: string)
    requires scene.Valid() && |labels| == |scene.offsets| && Monotone(scene.offsets)
    requires 0 <= i < |labels| && x in LETTERS && labels[i] == Mark(x, e) && scene.offsets[i].lo <= p < scene.offsets[i].hi
    ensures Bounded(Groups(labels), |labels|)
    ensures Reported(scene, scene.Spans(Groups(labels)), e, p)
  {
    MarkIsTaken(x, e);
    MarkedTextIsReported(scene, labels, i, p);
  }

  /**
   The whole scan: a character that may not be left out lies in a token, and if that has a mark, in a
   reported span of the type of the mark.
   */
  lemma {:induction false} ScanIsReported(tokens: seq<Offset>, text: string, ignorable: char -> bool, ranges: seq<Offset>, window: int,
                                          overlap: int, rows: seq<Row>, stitched: Row, scene: Scene, p: int) returns (i: int)
    requires Covered(tokens, text, ignorable) && RowsOf(tokens, ranges, window, overlap, rows) && rows != []
    requires Cuttable(rows, Shares(rows, overlap)) && stitched == Stitched(rows, Shares(rows, overlap), |rows|)
    requires scene.offsets == stitched.offsets && scene.scores == stitched.scores && scene.text == text
    requires 0 <= p < |text| && !ignorable(text[p])
    ensures scene.Valid() && |stitched.labels| == |scene.offsets| && Bounded(Groups(stitched.labels), |stitched.labels|)
    ensures 0 <= i < |stitched.labels| && scene.offsets[i].lo <= p < scene.offsets[i].hi
    ensures forall x, e :: x in LETTERS && stitched.labels[i] == Mark(x, e) ==> Reported(scene, scene.Spans(Groups(stitched.labels)), e, p)
  {
    ScanReports(tokens, text, ignorable, ranges, window, overlap, rows, stitched, scene, p);
    i :| ToldFor(scene, stitched.labels, i, p);
    forall x, e | x in LETTERS && stitched.labels[i] == Mark(x, e) ensures Reported(scene, scene.Spans(Groups(stitched.labels)), e, p) {
      MarkIsTaken(x, e);
    }
  }
}
