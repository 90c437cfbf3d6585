/** The quadratic Myers search: forward pass over all columns, backtrace that
  reuses two cells of each column, and emission of chunks (diff_algo_myers in
  lib/diff_myers.c). kd_buf is one matrix: kd[d, max + k] is kd_column[k] of step d.
*/
module Myers {
  import opened DiffChunks
  import opened DiffStates
  import opened EditDistance

  // ------------------------------------------------------------ columns

  function At(max: nat, col: seq<int>, k: int): int
    requires |col| == 2 * max + 1 && 0 <= max + k <= 2 * max
  {
    col[max + k]
  }

  /** A column computed down to, but not including, diagonal k0: the computed
      diagonals hold their furthest points, every other cell is still -1. */
  ghost predicate ColumnAbove(g: Grid, d: int, max: nat, col: seq<int>, k0: int) {
    && |col| == 2 * max + 1
    && forall k | 0 <= max + k <= 2 * max :: if k > k0 then CellOf(g, d, k, At(max, col, k)) else At(max, col, k) == -1
  }

  ghost predicate Column(g: Grid, d: int, max: nat, col: seq<int>) {
    && |col| == 2 * max + 1
    && forall k | 0 <= max + k <= 2 * max :: CellOf(g, d, k, At(max, col, k))
  }

  /** Diagonal k was entered from the previous column the way the forward pass
      chooses, and then slid down. */
  ghost predicate Link(g: Grid, d: nat, max: nat, prev: seq<int>, col: seq<int>, k: int)
    requires |col| == 2 * max + 1 && 0 <= max + k <= 2 * max
    requires d > 0 ==> |prev| == 2 * max + 1 && 0 < max + k < 2 * max
  {
    g.Slide(k, if d == 0 then 0 else Entry(g, d, k, At(max, prev, k - 1), At(max, prev, k + 1)), At(max, col, k))
  }

  ghost predicate LinkedAbove(g: Grid, d: nat, max: nat, prev: seq<int>, col: seq<int>, k0: int)
    requires max == g.N() + g.M() && g.N() > 0 && g.M() > 0
    requires |col| == 2 * max + 1 && (d > 0 ==> |prev| == 2 * max + 1)
  {
    forall k | k > k0 && InBand(g, d, k) :: Link(g, d, max, prev, col, k)
  }

  /** The state of one column while it is being computed: the corner has not
      been reached above diagonal k0. */
  ghost predicate Progress(g: Grid, d: nat, max: nat, prev: seq<int>, col: seq<int>, k0: int)
    requires max == g.N() + g.M() && g.N() > 0 && g.M() > 0
    requires d > 0 ==> |prev| == 2 * max + 1
  {
    && ColumnAbove(g, d, max, col, k0)
    && LinkedAbove(g, d, max, prev, col, k0)
    && (g.N() - g.M() > k0 && InBand(g, d, g.N() - g.M()) ==> At(max, col, g.N() - g.M()) != g.N())
  }

  lemma CellAdded(g: Grid, d: nat, max: nat, prev: seq<int>, col: seq<int>, k: int, x: int)
    requires max == g.N() + g.M() && g.N() > 0 && g.M() > 0
    requires d > 0 ==> |prev| == 2 * max + 1
    requires Progress(g, d, max, prev, col, k) && InBand(g, d, k) && Furthest(g, d, k, x)
    requires g.Slide(k, if d == 0 then 0 else Entry(g, d, k, At(max, prev, k - 1), At(max, prev, k + 1)), x)
    ensures |col| == 2 * max + 1
    ensures Link(g, d, max, prev, col[max + k := x], k)
    ensures k == g.N() - g.M() && x == g.N() ==> Dist(g, g.N(), g.M()) <= d
    ensures !(k == g.N() - g.M() && x == g.N()) ==> Progress(g, d, max, prev, col[max + k := x], k - 2)
  {
    hide Dist, Entry;
    var col' := col[max + k := x];
    assert At(max, col', k) == x;
    assert forall j | 0 <= max + j <= 2 * max && j != k :: At(max, col', j) == At(max, col, j);
    forall j | j > k - 2 && InBand(g, d, j)
      ensures Link(g, d, max, prev, col', j)
    {
      if j != k { assert Link(g, d, max, prev, col, j); }
    }
  }

  lemma NothingComputed(g: Grid, d: nat, max: nat, prev: seq<int>)
    requires max == g.N() + g.M() && g.N() > 0 && g.M() > 0 && d <= max
    requires d > 0 ==> |prev| == 2 * max + 1
    ensures Progress(g, d, max, prev, Blank(max), d)
  {
  }

  function Blank(max: nat): seq<int> {
    seq(2 * max + 1, _ => -1)
  }

  lemma CellSkipped(g: Grid, d: nat, max: nat, prev: seq<int>, col: seq<int>, k: int)
    requires max == g.N() + g.M() && g.N() > 0 && g.M() > 0
    requires d > 0 ==> |prev| == 2 * max + 1
    requires Progress(g, d, max, prev, col, k) && !InBand(g, d, k) && (d + k) % 2 == 0
    ensures Progress(g, d, max, prev, col, k - 2)
  {
    assert !InBand(g, d, k - 1);
  }

  lemma ColumnComplete(g: Grid, d: nat, max: nat, prev: seq<int>, col: seq<int>, k: int)
    requires max == g.N() + g.M() && g.N() > 0 && g.M() > 0
    requires d > 0 ==> |prev| == 2 * max + 1
    requires Progress(g, d, max, prev, col, k) && (k + d < 0 || k + g.M() < 0)
    ensures Column(g, d, max, col)
    ensures LinkedAbove(g, d, max, prev, col, -1 - max)
    ensures Dist(g, g.N(), g.M()) != d
  {
    if Dist(g, g.N(), g.M()) == d {
      CornerInBand(g);
      CornerIsReached(g, d, At(max, col, g.N() - g.M()));
    }
  }

  ghost predicate Mirrors(kd: array2<int>, i: int, col: seq<int>)
    reads kd
    requires 0 <= i < kd.Length0
  {
    |col| == kd.Length1 && forall j | 0 <= j < kd.Length1 :: kd[i, j] == col[j]
  }

  // ------------------------------------------------------------ forward pass

  /** One cell: choose where to come from, step, slide. */
  method ForwardCell(g: Grid, kd: array2<int>, max: nat, d: nat, k: int, ghost prev: seq<int>) returns (x: int)
    requires max == g.N() + g.M() && g.N() > 0 && g.M() > 0
    requires kd.Length0 == kd.Length1 == 2 * max + 1 && d <= max
    requires InBand(g, d, k)
    requires d > 0 ==> Column(g, d - 1, max, prev) && Mirrors(kd, d - 1, prev)
    ensures Furthest(g, d, k, x)
    ensures g.Slide(k, if d == 0 then 0 else Entry(g, d, k, At(max, prev, k - 1), At(max, prev, k + 1)), x)
  {
    if d == 0 {
      x := 0;
    } else {
      assert kd[d - 1, max + k - 1] == At(max, prev, k - 1) && kd[d - 1, max + k + 1] == At(max, prev, k + 1);
      if k > -(d as int)
         && (k == d || (k - 1 >= -(g.s.rightLen as int) && kd[d - 1, max + k - 1] >= kd[d - 1, max + k + 1])) {
        var prevX := kd[d - 1, max + k - 1];
        x := prevX + 1;
      } else {
        var prevX := kd[d - 1, max + k + 1];
        x := prevX;
      }
      EntryWithinReach(g, d, k, At(max, prev, k - 1), At(max, prev, k + 1));
    }
    x := SlideDown(g, k, x);
    if d == 0 {
      FirstSlideFurthest(g, x);
    } else {
      SlideEndsFurthest(g, d, k, At(max, prev, k - 1), At(max, prev, k + 1), x);
    }
  }

  /** One column, from diagonal d down to -d, stopping early at the corner. */
  method ForwardColumn(g: Grid, kd: array2<int>, max: nat, d: nat, ghost prev: seq<int>)
    returns (found: bool, ghost col: seq<int>)
    requires max == g.N() + g.M() && g.N() > 0 && g.M() > 0
    requires kd.Length0 == kd.Length1 == 2 * max + 1 && d <= max
    requires d > 0 ==> Column(g, d - 1, max, prev) && Mirrors(kd, d - 1, prev)
    requires forall j | 0 <= j < kd.Length1 :: kd[d, j] == -1
    requires Dist(g, g.N(), g.M()) >= d
    modifies kd
    ensures forall i, j | 0 <= i < kd.Length0 && 0 <= j < kd.Length1 && i != d :: kd[i, j] == old(kd[i, j])
    ensures |col| == 2 * max + 1 && Mirrors(kd, d, col)
    ensures found <==> Dist(g, g.N(), g.M()) == d
    ensures !found ==> Column(g, d, max, col) && LinkedAbove(g, d, max, prev, col, -1 - max)
    ensures found ==> At(max, col, g.N() - g.M()) == g.N() && InBand(g, d, g.N() - g.M())
                      && Link(g, d, max, prev, col, g.N() - g.M())
  {
    hide Dist, Furthest, Entry, Progress, Column, LinkedAbove, Link, ColumnAbove;
    var k: int := d;
    NothingComputed(g, d, max, prev);
    col := Blank(max);
    while k >= -(d as int)
      invariant -(d as int) - 2 <= k <= d && (d + k) % 2 == 0
      invariant |col| == 2 * max + 1 && Mirrors(kd, d, col)
      invariant forall i, j | 0 <= i < kd.Length0 && 0 <= j < kd.Length1 && i != d :: kd[i, j] == old(kd[i, j])
      invariant Progress(g, d, max, prev, col, k)
      decreases k + d + 2
    {
      if k < -(g.s.rightLen as int) || k > g.s.leftLen {
        if k < 0 {
          break;
        }
        CellSkipped(g, d, max, prev, col, k);
      } else {
        var x := ForwardCell(g, kd, max, d, k, prev);
        CellAdded(g, d, max, prev, col, k, x);
        kd[d, max + k] := x;
        col := col[max + k := x];
        if x == g.s.leftLen && x - k == g.s.rightLen {
          assert At(max, col, k) == x;
          return true, col;
        }
      }
      k := k - 2;
    }
    ColumnComplete(g, d, max, prev, col, k);
    found := false;
  }

  function Prev(cols: seq<seq<int>>, d: nat): seq<int>
    requires d <= |cols|
  {
    if d == 0 then [] else cols[d - 1]
  }

  /** What a finished search leaves: complete columns before the last one, and
      the corner's cell in the last one. */
  ghost predicate Searched(g: Grid, max: nat, cols: seq<seq<int>>)
    requires max == g.N() + g.M() && g.N() > 0 && g.M() > 0
  {
    && |cols| > 0
    && (forall d | 0 <= d < |cols| :: |cols[d]| == 2 * max + 1)
    && (forall d | 0 <= d < |cols| - 1 :: ColumnDone(g, d, max, cols))
    && InBand(g, |cols| - 1, g.N() - g.M())
    && At(max, cols[|cols| - 1], g.N() - g.M()) == g.N()
    && Link(g, |cols| - 1, max, Prev(cols, |cols| - 1), cols[|cols| - 1], g.N() - g.M())
  }

  ghost predicate ColumnDone(g: Grid, d: nat, max: nat, cols: seq<seq<int>>)
    requires max == g.N() + g.M() && g.N() > 0 && g.M() > 0
    requires d < |cols| && forall i | 0 <= i < |cols| :: |cols[i]| == 2 * max + 1
  {
    Column(g, d, max, cols[d]) && LinkedAbove(g, d, max, Prev(cols, d), cols[d], -1 - max)
  }

  lemma ColumnsGrow(g: Grid, max: nat, cols: seq<seq<int>>, col: seq<int>)
    requires max == g.N() + g.M() && g.N() > 0 && g.M() > 0
    requires |col| == 2 * max + 1 && forall i | 0 <= i < |cols| :: |cols[i]| == 2 * max + 1
    requires forall d | 0 <= d < |cols| :: ColumnDone(g, d, max, cols)
    ensures forall i | 0 <= i < |cols + [col]| :: |(cols + [col])[i]| == 2 * max + 1
    ensures Prev(cols + [col], |cols|) == Prev(cols, |cols|)
    ensures forall d | 0 <= d < |cols| :: ColumnDone(g, d, max, cols + [col])
  {
    hide Column, LinkedAbove;
    var cols' := cols + [col];
    forall d | 0 <= d < |cols|
      ensures ColumnDone(g, d, max, cols')
    {
      assert ColumnDone(g, d, max, cols);
      assert cols'[d] == cols[d] && Prev(cols', d) == Prev(cols, d);
    }
  }

  /** The forward pass: it always reaches the corner, at step Dist(N, M). */
  method Search(g: Grid, kd: array2<int>, max: nat) returns (backtrackD: nat, ghost cols: seq<seq<int>>)
    requires max == g.N() + g.M() && g.N() > 0 && g.M() > 0
    requires kd.Length0 == kd.Length1 == 2 * max + 1
    requires forall i, j | 0 <= i < kd.Length0 && 0 <= j < kd.Length1 :: kd[i, j] == -1
    modifies kd
    ensures backtrackD == Dist(g, g.N(), g.M()) <= max && |cols| == backtrackD + 1
    ensures Searched(g, max, cols)
    ensures forall i | 0 <= i <= backtrackD :: Mirrors(kd, i, cols[i])
  {
    hide Dist, Column, LinkedAbove, ColumnDone, Link;
    DistBounds(g, g.N(), g.M());
    var d := 0;
    cols := [];
    while d <= max
      invariant d <= max + 1 && |cols| == d
      invariant Dist(g, g.N(), g.M()) >= d
      invariant forall i | 0 <= i < |cols| :: |cols[i]| == 2 * max + 1
      invariant forall i | 0 <= i < d :: ColumnDone(g, i, max, cols)
      invariant forall i | 0 <= i < d :: Mirrors(kd, i, cols[i])
      invariant forall i, j | d <= i < kd.Length0 && 0 <= j < kd.Length1 :: kd[i, j] == -1
    {
      LastColumn(g, d, max, cols);
      label before:
      var found, col := ForwardColumn(g, kd, max, d, Prev(cols, d));
      ColumnsGrow(g, max, cols, col);
      forall i | 0 <= i < d ensures Mirrors(kd, i, cols[i]) {
        assert old@before(Mirrors(kd, i, cols[i]));
      }
      if !found { ColumnFinished(g, d, max, cols, col); }
      cols := cols + [col];
      if found {
        return d, cols;
      }
      d := d + 1;
    }
    assert false;
  }

  lemma LastColumn(g: Grid, d: nat, max: nat, cols: seq<seq<int>>)
    requires max == g.N() + g.M() && g.N() > 0 && g.M() > 0 && |cols| == d
    requires forall i | 0 <= i < |cols| :: |cols[i]| == 2 * max + 1
    requires forall i | 0 <= i < d :: ColumnDone(g, i, max, cols)
    ensures d > 0 ==> Column(g, d - 1, max, Prev(cols, d))
  {
    if d > 0 { assert ColumnDone(g, d - 1, max, cols); }
  }

  lemma ColumnFinished(g: Grid, d: nat, max: nat, cols: seq<seq<int>>, col: seq<int>)
    requires max == g.N() + g.M() && g.N() > 0 && g.M() > 0 && |cols| == d && |col| == 2 * max + 1
    requires forall i | 0 <= i < |cols| :: |cols[i]| == 2 * max + 1
    requires forall i | 0 <= i < |cols + [col]| :: |(cols + [col])[i]| == 2 * max + 1
    requires Column(g, d, max, col) && LinkedAbove(g, d, max, Prev(cols, d), col, -1 - max)
    ensures ColumnDone(g, d, max, cols + [col])
  {
    assert Prev(cols + [col], d) == Prev(cols, d);
  }

  // ------------------------------------------------------------ backtrace

  /** One edit followed by a slide, from p to q. */
  ghost predicate StepSlide(g: Grid, p: (int, int), q: (int, int)) {
    var k := q.0 - q.1;
    || (p.0 - p.1 == k - 1 && g.Slide(k, p.0 + 1, q.0))
    || (p.0 - p.1 == k + 1 && g.Slide(k, p.0, q.0))
  }

  ghost predicate OnGrid(g: Grid, p: (int, int)) {
    0 <= p.0 <= g.N() && 0 <= p.1 <= g.M()
  }

  /** From index d on: points on the grid, one edit and a slide apart, ending
      at the corner. */
  ghost predicate TraceFrom(g: Grid, pts: seq<(int, int)>, d: nat) {
    && d < |pts|
    && (forall i | d <= i < |pts| :: OnGrid(g, pts[i]))
    && (forall i | d < i < |pts| :: StepSlide(g, pts[i - 1], pts[i]))
    && pts[|pts| - 1] == (g.N(), g.M())
  }

  /** A path from the origin to the corner: an initial slide, then |pts| - 1
      times one edit and a slide. */
  ghost predicate Trace(g: Grid, pts: seq<(int, int)>) {
    TraceFrom(g, pts, 0) && pts[0].0 == pts[0].1 && g.Slide(0, 0, pts[0].0)
  }

  lemma TraceBack(g: Grid, p: (int, int), pts: seq<(int, int)>, d: nat)
    requires d > 0 && TraceFrom(g, pts, d) && OnGrid(g, p) && StepSlide(g, p, pts[d])
    ensures TraceFrom(g, pts[d - 1 := p], d - 1)
  {
    hide OnGrid, StepSlide;
  }

  /** The backtrace asks a different question than the forward pass did, and
      always gets the same answer. */
  predicate BackFromLeft(x: int, y: int, a: int, b: int) {
    y == 0 || (x > 0 && a >= b)
  }

  lemma BacktraceAgrees(g: Grid, d: int, k: int, a: int, b: int, x: int)
    requires d > 0 && g.N() > 0 && g.M() > 0 && InBand(g, d, k)
    requires CellOf(g, d - 1, k - 1, a) && CellOf(g, d - 1, k + 1, b)
    requires Entry(g, d, k, a, b) <= x
    ensures BackFromLeft(x, x - k, a, b) <==> FromLeft(g, d, k, a, b)
    ensures var fromLeft := FromLeft(g, d, k, a, b);
            var p := if fromLeft then a else b;
            var pk := if fromLeft then k - 1 else k + 1;
            InBand(g, d - 1, pk) && 0 <= p <= x && 0 <= p - pk <= x - k
  {
    hide Dist;
  }

  lemma LinkIsStep(g: Grid, d: int, k: int, a: int, b: int, x: int)
    requires d > 0 && g.Slide(k, Entry(g, d, k, a, b), x)
    ensures var fromLeft := FromLeft(g, d, k, a, b);
            var p := if fromLeft then a else b;
            var pk := if fromLeft then k - 1 else k + 1;
            StepSlide(g, (p, p - pk), (x, x - k))
  {
  }

  function PointOf(max: nat, col: seq<int>, k: int): (int, int)
    requires |col| == 2 * max + 1 && 0 <= max + k <= 2 * max
  {
    (At(max, col, k), At(max, col, k) - k)
  }

  /** The cell of diagonal k in column d is on the grid and linked. */
  ghost predicate OnPath(g: Grid, d: nat, max: nat, cols: seq<seq<int>>, k: int)
    requires max == g.N() + g.M() && g.N() > 0 && g.M() > 0
    requires d < |cols| && forall i | 0 <= i < |cols| :: |cols[i]| == 2 * max + 1
  {
    && InBand(g, d, k)
    && OnGrid(g, PointOf(max, cols[d], k))
    && Link(g, d, max, Prev(cols, d), cols[d], k)
  }

  /** One backtrace step leads to a linked cell of the previous column. */
  lemma BackStep(g: Grid, d: nat, max: nat, cols: seq<seq<int>>, k: int, pts: seq<(int, int)>)
    requires max == g.N() + g.M() && g.N() > 0 && g.M() > 0
    requires 0 < d < |cols| && Searched(g, max, cols) && OnPath(g, d, max, cols, k)
    requires |pts| == |cols| && TraceFrom(g, pts, d) && pts[d] == PointOf(max, cols[d], k)
    ensures var x := At(max, cols[d], k);
            var a, b := At(max, cols[d - 1], k - 1), At(max, cols[d - 1], k + 1);
            var pk := if BackFromLeft(x, x - k, a, b) then k - 1 else k + 1;
            && 0 < max + pk < 2 * max
            && OnPath(g, d - 1, max, cols, pk)
            && TraceFrom(g, pts[d - 1 := PointOf(max, cols[d - 1], pk)], d - 1)
  {
    hide Searched, OnPath, CellOf, InBand, StepSlide, BackFromLeft, FromLeft, OnGrid, TraceFrom, Link, Entry,
      Grid.Slide;
    OnPathIs(g, d, max, cols, k);
    var x := At(max, cols[d], k);
    var a, b := At(max, cols[d - 1], k - 1), At(max, cols[d - 1], k + 1);
    CellsBefore(g, d, max, cols, k);
    var pk := if FromLeft(g, d, k, a, b) then k - 1 else k + 1;
    PreviousLinked(g, d - 1, max, cols, pk);
    BandInside(g, d - 1, max, pk);
    var p := At(max, cols[d - 1], pk);
    TraceBack(g, (p, p - pk), pts, d);
    PathBack(g, d - 1, max, cols, pk);
  }

  lemma PathBack(g: Grid, d: nat, max: nat, cols: seq<seq<int>>, k: int)
    requires max == g.N() + g.M() && g.N() > 0 && g.M() > 0
    requires d < |cols| && Searched(g, max, cols) && InBand(g, d, k) && 0 < max + k < 2 * max
    requires OnGrid(g, PointOf(max, cols[d], k)) && Link(g, d, max, Prev(cols, d), cols[d], k)
    ensures OnPath(g, d, max, cols, k)
  {
  }

  /** Where the backtrace goes is where the forward pass came from, and that
      cell is on the grid, one edit and a slide away. */
  lemma CellsBefore(g: Grid, d: nat, max: nat, cols: seq<seq<int>>, k: int)
    requires max == g.N() + g.M() && g.N() > 0 && g.M() > 0
    requires 0 < d < |cols| && Searched(g, max, cols) && OnPath(g, d, max, cols, k)
    ensures 0 < max + k < 2 * max
    ensures var x := At(max, cols[d], k);
            var a, b := At(max, cols[d - 1], k - 1), At(max, cols[d - 1], k + 1);
            var fromLeft := FromLeft(g, d, k, a, b);
            var p, pk := if fromLeft then a else b, if fromLeft then k - 1 else k + 1;
            && BackFromLeft(x, x - k, a, b) == fromLeft
            && InBand(g, d - 1, pk)
            && OnGrid(g, (p, p - pk))
            && StepSlide(g, (p, p - pk), (x, x - k))
  {
    hide Searched, OnPath, CellOf, InBand, StepSlide, BackFromLeft, FromLeft, Entry, Grid.Slide;
    OnPathIs(g, d, max, cols, k);
    var x := At(max, cols[d], k);
    var a, b := At(max, cols[d - 1], k - 1), At(max, cols[d - 1], k + 1);
    SlideForward(g, k, Entry(g, d, k, a, b), x);
    BacktraceAgrees(g, d, k, a, b, x);
    LinkIsStep(g, d, k, a, b, x);
  }

  /** What it means to be on the path, and what the cells before are. */
  lemma OnPathIs(g: Grid, d: nat, max: nat, cols: seq<seq<int>>, k: int)
    requires max == g.N() + g.M() && g.N() > 0 && g.M() > 0
    requires 0 < d < |cols| && Searched(g, max, cols) && OnPath(g, d, max, cols, k)
    ensures |cols[d]| == |cols[d - 1]| == 2 * max + 1 && 0 < max + k < 2 * max && InBand(g, d, k)
    ensures var x := At(max, cols[d], k);
            var a, b := At(max, cols[d - 1], k - 1), At(max, cols[d - 1], k + 1);
            && OnGrid(g, (x, x - k)) && g.Slide(k, Entry(g, d, k, a, b), x)
            && CellOf(g, d - 1, k - 1, a) && CellOf(g, d - 1, k + 1, b)
  {
    hide CellOf, Entry, Grid.Slide;
    BandInside(g, d, max, k);
    assert ColumnDone(g, d - 1, max, cols);
  }

  lemma SlideForward(g: Grid, k: int, x0: int, x: int)
    requires g.Slide(k, x0, x)
    ensures x0 <= x
  {
  }

  lemma BandInside(g: Grid, d: nat, max: nat, k: int)
    requires max == g.N() + g.M() && g.N() > 0 && g.M() > 0 && InBand(g, d, k)
    ensures 0 < max + k < 2 * max
  {
  }

  lemma PreviousLinked(g: Grid, d: nat, max: nat, cols: seq<seq<int>>, k: int)
    requires max == g.N() + g.M() && g.N() > 0 && g.M() > 0
    requires d < |cols| - 1 && Searched(g, max, cols) && InBand(g, d, k)
    ensures Link(g, d, max, Prev(cols, d), cols[d], k)
  {
    assert ColumnDone(g, d, max, cols);
    BandInside(g, d, max, k);
  }

  /** One column of the backtrace: remember the point of this column in its
      cells 0 and 1, then choose the diagonal to go back to. */
  method BacktrackColumn(g: Grid, kd: array2<int>, max: nat, d: nat, k: int, ghost cols: seq<seq<int>>,
                         ghost pts: seq<(int, int)>)
    returns (prevK: int)
    requires max == g.N() + g.M() && g.N() > 0 && g.M() > 0
    requires kd.Length0 == kd.Length1 == 2 * max + 1 && d <= max
    requires d < |cols| && Searched(g, max, cols)
    requires 0 < max + k < 2 * max && OnPath(g, d, max, cols, k)
    requires Mirrors(kd, d, cols[d]) && (d > 0 ==> Mirrors(kd, d - 1, cols[d - 1]))
    requires |pts| == |cols| && TraceFrom(g, pts, d) && pts[d] == PointOf(max, cols[d], k)
    modifies kd
    ensures (kd[d, max], kd[d, max + 1]) == PointOf(max, cols[d], k)
    ensures forall i, j | 0 <= i < kd.Length0 && 0 <= j < kd.Length1 && i != d :: kd[i, j] == old(kd[i, j])
    ensures d > 0 ==> 0 < max + prevK < 2 * max && OnPath(g, d - 1, max, cols, prevK)
                      && TraceFrom(g, pts[d - 1 := PointOf(max, cols[d - 1], prevK)], d - 1)
  {
    var x := kd[d, max + k];
    var y := x - k;
    kd[d, max] := x;
    kd[d, max + 1] := y;
    prevK := k;
    if d > 0 {
      BackStep(g, d, max, cols, k, pts);
      hide OnPath, TraceFrom, Searched;
      if y == 0 || (x > 0 && kd[d - 1, max + k - 1] >= kd[d - 1, max + k + 1]) {
        prevK := k - 1;
      } else {
        prevK := k + 1;
      }
    }
  }

  /** The backtrace: cells 0 and 1 of each column end up holding the point at
      which the shortest path leaves that column. */
  method Backtrack(g: Grid, kd: array2<int>, max: nat, backtrackD: nat, ghost cols: seq<seq<int>>)
    returns (ghost pts: seq<(int, int)>)
    requires max == g.N() + g.M() && g.N() > 0 && g.M() > 0
    requires kd.Length0 == kd.Length1 == 2 * max + 1 && backtrackD <= max
    requires |cols| == backtrackD + 1 && Searched(g, max, cols)
    requires forall i | 0 <= i <= backtrackD :: Mirrors(kd, i, cols[i])
    modifies kd
    ensures |pts| == backtrackD + 1 && Trace(g, pts)
    ensures forall i | 0 <= i <= backtrackD :: (kd[i, max], kd[i, max + 1]) == pts[i]
  {
    hide OnPath, TraceFrom, Searched, InBand, Link, OnGrid, StepSlide, Trace;
    var d, k := backtrackD, (g.s.leftLen - g.s.rightLen) as int;
    pts := seq(backtrackD + 1, _ => (g.N(), g.M()));
    CornerTrace(g, max, cols, pts);
    while true
      invariant 0 <= d <= backtrackD && |pts| == backtrackD + 1
      invariant 0 < max + k < 2 * max && OnPath(g, d, max, cols, k)
      invariant forall i | 0 <= i <= d :: Mirrors(kd, i, cols[i])
      invariant PointOf(max, cols[d], k) == pts[d] && TraceFrom(g, pts, d)
      invariant forall i | d < i <= backtrackD :: (kd[i, max], kd[i, max + 1]) == pts[i]
      decreases d
    {
      var prevK := BacktrackColumn(g, kd, max, d, k, cols, pts);
      if d == 0 {
        FirstPoint(g, max, cols, k, pts);
        break;
      }
      d, k := d - 1, prevK;
      pts := pts[d := PointOf(max, cols[d], k)];
    }
  }

  lemma FirstPoint(g: Grid, max: nat, cols: seq<seq<int>>, k: int, pts: seq<(int, int)>)
    requires max == g.N() + g.M() && g.N() > 0 && g.M() > 0
    requires 0 < |cols| && forall i | 0 <= i < |cols| :: |cols[i]| == 2 * max + 1
    requires OnPath(g, 0, max, cols, k)
    requires TraceFrom(g, pts, 0) && pts[0] == PointOf(max, cols[0], k)
    ensures Trace(g, pts)
  {
  }

  lemma CornerTrace(g: Grid, max: nat, cols: seq<seq<int>>, pts: seq<(int, int)>)
    requires max == g.N() + g.M() && g.N() > 0 && g.M() > 0 && Searched(g, max, cols)
    requires |pts| == |cols| && pts[|cols| - 1] == (g.N(), g.M())
    ensures var d, k := |cols| - 1, g.N() - g.M();
            && |cols[d]| == 2 * max + 1 && 0 < max + k < 2 * max
            && OnPath(g, d, max, cols, k) && PointOf(max, cols[d], k) == pts[d] && TraceFrom(g, pts, d)
  {
  }

  // ------------------------------------------------------------ emission

  /** The atoms along a slide are equal, in absolute positions. */
  lemma SlideIsRun(g: Grid, k: int, x0: nat, x: nat)
    requires 0 <= x0 - k && g.Slide(k, x0, x)
    ensures AllSame(g.f, Run(g.s.leftStart + x0, g.s.rightStart + (x0 - k), x - x0))
  {
    var ps := Run(g.s.leftStart + x0, g.s.rightStart + (x0 - k), x - x0);
    forall i | 0 <= i < |ps|
      ensures g.f.same(ps[i].0, ps[i].1)
    {
      assert g.Edge(k, x0 + i);
    }
  }

  /** The result is a finished script up to (x, y), and what has been paired since it was
      `before` is a common subsequence of the section up to there. */
  ghost predicate Emitted(g: Grid, state: DiffState, before: seq<Chunk>, x: int, y: int)
    reads state, state.result
  {
    && state.s == g.s && state.tempResult == []
    && OnGrid(g, (x, y))
    && Script(g.f, state.result.chunks, g.s.leftStart + x, g.s.rightStart + y)
    && Grown(g, before, state.result.chunks, x, y)
  }

  ghost predicate Grown(g: Grid, before: seq<Chunk>, after: seq<Chunk>, x: nat, y: nat) {
    Pairs(before) <= Pairs(after) && CommonSubsequence(g.f, Prefix(g.s, x, y), NewPairs(before, after))
  }

  lemma NothingGrown(g: Grid, before: seq<Chunk>)
    ensures Grown(g, before, before, 0, 0)
  {
    hide Pairs;
  }

  lemma GrownMore(g: Grid, before: seq<Chunk>, after: seq<Chunk>, x: nat, y: nat, left: nat, right: nat,
                  after': seq<Chunk>)
    requires Grown(g, before, after, x, y)
    requires left == 0 || right == 0 || (left == right && g.Slide(x - y, x, x + left))
    requires var c := Chunk(true, g.s.leftStart + x, left, g.s.rightStart + y, right);
             Pairs(after') == Pairs(after) + ChunkPairs(c)
    ensures Grown(g, before, after', x + left, y + right)
  {
    hide Pairs, CommonSubsequence, AllSame, Run, Grid.Slide;
    var n := if left == right then left else 0;
    if n > 0 {
      SlideIsRun(g, x - y, x, x + left);
    } else {
      NoneToPair(g.f, g.s.leftStart + x, g.s.rightStart + y);
    }
    CommonSubsequenceSnoc(g.f, Prefix(g.s, x, y), Prefix(g.s, x + left, y + right), NewPairs(before, after),
                          g.s.leftStart + x, g.s.rightStart + y, n);
    assert NewPairs(before, after') == NewPairs(before, after) + Run(g.s.leftStart + x, g.s.rightStart + y, n);
  }

  lemma NoneToPair(f: Files, l: nat, r: nat)
    ensures AllSame(f, Run(l, r, 0)) && Run(l, r, 0) == []
  {
  }

  lemma EmittedChunkOk(g: Grid, x: nat, y: nat, left: nat, right: nat)
    requires left + right > 0 && (left == 0 || right == 0 || (left == right && g.Slide(x - y, x, x + left)))
    ensures var c := Chunk(true, g.s.leftStart + x, left, g.s.rightStart + y, right);
            ChunkOk(g.f, c) && c.Settled() && ChunkEdits(c) == if left == right then 0 else left + right
  {
    if left == right {
      SlideIsRun(g, x - y, x, x + left);
    }
  }

  /** Add a chunk of `left` left and `right` right atoms that starts at (x, y). */
  method EmitChunk(g: Grid, state: DiffState, x: nat, y: nat, left: nat, right: nat,
                   ghost before: seq<Chunk>)
    requires Emitted(g, state, before, x, y) && OnGrid(g, (x + left, y + right))
    requires left + right > 0 && (left == 0 || right == 0 || (left == right && g.Slide(x - y, x, x + left)))
    modifies state, state.result
    ensures Emitted(g, state, before, x + left, y + right)
    ensures Edits(state.result.chunks) == old(Edits(state.result.chunks)) + (if left == right then 0 else left + right)
  {
    hide AllSame, Edits, Normal, Pairs, Run, Tiles, Appended, Grown;
    ghost var c := Chunk(true, g.s.leftStart + x, left, g.s.rightStart + y, right);
    EmittedChunkOk(g, x, y, left, right);
    ScriptAppend(g.f, state.result.chunks, c);
    GrownMore(g, before, state.result.chunks, x, y, left, right, Appended(state.result.chunks, c));
    AddChunk(state, true, g.s.leftStart + x, left, g.s.rightStart + y, right);
  }

  /** The chunks of one column: a section that is one edit and a slide, or, in
      the first column, a slide only. */
  method EmitSection(g: Grid, state: DiffState, x: nat, y: nat, nextX: nat, nextY: nat,
                     ghost before: seq<Chunk>)
    requires Emitted(g, state, before, x, y) && OnGrid(g, (nextX, nextY))
    requires (x == 0 && y == 0 && nextX == nextY && g.Slide(0, 0, nextX)) || StepSlide(g, (x, y), (nextX, nextY))
    modifies state, state.result
    ensures Emitted(g, state, before, nextX, nextY)
    ensures Edits(state.result.chunks) == old(Edits(state.result.chunks)) + (if nextX - x == nextY - y then 0 else 1)
  {
    hide Script, Edits, Grown;
    var leftX, rightY := x, y;
    var leftSectionLen, rightSectionLen: int := nextX - x, nextY - y;
    if leftSectionLen != 0 && rightSectionLen != 0 {
      if leftSectionLen == rightSectionLen + 1 {
        EmitChunk(g, state, leftX, rightY, 1, 0, before);
        leftX := leftX + 1;
        leftSectionLen := leftSectionLen - 1;
      } else if rightSectionLen == leftSectionLen + 1 {
        EmitChunk(g, state, leftX, rightY, 0, 1, before);
        rightY := rightY + 1;
        rightSectionLen := rightSectionLen - 1;
      } else if leftSectionLen != rightSectionLen {
        assert false;
      }
      EmitChunk(g, state, leftX, rightY, leftSectionLen, rightSectionLen, before);
    } else if leftSectionLen != 0 && rightSectionLen == 0 {
      EmitChunk(g, state, leftX, rightY, leftSectionLen, 0, before);
    } else if leftSectionLen == 0 && rightSectionLen != 0 {
      EmitChunk(g, state, leftX, rightY, 0, rightSectionLen, before);
    }
  }

  /** Forwards again over the remembered points, recording chunks. */
  method EmitTrace(g: Grid, state: DiffState, kd: array2<int>, max: nat, backtrackD: nat, ghost pts: seq<(int, int)>,
                   ghost before: seq<Chunk>)
    requires kd.Length0 == kd.Length1 == 2 * max + 1 && backtrackD <= max && 0 < max
    requires |pts| == backtrackD + 1 && Trace(g, pts)
    requires forall i | 0 <= i <= backtrackD :: (kd[i, max], kd[i, max + 1]) == pts[i]
    requires Emitted(g, state, before, 0, 0)
    modifies state, state.result
    ensures Emitted(g, state, before, g.N(), g.M())
    ensures Edits(state.result.chunks) == old(Edits(state.result.chunks)) + backtrackD
  {
    hide Script, Edits, Grown;
    var x, y := 0, 0;
    var d := 0;
    while d <= backtrackD
      invariant 0 <= d <= backtrackD + 1
      invariant if d == 0 then x == 0 && y == 0 else (x, y) == pts[d - 1]
      invariant Emitted(g, state, before, x, y)
      invariant Edits(state.result.chunks) == old(Edits(state.result.chunks)) + (if d == 0 then 0 else d - 1)
    {
      var nextX, nextY := kd[d, max], kd[d, max + 1];
      assert (nextX, nextY) == pts[d];
      assert OnGrid(g, pts[d]);
      if d > 0 { assert StepSlide(g, pts[d - 1], pts[d]); }
      EmitSection(g, state, x, y, nextX, nextY, before);
      x, y := nextX, nextY;
      d := d + 1;
    }
  }

  /** diff_algo_myers(). The search state is one matrix of kd_len by kd_len
      ints, and the algorithm refuses to run when that exceeds the permitted
      size. Otherwise it appends a script with exactly Dist(N, M) edits, whose pairs are
      a common subsequence of the section. */
  method DiffAlgoMyers(f: Files, state: DiffState, permittedStateSize: nat) returns (rc: Rc)
    requires state.s.leftLen > 0 && state.s.rightLen > 0 && state.tempResult == []
    requires Script(f, state.result.chunks, state.s.leftStart, state.s.rightStart)
    modifies state, state.result
    ensures state.tempResult == []
    ensures rc == UseFallback <==> StateSize(state.s) > permittedStateSize
    ensures rc == UseFallback ==> state.result.chunks == old(state.result.chunks)
    ensures rc == Ok ==>
              && Script(f, state.result.chunks, state.s.leftStart + state.s.leftLen,
                        state.s.rightStart + state.s.rightLen)
              && Edits(state.result.chunks)
                 == old(Edits(state.result.chunks)) + Dist(Grid(f, state.s), state.s.leftLen, state.s.rightLen)
              && Pairs(old(state.result.chunks)) <= Pairs(state.result.chunks)
              && CommonSubsequence(f, state.s, NewPairs(old(state.result.chunks), state.result.chunks))
  {
    hide Script, Edits, Searched, Trace, Dist, Pairs, CommonSubsequence;
    var g := Grid(f, state.s);
    ghost var before := state.result.chunks;
    NothingGrown(g, before);
    var max := state.s.leftLen + state.s.rightLen;
    var kdLen := max + 1 + max;
    var kdBufSize := kdLen * kdLen;
    if kdBufSize * SIZEOF_INT > permittedStateSize {
      return UseFallback;
    }
    var kd := new int[kdLen, kdLen]((_, _) => -1);
    var backtrackD, cols := Search(g, kd, max);
    ghost var pts := Backtrack(g, kd, max, backtrackD, cols);
    EmitTrace(g, state, kd, max, backtrackD, pts, before);
    rc := Ok;
  }

  const SIZEOF_INT := 4

  function StateSize(s: Section): nat {
    var kdLen := 2 * (s.leftLen + s.rightLen) + 1;
    kdLen * kdLen * SIZEOF_INT
  }
}
