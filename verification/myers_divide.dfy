/** The linear-space "divide" variant: forward and backward columns meet in the
  middle, and the section is split there (diff_algo_myers_divide and its two
  steps in lib/diff_myers.c). Both columns are arrays of max + 1 cells; cell
  mid + k is kd_forward[k], where mid is max / 2.
*/
module MyersDivide {
  import opened DiffChunks
  import opened DiffStates
  import opened EditDistance
  import opened DivideColumns

  /** The array holds the forward cells of step d, and nothing was ever written outside
      the grid's diagonals. */
  ghost predicate ForwardColumn(g: Grid, kd: seq<int>, mid: nat, d: int) {
    && (d >= 0 ==> forall k | InBand(g, d, k) && 0 <= mid + k < |kd| :: kd[mid + k] == Front(g, d, k))
    && forall i | 0 <= i < |kd| && !(-g.M() <= i - mid <= g.N()) :: kd[i] == -1
  }

  ghost predicate BackwardColumn(g: Grid, kd: seq<int>, mid: nat, d: int) {
    && (d >= 0 ==> forall c | InBack(g, d, c) && 0 <= mid + c < |kd| :: kd[mid + c] == Back(g, d, c))
    && forall i | 0 <= i < |kd| && !(-g.N() <= i - mid <= g.M()) :: kd[i] == -1
  }

  lemma NothingWritten(g: Grid, kd: seq<int>, mid: nat)
    requires forall i | 0 <= i < |kd| :: kd[i] == -1
    ensures ForwardColumn(g, kd, mid, -1) && BackwardColumn(g, kd, mid, -1)
  {
  }

  // ------------------------------------------------------------ forward step

  /** What the cells next to diagonal k hold, one step back. */
  lemma ForwardNeighbours(g: Grid, kd: seq<int>, mid: nat, d: nat, k: int)
    requires 0 < d <= mid && 2 * mid < |kd| && InBand(g, d, k) && ForwardColumn(g, kd, mid, d - 1)
    ensures k > -(d as int) ==> kd[mid + k - 1] == Front(g, d - 1, k - 1)
    ensures k < d ==> kd[mid + k + 1] == Front(g, d - 1, k + 1)
  {
    assert k > -(d as int) ==> kd[mid + (k - 1)] == Front(g, d - 1, k - 1);
    assert k < d ==> kd[mid + (k + 1)] == Front(g, d - 1, k + 1);
  }

  /** One forward cell: the entry point, where it came from, and where the
      slide ends. */
  method ForwardCell(g: Grid, kd: array<int>, mid: nat, d: nat, k: int)
    returns (x: int, xBeforeSlide: int, prevX: int, prevY: int)
    requires g.N() > 0 && g.M() > 0 && d <= mid && 2 * mid < kd.Length
    requires InBand(g, d, k)
    requires ForwardColumn(g, kd[..], mid, d - 1)
    ensures x == Front(g, d, k) && xBeforeSlide == FrontEntry(g, d, k)
    ensures d > 0 ==>
              if FrontFromLeft(g, d, k) then prevX == xBeforeSlide - 1 && prevY == xBeforeSlide - k
              else prevX == xBeforeSlide && prevY == xBeforeSlide - k - 1
  {
    hide ForwardColumn, Front, FrontEntry, FrontFromLeft, SlideEnd, Grid.Slide, Grid.Edge, Furthest, Dist;
    FrontIs(g, d, k);
    FrontEntered(g, d, k);
    if d > 0 {
      ForwardNeighbours(g, kd[..], mid, d, k);
    }
    if d == 0 {
      x := 0;
      prevX := x;
      prevY := x - k;
    } else if k > -(d as int)
              && (k == d || (k - 1 >= -(g.s.rightLen as int) && kd[mid + k - 1] >= kd[mid + k + 1])) {
      var prevK := k - 1;
      prevX := kd[mid + prevK];
      prevY := prevX - prevK;
      x := prevX + 1;
    } else {
      var prevK := k + 1;
      prevX := kd[mid + prevK];
      prevY := prevX - prevK;
      x := prevX;
    }
    xBeforeSlide := x;
    x := SlideDown(g, k, x);
    SlideEndIs(g, k, xBeforeSlide, x);
  }

  /** One diagonal of the forward step: its cell, and whether it meets the
      backward column. */
  method ForwardDiagonal(g: Grid, kdForward: array<int>, kdBackward: array<int>, mid: nat, d: nat, k: int)
    returns (found: bool, box: Box)
    requires g.N() > 0 && g.M() > 0 && d <= mid && InBand(g, d, k)
    requires 2 * mid < kdForward.Length == kdBackward.Length && kdForward != kdBackward
    requires ForwardColumn(g, kdForward[..], mid, d - 1) && BackwardColumn(g, kdBackward[..], mid, d - 1)
    modifies kdForward
    ensures kdForward[..] == old(kdForward[..])[mid + k := Front(g, d, k)]
    ensures found <==> ForwardMeets(g, d, k)
    ensures found ==> box == ForwardBox(g, d, k)
  {
    hide ForwardColumn, BackwardColumn, Front, FrontEntry, FrontFromLeft, Back, InBand, Furthest;
    found, box := false, Box(0, 0, 0, 0);
    InBandBounds(g, d, k);
    FrontAway(g, d, k);
    BackwardCellAt(g, kdBackward[..], mid, d, k);
    var delta := g.s.rightLen - g.s.leftLen;
    var x, xBeforeSlide, prevX, prevY := ForwardCell(g, kdForward, mid, d, k);
    kdForward[mid + k] := x;
    if !(x < 0 || x > g.s.leftLen || x - k < 0 || x - k > g.s.rightLen) && delta % 2 != 0 && d >= 1 {
      var backwardsD := d - 1;
      var c := k + delta;
      if -(backwardsD as int) <= c <= backwardsD && x >= kdBackward[mid + c] {
        if xBeforeSlide != x {
          box := Box(xBeforeSlide, x, xBeforeSlide - k, x - k);
        } else {
          box := Box(prevX, x, prevY, x - k);
        }
        found := true;
      }
    }
  }

  lemma InBandBounds(g: Grid, d: nat, k: int)
    requires InBand(g, d, k)
    ensures -(d as int) <= k <= d
  {
  }

  /** The backward cell that a forward cell on the grid is compared with. */
  lemma BackwardCellAt(g: Grid, kd: seq<int>, mid: nat, d: nat, k: int)
    requires d <= mid && 2 * mid < |kd| && InBand(g, d, k) && BackwardColumn(g, kd, mid, d - 1)
    ensures Delta(g) % 2 != 0 && -(d as int) < k + Delta(g) < d ==>
              kd[mid + (k + Delta(g))] == Back(g, d - 1, k + Delta(g))
  {
    hide Back;
    Parities(d + k, Delta(g));
    assert Delta(g) % 2 != 0 && -(d as int) < k + Delta(g) < d ==> InBack(g, d - 1, k + Delta(g));
  }

  /** A column while step d is at diagonal k: above k it holds step d's cells, elsewhere
      still those of the step before, and no cell so far has met. */
  ghost predicate ForwardAbove(g: Grid, kd: seq<int>, mid: nat, d: nat, k: int) {
    && ForwardColumn(g, kd, mid, d - 1)
    && (forall j | j > k && InBand(g, d, j) && 0 <= mid + j < |kd| :: kd[mid + j] == Front(g, d, j))
    && (forall j | j > k :: !ForwardMeets(g, d, j))
  }

  lemma ForwardBegins(g: Grid, kd: seq<int>, mid: nat, d: nat)
    requires ForwardColumn(g, kd, mid, d - 1)
    ensures ForwardAbove(g, kd, mid, d, d)
  {
    hide Front, Back;
  }

  lemma ForwardWritten(g: Grid, kd: seq<int>, mid: nat, d: nat, k: int)
    requires d <= mid && 2 * mid < |kd| && InBand(g, d, k) && ForwardAbove(g, kd, mid, d, k) && !ForwardMeets(g, d, k)
    ensures ForwardAbove(g, kd[mid + k := Front(g, d, k)], mid, d, k - 2)
  {
    hide Front, ForwardMeets, InBand;
    BandStep(g, d, k);
    NoneOutside(g, d, k - 1);
    forall j | j > k - 2
      ensures !ForwardMeets(g, d, j)
    {
      assert j > k || j == k || j == k - 1;
    }
  }

  /** Step d does not write what step d - 1 wrote, nor the diagonal below. */
  lemma BandStep(g: Grid, d: nat, k: int)
    requires InBand(g, d, k)
    ensures !InBand(g, d - 1, k) && !InBand(g, d, k - 1) && -(d as int) <= k <= d && -g.M() <= k <= g.N()
  {
  }

  lemma NoneOutside(g: Grid, d: nat, k: int)
    ensures !InBand(g, d, k) ==> !ForwardMeets(g, d, k)
    ensures !InBack(g, d, k) ==> !BackwardMeets(g, d, k)
  {
  }

  lemma ForwardSkipped(g: Grid, kd: seq<int>, mid: nat, d: nat, k: int)
    requires ForwardAbove(g, kd, mid, d, k) && !InBand(g, d, k) && (d + k) % 2 == 0
    ensures ForwardAbove(g, kd, mid, d, k - 2)
  {
    hide Front, Back;
    assert forall j | j > k - 2 && InBand(g, d, j) :: j > k;
    forall j | j > k - 2
      ensures !ForwardMeets(g, d, j)
    {
      assert j > k || !InBand(g, d, j);
    }
  }

  lemma ForwardDone(g: Grid, kd: seq<int>, mid: nat, d: nat, k: int)
    requires ForwardAbove(g, kd, mid, d, k) && (k < -(d as int) || k < -g.M())
    ensures ForwardColumn(g, kd, mid, d) && forall j :: !ForwardMeets(g, d, j)
  {
    hide Front, Back;
    forall j
      ensures !ForwardMeets(g, d, j)
    {
      assert j > k || !InBand(g, d, j);
    }
  }

  lemma ForwardFound(g: Grid, kd: seq<int>, mid: nat, d: nat, k: int)
    requires ForwardAbove(g, kd, mid, d, k)
    ensures forall j | j > k :: !ForwardMeets(g, d, j)
  {
  }

  /** diff_divide_myers_forward(). */
  method ForwardStep(g: Grid, kdForward: array<int>, kdBackward: array<int>, mid: nat, d: nat)
    returns (found: bool, box: Box, ghost at: int)
    requires g.N() > 0 && g.M() > 0 && d <= mid
    requires 2 * mid < kdForward.Length == kdBackward.Length && kdForward != kdBackward
    requires ForwardColumn(g, kdForward[..], mid, d - 1) && BackwardColumn(g, kdBackward[..], mid, d - 1)
    modifies kdForward
    ensures found ==>
              ForwardMeets(g, d, at) && box == ForwardBox(g, d, at) && forall j | j > at :: !ForwardMeets(g, d, j)
    ensures !found ==> ForwardColumn(g, kdForward[..], mid, d) && forall j :: !ForwardMeets(g, d, j)
  {
    hide ForwardMeets, ForwardBox, ForwardColumn, BackwardColumn, ForwardAbove, Front;
    found, box := false, Box(0, 0, 0, 0);
    var k: int := d;
    ForwardBegins(g, kdForward[..], mid, d);
    while k >= -(d as int)
      invariant -(d as int) - 2 <= k <= d && (d + k) % 2 == 0 && !found
      invariant ForwardAbove(g, kdForward[..], mid, d, k)
      decreases k + d + 2
    {
      if k < -(g.s.rightLen as int) || k > g.s.leftLen {
        if k < 0 {
          break;
        }
        ForwardSkipped(g, kdForward[..], mid, d, k);
      } else {
        ghost var before := kdForward[..];
        BeforeStep(g, before, mid, d, k);
        found, box := ForwardDiagonal(g, kdForward, kdBackward, mid, d, k);
        if found {
          ForwardFound(g, before, mid, d, k);
          return found, box, k;
        }
        ForwardWritten(g, before, mid, d, k);
      }
      k := k - 2;
    }
    ForwardDone(g, kdForward[..], mid, d, k);
    at := 0;
  }

  lemma BeforeStep(g: Grid, kd: seq<int>, mid: nat, d: nat, k: int)
    requires ForwardAbove(g, kd, mid, d, k)
    ensures ForwardColumn(g, kd, mid, d - 1)
  {
  }

  // ------------------------------------------------------------ backward step

  method SlideUp(g: Grid, k: int, x0: int) returns (x: int)
    requires x0 > 0 ==> x0 <= g.N() && x0 - k <= g.M()
    ensures x == SlideStart(g, k, x0)
  {
    x := x0;
    while x > 0 && x - k > 0
      invariant SlideStart(g, k, x) == SlideStart(g, k, x0) && x <= x0
    {
      var same := g.f.same(g.s.leftStart + (x - 1), g.s.rightStart + (x - k - 1));
      if !same {
        break;
      }
      assert g.Edge(k, x - 1);
      x := x - 1;
    }
  }

  lemma BackwardNeighbours(g: Grid, kd: seq<int>, mid: nat, d: nat, c: int)
    requires g.N() > 0 && g.M() > 0
    requires 0 < d <= mid && 2 * mid < |kd| && InBack(g, d, c) && BackwardColumn(g, kd, mid, d - 1)
    ensures c > -(d as int) ==> kd[mid + c - 1] == Back(g, d - 1, c - 1)
    ensures c < d ==> kd[mid + c + 1] == Back(g, d - 1, c + 1)
  {
    hide BackEntry;
    assert c > -(d as int) ==> kd[mid + (c - 1)] == Back(g, d - 1, c - 1);
    assert c < d ==> kd[mid + (c + 1)] == Back(g, d - 1, c + 1);
  }

  /** One backward cell. The guard compares c - 1 with the right length, as the
      C code does, so cells that were never written can be read. */
  method BackwardCell(g: Grid, kd: array<int>, mid: nat, d: nat, c: int)
    returns (x: int, xBeforeSlide: int, prevX: int, prevY: int)
    requires g.N() > 0 && g.M() > 0 && d <= mid && 2 * mid < kd.Length
    requires InBack(g, d, c) && BackwardColumn(g, kd[..], mid, d - 1)
    ensures x == Back(g, d, c) && xBeforeSlide == BackEntry(g, d, c)
    ensures d == 0 ==> prevX == xBeforeSlide && prevY == xBeforeSlide - c + Delta(g)
    ensures d > 0 ==>
              if BackFromAbove(g, d, c) then prevX == xBeforeSlide && prevY == xBeforeSlide - c + Delta(g) + 1
              else prevX == xBeforeSlide + 1 && prevY == xBeforeSlide - c + Delta(g)
  {
    hide BackwardColumn, Back, BackEntry, BackFromAbove, SlideStart, Grid.Slide, Grid.Edge, InBack;
    BackIs(g, d, c);
    BackBounded(g, d, c);
    if d > 0 {
      BackwardNeighbours(g, kd[..], mid, d, c);
    }
    InBackBounds(g, d, c);
    var delta := g.s.rightLen - g.s.leftLen;
    if d == 0 {
      x := g.s.leftLen;
      prevX := x;
      prevY := x - c + delta;
    } else if c > -(d as int)
              && (c == d || (c - 1 >= -(g.s.rightLen as int) && kd[mid + c - 1] <= kd[mid + c + 1])) {
      var prevC := c - 1;
      prevX := kd[mid + prevC];
      prevY := prevX - prevC + delta;
      x := prevX;
    } else {
      var prevC := c + 1;
      prevX := kd[mid + prevC];
      prevY := prevX - prevC + delta;
      x := prevX - 1;
    }
    xBeforeSlide := x;
    x := SlideUp(g, c - delta, x);
  }

  lemma InBackBounds(g: Grid, d: nat, c: int)
    requires InBack(g, d, c)
    ensures -(d as int) <= c <= d
  {
  }

  /** One diagonal of the backward step: its cell, and whether it meets the
      forward column. */
  method BackwardDiagonal(g: Grid, kdForward: array<int>, kdBackward: array<int>, mid: nat, d: nat, c: int)
    returns (found: bool, box: Box)
    requires g.N() > 0 && g.M() > 0 && d <= mid && InBack(g, d, c)
    requires 2 * mid < kdForward.Length == kdBackward.Length && kdForward != kdBackward
    requires ForwardColumn(g, kdForward[..], mid, d) && BackwardColumn(g, kdBackward[..], mid, d - 1)
    modifies kdBackward
    ensures kdBackward[..] == old(kdBackward[..])[mid + c := Back(g, d, c)]
    ensures found <==> BackwardMeets(g, d, c)
    ensures found ==> box == BackwardBox(g, d, c)
  {
    hide ForwardColumn, BackwardColumn, Front, Back, BackEntry, BackFromAbove, InBack;
    found, box := false, Box(0, 0, 0, 0);
    BackBounded(g, d, c);
    InBackBounds(g, d, c);
    ForwardCellAt(g, kdForward[..], mid, d, c, Back(g, d, c));
    var delta := g.s.rightLen - g.s.leftLen;
    var x, xBeforeSlide, prevX, prevY := BackwardCell(g, kdBackward, mid, d, c);
    kdBackward[mid + c] := x;
    if !(x < 0 || x > g.s.leftLen || x - c + delta < 0 || x - c + delta > g.s.rightLen) && delta % 2 == 0 {
      var k := c - delta;
      if -(d as int) <= k <= d && kdForward[mid + k] >= x {
        if xBeforeSlide != x {
          box := Box(x, xBeforeSlide, x - c + delta, xBeforeSlide - k);
        } else {
          box := Box(x, prevX, x - c + delta, prevY);
        }
        found := true;
      }
    }
  }

  lemma ForwardCellAt(g: Grid, kd: seq<int>, mid: nat, d: nat, c: int, x: int)
    requires d <= mid && 2 * mid < |kd| && InBack(g, d, c) && ForwardColumn(g, kd, mid, d)
    ensures Delta(g) % 2 == 0 && -(d as int) <= c - Delta(g) <= d && OnGrid(g, x, x - c + Delta(g)) ==>
              kd[mid + (c - Delta(g))] == Front(g, d, c - Delta(g))
  {
    hide Front;
    Parities(d + c, Delta(g));
    assert Delta(g) % 2 == 0 && -(d as int) <= c - Delta(g) <= d && OnGrid(g, x, x - c + Delta(g)) ==>
        InBand(g, d, c - Delta(g));
  }

  lemma Parities(a: int, b: int)
    requires a % 2 == 0
    ensures b % 2 == 0 ==> (a - b) % 2 == 0
    ensures b % 2 != 0 ==> (a + b - 1) % 2 == 0
  {
  }

  /** The backward column while step d is at diagonal c. */
  ghost predicate BackwardAbove(g: Grid, kd: seq<int>, mid: nat, d: nat, c: int) {
    && BackwardColumn(g, kd, mid, d - 1)
    && (forall j | j > c && InBack(g, d, j) && 0 <= mid + j < |kd| :: kd[mid + j] == Back(g, d, j))
    && (forall j | j > c :: !BackwardMeets(g, d, j))
  }

  lemma BackwardBegins(g: Grid, kd: seq<int>, mid: nat, d: nat)
    requires BackwardColumn(g, kd, mid, d - 1)
    ensures BackwardAbove(g, kd, mid, d, d)
  {
    hide Front, Back;
  }

  lemma BackwardWritten(g: Grid, kd: seq<int>, mid: nat, d: nat, c: int)
    requires d <= mid && 2 * mid < |kd| && InBack(g, d, c) && BackwardAbove(g, kd, mid, d, c)
    requires !BackwardMeets(g, d, c)
    ensures BackwardAbove(g, kd[mid + c := Back(g, d, c)], mid, d, c - 2)
  {
    hide Back, BackwardMeets, InBack;
    BackBandStep(g, d, c);
    NoneOutside(g, d, c - 1);
    forall j | j > c - 2
      ensures !BackwardMeets(g, d, j)
    {
      assert j > c || j == c || j == c - 1;
    }
  }

  lemma BackBandStep(g: Grid, d: nat, c: int)
    requires InBack(g, d, c)
    ensures !InBack(g, d - 1, c) && !InBack(g, d, c - 1) && -(d as int) <= c <= d && -g.N() <= c <= g.M()
  {
  }

  lemma BackwardSkipped(g: Grid, kd: seq<int>, mid: nat, d: nat, c: int)
    requires BackwardAbove(g, kd, mid, d, c) && !InBack(g, d, c) && (d + c) % 2 == 0
    ensures BackwardAbove(g, kd, mid, d, c - 2)
  {
    hide Front, Back;
    assert forall j | j > c - 2 && InBack(g, d, j) :: j > c;
    forall j | j > c - 2
      ensures !BackwardMeets(g, d, j)
    {
      assert j > c || !InBack(g, d, j);
    }
  }

  lemma BackwardDone(g: Grid, kd: seq<int>, mid: nat, d: nat, c: int)
    requires BackwardAbove(g, kd, mid, d, c) && (c < -(d as int) || c < -g.N())
    ensures BackwardColumn(g, kd, mid, d) && forall j :: !BackwardMeets(g, d, j)
  {
    hide Front, Back;
    forall j
      ensures !BackwardMeets(g, d, j)
    {
      assert j > c || !InBack(g, d, j);
    }
  }

  lemma BackwardFound(g: Grid, kd: seq<int>, mid: nat, d: nat, c: int)
    requires BackwardAbove(g, kd, mid, d, c)
    ensures BackwardColumn(g, kd, mid, d - 1) && forall j | j > c :: !BackwardMeets(g, d, j)
  {
  }

  /** diff_divide_myers_backward(). */
  method BackwardStep(g: Grid, kdForward: array<int>, kdBackward: array<int>, mid: nat, d: nat)
    returns (found: bool, box: Box, ghost at: int)
    requires g.N() > 0 && g.M() > 0 && d <= mid
    requires 2 * mid < kdForward.Length == kdBackward.Length && kdForward != kdBackward
    requires ForwardColumn(g, kdForward[..], mid, d) && BackwardColumn(g, kdBackward[..], mid, d - 1)
    modifies kdBackward
    ensures found ==>
              BackwardMeets(g, d, at) && box == BackwardBox(g, d, at) && forall j | j > at :: !BackwardMeets(g, d, j)
    ensures !found ==> BackwardColumn(g, kdBackward[..], mid, d) && forall j :: !BackwardMeets(g, d, j)
  {
    hide BackwardMeets, BackwardBox, ForwardColumn, BackwardColumn, BackwardAbove, Back;
    found, box := false, Box(0, 0, 0, 0);
    var c: int := d;
    BackwardBegins(g, kdBackward[..], mid, d);
    while c >= -(d as int)
      invariant -(d as int) - 2 <= c <= d && (d + c) % 2 == 0 && !found
      invariant BackwardAbove(g, kdBackward[..], mid, d, c)
      decreases c + d + 2
    {
      if c < -(g.s.leftLen as int) || c > g.s.rightLen {
        if c < 0 {
          break;
        }
        BackwardSkipped(g, kdBackward[..], mid, d, c);
      } else {
        ghost var before := kdBackward[..];
        BackwardFound(g, before, mid, d, c);
        found, box := BackwardDiagonal(g, kdForward, kdBackward, mid, d, c);
        if found {
          return found, box, c;
        }
        BackwardWritten(g, before, mid, d, c);
      }
      c := c - 2;
    }
    BackwardDone(g, kdBackward[..], mid, d, c);
    at := 0;
  }

  // ------------------------------------------------------------ giving up early

  /** shift_sqrt(). */
  method ShiftSqrt(val: nat) returns (i: nat)
    ensures i == PowerNearRoot(val) && val < i * i && (val > 0 ==> i * i <= 4 * val)
  {
    hide PowerNearRoot;
    i := 1;
    var v := val;
    NearRootStep(1, v);
    while v > 0
      invariant i * PowerNearRoot(v) == PowerNearRoot(val)
    {
      NearRootStep(i, v);
      i := i * 2;
      v := v / 4;
    }
    NearRootStep(i, v);
    PowerIsNearRoot(val);
  }

  lemma {:induction false} NearRootStep(i: nat, v: nat)
    ensures i * PowerNearRoot(v) == if v == 0 then i else i * 2 * PowerNearRoot(v / 4)
    ensures 1 * PowerNearRoot(v) == PowerNearRoot(v)
  {
    TwiceTimes(i, PowerNearRoot(v / 4));
  }

  lemma TwiceTimes(i: nat, p: nat)
    ensures i * (2 * p) == i * 2 * p
  {
  }

  /** The furthest forward cell above diagonal i. */
  ghost predicate ForwardBest(g: Grid, d: nat, i: int, k: int, far: int) {
    && far >= 0 && (forall j | j > i && InBand(g, d, j) :: FromStart(g, d, j) <= far)
    && (far > 0 ==> InBand(g, d, k) && FromStart(g, d, k) == far)
  }

  ghost predicate BackwardBest(g: Grid, d: nat, i: int, c: int, far: int) {
    && far >= 0 && (forall j | j > i && InBack(g, d, j) :: FromEnd(g, d, j) <= far)
    && (far > 0 ==> InBack(g, d, c) && FromEnd(g, d, c) == far)
  }

  lemma NoneBestYet(g: Grid, d: nat)
    ensures ForwardBest(g, d, d, 0, 0) && BackwardBest(g, d, d, 0, 0)
  {
  }

  lemma ForwardTried(g: Grid, d: nat, i: int, k: int, far: int)
    requires -(d as int) <= i <= d && (d + i) % 2 == 0 && ForwardBest(g, d, i, k, far)
    ensures if InBand(g, d, i) && FromStart(g, d, i) > far then ForwardBest(g, d, i - 2, i, FromStart(g, d, i))
            else ForwardBest(g, d, i - 2, k, far)
  {
    hide FromStart;
    assert forall j | j > i - 2 && InBand(g, d, j) :: j >= i;
  }

  lemma BackwardTried(g: Grid, d: nat, i: int, c: int, far: int)
    requires -(d as int) <= i <= d && (d + i) % 2 == 0 && BackwardBest(g, d, i, c, far)
    ensures if InBack(g, d, i) && FromEnd(g, d, i) >= far then BackwardBest(g, d, i - 2, i, FromEnd(g, d, i))
            else BackwardBest(g, d, i - 2, c, far)
  {
    hide FromEnd;
    assert forall j | j > i - 2 && InBack(g, d, j) :: j >= i;
  }

  lemma SomeIsFar(g: Grid, mid: nat, d: nat, far: int)
    requires g.N() > 0 && g.M() > 0 && 0 < d <= mid == (g.N() + g.M()) / 2
    requires forall k | InBand(g, d, k) :: FromStart(g, d, k) <= far
    ensures far > 0
  {
    hide Front, NoneEqual, Furthest;
    var k := if d <= g.N() then d else if (d - g.N()) % 2 == 0 then g.N() else g.N() - 1;
    EvenSum(d, g.N());
    assert InBand(g, d, k);
    FrontAway(g, d, k);
    hide InBand;
    assert FromStart(g, d, k) <= far;
  }

  lemma EvenSum(a: int, b: int)
    ensures (a + a) % 2 == 0
    ensures if (a - b) % 2 == 0 then (a + b) % 2 == 0 else (a + (b - 1)) % 2 == 0
  {
  }

  lemma FurthestIsCut(g: Grid, mid: nat, d: nat, i: int, k: int, far: int, c: int, far': int, b: Box)
    requires g.N() > 0 && g.M() > 0 && 0 < d <= mid == (g.N() + g.M()) / 2
    requires i < -(d as int) && ForwardBest(g, d, i, k, far) && BackwardBest(g, d, i, c, far')
    requires b.leftStart == b.leftEnd && b.rightStart == b.rightEnd
    requires InBand(g, d, k) && far >= far' ==> b.leftStart == Front(g, d, k) && b.rightStart == Front(g, d, k) - k
    requires InBack(g, d, c) && far < far' ==>
               b.leftStart == Back(g, d, c) && b.rightStart == Back(g, d, c) - c + Delta(g)
    ensures IsCut(g, d, b)
  {
    hide FromStart, FromEnd, Front, Back;
    SomeIsFar(g, mid, d, far);
    assert NoneFurther(g, d, if far >= far' then far else far');
  }

  /** The cut taken when too many steps found no midpoint: the furthest of the
      two columns' furthest points, provided it lies in the grid. The distance
      from the end pairs x with the right length and y with the left one, as
      the C code does. */
  method EffortCut(g: Grid, kdForward: array<int>, kdBackward: array<int>, mid: nat, d: nat)
    returns (ok: bool, box: Box)
    requires g.N() > 0 && g.M() > 0 && 0 < d <= mid == (g.N() + g.M()) / 2
    requires 2 * mid < kdForward.Length == kdBackward.Length
    requires ForwardColumn(g, kdForward[..], mid, d) && BackwardColumn(g, kdBackward[..], mid, d)
    ensures IsCut(g, d, box) && (ok <==> OnGrid(g, box.leftStart, box.rightStart))
  {
    hide ForwardColumn, BackwardColumn, ForwardBest, BackwardBest, IsCut, Front, Back;
    var delta := g.s.rightLen - g.s.leftLen;
    var bestForwardI, bestForwardDistance, bestBackwardI, bestBackwardDistance := 0, 0, 0, 0;
    var i: int := d;
    NoneBestYet(g, d);
    while i >= -(d as int)
      invariant -(d as int) - 2 <= i <= d && (d + i) % 2 == 0
      invariant -(d as int) <= bestForwardI <= d && -(d as int) <= bestBackwardI <= d
      invariant ForwardBest(g, d, i, bestForwardI, bestForwardDistance)
      invariant BackwardBest(g, d, i, bestBackwardI, bestBackwardDistance)
      decreases i + d + 2
    {
      ForwardTried(g, d, i, bestForwardI, bestForwardDistance);
      BackwardTried(g, d, i, bestBackwardI, bestBackwardDistance);
      CellsAt(g, kdForward[..], kdBackward[..], mid, d, i);
      if -(g.s.rightLen as int) <= i <= g.s.leftLen {
        var x := kdForward[mid + i];
        var distance := x + (x - i);
        if distance > bestForwardDistance {
          bestForwardDistance, bestForwardI := distance, i;
        }
      }
      if -(g.s.leftLen as int) <= i <= g.s.rightLen {
        var x := kdBackward[mid + i];
        var distance := (g.s.rightLen - x) + (g.s.leftLen - (x - i + delta));
        if distance >= bestBackwardDistance {
          bestBackwardDistance, bestBackwardI := distance, i;
        }
      }
      i := i - 2;
    }
    CellsAt(g, kdForward[..], kdBackward[..], mid, d, bestForwardI);
    CellsAt(g, kdForward[..], kdBackward[..], mid, d, bestBackwardI);
    var x, y: int;
    if bestForwardDistance >= bestBackwardDistance {
      x := kdForward[mid + bestForwardI];
      y := x - bestForwardI;
    } else {
      x := kdBackward[mid + bestBackwardI];
      y := x - bestBackwardI + delta;
    }
    ok := !(x < 0 || y < 0 || x > g.s.leftLen || y > g.s.rightLen);
    box := Box(x, x, y, y);
    FurthestIsCut(g, mid, d, i, bestForwardI, bestForwardDistance, bestBackwardI, bestBackwardDistance, box);
  }

  lemma CellsAt(g: Grid, forward: seq<int>, backward: seq<int>, mid: nat, d: nat, i: int)
    requires d <= mid && 2 * mid < |forward| == |backward| && -(d as int) <= i <= d
    requires ForwardColumn(g, forward, mid, d) && BackwardColumn(g, backward, mid, d)
    ensures InBand(g, d, i) ==> forward[mid + i] == Front(g, d, i)
    ensures InBack(g, d, i) ==> backward[mid + i] == Back(g, d, i)
  {
    hide Front, Back;
  }

  // ------------------------------------------------------------ the algorithm

  /** Alternate forward and backward steps until they meet or the effort is
      used up; d is the last step made. */
  method FindMidpoint(g: Grid) returns (found: bool, cut: bool, box: Box, ghost d: nat)
    requires g.N() > 0 && g.M() > 0
    ensures Searched(g, found, cut, d, box)
    ensures found && !cut ==> Reached(g, d, box)
    ensures found && cut ==> CutReached(g, d, box)
    ensures cut ==> g.N() + g.M() > 2048
    ensures !cut && (g.N() + g.M()) % 2 == 0 ==> found
    ensures !cut && (g.N() + g.M()) % 2 != 0 && NoneEqual(g) ==> !found
    ensures AllEqual(g) ==> found && !cut && box == Whole(g)
  {
    hide ForwardColumn, BackwardColumn, Searched, Reached, CutReached, NoneEqual, AllEqual, PowerNearRoot;
    var max := g.s.leftLen + g.s.rightLen;
    var kdLen := max + 1;
    var kdForward := new int[kdLen](_ => -1);
    var kdBackward := new int[kdLen](_ => -1);
    var maxEffort := ShiftSqrt(max / 2);
    if maxEffort < DIFF_EFFORT_MIN {
      maxEffort := DIFF_EFFORT_MIN;
    }
    var mid := max / 2;
    NothingWritten(g, kdForward[..], mid);
    NothingWritten(g, kdBackward[..], mid);
    found, cut, box, d := Alternate(g, kdForward, kdBackward, mid, maxEffort);
    SearchedMeans(g, found, cut, d, box);
  }

  /** The loop over d. */
  method Alternate(g: Grid, kdForward: array<int>, kdBackward: array<int>, mid: nat, maxEffort: nat)
    returns (found: bool, cut: bool, box: Box, ghost last: nat)
    requires g.N() > 0 && g.M() > 0 && mid == (g.N() + g.M()) / 2 && maxEffort == MaxEffort(g)
    requires 2 * mid < kdForward.Length == kdBackward.Length && kdForward != kdBackward
    requires ForwardColumn(g, kdForward[..], mid, -1) && BackwardColumn(g, kdBackward[..], mid, -1)
    modifies kdForward, kdBackward
    ensures Searched(g, found, cut, last, box)
  {
    hide ForwardMeets, BackwardMeets, ForwardBox, BackwardBox, ForwardColumn, BackwardColumn, IsCut, MaxEffort, MeetsIn,
      Searched, FirstMeeting;
    var d := 0;
    cut := false;
    while d <= mid
      invariant 0 <= d <= mid + 1 && d <= maxEffort + 1 && !cut
      invariant ForwardColumn(g, kdForward[..], mid, d - 1) && BackwardColumn(g, kdBackward[..], mid, d - 1)
      invariant forall e: nat | e < d :: !MeetsIn(g, e)
    {
      ghost var at;
      found, box, at := ForwardStep(g, kdForward, kdBackward, mid, d);
      if found {
        FoundForward(g, d, at, box);
        return found, cut, box, d;
      }
      found, box, at := BackwardStep(g, kdForward, kdBackward, mid, d);
      if found {
        FoundBackward(g, d, at, box);
        return found, cut, box, d;
      }
      NotFound(g, d);
      if d > maxEffort {
        EffortAtLeast(g);
        found, box := EffortCut(g, kdForward, kdBackward, mid, d);
        SearchedCut(g, found, d, box);
        return found, true, box, d;
      }
      d := d + 1;
    }
    found, box, last := false, Box(0, 0, 0, 0), mid;
    SearchedAll(g, box);
  }

  /** A section before or after the midpoint: unsolved when both sides have atoms,
      otherwise a minus or plus chunk, or nothing. */
  function Piece(l: nat, leftLen: nat, r: nat, rightLen: nat): seq<Chunk> {
    if leftLen == 0 && rightLen == 0 then []
    else [Chunk(leftLen == 0 || rightLen == 0, l, leftLen, r, rightLen)]
  }

  function Solid(l: nat, leftLen: nat, r: nat, rightLen: nat): seq<Chunk> {
    if leftLen == 0 && rightLen == 0 then [] else [Chunk(true, l, leftLen, r, rightLen)]
  }

  ghost predicate Fits(s: Section, b: Box) {
    0 <= b.leftStart <= b.leftEnd <= s.leftLen && 0 <= b.rightStart <= b.rightEnd <= s.rightLen
  }

  /** The section before the midpoint, the midpoint, and the section after it. */
  ghost function Divided(s: Section, b: Box): seq<Chunk>
    requires Fits(s, b)
  {
    Piece(s.leftStart, b.leftStart, s.rightStart, b.rightStart)
    + Solid(s.leftStart + b.leftStart, b.leftEnd - b.leftStart, s.rightStart + b.rightStart, b.rightEnd - b.rightStart)
    + Piece(s.leftStart + b.leftEnd, s.leftLen - b.leftEnd, s.rightStart + b.rightEnd, s.rightLen - b.rightEnd)
  }

  method AddSection(f: Files, state: DiffState, l: nat, leftLen: nat, r: nat, rightLen: nat, ghost before: seq<Chunk>,
                    ghost chunks: seq<Chunk>)
    requires Covered(f, state, l, r) && Handed(before, state.result.chunks, state.tempResult, chunks)
    modifies state, state.result
    ensures Covered(f, state, l + leftLen, r + rightLen)
    ensures Handed(before, state.result.chunks, state.tempResult, chunks + Piece(l, leftLen, r, rightLen))
  {
    hide Covered, Handed, Pairs, ChunkPairs;
    assert chunks + [] == chunks;
    OneSidedOk(f, l, leftLen, r, rightLen);
    ghost var c := Chunk(leftLen == 0 || rightLen == 0, l, leftLen, r, rightLen);
    ghost var result, waiting := state.result.chunks, state.tempResult;
    if leftLen != 0 && rightLen != 0 {
      Cover(f, state, false, l, leftLen, r, rightLen);
      HandedMore(before, result, waiting, chunks, c, state.result.chunks, state.tempResult);
    } else if leftLen != 0 && rightLen == 0 {
      Cover(f, state, true, l, leftLen, r, 0);
      HandedMore(before, result, waiting, chunks, c, state.result.chunks, state.tempResult);
    } else if leftLen == 0 && rightLen != 0 {
      Cover(f, state, true, l, 0, r, rightLen);
      HandedMore(before, result, waiting, chunks, c, state.result.chunks, state.tempResult);
    }
  }

  method AddSolid(f: Files, state: DiffState, l: nat, leftLen: nat, r: nat, rightLen: nat, ghost before: seq<Chunk>,
                  ghost chunks: seq<Chunk>)
    requires Covered(f, state, l, r) && Handed(before, state.result.chunks, state.tempResult, chunks)
    requires leftLen > 0 || rightLen > 0 ==> ChunkOk(f, Chunk(true, l, leftLen, r, rightLen))
    modifies state, state.result
    ensures Covered(f, state, l + leftLen, r + rightLen)
    ensures Handed(before, state.result.chunks, state.tempResult, chunks + Solid(l, leftLen, r, rightLen))
  {
    hide Covered, Handed, Pairs, ChunkPairs, ChunkOk;
    assert chunks + [] == chunks;
    ghost var result, waiting := state.result.chunks, state.tempResult;
    CoverIfAny(f, state, l, leftLen, r, rightLen);
    if leftLen > 0 || rightLen > 0 {
      HandedMore(before, result, waiting, chunks, Chunk(true, l, leftLen, r, rightLen), state.result.chunks,
                 state.tempResult);
    }
  }

  /** diff_algo_myers_divide(): unless the search found nothing, exactly the section before
      the midpoint, the midpoint and the section after it are added. The midpoint lies
      within the d steps made, and unless the effort limit cut the search short every
      unsolved part is smaller than the input. */
  method DiffAlgoMyersDivide(f: Files, state: DiffState) returns (rc: Rc, cut: bool, ghost box: Box, ghost d: nat)
    requires state.s.leftLen > 0 && state.s.rightLen > 0 && state.tempResult == []
    requires Covered(f, state, state.s.leftStart, state.s.rightStart)
    modifies state, state.result
    ensures Searched(Grid(f, state.s), rc == Ok, cut, d, box)
    ensures rc == UseFallback ==> state.tempResult == [] && state.result.chunks == old(state.result.chunks)
    ensures rc == Ok ==> Covered(f, state, state.s.leftStart + state.s.leftLen, state.s.rightStart + state.s.rightLen)
    ensures rc == Ok ==>
              && Fits(state.s, box)
              && Handed(old(state.result.chunks), state.result.chunks, state.tempResult, Divided(state.s, box))
    ensures rc == Ok && !cut ==>
              Reached(Grid(f, state.s), d, box) && UnsolvedBelow(state.tempResult, state.s.leftLen + state.s.rightLen)
    ensures rc == Ok && cut ==> CutReached(Grid(f, state.s), d, box)
    ensures var n := state.s.leftLen + state.s.rightLen;
            && (cut ==> n > 2048)
            && (n <= 2048 && n % 2 == 0 ==> rc == Ok)
            && (n <= 2048 && n % 2 != 0 && NoneEqual(Grid(f, state.s)) ==> rc == UseFallback)
  {
    hide MidBox, NoneEqual, AllEqual, AllSame, Pairs, Run, Searched, Reached, CutReached, Covered, Handed, ChunkOk,
      Fits, Divided, UnsolvedBelow;
    var g := Grid(f, state.s);
    ghost var before := state.result.chunks;
    var found, mid;
    found, cut, mid, d := FindMidpoint(g);
    box := mid;
    if !found {
      return UseFallback, cut, box, d;
    }
    MidChunkOk(g, box, cut, d);
    AddDivision(f, state, mid);
    if !cut {
      PartsAreSmaller(state.s, box, before, state.result.chunks, state.tempResult);
    }
    rc := Ok;
  }

  method AddDivision(f: Files, state: DiffState, box: Box)
    requires state.tempResult == [] && Covered(f, state, state.s.leftStart, state.s.rightStart) && Fits(state.s, box)
    requires box.leftEnd > box.leftStart || box.rightEnd > box.rightStart ==>
               ChunkOk(f, Chunk(true, state.s.leftStart + box.leftStart, box.leftEnd - box.leftStart,
                                state.s.rightStart + box.rightStart, box.rightEnd - box.rightStart))
    modifies state, state.result
    ensures Covered(f, state, state.s.leftStart + state.s.leftLen, state.s.rightStart + state.s.rightLen)
    ensures Handed(old(state.result.chunks), state.result.chunks, state.tempResult, Divided(state.s, box))
  {
    hide AllSame, Covered, Run, Pairs, Handed, Piece, Solid, ChunkOk;
    ghost var before := state.result.chunks;
    HandedNone(before);
    AddSection(f, state, state.s.leftStart, box.leftStart, state.s.rightStart, box.rightStart, before, []);
    var l, r := state.s.leftStart + box.leftStart, state.s.rightStart + box.rightStart;
    ghost var first := Piece(state.s.leftStart, box.leftStart, state.s.rightStart, box.rightStart);
    assert [] + first == first;
    AddSolid(f, state, l, box.leftEnd - box.leftStart, r, box.rightEnd - box.rightStart, before, first);
    AddSection(f, state, state.s.leftStart + box.leftEnd, state.s.leftLen - box.leftEnd,
               state.s.rightStart + box.rightEnd, state.s.rightLen - box.rightEnd, before,
               first + Solid(l, box.leftEnd - box.leftStart, r, box.rightEnd - box.rightStart));
  }

  lemma MidChunkOk(g: Grid, b: Box, cut: bool, d: nat)
    requires if cut then CutReached(g, d, b) else Reached(g, d, b)
    ensures Fits(g.s, b) && (!cut ==> (b.leftEnd - b.leftStart) + (b.rightEnd - b.rightStart) > 0)
    ensures b.leftEnd > b.leftStart || b.rightEnd > b.rightStart ==>
              ChunkOk(g.f, Chunk(true, g.s.leftStart + b.leftStart, b.leftEnd - b.leftStart,
                                 g.s.rightStart + b.rightStart, b.rightEnd - b.rightStart))
  {
    hide Dist, ToEnd, Furthest;
    var n := b.leftEnd - b.leftStart;
    if !cut && n == b.rightEnd - b.rightStart {
      var ps := Run(g.s.leftStart + b.leftStart, g.s.rightStart + b.rightStart, n);
      forall i | 0 <= i < |ps|
        ensures g.f.same(ps[i].0, ps[i].1)
      {
        assert g.Edge(b.leftStart - b.rightStart, b.leftStart + i);
      }
    }
  }

  /** Unless it was cut, every part of a division is smaller than the whole. */
  lemma PartsAreSmaller(s: Section, b: Box, before: seq<Chunk>, after: seq<Chunk>, waiting: seq<Chunk>)
    requires Fits(s, b) && b.leftEnd - b.leftStart + b.rightEnd - b.rightStart > 0
    requires Handed(before, after, waiting, Divided(s, b))
    ensures UnsolvedBelow(waiting, s.leftLen + s.rightLen)
  {
    hide Pairs;
    var chunks := Divided(s, b);
    assert UnsolvedBelow(chunks, s.leftLen + s.rightLen);
    forall i | 0 <= i < |waiting|
      ensures waiting[i] == chunks[|chunks| - |waiting| + i]
    {
    }
  }
}
