/** The two columns of the linear-space search (lib/diff_myers.c), as functions of the
  step and the diagonal: what the cells hold, when the columns meet, and what the
  meeting says about the distance.
*/
module DivideColumns {
  import opened DiffChunks
  import opened EditDistance

  datatype Box = Box(leftStart: int, leftEnd: int, rightStart: int, rightEnd: int)

  ghost predicate OnGrid(g: Grid, x: int, y: int) {
    0 <= x <= g.N() && 0 <= y <= g.M()
  }

  /** A place to divide at: inside the grid, and either a non-empty run of
      equal atoms or a single deletion or insertion. */
  ghost predicate MidBox(g: Grid, b: Box) {
    && OnGrid(g, b.leftStart, b.rightStart) && OnGrid(g, b.leftEnd, b.rightEnd)
    && ( || (b.leftEnd - b.leftStart == b.rightEnd - b.rightStart > 0
             && g.Slide(b.leftStart - b.rightStart, b.leftStart, b.leftEnd))
         || (b.leftEnd == b.leftStart + 1 && b.rightEnd == b.rightStart)
         || (b.leftEnd == b.leftStart && b.rightEnd == b.rightStart + 1))
  }

  function Delta(g: Grid): int { g.M() - g.N() }

  ghost predicate NoneEqual(g: Grid) {
    forall x, y :: !g.Match(x, y)
  }

  /** Both sides hold the same atoms. */
  ghost predicate AllEqual(g: Grid) {
    g.N() == g.M() && forall x | 0 <= x < g.N() :: g.Match(x, x)
  }

  function Whole(g: Grid): Box { Box(0, g.N(), 0, g.M()) }

  // ------------------------------------------------------------ slides

  /** Where a slide down diagonal k ends. */
  function SlideEnd(g: Grid, k: int, x: int): int
    decreases if g.Edge(k, x) then g.N() - x else 0
  {
    if g.Edge(k, x) then SlideEnd(g, k, x + 1) else x
  }

  /** Where a slide up diagonal k ends. */
  function SlideStart(g: Grid, k: int, x: int): int
    decreases if x > 0 then x else 0
  {
    if g.Edge(k, x - 1) then SlideStart(g, k, x - 1) else x
  }

  lemma {:induction false} SlideEndIs(g: Grid, k: int, x0: int, x: int)
    requires g.Slide(k, x0, x) && !g.Edge(k, x)
    ensures SlideEnd(g, k, x0) == x
    decreases x - x0
  {
    if x0 < x {
      assert g.Edge(k, x0);
      SlideEndIs(g, k, x0 + 1, x);
    }
  }

  lemma {:induction false} SlideStartIs(g: Grid, k: int, x: int, x0: int)
    requires g.Slide(k, x, x0) && !g.Edge(k, x - 1)
    ensures SlideStart(g, k, x0) == x
    decreases x0 - x
  {
    if x < x0 {
      assert g.Edge(k, x0 - 1);
      SlideStartIs(g, k, x, x0 - 1);
    }
  }

  lemma {:induction false} SlideEndReached(g: Grid, k: int, x0: int)
    ensures var x := SlideEnd(g, k, x0); g.Slide(k, x0, x) && !g.Edge(k, x)
    decreases if g.Edge(k, x0) then g.N() - x0 else 0
  {
    if g.Edge(k, x0) {
      SlideEndReached(g, k, x0 + 1);
    }
  }

  lemma {:induction false} SlideStartReached(g: Grid, k: int, x0: int)
    ensures var x := SlideStart(g, k, x0);
            && g.Slide(k, x, x0) && !g.Edge(k, x - 1)
            && (x < x0 ==> 0 <= x && 0 <= x - k)
    decreases if x0 > 0 then x0 else 0
  {
    if g.Edge(k, x0 - 1) {
      SlideStartReached(g, k, x0 - 1);
    }
  }

  // ------------------------------------------------------------ the forward column

  /** The forward cell of diagonal k in step d; -1 where there is none. */
  function Front(g: Grid, d: nat, k: int): int
    decreases d, 1
  {
    if InBand(g, d, k) then SlideEnd(g, k, FrontEntry(g, d, k)) else -1
  }

  /** Where it is before the slide. */
  function FrontEntry(g: Grid, d: nat, k: int): int
    decreases d, 0
  {
    if d == 0 then 0 else Entry(g, d, k, Front(g, d - 1, k - 1), Front(g, d - 1, k + 1))
  }

  function FrontFromLeft(g: Grid, d: nat, k: int): bool
    requires d > 0
  {
    FromLeft(g, d, k, Front(g, d - 1, k - 1), Front(g, d - 1, k + 1))
  }

  /** Every forward cell is the furthest point of its diagonal. */
  lemma {:induction false} FrontIsFurthest(g: Grid, d: nat, k: int)
    requires g.N() > 0 && g.M() > 0
    ensures CellOf(g, d, k, Front(g, d, k))
    decreases d
  {
    hide Furthest, SlideEnd, Entry, Grid.Slide, Grid.Edge;
    if InBand(g, d, k) {
      SlideEndReached(g, k, FrontEntry(g, d, k));
      if d == 0 {
        SlideGrows(g, k, 0, Front(g, d, k));
        FirstSlideFurthest(g, Front(g, d, k));
      } else {
        FrontIsFurthest(g, d - 1, k - 1);
        FrontIsFurthest(g, d - 1, k + 1);
        SlideEndsFurthest(g, d, k, Front(g, d - 1, k - 1), Front(g, d - 1, k + 1), Front(g, d, k));
      }
    }
  }

  lemma SlideGrows(g: Grid, k: int, x0: int, x: int)
    requires g.Slide(k, x0, x)
    ensures x0 <= x
  {
  }

  /** It is at or past both axes, at least d edits and slides from the start, and
      exactly d edits without equal atoms. */
  lemma FrontAway(g: Grid, d: nat, k: int)
    requires g.N() > 0 && g.M() > 0 && InBand(g, d, k)
    ensures var x := Front(g, d, k);
            && 0 <= x && 0 <= x - k && d <= 2 * x - k && (NoneEqual(g) ==> 2 * x - k == d)
            && Furthest(g, d, k, x)
  {
    hide Dist, NoneEqual, Front;
    var x := Front(g, d, k);
    FrontIsFurthest(g, d, k);
    DistBounds(g, x + 1, x + 1 - k);
    if NoneEqual(g) {
      DistNone(g, x, x - k);
    }
  }

  lemma {:induction false} DistNone(g: Grid, x: nat, y: nat)
    requires NoneEqual(g)
    ensures Dist(g, x, y) == x + y
    decreases x + y
  {
    if x > 0 && y > 0 {
      assert !g.Match(x - 1, y - 1);
      DistNone(g, x - 1, y);
      DistNone(g, x, y - 1);
    }
  }

  /** Where a forward cell was entered, and what it came from. */
  lemma FrontEntered(g: Grid, d: nat, k: int)
    requires g.N() > 0 && g.M() > 0 && InBand(g, d, k)
    ensures var e, x := FrontEntry(g, d, k), Front(g, d, k);
            && 0 <= e <= x && 0 <= e - k && g.Slide(k, e, x) && !g.Edge(k, x) && Dist(g, e, e - k) <= d
    ensures var e := FrontEntry(g, d, k);
            d > 0 ==>
              if FrontFromLeft(g, d, k) then 0 < e && Dist(g, e - 1, e - k) <= d - 1
              else 0 < e - k && Dist(g, e, e - k - 1) <= d - 1
  {
    hide Dist, SlideEnd, CellOf, Entry, Grid.Slide, Grid.Edge, Front, FrontEntry, FrontFromLeft, InBand, FromLeft;
    FrontIs(g, d, k);
    var e := FrontEntry(g, d, k);
    SlideEndReached(g, k, e);
    SlideGrows(g, k, e, Front(g, d, k));
    if d == 0 {
      DistBounds(g, 0, 0);
    } else {
      FrontIsFurthest(g, d - 1, k - 1);
      FrontIsFurthest(g, d - 1, k + 1);
      EntryWithinReach(g, d, k, Front(g, d - 1, k - 1), Front(g, d - 1, k + 1));
      CameFrom(g, d, k, Front(g, d - 1, k - 1), Front(g, d - 1, k + 1));
    }
  }

  lemma FrontIs(g: Grid, d: nat, k: int)
    requires InBand(g, d, k)
    ensures Front(g, d, k) == SlideEnd(g, k, FrontEntry(g, d, k))
    ensures if d == 0 then k == 0 && FrontEntry(g, d, k) == 0
            else
              && FrontEntry(g, d, k) == Entry(g, d, k, Front(g, d - 1, k - 1), Front(g, d - 1, k + 1))
              && FrontFromLeft(g, d, k) == FromLeft(g, d, k, Front(g, d - 1, k - 1), Front(g, d - 1, k + 1))
  {
  }

  lemma CameFrom(g: Grid, d: int, k: int, a: int, b: int)
    requires d > 0 && g.N() > 0 && g.M() > 0 && InBand(g, d, k)
    requires CellOf(g, d - 1, k - 1, a) && CellOf(g, d - 1, k + 1, b)
    ensures var e := Entry(g, d, k, a, b);
            if FromLeft(g, d, k, a, b) then 0 < e && 0 <= e - k && Dist(g, e - 1, e - k) <= d - 1
            else 0 <= e && 0 < e - k && Dist(g, e, e - k - 1) <= d - 1
  {
    hide Dist;
    if FromLeft(g, d, k, a, b) {
      assert InBand(g, d - 1, k - 1);
    } else {
      assert InBand(g, d - 1, k + 1);
    }
  }

  // ------------------------------------------------------------ the distance to the end

  /** The section from point (x, y) on. */
  function Rest(g: Grid, x: nat, y: nat): Grid
    requires x <= g.N() && y <= g.M()
  {
    Grid(g.f, Section(g.s.leftStart + x, g.s.leftLen - x, g.s.rightStart + y, g.s.rightLen - y))
  }

  /** Fewest edits from point (x, y) to the corner. */
  function ToEnd(g: Grid, x: nat, y: nat): nat
    requires x <= g.N() && y <= g.M()
  {
    Dist(Rest(g, x, y), g.s.leftLen - x, g.s.rightLen - y)
  }

  lemma DistStep(g: Grid, x: nat, y: nat)
    ensures Dist(g, x, y) ==
            if x == 0 then y
            else if y == 0 then x
            else if g.Match(x - 1, y - 1) then Dist(g, x - 1, y - 1)
            else 1 + Min(Dist(g, x - 1, y), Dist(g, x, y - 1))
  {
  }

  lemma {:induction false} OneMoreOnLeft(a: Grid, b: Grid, x: nat, y: nat)
    requires forall i: nat, j: nat :: a.Match(i + 1, j) == b.Match(i, j)
    ensures Dist(a, x + 1, y) <= Dist(b, x, y) + 1
    decreases x + y
  {
    hide Dist, Grid.Match;
    DistStep(a, x + 1, y);
    DistStep(b, x, y);
    if x == 0 {
      DistBounds(a, 1, y);
    } else if y > 0 {
      assert a.Match(x - 1 + 1, y - 1) == b.Match(x - 1, y - 1);
      OneMoreOnLeft(a, b, x - 1, y - 1);
      OneMoreOnLeft(a, b, x - 1, y);
      OneMoreOnLeft(a, b, x, y - 1);
    }
  }

  lemma {:induction false} OneMoreOnRight(a: Grid, b: Grid, x: nat, y: nat)
    requires forall i: nat, j: nat :: a.Match(i, j + 1) == b.Match(i, j)
    ensures Dist(a, x, y + 1) <= Dist(b, x, y) + 1
    decreases x + y
  {
    hide Dist, Grid.Match;
    DistStep(a, x, y + 1);
    DistStep(b, x, y);
    if y == 0 {
      DistBounds(a, x, 1);
    } else if x > 0 {
      assert a.Match(x - 1, y - 1 + 1) == b.Match(x - 1, y - 1);
      OneMoreOnRight(a, b, x - 1, y - 1);
      OneMoreOnRight(a, b, x - 1, y);
      OneMoreOnRight(a, b, x, y - 1);
    }
  }

  lemma {:induction false} OneMoreOnBoth(a: Grid, b: Grid, x: nat, y: nat)
    requires a.Match(0, 0) && forall i: nat, j: nat :: a.Match(i + 1, j + 1) == b.Match(i, j)
    ensures Dist(a, x + 1, y + 1) <= Dist(b, x, y)
    decreases x + y
  {
    hide Dist, Grid.Match;
    DistStep(a, x + 1, y + 1);
    DistStep(b, x, y);
    if x > 0 && y > 0 {
      assert a.Match(x - 1 + 1, y - 1 + 1) == b.Match(x - 1, y - 1);
      OneMoreOnBoth(a, b, x - 1, y - 1);
      OneMoreOnBoth(a, b, x - 1, y);
      OneMoreOnBoth(a, b, x, y - 1);
    } else if x > 0 {
      OneMoreOnBoth(a, b, x - 1, y);
      DistStep(a, x, 0);
      DistStep(b, x - 1, 0);
    } else if y > 0 {
      OneMoreOnBoth(a, b, x, y - 1);
      DistStep(a, 0, y);
      DistStep(b, 0, y - 1);
    } else {
      DistStep(a, 0, 0);
    }
  }

  lemma ToEndBefore(g: Grid, x: nat, y: nat)
    requires x <= g.N() && y <= g.M()
    ensures x > 0 ==> ToEnd(g, x - 1, y) <= ToEnd(g, x, y) + 1
    ensures y > 0 ==> ToEnd(g, x, y - 1) <= ToEnd(g, x, y) + 1
    ensures x > 0 && y > 0 && g.Match(x - 1, y - 1) ==> ToEnd(g, x - 1, y - 1) <= ToEnd(g, x, y)
  {
    hide Dist;
    var n, m := g.s.leftLen - x, g.s.rightLen - y;
    if x > 0 {
      RestMatches(g, x - 1, y, x, y);
      OneMoreOnLeft(Rest(g, x - 1, y), Rest(g, x, y), n, m);
    }
    if y > 0 {
      RestMatches(g, x, y - 1, x, y);
      OneMoreOnRight(Rest(g, x, y - 1), Rest(g, x, y), n, m);
    }
    if x > 0 && y > 0 && g.Match(x - 1, y - 1) {
      RestMatches(g, x - 1, y - 1, x, y);
      OneMoreOnBoth(Rest(g, x - 1, y - 1), Rest(g, x, y), n, m);
    }
  }

  lemma RestMatches(g: Grid, x0: nat, y0: nat, x: nat, y: nat)
    requires x0 <= x <= g.N() && y0 <= y <= g.M()
    ensures forall i: nat, j: nat :: Rest(g, x0, y0).Match(i + (x - x0), j + (y - y0)) == Rest(g, x, y).Match(i, j)
    ensures forall i: nat, j: nat :: Rest(g, x, y).Match(i, j) == g.Match(x + i, y + j)
  {
  }

  lemma {:induction false} ToEndAlongSlide(g: Grid, k: int, x: nat, e: nat)
    requires x - k >= 0 && g.Slide(k, x, e) && e <= g.N() && e - k <= g.M()
    ensures ToEnd(g, x, x - k) <= ToEnd(g, e, e - k)
    decreases e - x
  {
    hide ToEnd;
    if x < e {
      ToEndAlongSlide(g, k, x + 1, e);
      assert g.Edge(k, x);
      ToEndBefore(g, x + 1, x + 1 - k);
    }
  }

  /** The section before a point has the distance of the point. */
  lemma {:induction false} DistOfPrefix(g: Grid, x0: nat, y0: nat, x: nat, y: nat)
    requires x <= x0 <= g.N() && y <= y0 <= g.M()
    ensures Dist(Grid(g.f, Prefix(g.s, x0, y0)), x, y) == Dist(g, x, y)
    decreases x + y
  {
    hide Dist;
    var p := Grid(g.f, Prefix(g.s, x0, y0));
    DistStep(p, x, y);
    DistStep(g, x, y);
    if x > 0 && y > 0 {
      assert p.Match(x - 1, y - 1) == g.Match(x - 1, y - 1);
      DistOfPrefix(g, x0, y0, x - 1, y - 1);
      DistOfPrefix(g, x0, y0, x - 1, y);
      DistOfPrefix(g, x0, y0, x, y - 1);
    }
  }

  // ------------------------------------------------------------ the backward column

  predicate InBack(g: Grid, d: int, c: int) {
    -d <= c <= d && (d + c) % 2 == 0 && -g.N() <= c <= g.M()
  }

  /** Does the backward step come from diagonal c - 1? a and b are the cells at
      c - 1 and c + 1. The guard is the C code's. */
  predicate FromAbove(g: Grid, d: int, c: int, a: int, b: int) {
    c > -d && (c == d || (c - 1 >= -g.M() && a <= b))
  }

  /** The backward cell of diagonal c in step d; -1 where there is none. */
  function Back(g: Grid, d: nat, c: int): int
    decreases d, 1
  {
    if InBack(g, d, c) then SlideStart(g, c - Delta(g), BackEntry(g, d, c)) else -1
  }

  function BackEntry(g: Grid, d: nat, c: int): int
    decreases d, 0
  {
    if d == 0 then g.N()
    else if BackFromAbove(g, d, c) then Back(g, d - 1, c - 1)
    else Back(g, d - 1, c + 1) - 1
  }

  function BackFromAbove(g: Grid, d: nat, c: int): bool
    requires d > 0
    decreases d, -1
  {
    FromAbove(g, d, c, Back(g, d - 1, c - 1), Back(g, d - 1, c + 1))
  }

  lemma BackIs(g: Grid, d: nat, c: int)
    requires InBack(g, d, c)
    ensures Back(g, d, c) == SlideStart(g, c - Delta(g), BackEntry(g, d, c))
    ensures if d == 0 then c == 0 && BackEntry(g, d, c) == g.N()
            else
              && BackFromAbove(g, d, c) == FromAbove(g, d, c, Back(g, d - 1, c - 1), Back(g, d - 1, c + 1))
              && BackEntry(g, d, c) == if BackFromAbove(g, d, c) then Back(g, d - 1, c - 1)
                                       else Back(g, d - 1, c + 1) - 1
  {
  }

  lemma BackNone(g: Grid, d: nat, c: int)
    requires !InBack(g, d, c)
    ensures Back(g, d, c) == -1
  {
  }

  /** Negative - never written, or poisoned by a cell that was never written - or at or
      before the far borders. */
  predicate EndPoint(g: Grid, x: int, c: int) {
    x < 0 || (x <= g.N() && x - c + Delta(g) <= g.M())
  }

  lemma {:induction false} BackBounded(g: Grid, d: nat, c: int)
    ensures EndPoint(g, Back(g, d, c), c)
    ensures InBack(g, d, c) ==>
              var x, e, k := Back(g, d, c), BackEntry(g, d, c), c - Delta(g);
              && EndPoint(g, e, c) && g.Slide(k, x, e) && !g.Edge(k, x - 1) && (x < e ==> 0 <= x && 0 <= x - k)
    decreases d
  {
    hide Grid.Slide, Grid.Edge, SlideStart, Back, BackEntry, BackFromAbove, InBack, FromAbove;
    if !InBack(g, d, c) {
      BackNone(g, d, c);
    } else {
      BackIs(g, d, c);
      var x, e := Back(g, d, c), BackEntry(g, d, c);
      SlideStartReached(g, c - Delta(g), e);
      SlideGrows(g, c - Delta(g), x, e);
      if d > 0 {
        BackBounded(g, d - 1, c - 1);
        BackBounded(g, d - 1, c + 1);
      }
    }
  }

  /** A backward cell that is a point of the grid is a real one: so many edits lead from
      it to the end. */
  lemma {:induction false} BackIsPath(g: Grid, d: nat, c: int)
    requires InBack(g, d, c) && 0 <= Back(g, d, c) && 0 <= Back(g, d, c) - c + Delta(g)
    ensures var x, e, k := Back(g, d, c), BackEntry(g, d, c), c - Delta(g);
            && x <= e && OnGrid(g, x, x - k) && OnGrid(g, e, e - k)
            && ToEnd(g, x, x - k) <= d && ToEnd(g, e, e - k) <= d
            && (d > 0 ==>
                  if BackFromAbove(g, d, c) then e - k + 1 <= g.M() && ToEnd(g, e, e - k + 1) <= d - 1
                  else e + 1 <= g.N() && ToEnd(g, e + 1, e - k) <= d - 1)
    decreases d
  {
    hide Grid.Slide, Grid.Edge, SlideStart, Back, BackEntry, BackFromAbove, FromAbove, ToEnd;
    var x, e, k := Back(g, d, c), BackEntry(g, d, c), c - Delta(g);
    BackIs(g, d, c);
    BackBounded(g, d, c);
    SlideGrows(g, k, x, e);
    if d == 0 {
      AtEnd(g);
    } else if BackFromAbove(g, d, c) {
      if !InBack(g, d - 1, c - 1) { BackNone(g, d - 1, c - 1); }
      BackIsPath(g, d - 1, c - 1);
      ToEndBefore(g, e, e - k + 1);
    } else {
      if !InBack(g, d - 1, c + 1) { BackNone(g, d - 1, c + 1); }
      BackIsPath(g, d - 1, c + 1);
      ToEndBefore(g, e + 1, e - k);
    }
    ToEndAlongSlide(g, k, x, e);
  }

  lemma AtEnd(g: Grid)
    ensures ToEnd(g, g.s.leftLen, g.s.rightLen) == 0
  {
  }

  // ------------------------------------------------------------ where the columns meet

  /** A forward cell on the grid at or past the backward cell of the step before. */
  predicate ForwardMeets(g: Grid, d: nat, k: int) {
    && Delta(g) % 2 != 0 && d > 0 && InBand(g, d, k) && -(d as int) < k + Delta(g) < d
    && Front(g, d, k) <= g.N() && Front(g, d, k) - k <= g.M() && Front(g, d, k) >= Back(g, d - 1, k + Delta(g))
  }

  /** A backward cell on the grid at or before the forward cell of the same step. */
  predicate BackwardMeets(g: Grid, d: nat, c: int) {
    && Delta(g) % 2 == 0 && InBack(g, d, c) && -(d as int) <= c - Delta(g) <= d
    && 0 <= Back(g, d, c) && 0 <= Back(g, d, c) - c + Delta(g) && Front(g, d, c - Delta(g)) >= Back(g, d, c)
  }

  /** The slide that ends at the forward cell, or the edit if there is none. */
  function ForwardBox(g: Grid, d: nat, k: int): Box
    requires d > 0
  {
    var e, x := FrontEntry(g, d, k), Front(g, d, k);
    if e != x then Box(e, x, e - k, x - k)
    else if FrontFromLeft(g, d, k) then Box(x - 1, x, x - k, x - k)
    else Box(x, x, x - k - 1, x - k)
  }

  /** The same for a backward cell. */
  function BackwardBox(g: Grid, d: nat, c: int): Box {
    var e, x, k := BackEntry(g, d, c), Back(g, d, c), c - Delta(g);
    if e != x then Box(x, e, x - k, e - k)
    else if d == 0 then Box(x, x, x - k, x - k)
    else if BackFromAbove(g, d, c) then Box(x, x, x - k, x - k + 1)
    else Box(x, x + 1, x - k, x - k)
  }

  predicate Meets(g: Grid, d: nat, j: int) {
    ForwardMeets(g, d, j) || BackwardMeets(g, d, j)
  }

  ghost predicate MeetsIn(g: Grid, d: nat) {
    exists j :: Meets(g, d, j)
  }

  /** The first meeting: in no earlier step, and on no diagonal above. */
  ghost predicate FirstMeeting(g: Grid, d: nat, j: int, b: Box) {
    && Meets(g, d, j) && (forall i | i > j :: !Meets(g, d, i)) && (forall e: nat | e < d :: !MeetsIn(g, e))
    && b == if d > 0 && ForwardMeets(g, d, j) then ForwardBox(g, d, j) else BackwardBox(g, d, j)
  }

  // ------------------------------------------------------------ what a meeting is worth

  /** A box that d steps have reached: its start is within d edits of the start of the
      section. With an even number of atoms its end is within d edits of the end; with
      an odd number it is the furthest point of its diagonal. */
  ghost predicate Reached(g: Grid, d: nat, b: Box) {
    && MidBox(g, b) && Dist(g, b.leftStart, b.rightStart) <= d
    && if Delta(g) % 2 == 0 then ToEnd(g, b.leftEnd, b.rightEnd) <= d
       else Furthest(g, d, b.leftEnd - b.rightEnd, b.leftEnd)
  }

  lemma ForwardReached(g: Grid, d: nat, k: int)
    requires g.N() > 0 && g.M() > 0 && ForwardMeets(g, d, k)
    ensures Reached(g, d, ForwardBox(g, d, k))
  {
    hide Dist, Furthest, Front, FrontEntry, FrontFromLeft, Back, InBand;
    FrontEntered(g, d, k);
    FrontAway(g, d, k);
  }

  lemma BackwardReached(g: Grid, d: nat, c: int)
    requires g.N() > 0 && g.M() > 0 && BackwardMeets(g, d, c)
    ensures Reached(g, d, BackwardBox(g, d, c))
  {
    hide Dist, Furthest, Front, FrontEntry, Back, BackEntry, BackFromAbove, ToEnd, Grid.Edge, Grid.Slide;
    var x, k := Back(g, d, c), c - Delta(g);
    assert InBand(g, d, k);
    BackIsPath(g, d, c);
    BackBounded(g, d, c);
    FrontAway(g, d, k);
    FurthestIsWithin(g, d, k, Front(g, d, k), x);
    if x == BackEntry(g, d, c) && d == 0 {
      BackIs(g, d, c);
      FrontEntered(g, 0, k);
      FrontIs(g, 0, k);
      FullSlide(g, Front(g, 0, k));
      assert false;
    }
    BoxIsMid(g, BackwardBox(g, d, c));
  }

  lemma FurthestIsWithin(g: Grid, d: int, k: int, furthest: int, x: int)
    requires Furthest(g, d, k, furthest) && 0 <= x <= furthest && 0 <= x - k
    ensures Dist(g, x, x - k) <= d
  {
    DistDiagonal(g, x, x - k, furthest - x);
  }

  lemma FullSlide(g: Grid, x: int)
    requires g.N() > 0 && g.Slide(0, 0, x) && x >= g.N()
    ensures g.Edge(0, g.N() - 1)
  {
  }

  lemma BoxIsMid(g: Grid, b: Box)
    requires OnGrid(g, b.leftStart, b.rightStart) && OnGrid(g, b.leftEnd, b.rightEnd)
    requires || (b.leftEnd - b.leftStart == b.rightEnd - b.rightStart > 0
                 && g.Slide(b.leftStart - b.rightStart, b.leftStart, b.leftEnd))
             || (b.leftEnd == b.leftStart + 1 && b.rightEnd == b.rightStart)
             || (b.leftEnd == b.leftStart && b.rightEnd == b.rightStart + 1)
    ensures MidBox(g, b)
  {
  }

  // ------------------------------------------------------------ an even number of atoms

  /** The diagonal at the edge of the band, on the longer file's side. */
  function Outer(g: Grid, d: int): int { if g.N() <= g.M() then d else -d }

  /** Its cell, as long as the two columns have not met: in the grid, and not at
      the border it moves to. */
  predicate OuterPoint(g: Grid, d: int, x: int) {
    var k := Outer(g, d) - Delta(g);
    && 0 <= x <= g.N() && 0 <= x - k <= g.M() && 2 * x - k <= g.N() + g.M() - d
    && if g.N() <= g.M() then x - k > 0 else x > 0
  }

  /** With an even number of atoms the outermost cell meets the forward column
      when it gets to the border, or else in the last step. */
  lemma OuterMoves(g: Grid, mid: nat, d: nat, prev: int, x0: int, x: int, forward: int)
    requires g.N() > 0 && g.M() > 0 && (g.N() + g.M()) % 2 == 0 && d <= mid == (g.N() + g.M()) / 2
    requires if d == 0 then x0 == g.N()
             else OuterPoint(g, d - 1, prev) && x0 == if g.N() <= g.M() then prev else prev - 1
    requires x <= x0 && (x < 0 ==> x == x0)
    requires var k := Outer(g, d) - Delta(g);
             && (x0 - k >= 0 ==> x - k >= 0)
             && (InBand(g, d, k) ==> 0 <= forward && 0 <= forward - k && d <= 2 * forward - k)
    ensures var k := Outer(g, d) - Delta(g);
            && 0 <= x <= g.N() && 0 <= x - k <= g.M()
            && ((-(d as int) <= k <= d && forward >= x) || (d < mid && OuterPoint(g, d, x)))
  {
    hide InBand, Outer;
    Halved(g.N() + g.M(), mid);
    OuterSide(g, d);
    OuterSide(g, d - 1);
    var k := Outer(g, d) - Delta(g);
    if g.N() <= g.M() {
      InBandIs(g, d, k, d - g.M() + mid, forward);
      OuterBelow(g.N(), g.M(), mid, d, k, prev, x0, x, forward);
    } else {
      InBandIs(g, d, k, g.N() - mid, forward);
      OuterAbove(g.N(), g.M(), mid, d, k, prev, x0, x, forward);
    }
  }

  lemma Halved(n: int, mid: int)
    requires n % 2 == 0 && mid == n / 2
    ensures n == 2 * mid
  {
  }

  /** What the outermost cell is on either side. */
  lemma OuterSide(g: Grid, d: int)
    ensures g.N() <= g.M() ==> Outer(g, d) == d
    ensures g.N() > g.M() ==> Outer(g, d) == -d
  {
  }

  lemma InBandIs(g: Grid, d: int, k: int, half: int, forward: int)
    requires d + k == 2 * half && -d <= k <= d ==> -g.M() <= k <= g.N()
    requires d + k == 2 * half && (InBand(g, d, k) ==> 0 <= forward && 0 <= forward - k && d <= 2 * forward - k)
    ensures -d <= k <= d ==> 0 <= forward && 0 <= forward - k && d <= 2 * forward - k
  {
  }

  /** The arithmetic of it, with the right file the longer one, or not. */
  lemma OuterBelow(n: int, m: int, mid: int, d: int, k: int, prev: int, x0: int, x: int, forward: int)
    requires 0 < n <= m && n + m == 2 * mid && 0 <= d <= mid && k == d - (m - n)
    requires if d == 0 then x0 == n
             else x0 == prev && 0 <= prev <= n && 0 < prev - (k - 1) <= m && 2 * prev - (k - 1) <= n + m - (d - 1)
    requires x <= x0 && (x < 0 ==> x == x0) && (x0 - k >= 0 ==> x - k >= 0)
    requires -d <= k ==> 0 <= forward && d <= 2 * forward - k
    ensures 0 <= x <= n && 0 <= x - k <= m
    ensures (-d <= k <= d && forward >= x) || (d < mid && 2 * x - k <= n + m - d && x - k > 0)
  {
  }

  lemma OuterAbove(n: int, m: int, mid: int, d: int, k: int, prev: int, x0: int, x: int, forward: int)
    requires 0 < m < n && n + m == 2 * mid && 0 <= d <= mid && k == -d - (m - n)
    requires if d == 0 then x0 == n
             else x0 == prev - 1 && 0 < prev <= n && 0 <= prev - (k + 1) <= m && 2 * prev - (k + 1) <= n + m - (d - 1)
    requires x <= x0 && (x < 0 ==> x == x0) && (x0 - k >= 0 ==> x - k >= 0)
    requires k <= d ==> 0 <= forward - k && d <= 2 * forward - k
    ensures 0 <= x <= n && 0 <= x - k <= m
    ensures (-d <= k <= d && forward >= x) || (d < mid && 2 * x - k <= n + m - d && x > 0)
  {
  }

  lemma {:induction false} OuterNotMet(g: Grid, mid: nat, d: nat)
    requires g.N() > 0 && g.M() > 0 && (g.N() + g.M()) % 2 == 0 && d <= mid == (g.N() + g.M()) / 2
    requires forall e: nat | e <= d :: !MeetsIn(g, e)
    ensures d < mid && OuterPoint(g, d, Back(g, d, Outer(g, d)))
    decreases d
  {
    hide Back, BackEntry, Front, OuterPoint, InBand, Outer, BackFromAbove, FromAbove, Grid.Slide, Grid.Edge, MeetsIn;
    var c := Outer(g, d);
    var k := c - Delta(g);
    OuterEntered(g, mid, d);
    BackBounded(g, d, c);
    SlideGrows(g, k, Back(g, d, c), BackEntry(g, d, c));
    if d > 0 {
      OuterNotMet(g, mid, d - 1);
    }
    if InBand(g, d, k) {
      FrontAway(g, d, k);
    }
    OuterMoves(g, mid, d, if d == 0 then 0 else Back(g, d - 1, Outer(g, d - 1)), BackEntry(g, d, c), Back(g, d, c),
               Front(g, d, k));
    NotThere(g, d, c);
  }

  lemma OuterEntered(g: Grid, mid: nat, d: nat)
    requires g.N() > 0 && g.M() > 0 && (g.N() + g.M()) % 2 == 0 && d <= mid == (g.N() + g.M()) / 2
    ensures InBack(g, d, Outer(g, d)) && Delta(g) % 2 == 0
    ensures BackEntry(g, d, Outer(g, d)) ==
            if d == 0 then g.N()
            else Back(g, d - 1, Outer(g, d - 1)) - if g.N() <= g.M() then 0 else 1
  {
    hide Back;
  }

  lemma NotThere(g: Grid, d: nat, c: int)
    requires !MeetsIn(g, d)
    ensures !BackwardMeets(g, d, c) && !ForwardMeets(g, d, c)
  {
    assert !Meets(g, d, c);
  }

  lemma EvenMeets(g: Grid)
    requires g.N() > 0 && g.M() > 0 && (g.N() + g.M()) % 2 == 0
    ensures exists d: nat :: d <= (g.N() + g.M()) / 2 && MeetsIn(g, d)
  {
    hide MeetsIn, OuterPoint;
    if forall d: nat | d <= (g.N() + g.M()) / 2 :: !MeetsIn(g, d) {
      OuterNotMet(g, (g.N() + g.M()) / 2, (g.N() + g.M()) / 2);
      assert false;
    }
  }

  // ------------------------------------------------------------ none equal, and all equal

  /** The diagonals of step d that cells never written cannot spoil. */
  predicate BackBand(g: Grid, d: int, c: int) {
    && -d <= c <= d && (d + c) % 2 == 0 && -g.N() <= c <= g.M()
    && d - 2 * g.N() <= c <= 2 * g.M() - d
  }

  /** One cell further back without equal atoms. */
  lemma StraightCell(g: Grid, mid: nat, d: nat, c: int, a: int, b: int, x0: int)
    requires g.N() > 0 && g.M() > 0 && BackBand(g, d, c) && NoneEqual(g)
    requires d > 0 && BackBand(g, d - 1, c - 1) ==> 2 * a == 2 * g.N() - (d - 1) + (c - 1)
    requires d > 0 && BackBand(g, d - 1, c + 1) ==> 2 * b == 2 * g.N() - (d - 1) + (c + 1)
    requires x0 == if d == 0 then g.N() else if FromAbove(g, d, c, a, b) then a else b - 1
    ensures 2 * x0 == 2 * g.N() - d + c
  {
  }

  lemma {:induction false} StraightBack(g: Grid, d: nat, c: int)
    requires g.N() > 0 && g.M() > 0 && BackBand(g, d, c) && NoneEqual(g)
    ensures 2 * Back(g, d, c) == 2 * g.N() - d + c
    decreases d
  {
    hide NoneEqual, Back, BackEntry, FromAbove, BackFromAbove, SlideStart, BackBand;
    StraightHere(g, d, c);
    BackIs(g, d, c);
    NoSlide(g, c - Delta(g), BackEntry(g, d, c));
    if d > 0 {
      if BackBand(g, d - 1, c - 1) { StraightBack(g, d - 1, c - 1); }
      if BackBand(g, d - 1, c + 1) { StraightBack(g, d - 1, c + 1); }
      StraightCell(g, d, d, c, Back(g, d - 1, c - 1), Back(g, d - 1, c + 1), BackEntry(g, d, c));
    }
  }

  lemma StraightHere(g: Grid, d: nat, c: int)
    requires BackBand(g, d, c)
    ensures InBack(g, d, c)
  {
  }

  lemma NoSlide(g: Grid, k: int, x: int)
    requires NoneEqual(g)
    ensures SlideStart(g, k, x) == x && !g.Edge(k, x)
  {
    assert !g.Match(x - 1, x - 1 - k) && !g.Match(x, x - k);
  }

  /** Without equal atoms the columns pass each other too late. */
  lemma NoneEqualNoMeeting(g: Grid, d: nat, k: int)
    requires g.N() > 0 && g.M() > 0 && d <= (g.N() + g.M()) / 2 && NoneEqual(g)
    ensures !ForwardMeets(g, d, k)
  {
    hide NoneEqual, Front, Back;
    if ForwardMeets(g, d, k) {
      FrontAway(g, d, k);
      if BackBand(g, d - 1, k + Delta(g)) {
        StraightBack(g, d - 1, k + Delta(g));
      }
      assert false;
    }
  }

  /** Over equal sides the columns meet at once, over the whole diagonal. */
  lemma AllEqualMeet(g: Grid)
    requires g.N() > 0 && g.M() > 0 && AllEqual(g)
    ensures BackwardMeets(g, 0, 0) && BackwardBox(g, 0, 0) == Whole(g)
    ensures forall d: nat, j: int, b: Box | FirstMeeting(g, d, j, b) :: b == Whole(g)
  {
    var n := g.N();
    assert g.Slide(0, 0, n) && !g.Edge(0, n) && !g.Edge(0, -1);
    SlideEndIs(g, 0, 0, n);
    SlideStartIs(g, 0, 0, n);
    forall d: nat, j: int, b: Box | FirstMeeting(g, d, j, b)
      ensures b == Whole(g)
    {
      assert Meets(g, 0, 0) && MeetsIn(g, 0);
    }
  }

  // ------------------------------------------------------------ ties

  /** Both neighbours lead to diagonal c, one to a and one to b - 1. The cell x, where the
      slide from the one the guard takes ends, is where the slide from the further one
      ends, except on a tie without a slide; then it falls short. */
  lemma FurthestUnlessTied(g: Grid, d: int, c: int, a: int, b: int, x: int, best: int)
    requires -d < c < d && c - 1 >= -g.M()
    requires var k, entry := c - Delta(g), if FromAbove(g, d, c, a, b) then a else b - 1;
             && g.Slide(k, x, entry) && !g.Edge(k, x - 1)
             && g.Slide(k, best, Min(a, b - 1)) && !g.Edge(k, best - 1)
    ensures best <= x && (x == best <==> a != b || g.Edge(c - Delta(g), a - 1))
  {
    var k := c - Delta(g);
    assert x < best ==> g.Edge(k, best - 1);
    assert best < x < a ==> g.Edge(k, x - 1);
    assert best < x < b - 1 ==> g.Edge(k, x - 1);
  }

  /** It happens: p, q, r and s, r, t. In step 2 the cells of diagonals -1 and 1 are both
      at 2, and diagonal 0 is entered, and left, at 2, although 1 is two edits from the
      end as well. */
  lemma TieHappens(g: Grid)
    requires g == Grid(FilesOf(["p", "q", "r"], ["s", "r", "t"]), Section(0, 3, 0, 3))
    ensures Back(g, 1, -1) == Back(g, 1, 1) == 2 && Back(g, 2, 0) == 2 && ToEnd(g, 1, 1) <= 2
  {
    hide Grid.Edge, Back, BackEntry, BackFromAbove, SlideStart, ToEnd;
    TieEdges(g);
    BackIs(g, 0, 0);
    SlideStartStep(g, 0, 3);
    BackIs(g, 1, 1);
    SlideStartStep(g, 1, 3);
    SlideStartStep(g, 1, 2);
    BackIs(g, 1, -1);
    SlideStartStep(g, -1, 2);
    BackIs(g, 2, 0);
    SlideStartStep(g, 0, 2);
    BackIsPath(g, 1, 1);
    ToEndBefore(g, 2, 1);
  }

  lemma SlideStartStep(g: Grid, k: int, x: int)
    ensures SlideStart(g, k, x) == if g.Edge(k, x - 1) then SlideStart(g, k, x - 1) else x
  {
  }

  lemma TieEdges(g: Grid)
    requires g == Grid(FilesOf(["p", "q", "r"], ["s", "r", "t"]), Section(0, 3, 0, 3))
    ensures g.Edge(1, 2) && !g.Edge(0, 2) && !g.Edge(1, 1) && !g.Edge(-1, 1) && !g.Edge(0, 1)
  {
  }

  // ------------------------------------------------------------ giving up early

  const DIFF_EFFORT_MIN := 1024

  /** A power of two close to the square root. */
  function PowerNearRoot(val: nat): (i: nat)
    ensures i > 0
  {
    if val == 0 then 1 else 2 * PowerNearRoot(val / 4)
  }

  lemma {:induction false} PowerIsNearRoot(val: nat)
    ensures val < PowerNearRoot(val) * PowerNearRoot(val)
    ensures val > 0 ==> PowerNearRoot(val) * PowerNearRoot(val) <= 4 * val
  {
    if val > 0 {
      var i := PowerNearRoot(val / 4);
      PowerIsNearRoot(val / 4);
      assert (2 * i) * (2 * i) == 4 * (i * i);
      assert val < 4 * (val / 4 + 1) <= 4 * (i * i);
      if val / 4 == 0 {
        assert i == 1;
      }
    }
  }

  function MaxEffort(g: Grid): nat {
    var i := PowerNearRoot((g.s.leftLen + g.s.rightLen) / 2);
    if i < DIFF_EFFORT_MIN then DIFF_EFFORT_MIN else i
  }

  /** How far the cell of a diagonal is from the start, and from the end. */
  function FromStart(g: Grid, d: nat, k: int): int {
    2 * Front(g, d, k) - k
  }

  function FromEnd(g: Grid, d: nat, c: int): int {
    g.N() + g.M() - (2 * Back(g, d, c) - c + Delta(g))
  }

  ghost predicate NoneFurther(g: Grid, d: nat, far: int) {
    && (forall k | InBand(g, d, k) :: FromStart(g, d, k) <= far)
    && (forall c | InBack(g, d, c) :: FromEnd(g, d, c) <= far)
  }

  /** A point of the forward or the backward column, and no point of either has
      got further. */
  ghost predicate IsCut(g: Grid, d: nat, b: Box) {
    && b.leftStart == b.leftEnd && b.rightStart == b.rightEnd
    && ( || (exists k :: && InBand(g, d, k) && b.leftStart == Front(g, d, k) && b.rightStart == Front(g, d, k) - k
                         && NoneFurther(g, d, FromStart(g, d, k)))
         || (exists c :: && InBack(g, d, c) && b.leftStart == Back(g, d, c)
                         && b.rightStart == Back(g, d, c) - c + Delta(g)
                         && NoneFurther(g, d, FromEnd(g, d, c))))
  }

  // ------------------------------------------------------------ the answer of the search

  /** What the search must answer: the first meeting, if it comes before more than the
      permitted effort has been spent; else a cut, taken if it is on the grid; else, when
      the steps are used up before the effort, nothing. d is the last step made. */
  ghost predicate Searched(g: Grid, found: bool, cut: bool, d: nat, b: Box) {
    var mid, last := (g.N() + g.M()) / 2, MaxEffort(g) + 1;
    && d <= mid && d <= last && (forall e: nat | e < d :: !MeetsIn(g, e))
    && if found && !cut then exists j :: FirstMeeting(g, d, j, b)
       else
         && !MeetsIn(g, d)
         && if cut then d == last && IsCut(g, d, b) && (found <==> OnGrid(g, b.leftStart, b.rightStart))
            else d == mid < last
  }

  /** A midpoint that is no cut lies within the steps made. The cut is a point of one of
      the columns too, and needs more than 2048 atoms. Without it an even number of atoms
      always has a midpoint, and an odd number none of which are equal has none. */
  lemma SearchedMeans(g: Grid, found: bool, cut: bool, d: nat, b: Box)
    requires g.N() > 0 && g.M() > 0 && Searched(g, found, cut, d, b)
    ensures found && !cut ==> Reached(g, d, b)
    ensures found && cut ==> CutReached(g, d, b)
    ensures cut ==> g.N() + g.M() > 2048
    ensures !cut && (g.N() + g.M()) % 2 == 0 ==> found
    ensures !cut && (g.N() + g.M()) % 2 != 0 && NoneEqual(g) ==> !found
    ensures AllEqual(g) ==> found && !cut && b == Whole(g)
  {
    hide Front, Back, ForwardBox, BackwardBox, MidBox, Reached, NoneEqual, AllEqual, IsCut, MaxEffort;
    EffortAtLeast(g);
    if found && !cut {
      var j :| FirstMeeting(g, d, j, b);
      if ForwardMeets(g, d, j) {
        ForwardReached(g, d, j);
        if NoneEqual(g) {
          NoneEqualNoMeeting(g, d, j);
        }
      } else {
        BackwardReached(g, d, j);
      }
    }
    if found && cut {
      CutIsReached(g, d, b);
    }
    if (g.N() + g.M()) % 2 == 0 {
      EvenMeets(g);
    }
    if AllEqual(g) {
      AllEqualMeet(g);
      assert Meets(g, 0, 0) && MeetsIn(g, 0);
    }
  }

  lemma FoundForward(g: Grid, d: nat, at: int, b: Box)
    requires d <= (g.N() + g.M()) / 2 && d <= MaxEffort(g) + 1 && forall e: nat | e < d :: !MeetsIn(g, e)
    requires ForwardMeets(g, d, at) && b == ForwardBox(g, d, at) && forall j | j > at :: !ForwardMeets(g, d, j)
    ensures Searched(g, true, false, d, b)
  {
    hide Front, Back, ForwardBox, InBand, MaxEffort, MeetsIn;
    assert FirstMeeting(g, d, at, b);
  }

  lemma FoundBackward(g: Grid, d: nat, at: int, b: Box)
    requires d <= (g.N() + g.M()) / 2 && d <= MaxEffort(g) + 1 && forall e: nat | e < d :: !MeetsIn(g, e)
    requires BackwardMeets(g, d, at) && b == BackwardBox(g, d, at) && forall j | j > at :: !BackwardMeets(g, d, j)
    ensures Searched(g, true, false, d, b)
  {
    hide Front, Back, BackwardBox, InBack, MaxEffort, MeetsIn;
    assert FirstMeeting(g, d, at, b);
  }

  lemma NotFound(g: Grid, d: nat)
    requires forall j :: !ForwardMeets(g, d, j)
    requires forall j :: !BackwardMeets(g, d, j)
    ensures !MeetsIn(g, d)
  {
    hide ForwardMeets, BackwardMeets;
  }

  lemma SearchedCut(g: Grid, found: bool, d: nat, b: Box)
    requires d <= (g.N() + g.M()) / 2 && d == MaxEffort(g) + 1 && forall e: nat | e <= d :: !MeetsIn(g, e)
    requires IsCut(g, d, b) && (found <==> OnGrid(g, b.leftStart, b.rightStart))
    ensures Searched(g, found, true, d, b)
  {
    hide MeetsIn, IsCut, MaxEffort;
  }

  lemma SearchedAll(g: Grid, b: Box)
    requires (g.N() + g.M()) / 2 <= MaxEffort(g) && forall e: nat | e <= (g.N() + g.M()) / 2 :: !MeetsIn(g, e)
    ensures Searched(g, false, false, (g.s.leftLen + g.s.rightLen) / 2, b)
  {
    hide MeetsIn, IsCut, MaxEffort;
  }

  lemma EffortAtLeast(g: Grid)
    ensures MaxEffort(g) >= DIFF_EFFORT_MIN
  {
  }

  /** Nor has it always one when some are equal: a, a, a, a, b against b, c. */
  lemma OddMayMiss(g: Grid)
    requires g == Grid(FilesOf(["a", "a", "a", "a", "b"], ["b", "c"]), Section(0, 5, 0, 2))
    ensures g.Match(4, 0) && forall d: nat | d <= (g.N() + g.M()) / 2 :: !MeetsIn(g, d)
    ensures forall found, d, b | Searched(g, found, false, d, b) :: !found
  {
    hide Front, FrontEntry, Back, BackEntry, BackFromAbove, SlideEnd, SlideStart, IsCut;
    OnlyOneEdge(g);
    MissFronts(g);
    MissBacks(g);
    forall d: nat, j | d <= 3
      ensures !Meets(g, d, j)
    {
    }
    assert forall d: nat | d <= 3 :: !MeetsIn(g, d);
    hide MeetsIn, Searched;
    forall found, d, b | Searched(g, found, false, d, b)
      ensures !found
    {
      FoundMeets(g, found, d, b);
    }
  }

  lemma FoundMeets(g: Grid, found: bool, d: nat, b: Box)
    requires Searched(g, found, false, d, b)
    ensures d <= (g.N() + g.M()) / 2 && (found ==> MeetsIn(g, d))
  {
    hide Meets, IsCut;
    if found {
      var j :| FirstMeeting(g, d, j, b);
      assert Meets(g, d, j);
    }
  }

  lemma OnlyOneEdge(g: Grid)
    requires g == Grid(FilesOf(["a", "a", "a", "a", "b"], ["b", "c"]), Section(0, 5, 0, 2))
    ensures forall x, y :: g.Match(x, y) <==> x == 4 && y == 0
  {
  }

  lemma MissFronts(g: Grid)
    requires g.N() == 5 && g.M() == 2 && forall x, y :: g.Match(x, y) <==> x == 4 && y == 0
    ensures Front(g, 2, 2) == 2 && Front(g, 3, 1) == 2 && Front(g, 3, 3) == 3
  {
    hide Front, FrontEntry, SlideEnd;
    NoEdgeBut(g);
    FrontIs(g, 0, 0);
    FrontIs(g, 1, -1);
    FrontIs(g, 1, 1);
    FrontIs(g, 2, 0);
    FrontIs(g, 2, 2);
    FrontIs(g, 3, 1);
    FrontIs(g, 3, 3);
  }

  lemma NoEdgeBut(g: Grid)
    requires forall x, y :: g.Match(x, y) <==> x == 4 && y == 0
    ensures forall k, x | k != 4 || x != 4 :: SlideEnd(g, k, x) == x
    ensures forall k, x | k != 4 || x != 5 :: SlideStart(g, k, x) == x
    ensures SlideStart(g, 4, 5) == 4
  {
    assert g.Edge(4, 4) && !g.Edge(4, 3);
    assert SlideStart(g, 4, 4) == 4;
  }

  lemma MissBacks(g: Grid)
    requires g.N() == 5 && g.M() == 2 && forall x, y :: g.Match(x, y) <==> x == 4 && y == 0
    ensures Back(g, 1, -1) == 4 && Back(g, 2, -2) == 3 && Back(g, 2, 0) == 4
  {
    hide Back, BackEntry, BackFromAbove, SlideStart;
    NoEdgeBut(g);
    BackIs(g, 0, 0);
    BackIs(g, 1, -1);
    BackIs(g, 1, 1);
    BackIs(g, 2, -2);
    BackIs(g, 2, 0);
  }

  /** A cut point within d edits of the start, or of the end. */
  ghost predicate CutReached(g: Grid, d: nat, b: Box) {
    && b.leftStart == b.leftEnd && b.rightStart == b.rightEnd && OnGrid(g, b.leftStart, b.rightStart)
    && (Furthest(g, d, b.leftStart - b.rightStart, b.leftStart) || ToEnd(g, b.leftStart, b.rightStart) <= d)
  }

  lemma CutIsReached(g: Grid, d: nat, b: Box)
    requires g.N() > 0 && g.M() > 0 && IsCut(g, d, b) && OnGrid(g, b.leftStart, b.rightStart)
    ensures CutReached(g, d, b)
  {
    hide Front, Back, NoneFurther, Furthest, ToEnd, BackEntry, BackFromAbove;
    if k :| InBand(g, d, k) && b.leftStart == Front(g, d, k) && b.rightStart == Front(g, d, k) - k {
      FrontAway(g, d, k);
    } else {
      var c :| InBack(g, d, c) && b.leftStart == Back(g, d, c) && b.rightStart == Back(g, d, c) - c + Delta(g);
      BackIsPath(g, d, c);
    }
  }
}
