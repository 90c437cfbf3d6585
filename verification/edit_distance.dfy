/** The Myers graph of a section, and how far d edits can reach in it
  (lib/diff_myers.c). The distance is defined by recursion over the whole
  quarter plane, without any reference to the search; off the grid no atoms match.
*/
module EditDistance {
  import opened DiffChunks

  datatype Grid = Grid(f: Files, s: Section)
  {
    function N(): int { s.leftLen }
    function M(): int { s.rightLen }

    predicate Match(x: int, y: int) {
      0 <= x < N() && 0 <= y < M() && f.same(s.leftStart + x, s.rightStart + y)
    }

    /** Does the graph have a diagonal edge at position x of diagonal k? */
    predicate Edge(k: int, x: int) { Match(x, x - k) }

    /** A slide down diagonal k from x0 to x. */
    ghost predicate Slide(k: int, x0: int, x: int) {
      x0 <= x && forall i | x0 <= i < x :: Edge(k, i)
    }
  }

  /** Fewest deletions plus insertions that turn the first x left atoms into
      the first y right atoms. */
  function Dist(g: Grid, x: nat, y: nat): nat
    decreases x + y
  {
    if x == 0 then y
    else if y == 0 then x
    else if g.Match(x - 1, y - 1) then Dist(g, x - 1, y - 1)
    else 1 + Min(Dist(g, x - 1, y), Dist(g, x, y - 1))
  }

  function Min(a: int, b: int): int { if a < b then a else b }

  lemma {:induction false} DistNeighbours(g: Grid, x: nat, y: nat)
    ensures Dist(g, x + 1, y) <= Dist(g, x, y) + 1 && Dist(g, x, y) <= Dist(g, x + 1, y) + 1
    ensures Dist(g, x, y + 1) <= Dist(g, x, y) + 1 && Dist(g, x, y) <= Dist(g, x, y + 1) + 1
    decreases x + y
  {
    if y > 0 { DistNeighbours(g, x, y - 1); }
    if x > 0 { DistNeighbours(g, x - 1, y); }
  }

  lemma DistParity(g: Grid, x: nat, y: nat)
    ensures (Dist(g, x, y) + x + y) % 2 == 0
  {
    var matches := DistMatches(g, x, y);
    hide Dist;
  }

  /** The distance leaves a whole number of matched pairs. */
  lemma {:induction false} DistMatches(g: Grid, x: nat, y: nat) returns (n: int)
    ensures Dist(g, x, y) + 2 * n == x + y
    decreases x + y
  {
    if x == 0 || y == 0 {
      n := 0;
    } else if g.Match(x - 1, y - 1) {
      n := DistMatches(g, x - 1, y - 1);
      n := n + 1;
    } else if Dist(g, x - 1, y) < Dist(g, x, y - 1) {
      n := DistMatches(g, x - 1, y);
    } else {
      n := DistMatches(g, x, y - 1);
    }
  }

  lemma {:induction false} DistBounds(g: Grid, x: nat, y: nat)
    ensures x - y <= Dist(g, x, y) && y - x <= Dist(g, x, y) <= x + y
    decreases x + y
  {
    if x > 0 && y > 0 {
      DistBounds(g, x - 1, y - 1);
      DistBounds(g, x - 1, y);
      DistBounds(g, x, y - 1);
    }
  }

  lemma {:induction false} DistDiagonal(g: Grid, x: nat, y: nat, t: nat)
    ensures Dist(g, x, y) <= Dist(g, x + t, y + t)
  {
    if t > 0 {
      DistDiagonal(g, x, y, t - 1);
      DistNeighbours(g, x + t - 1, y + t - 1);
    }
  }

  lemma {:induction false} DistOffRight(g: Grid, x: nat, y: nat)
    requires x >= g.N()
    ensures Dist(g, x + 1, y) == 1 + Dist(g, x, y)
    decreases y
  {
    if y > 0 {
      DistOffRight(g, x, y - 1);
      DistNeighbours(g, x, y - 1);
    }
  }

  lemma {:induction false} DistOffBottom(g: Grid, x: nat, y: nat)
    requires y >= g.M()
    ensures Dist(g, x, y + 1) == 1 + Dist(g, x, y)
    decreases x
  {
    if x > 0 {
      DistOffBottom(g, x - 1, y);
      DistNeighbours(g, x - 1, y);
    }
  }

  /** Past the bottom right corner the distance grows by two per diagonal step. */
  lemma DistPastCorner(g: Grid)
    ensures Dist(g, g.N() + 1, g.M() + 1) == Dist(g, g.N(), g.M()) + 2
  {
    DistOffRight(g, g.N(), g.M() + 1);
    DistOffBottom(g, g.N(), g.M());
  }

  lemma {:induction false} DistAlongSlide(g: Grid, k: int, x0: nat, x: nat)
    requires x0 - k >= 0 && g.Slide(k, x0, x)
    ensures Dist(g, x, x - k) == Dist(g, x0, x0 - k)
    decreases x
  {
    if x0 < x {
      DistAlongSlide(g, k, x0, x - 1);
      assert g.Edge(k, x - 1);
    }
  }

  function Prefix(s: Section, x: nat, y: nat): Section {
    Section(s.leftStart, x, s.rightStart, y)
  }

  /** No common subsequence leaves fewer unpaired atoms than the distance. */
  lemma {:induction false} DistBoundsSubsequences(g: Grid, x: nat, y: nat, ps: seq<(nat, nat)>)
    requires x <= g.N() && y <= g.M()
    requires CommonSubsequence(g.f, Prefix(g.s, x, y), ps)
    ensures Dist(g, x, y) + 2 * |ps| <= x + y
    decreases x + y
  {
    hide CommonSubsequence, Dist;
    DistBounds(g, x, y);
    if ps != [] {
      LastPairInside(g, x, y, ps);
      var last := ps[|ps| - 1];
      if last.0 == g.s.leftStart + x - 1 && last.1 == g.s.rightStart + y - 1 {
        DropLastPair(g, x, y, ps);
        DistOfMatch(g, x, y);
        DistBoundsSubsequences(g, x - 1, y - 1, ps[..|ps| - 1]);
      } else if last.0 < g.s.leftStart + x - 1 {
        FitsPrefix(g, x, y, ps, x - 1, y);
        DistBoundsSubsequences(g, x - 1, y, ps);
        DistNeighbours(g, x - 1, y);
      } else {
        FitsPrefix(g, x, y, ps, x, y - 1);
        DistBoundsSubsequences(g, x, y - 1, ps);
        DistNeighbours(g, x, y - 1);
      }
    }
  }

  lemma DistOfMatch(g: Grid, x: nat, y: nat)
    requires 0 < x && 0 < y && g.Match(x - 1, y - 1)
    ensures Dist(g, x, y) == Dist(g, x - 1, y - 1)
  {
  }

  lemma LastPairInside(g: Grid, x: nat, y: nat, ps: seq<(nat, nat)>)
    requires ps != [] && CommonSubsequence(g.f, Prefix(g.s, x, y), ps)
    ensures InSection(Prefix(g.s, x, y), ps[|ps| - 1])
  {
  }

  lemma DropLastPair(g: Grid, x: nat, y: nat, ps: seq<(nat, nat)>)
    requires 0 < x <= g.N() && 0 < y <= g.M() && ps != []
    requires CommonSubsequence(g.f, Prefix(g.s, x, y), ps)
    requires ps[|ps| - 1] == (g.s.leftStart + x - 1, g.s.rightStart + y - 1)
    ensures g.Match(x - 1, y - 1)
    ensures CommonSubsequence(g.f, Prefix(g.s, x - 1, y - 1), ps[..|ps| - 1])
  {
    forall i | 0 <= i < |ps| - 1
      ensures InSection(Prefix(g.s, x - 1, y - 1), ps[i])
    {
      assert InSection(Prefix(g.s, x, y), ps[i]);
      assert ps[i].0 < ps[|ps| - 1].0 && ps[i].1 < ps[|ps| - 1].1;
    }
  }

  lemma FitsPrefix(g: Grid, x: nat, y: nat, ps: seq<(nat, nat)>, x': nat, y': nat)
    requires ps != [] && CommonSubsequence(g.f, Prefix(g.s, x, y), ps)
    requires InSection(Prefix(g.s, x', y'), ps[|ps| - 1])
    ensures CommonSubsequence(g.f, Prefix(g.s, x', y'), ps)
  {
    forall i | 0 <= i < |ps|
      ensures InSection(Prefix(g.s, x', y'), ps[i])
    {
      assert InSection(Prefix(g.s, x, y), ps[i]);
      if i < |ps| - 1 { assert ps[i].0 < ps[|ps| - 1].0 && ps[i].1 < ps[|ps| - 1].1; }
    }
  }

  // ---------------------------------------------------- furthest reaching points

  /** x is the furthest point of diagonal k that d edits can reach. */
  predicate Furthest(g: Grid, d: int, k: int, x: int) {
    && 0 <= x && 0 <= x - k
    && Dist(g, x, x - k) <= d < Dist(g, x + 1, x + 1 - k)
  }

  /** Is diagonal k one that step d computes? */
  predicate InBand(g: Grid, d: int, k: int) {
    -d <= k <= d && (d + k) % 2 == 0 && -g.M() <= k <= g.N()
  }

  /** Does the forward pass come from diagonal k - 1? a and b are the previous
      column's cells at k - 1 and k + 1. */
  predicate FromLeft(g: Grid, d: int, k: int, a: int, b: int) {
    k > -d && (k == d || (k - 1 >= -g.M() && a >= b))
  }

  /** Where the forward pass enters diagonal k, before it slides. */
  function Entry(g: Grid, d: int, k: int, a: int, b: int): int {
    if FromLeft(g, d, k, a, b) then a + 1 else b
  }

  /** What step d - 1 left in the cell of diagonal k. */
  predicate CellOf(g: Grid, d: int, k: int, x: int) {
    if InBand(g, d, k) then Furthest(g, d, k, x) else x == -1
  }

  /** One forward step reaches exactly as far as one more edit can, although
      cells outside the band are missing. */
  lemma EntryWithinReach(g: Grid, d: int, k: int, a: int, b: int)
    requires d > 0 && g.N() > 0 && g.M() > 0 && InBand(g, d, k)
    requires CellOf(g, d - 1, k - 1, a) && CellOf(g, d - 1, k + 1, b)
    ensures var x := Entry(g, d, k, a, b);
            0 <= x && 0 <= x - k && Dist(g, x, x - k) <= d
  {
    hide Dist;
    if FromLeft(g, d, k, a, b) {
      assert InBand(g, d - 1, k - 1);
      DistNeighbours(g, a, a - (k - 1));
    } else {
      assert InBand(g, d - 1, k + 1);
      DistNeighbours(g, b, b - (k + 1));
    }
  }

  lemma DistOfNoMatch(g: Grid, x: nat, y: nat)
    requires !g.Match(x, y)
    ensures Dist(g, x + 1, y + 1) == 1 + Min(Dist(g, x, y + 1), Dist(g, x + 1, y))
  {
  }

  lemma SlideEndsFurthest(g: Grid, d: int, k: int, a: int, b: int, x: int)
    requires d > 0 && g.N() > 0 && g.M() > 0 && InBand(g, d, k)
    requires CellOf(g, d - 1, k - 1, a) && CellOf(g, d - 1, k + 1, b)
    requires g.Slide(k, Entry(g, d, k, a, b), x)
    requires !g.Edge(k, x)
    ensures Furthest(g, d, k, x)
  {
    hide Entry, CellOf, Dist, InBand;
    var x0 := Entry(g, d, k, a, b);
    EntryWithinReach(g, d, k, a, b);
    DistAlongSlide(g, k, x0, x);
    var y := x - k;
    DistOfNoMatch(g, x, y);
    if k - 1 >= -g.M() { LeftNeighbourBeyond(g, d, k, a, b, x); } else { DistOffBottom(g, x + 1, y); }
    if k + 1 <= g.N() { RightNeighbourBeyond(g, d, k, a, b, x); } else { DistOffRight(g, x, y + 1); }
  }

  lemma LeftNeighbourBeyond(g: Grid, d: int, k: int, a: int, b: int, x: int)
    requires d > 0 && g.N() > 0 && g.M() > 0 && InBand(g, d, k) && k - 1 >= -g.M()
    requires CellOf(g, d - 1, k - 1, a) && CellOf(g, d - 1, k + 1, b)
    requires Entry(g, d, k, a, b) <= x && 0 <= x && 0 <= x - k
    ensures Dist(g, x, x - k + 1) > d - 1
  {
    hide Dist;
    if k == -d {
      DistBounds(g, x, x - k + 1);
    } else {
      assert InBand(g, d - 1, k - 1);
      DistDiagonal(g, a + 1, a + 1 - (k - 1), x - (a + 1));
    }
  }

  lemma RightNeighbourBeyond(g: Grid, d: int, k: int, a: int, b: int, x: int)
    requires d > 0 && g.N() > 0 && g.M() > 0 && InBand(g, d, k) && k + 1 <= g.N()
    requires CellOf(g, d - 1, k - 1, a) && CellOf(g, d - 1, k + 1, b)
    requires Entry(g, d, k, a, b) <= x && 0 <= x && 0 <= x - k
    ensures Dist(g, x + 1, x - k) > d - 1
  {
    hide Dist;
    if k == d {
      DistBounds(g, x + 1, x - k);
    } else {
      assert InBand(g, d - 1, k + 1);
      DistDiagonal(g, b + 1, b + 1 - (k + 1), x - b);
    }
  }

  /** The first column: everything equal from the start. */
  lemma FirstSlideFurthest(g: Grid, x: nat)
    requires g.Slide(0, 0, x) && !g.Edge(0, x)
    ensures Furthest(g, 0, 0, x)
  {
    DistAlongSlide(g, 0, 0, x);
    DistBounds(g, x, x + 1);
    DistBounds(g, x + 1, x);
  }

  /** If the corner is within d edits but not within fewer, step d lands
      exactly on it: a point past the corner never hides it. */
  lemma CornerIsReached(g: Grid, d: nat, x: int)
    requires Dist(g, g.N(), g.M()) == d
    requires Furthest(g, d, g.N() - g.M(), x)
    ensures x == g.N()
  {
    hide Dist;
    var n, m := g.N(), g.M();
    if x < n {
      DistDiagonal(g, x + 1, x + 1 - (n - m), n - (x + 1));
    } else if x > n {
      DistPastCorner(g);
      DistDiagonal(g, n + 1, m + 1, x - (n + 1));
    }
  }

  /** The corner's diagonal is in the band of the step that reaches it. */
  lemma CornerInBand(g: Grid)
    ensures InBand(g, Dist(g, g.N(), g.M()), g.N() - g.M())
  {
    DistBounds(g, g.N(), g.M());
    DistParity(g, g.N(), g.M());
  }

  /** The inner loop of both forward passes. */
  method SlideDown(g: Grid, k: int, x0: int) returns (x: int)
    requires 0 <= x0 && 0 <= x0 - k
    ensures g.Slide(k, x0, x) && !g.Edge(k, x)
  {
    x := x0;
    while x < g.s.leftLen && x - k < g.s.rightLen
      invariant g.Slide(k, x0, x)
      decreases g.s.leftLen - x
    {
      var same := g.f.same(g.s.leftStart + x, g.s.rightStart + (x - k));
      if !same {
        break;
      }
      assert g.Edge(k, x);
      x := x + 1;
    }
  }
}
