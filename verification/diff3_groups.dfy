/** Which changes merge() of lib/diff3.c treats together: changes of the two lists
  that overlap or touch in file 3, directly or through others, form a group.
*/
module Diff3Groups {
  import opened Diff3Changes

  /** The changes [i1, j1) of the one list and [i2, j2) of the other, and the lines
      of file 3 they cover. */
  datatype Group = Group(i1: nat, j1: nat, i2: nat, j2: nat, r: Range)

  predicate Touch(a: Range, b: Range) {
    a.from <= b.to && b.from <= a.to
  }

  ghost predicate Covers(ds: seq<Change>, i: nat, j: nat, line: int) {
    exists k | i <= k < j && k < |ds| :: ds[k].now.from <= line < ds[k].now.to
  }

  ghost predicate AllCovered(d13: seq<Change>, i1: nat, j1: nat, d23: seq<Change>, i2: nat, j2: nat, from: int,
                             to: int) {
    forall q | from <= q < to :: Covers(d13, i1, j1, q) || Covers(d23, i2, j2, q)
  }

  /** None of the other changes of a list touches the range. */
  ghost predicate Apart(ds: seq<Change>, i: nat, j: nat, r: Range) {
    forall k | 0 <= k < |ds| && !(i <= k < j) :: !Touch(ds[k].now, r)
  }

  ghost predicate Within(ds: seq<Change>, i: nat, j: nat, r: Range) {
    forall k | i <= k < j && k < |ds| :: r.from <= ds[k].now.from && ds[k].now.to <= r.to
  }

  /** A connected group: its changes lie in the range and leave no line of it out,
      the first starts it, the last ends it, and no other change touches it. */
  ghost predicate IsGroup(d13: seq<Change>, d23: seq<Change>, g: Group) {
    && g.i1 <= g.j1 <= |d13| && g.i2 <= g.j2 <= |d23| && (g.i1 < g.j1 || g.i2 < g.j2)
    && Within(d13, g.i1, g.j1, g.r) && Within(d23, g.i2, g.j2, g.r)
    && ((g.i1 < g.j1 && d13[g.i1].now.from == g.r.from) || (g.i2 < g.j2 && d23[g.i2].now.from == g.r.from))
    && ((g.i1 < g.j1 && d13[g.j1 - 1].now.to == g.r.to) || (g.i2 < g.j2 && d23[g.j2 - 1].now.to == g.r.to))
    && AllCovered(d13, g.i1, g.j1, d23, g.i2, g.j2, g.r.from, g.r.to)
    && Apart(d13, g.i1, g.j1, g.r) && Apart(d23, g.i2, g.j2, g.r)
  }

  /** How far a line behind the first i changes is shifted against file 3. */
  function Off(ds: seq<Change>, i: nat): int
    requires i <= |ds|
  {
    if i == 0 then 0 else ds[i - 1].was.to - ds[i - 1].now.to
  }

  /** What the range r of file 3 was in the other file, if it begins behind the
      first i changes and ends behind the first j. */
  function Was(ds: seq<Change>, i: nat, j: nat, r: Range): Range
    requires i <= |ds| && j <= |ds|
  {
    Range(r.from + Off(ds, i), r.to + Off(ds, j))
  }

  /** A change list as far as its numbers go. */
  ghost predicate Listed(ds: seq<Change>) {
    && Separated(ds)
    && forall k | 0 <= k < |ds| :: 1 <= ds[k].now.from <= ds[k].now.to && ds[k].was.from == ds[k].now.from + Off(ds, k)
  }

  lemma ChangesAreListed(a: seq<Line>, c: seq<Line>, ds: seq<Change>)
    requires ChangeList(a, c, ds)
    ensures Listed(ds)
  {
    ListedFrom(a, c, ds, 0, 1, 1);
  }

  lemma {:induction false} ListedFrom(a: seq<Line>, c: seq<Line>, ds: seq<Change>, i: nat, pa: int, pc: int)
    requires i <= |ds| && Aligned(a, c, ds, i, pa, pc) && pa == pc + Off(ds, i)
    ensures forall k | i <= k < |ds| ::
              1 <= ds[k].now.from <= ds[k].now.to && ds[k].was.from == ds[k].now.from + Off(ds, k)
    decreases |ds| - i
  {
    hide Agree;
    if i < |ds| {
      ListedFrom(a, c, ds, i + 1, ds[i].was.to, ds[i].now.to);
    }
  }

  /** In a list, later changes are further on. */
  lemma {:induction false} LaterStarts(ds: seq<Change>, i: nat, j: nat)
    requires Listed(ds) && i < j < |ds|
    ensures ds[i].now.to < ds[j].now.from
    decreases j - i
  {
    if i + 1 < j {
      LaterStarts(ds, i, j - 1);
      assert ds[j - 1].now.to < ds[j].now.from;
    }
  }

  lemma ListedAt(ds: seq<Change>, k: nat)
    requires Listed(ds) && k < |ds|
    ensures 1 <= ds[k].now.from <= ds[k].now.to && ds[k].was.from == ds[k].now.from + Off(ds, k)
  {
  }

  // ------------------------------------------------------------ while a group is collected

  /** Change i as stretched and joined, when its group began with change g of the
      original list. */
  ghost predicate Grown(ds: seq<Change>, es: seq<Change>, i: nat, g: nat)
    requires g <= i < |ds| == |es|
  {
    && ds[i].now.to >= es[i].now.to && ds[i].was.from == ds[i].now.from + Off(es, g)
    && ds[i].was.to - ds[i].now.to == es[i].was.to - es[i].now.to
  }

  /** One list: the changes behind change i are as they were, and all up to the
      group in progress end by line `last`, where nothing later starts. */
  ghost predicate OneList(ds: seq<Change>, es: seq<Change>, i: nat, g: nat, last: int) {
    && |ds| == |es| && g <= i <= |es| && Listed(es)
    && (forall k | i < k < |es| :: ds[k] == es[k])
    && (forall k | 0 <= k < g :: es[k].now.to <= last)
    && (forall k | g <= k < |es| :: es[k].now.from > last)
    && (i < |es| ==> Grown(ds, es, i, g))
  }

  function From(es1: seq<Change>, g1: nat, es2: seq<Change>, g2: nat): int
    requires g1 < |es1| && g2 < |es2|
  {
    if es1[g1].now.from < es2[g2].now.from then es1[g1].now.from else es2[g2].now.from
  }

  /** Both lists, d13 and d23 now and e13 and e23 at first: either the next changes
      are as they were, or they have been collected into one range so far. */
  ghost predicate Collecting(d13: seq<Change>, d23: seq<Change>, e13: seq<Change>, e23: seq<Change>,
                             i1: nat, i2: nat, g1: nat, g2: nat, last: int) {
    && last >= 0 && OneList(d13, e13, i1, g1, last) && OneList(d23, e23, i2, g2, last)
    && ((Fresh(d13, e13, i1, g1) && Fresh(d23, e23, i2, g2))
        || (i1 < |e13| && i2 < |e23| && InGroup(d13, d23, e13, e23, i1, i2, g1, g2)))
  }

  ghost predicate Fresh(ds: seq<Change>, es: seq<Change>, i: nat, g: nat) {
    i == g && |ds| == |es| && (i < |es| ==> ds[i] == es[i])
  }

  ghost predicate InGroup(d13: seq<Change>, d23: seq<Change>, e13: seq<Change>, e23: seq<Change>, i1: nat, i2: nat,
                          g1: nat, g2: nat)
    requires |d13| == |e13| && |d23| == |e23| && g1 <= i1 < |e13| && g2 <= i2 < |e23|
  {
    && d13[i1].now.from == d23[i2].now.from == From(e13, g1, e23, g2)
    && Max(d13[i1].now.to, d23[i2].now.to) == Max(e13[i1].now.to, e23[i2].now.to)
    && AllCovered(e13, g1, i1 + 1, e23, g2, i2 + 1, From(e13, g1, e23, g2), Max(e13[i1].now.to, e23[i2].now.to))
  }

  lemma CollectingStarts(d13: seq<Change>, d23: seq<Change>)
    requires Listed(d13) && Listed(d23)
    ensures Collecting(d13, d23, d13, d23, 0, 0, 0, 0, 0)
  {
  }

  // ------------------------------------------------------------ the steps of the walk

  lemma OneListSteps(ds: seq<Change>, es: seq<Change>, i: nat, g: nat, last: int, last': int)
    requires OneList(ds, es, i, g, last) && i < |es| && last <= last' && es[i].now.to <= last'
    requires i + 1 < |es| ==> last' < es[i + 1].now.from
    ensures OneList(ds, es, i + 1, i + 1, last') && Fresh(ds, es, i + 1, i + 1)
  {
    hide Listed;
    if i + 1 < |es| { ListedAt(es, i + 1); }
    forall k | 0 <= k < i + 1
      ensures es[k].now.to <= last'
    {
      ListedAt(es, i);
      if g <= k < i { LaterStarts(es, k, i); }
    }
    forall k | i + 1 <= k < |es|
      ensures es[k].now.from > last'
    {
      if i + 1 < k { LaterStarts(es, i + 1, k); }
    }
  }

  lemma OneListStays(ds: seq<Change>, es: seq<Change>, i: nat, last: int, last': int)
    requires OneList(ds, es, i, i, last) && last <= last' && (i < |es| ==> last' < es[i].now.from)
    ensures OneList(ds, es, i, i, last')
  {
    hide Listed;
    forall k | i <= k < |es|
      ensures es[k].now.from > last'
    {
      ListedAt(es, i);
      if i < k { LaterStarts(es, i, k); }
    }
  }

  /** Changes of a list outside [i, j) do not touch a range between them. */
  lemma NoneTouches(ds: seq<Change>, es: seq<Change>, i: nat, g: nat, j: nat, last: int, r: Range)
    requires OneList(ds, es, i, g, last) && g <= j <= |es| && last < r.from && (j < |es| ==> r.to < es[j].now.from)
    ensures Apart(es, g, j, r)
  {
    hide Listed, Grown;
    forall k | 0 <= k < |es| && !(g <= k < j)
      ensures !Touch(es[k].now, r)
    {
      ListedAt(es, k);
      if j < k { ListedAt(es, j); }
      if j < k { LaterStarts(es, j, k); }
    }
  }

  /** A change of one list alone. */
  lemma FirstAlone(d13: seq<Change>, d23: seq<Change>, e13: seq<Change>, e23: seq<Change>,
                   i1: nat, i2: nat, g1: nat, g2: nat, last: int)
    requires Collecting(d13, d23, e13, e23, i1, i2, g1, g2, last) && i1 < |d13|
    requires i2 < |d23| ==> d13[i1].now.to < d23[i2].now.from && d13[i1].now.from <= d13[i1].now.to
    ensures g1 == i1 && g2 == i2 && d13[i1] == e13[i1]
    ensures IsGroup(e13, e23, Group(i1, i1 + 1, i2, i2, e13[i1].now))
    ensures Collecting(d13, d23, e13, e23, i1 + 1, i2, i1 + 1, i2, e13[i1].now.to)
  {
    hide Listed, Covers, OneList, IsGroup;
    var r := e13[i1].now;
    StartsAlone(d13, d23, e13, e23, i1, i2, g1, g2, last);
    if i1 + 1 < |e13| { NextFarther(d13, e13, i1, i1, last); }
    NoneTouches(d13, e13, i1, i1, i1 + 1, last, r);
    NoneTouches(d23, e23, i2, i2, i2, last, r);
    OneListSteps(d13, e13, i1, i1, last, r.to);
    OneListStays(d23, e23, i2, last, r.to);
    AloneIsGroup(e13, e23, i1, i2);
  }

  lemma StartsAlone(d13: seq<Change>, d23: seq<Change>, e13: seq<Change>, e23: seq<Change>,
                    i1: nat, i2: nat, g1: nat, g2: nat, last: int)
    requires Collecting(d13, d23, e13, e23, i1, i2, g1, g2, last) && i1 < |d13|
    requires i2 < |d23| ==> d13[i1].now.to < d23[i2].now.from && d13[i1].now.from <= d13[i1].now.to
    ensures Fresh(d13, e13, i1, g1) && Fresh(d23, e23, i2, g2) && i1 < |e13| && i2 <= |e23| == |d23|
    ensures last < e13[i1].now.from <= e13[i1].now.to
  {
    hide Listed, AllCovered;
    ListedAt(e13, i1);
  }

  lemma AloneIsGroup(e13: seq<Change>, e23: seq<Change>, i1: nat, i2: nat)
    requires i1 < |e13| && i2 <= |e23| && Apart(e13, i1, i1 + 1, e13[i1].now) && Apart(e23, i2, i2, e13[i1].now)
    ensures IsGroup(e13, e23, Group(i1, i1 + 1, i2, i2, e13[i1].now))
  {
    hide Covers, Apart;
    var r, j1 := e13[i1].now, i1 + 1;
    forall q | r.from <= q < r.to
      ensures Covers(e13, i1, j1, q)
    {
      CoveredBy(e13, i1, j1, i1, q);
    }
  }

  lemma CoveredBy(ds: seq<Change>, i: nat, j: nat, k: nat, q: int)
    requires i <= k < j && k < |ds| && ds[k].now.from <= q < ds[k].now.to
    ensures Covers(ds, i, j, q)
  {
  }

  lemma GroupsSwap(d13: seq<Change>, d23: seq<Change>, g: Group)
    requires IsGroup(d23, d13, Group(g.i2, g.j2, g.i1, g.j1, g.r))
    ensures IsGroup(d13, d23, g)
  {
  }

  lemma CollectingSwaps(d13: seq<Change>, d23: seq<Change>, e13: seq<Change>, e23: seq<Change>,
                        i1: nat, i2: nat, g1: nat, g2: nat, last: int)
    requires Collecting(d13, d23, e13, e23, i1, i2, g1, g2, last)
    ensures Collecting(d23, d13, e23, e13, i2, i1, g2, g1, last)
  {
    hide Covers, OneList, Fresh, Listed;
  }

  lemma SecondAlone(d13: seq<Change>, d23: seq<Change>, e13: seq<Change>, e23: seq<Change>,
                    i1: nat, i2: nat, g1: nat, g2: nat, last: int)
    requires Collecting(d13, d23, e13, e23, i1, i2, g1, g2, last) && i2 < |d23|
    requires i1 < |d13| ==> d23[i2].now.to < d13[i1].now.from && d23[i2].now.from <= d23[i2].now.to
    ensures g1 == i1 && g2 == i2 && d23[i2] == e23[i2]
    ensures IsGroup(e13, e23, Group(i1, i1, i2, i2 + 1, e23[i2].now))
    ensures Collecting(d13, d23, e13, e23, i1, i2 + 1, i1, i2 + 1, e23[i2].now.to)
  {
    hide IsGroup, OneList, Listed, AllCovered;
    CollectingSwaps(d13, d23, e13, e23, i1, i2, g1, g2, last);
    SameLengths(d13, d23, e13, e23, i1, i2, g1, g2, last);
    FirstAlone(d23, d13, e23, e13, i2, i1, g2, g1, last);
    GroupsSwap(e13, e23, Group(i1, i1, i2, i2 + 1, e23[i2].now));
    CollectingSwaps(d23, d13, e23, e13, i2 + 1, i1, i2 + 1, i1, e23[i2].now.to);
  }

  /** Changes that cover the same range, and reach no others: the group is complete. */
  lemma GroupComplete(d13: seq<Change>, d23: seq<Change>, e13: seq<Change>, e23: seq<Change>,
                      i1: nat, i2: nat, g1: nat, g2: nat, last: int)
    requires Collecting(d13, d23, e13, e23, i1, i2, g1, g2, last) && i1 < |d13| && i2 < |d23|
    requires !Reaches(d13, i1) && !Reaches(d23, i2) && d13[i1].now == d23[i2].now && d13[i1].now.from <= d13[i1].now.to
    ensures var r := d13[i1].now;
            && IsGroup(e13, e23, Group(g1, i1 + 1, g2, i2 + 1, r))
            && d13[i1].was == Was(e13, g1, i1 + 1, r) && d23[i2].was == Was(e23, g2, i2 + 1, r)
            && Collecting(d13, d23, e13, e23, i1 + 1, i2 + 1, i1 + 1, i2 + 1, r.to)
  {
    hide Listed, OneList, AllCovered, IsGroup, Apart, Within;
    var r, j1, j2 := d13[i1].now, i1 + 1, i2 + 1;
    CollectedSoFar(d13, d23, e13, e23, i1, i2, g1, g2, last);
    if i1 + 1 < |d13| { NextFarther(d13, e13, i1, g1, last); }
    if i2 + 1 < |d23| { NextFarther(d23, e23, i2, g2, last); }
    NoneTouches(d13, e13, i1, g1, j1, last, r);
    NoneTouches(d23, e23, i2, g2, j2, last, r);
    OneListSteps(d13, e13, i1, g1, last, r.to);
    OneListSteps(d23, e23, i2, g2, last, r.to);
    GroupWithin(d13, e13, i1, g1, last, r);
    GroupWithin(d23, e23, i2, g2, last, r);
    TogetherAreGroup(e13, e23, Group(g1, j1, g2, j2, r));
  }

  lemma TogetherAreGroup(d13: seq<Change>, d23: seq<Change>, g: Group)
    requires g.i1 < g.j1 <= |d13| && g.i2 < g.j2 <= |d23| && Within(d13, g.i1, g.j1, g.r)
             && Within(d23, g.i2, g.j2, g.r)
    requires g.r.from == From(d13, g.i1, d23, g.i2) && g.r.to == Max(d13[g.j1 - 1].now.to, d23[g.j2 - 1].now.to)
    requires AllCovered(d13, g.i1, g.j1, d23, g.i2, g.j2, g.r.from, g.r.to)
    requires Apart(d13, g.i1, g.j1, g.r) && Apart(d23, g.i2, g.j2, g.r)
    ensures IsGroup(d13, d23, g)
  {
    hide AllCovered, Apart, Within;
  }

  /** Whether collecting has begun or not, this is what the two next changes are. */
  lemma CollectedSoFar(d13: seq<Change>, d23: seq<Change>, e13: seq<Change>, e23: seq<Change>,
                       i1: nat, i2: nat, g1: nat, g2: nat, last: int)
    requires Collecting(d13, d23, e13, e23, i1, i2, g1, g2, last) && i1 < |d13| && i2 < |d23|
    requires Touch(d13[i1].now, d23[i2].now)
    ensures |d13| == |e13| && |d23| == |e23| && g1 <= i1 && g2 <= i2
    ensures last < From(e13, g1, e23, g2) && 0 <= last
    ensures (if d13[i1].now.from < d23[i2].now.from then d13[i1].now.from else d23[i2].now.from)
            == From(e13, g1, e23, g2)
    ensures Max(d13[i1].now.to, d23[i2].now.to) == Max(e13[i1].now.to, e23[i2].now.to)
    ensures Grown(d13, e13, i1, g1) && Grown(d23, e23, i2, g2)
    ensures AllCovered(e13, g1, i1 + 1, e23, g2, i2 + 1, From(e13, g1, e23, g2), Max(e13[i1].now.to, e23[i2].now.to))
  {
    hide Listed, Covers;
    if Fresh(d13, e13, i1, g1) && Fresh(d23, e23, i2, g2) {
      TouchingCover(e13, e23, i1, i2);
    }
  }

  lemma TouchingCover(e13: seq<Change>, e23: seq<Change>, i1: nat, i2: nat)
    requires i1 < |e13| && i2 < |e23| && Touch(e13[i1].now, e23[i2].now)
    ensures AllCovered(e13, i1, i1 + 1, e23, i2, i2 + 1, From(e13, i1, e23, i2), Max(e13[i1].now.to, e23[i2].now.to))
  {
    hide Covers;
    var j1, j2 := i1 + 1, i2 + 1;
    forall q | From(e13, i1, e23, i2) <= q < Max(e13[i1].now.to, e23[i2].now.to)
      ensures Covers(e13, i1, j1, q) || Covers(e23, i2, j2, q)
    {
      if e13[i1].now.from <= q < e13[i1].now.to {
        CoveredBy(e13, i1, j1, i1, q);
      } else {
        CoveredBy(e23, i2, j2, i2, q);
      }
    }
  }

  /** The next change is as it was, and starts behind this one. */
  lemma NextFarther(ds: seq<Change>, es: seq<Change>, i: nat, g: nat, last: int)
    requires OneList(ds, es, i, g, last) && i + 1 < |ds|
    ensures ds[i + 1] == es[i + 1] && es[i].now.to < es[i + 1].now.from <= es[i + 1].now.to
  {
    hide Listed;
    LaterStarts(es, i, i + 1);
    ListedAt(es, i + 1);
  }

  lemma GroupWithin(ds: seq<Change>, es: seq<Change>, i: nat, g: nat, last: int, r: Range)
    requires OneList(ds, es, i, g, last) && i < |es| && es[i].now.to <= r.to && r.from <= es[g].now.from
    ensures Within(es, g, i + 1, r)
  {
    hide Listed;
    forall k | g <= k < i + 1
      ensures r.from <= es[k].now.from && es[k].now.to <= r.to
    {
      ListedAt(es, g);
      ListedAt(es, i);
      if g < k { LaterStarts(es, g, k); }
      if k < i { LaterStarts(es, k, i); }
    }
  }

  /** "merge overlapping changes in first file" */
  lemma FirstJoined(d13: seq<Change>, d23: seq<Change>, e13: seq<Change>, e23: seq<Change>,
                    i1: nat, i2: nat, g1: nat, g2: nat, last: int)
    requires Collecting(d13, d23, e13, e23, i1, i2, g1, g2, last) && i1 < |d13| && i2 < |d23| && Reaches(d13, i1)
    ensures Collecting(JoinNext(d13, i1), d23, e13, e23, i1 + 1, i2, g1, g2, last)
  {
    hide Listed, AllCovered, Fresh;
    assert i1 + 1 < |e13|;
    NextFarther(d13, e13, i1, g1, last);
    if Fresh(d13, e13, i1, g1) {
      FreshReachesNone(d13, e13, i1, g1, last);
    }
    FirstCovered(e13, e23, i1, i2, g1, g2, From(e13, g1, e23, g2));
    ListedAt(e13, g1);
  }

  lemma FreshReachesNone(ds: seq<Change>, es: seq<Change>, i: nat, g: nat, last: int)
    requires OneList(ds, es, i, g, last) && Fresh(ds, es, i, g) && i < |es|
    ensures !Reaches(ds, i)
  {
    hide Listed;
    if i + 1 < |ds| { NextFarther(ds, es, i, g, last); }
  }

  lemma FirstCovered(e13: seq<Change>, e23: seq<Change>, i1: nat, i2: nat, g1: nat, g2: nat, from: int)
    requires g1 <= i1 && i1 + 1 < |e13| && i2 < |e23| && e13[i1].now.to < e13[i1 + 1].now.from <= e23[i2].now.to
    requires AllCovered(e13, g1, i1 + 1, e23, g2, i2 + 1, from, Max(e13[i1].now.to, e23[i2].now.to))
    ensures AllCovered(e13, g1, i1 + 2, e23, g2, i2 + 1, from, Max(e13[i1 + 1].now.to, e23[i2].now.to))
  {
    hide Covers;
    var j1, j1', j2 := i1 + 1, i1 + 2, i2 + 1;
    forall q | from <= q < Max(e13[i1 + 1].now.to, e23[i2].now.to)
      ensures Covers(e13, g1, j1', q) || Covers(e23, g2, j2, q)
    {
      if q < e23[i2].now.to {
        assert Covers(e13, g1, j1, q) || Covers(e23, g2, j2, q);
        CoversMore(e13, g1, j1, q);
      } else {
        CoveredBy(e13, g1, j1', j1, q);
      }
    }
  }

  lemma CoversMore(ds: seq<Change>, i: nat, j: nat, q: int)
    ensures Covers(ds, i, j, q) ==> Covers(ds, i, j + 1, q)
  {
  }

  lemma SameLengths(d13: seq<Change>, d23: seq<Change>, e13: seq<Change>, e23: seq<Change>,
                    i1: nat, i2: nat, g1: nat, g2: nat, last: int)
    requires Collecting(d13, d23, e13, e23, i1, i2, g1, g2, last)
    ensures |d13| == |e13| && |d23| == |e23| && g1 <= i1 && g2 <= i2
  {
  }

  lemma SecondJoined(d13: seq<Change>, d23: seq<Change>, e13: seq<Change>, e23: seq<Change>,
                     i1: nat, i2: nat, g1: nat, g2: nat, last: int)
    requires Collecting(d13, d23, e13, e23, i1, i2, g1, g2, last) && i1 < |d13| && i2 < |d23| && Reaches(d23, i2)
    ensures Collecting(d13, JoinNext(d23, i2), e13, e23, i1, i2 + 1, g1, g2, last)
  {
    hide Collecting;
    SameLengths(d13, d23, e13, e23, i1, i2, g1, g2, last);
    CollectingSwaps(d13, d23, e13, e23, i1, i2, g1, g2, last);
    FirstJoined(d23, d13, e23, e13, i2, i1, g2, g1, last);
    CollectingSwaps(JoinNext(d23, i2), d13, e23, e13, i2 + 1, i1, g2, g1, last);
  }

  /** "extend changes appropriately to make them coincide" */
  lemma BothStretched(d13: seq<Change>, d23: seq<Change>, e13: seq<Change>, e23: seq<Change>,
                      i1: nat, i2: nat, g1: nat, g2: nat, last: int)
    requires Collecting(d13, d23, e13, e23, i1, i2, g1, g2, last) && i1 < |d13| && i2 < |d23|
    requires Touch(d13[i1].now, d23[i2].now)
    ensures Collecting(Stretched(d13, i1, d23[i2].now), Stretched(d23, i2, d13[i1].now), e13, e23, i1, i2, g1, g2, last)
  {
    hide Listed, AllCovered, Fresh;
    CollectedSoFar(d13, d23, e13, e23, i1, i2, g1, g2, last);
    ListedAt(e13, i1);
    ListedAt(e23, i2);
  }

  // ------------------------------------------------------------ what a group means

  /** A group with changes of both lists has two that touch. */
  lemma MixedGroupTouches(d13: seq<Change>, d23: seq<Change>, g: Group) returns (k: nat, l: nat)
    requires Listed(d13) && Listed(d23) && IsGroup(d13, d23, g) && g.i1 < g.j1 && g.i2 < g.j2
    ensures k < |d13| && l < |d23| && Touch(d13[k].now, d23[l].now)
  {
    if d13[g.i1].now.from <= d23[g.i2].now.from {
      k := LastBefore(d13, g.i1, g.j1, d23[g.i2].now.from);
      l := g.i2;
      MixedFrom(d13, d23, g.i1, g.j1, g.i2, g.j2, g.r, k);
    } else {
      k := g.i1;
      l := LastBefore(d23, g.i2, g.j2, d13[g.i1].now.from);
      MixedFrom(d23, d13, g.i2, g.j2, g.i1, g.j1, g.r, l);
    }
  }

  /** The last change of [i, j) that starts by line p. */
  lemma {:induction false} LastBefore(ds: seq<Change>, i: nat, j: nat, p: int) returns (k: nat)
    requires i < j <= |ds| && ds[i].now.from <= p
    ensures i <= k < j && ds[k].now.from <= p
    ensures k + 1 < j ==> ds[k + 1].now.from > p
    decreases j - i
  {
    if i + 1 < j && ds[i + 1].now.from <= p {
      k := LastBefore(ds, i + 1, j, p);
    } else {
      k := i;
    }
  }

  lemma MixedFrom(ds: seq<Change>, es: seq<Change>, i: nat, j: nat, i': nat, j': nat, r: Range, k: nat)
    requires Listed(ds) && Listed(es) && i <= k < j <= |ds| && i' < j' <= |es|
    requires Within(ds, i, j, r) && Within(es, i', j', r)
    requires AllCovered(ds, i, j, es, i', j', r.from, r.to) || AllCovered(es, i', j', ds, i, j, r.from, r.to)
    requires ds[k].now.from <= es[i'].now.from && (k + 1 < j ==> ds[k + 1].now.from > es[i'].now.from)
    ensures Touch(ds[k].now, es[i'].now)
  {
    hide Listed;
    ListedAt(ds, k);
    ListedAt(es, i');
    var q := ds[k].now.to;
    if q < es[i'].now.from {
      assert Covers(ds, i, j, q) || Covers(es, i', j', q);
      if Covers(ds, i, j, q) {
        var n :| i <= n < j && n < |ds| && ds[n].now.from <= q < ds[n].now.to;
        if n < k { LaterStarts(ds, n, k); }
        if k + 1 < n {
          ListedAt(ds, k + 1);
          LaterStarts(ds, k + 1, n);
        }
        assert false;
      } else {
        var n :| i' <= n < j' && n < |es| && es[n].now.from <= q < es[n].now.to;
        if i' < n { LaterStarts(es, i', n); }
        assert false;
      }
    }
  }
}
