/** Change lists whose first change was read one line too far down, and what merge()
  makes of two equal ones: a condition on the true list says when every change in it
  is taken over as it should be.
*/
module Diff3Misread {
  import opened Diff3Changes
  import opened Diff3Lockstep

  /** The first change inserts lines before line 1 of a. */
  predicate InsertsFirst(a: seq<Line>, es: seq<Change>) {
    a != [] && es != [] && es[0].was == Range(1, 1)
  }

  /** The first change deletes lines before line 1 of c. */
  predicate DeletesFirst(c: seq<Line>, es: seq<Change>) {
    c != [] && es != [] && es[0].now == Range(1, 1)
  }

  /** The list as read: an empty side at the start of a file that is not empty is
      taken to be behind line 1. */
  function AsRead(a: seq<Line>, c: seq<Line>, es: seq<Change>): seq<Change> {
    if InsertsFirst(a, es) then es[0 := Change(Range(2, 2), es[0].now)]
    else if DeletesFirst(c, es) then es[0 := Change(es[0].was, Range(2, 2))]
    else es
  }

  /** A true change list whose first change is not empty. */
  ghost predicate TrueList(a: seq<Line>, c: seq<Line>, es: seq<Change>) {
    ChangeList(a, c, es) && (es == [] || es[0].was.from < es[0].was.to || es[0].now.from < es[0].now.to)
  }

  /** Do the changes, as read, still turn the one file into the other? An insertion at
      the start does if all its lines are the line it is put behind; a deletion does
      unless the next change then follows it without a line between them. */
  predicate AddsUp(a: seq<Line>, c: seq<Line>, es: seq<Change>) {
    if InsertsFirst(a, es) then forall i | 0 <= i < |c| && i < es[0].now.to - 1 :: c[i] == a[0]
    else !(DeletesFirst(c, es) && |es| > 1 && es[1].now.from == 2)
  }

  /** As read, the changes are still in order, and no change but the first can reach
      the next one. */
  lemma ReadInOrder(a: seq<Line>, c: seq<Line>, es: seq<Change>)
    requires TrueList(a, c, es)
    ensures var ds := AsRead(a, c, es);
            Readable(c, ds) && Lockable(a, ds) && Patchable(a, c, Collapsed(ds)) && Before(a, Collapsed(ds), 0, 1)
  {
    hide Collapsed, Aligned, Patchable, Before, AsRead, Readable, Lockable;
    StartsInOrder(a, c, es);
    OthersInOrder(a, c, es);
    CollapsedIsPatchable(a, c, AsRead(a, c, es));
  }

  lemma StartsInOrder(a: seq<Line>, c: seq<Line>, es: seq<Change>)
    requires TrueList(a, c, es)
    ensures Readable(c, AsRead(a, c, es))
  {
    hide Aligned;
    Apart(a, c, es);
    StartsLevel(a, c, es);
  }

  lemma OthersInOrder(a: seq<Line>, c: seq<Line>, es: seq<Change>)
    requires TrueList(a, c, es)
    ensures Lockable(a, AsRead(a, c, es))
  {
    hide Aligned;
    Apart(a, c, es);
    StartsLevel(a, c, es);
  }

  /** The changes of a true list are in both files, in order, and with a line between
      them. */
  lemma Apart(a: seq<Line>, c: seq<Line>, es: seq<Change>)
    requires ChangeList(a, c, es)
    ensures forall k | 0 <= k < |es| :: InFile(a, es[k].was) && InFile(c, es[k].now)
    ensures forall k | 0 < k < |es| :: es[k - 1].was.to < es[k].was.from
    ensures forall j, k | 0 <= j < k < |es| :: es[j].now.to < es[k].now.from
  {
    hide Aligned;
    forall k | 0 <= k < |es|
      ensures InFile(a, es[k].was) && InFile(c, es[k].now)
      ensures k > 0 ==> es[k - 1].was.to < es[k].was.from
    {
      AlignedUpto(a, c, es, 0, 1, 1, k);
      if k > 0 {
        GapBefore(a, c, es, 0, 1, 1, k);
      }
    }
    forall j, k | 0 <= j < k < |es|
      ensures es[j].now.to < es[k].now.from
    {
      Increasing(c, es, j, k);
    }
  }

  lemma StartsLevel(a: seq<Line>, c: seq<Line>, es: seq<Change>)
    requires ChangeList(a, c, es)
    ensures es != [] ==> es[0].was.from == es[0].now.from
  {
  }

  /** As many lines before a change in the one file as in the other. */
  lemma {:induction false} GapBefore(a: seq<Line>, c: seq<Line>, es: seq<Change>, i: nat, pa: int, pc: int, k: nat)
    requires i < k < |es| && Aligned(a, c, es, i, pa, pc)
    ensures es[k].was.from - es[k - 1].was.to == es[k].now.from - es[k - 1].now.to
    decreases k - i
  {
    hide Agree;
    assert Aligned(a, c, es, i + 1, es[i].was.to, es[i].now.to);
    if i + 1 < k {
      GapBefore(a, c, es, i + 1, es[i].was.to, es[i].now.to, k);
    }
  }

  lemma {:induction false} Increasing(c: seq<Line>, es: seq<Change>, j: nat, k: nat)
    requires Separated(es) && j < k < |es| && forall i | 0 <= i < |es| :: InFile(c, es[i].now)
    ensures es[j].now.to < es[k].now.from
    decreases k
  {
    if j + 1 < k {
      Increasing(c, es, j, k - 1);
    }
  }

  // ------------------------------------------------------------ what is taken over

  /** What taking every change of the list as read over makes of file a: lines
      inserted at the start end up behind line 1, and a line between a deletion at the
      start and a change right behind that line is lost. */
  ghost function Taken(a: seq<Line>, c: seq<Line>, es: seq<Change>): seq<Line>
    requires TrueList(a, c, es)
  {
    if InsertsFirst(a, es) then
      OneLineOn(a, c, es);
      [a[0]] + c[..es[0].now.to - 1] + c[es[0].now.to..]
    else if DeletesFirst(c, es) && |es| > 1 && es[1].now.from == 2 then c[1..]
    else c
  }

  lemma MisreadTaken(a: seq<Line>, c: seq<Line>, es: seq<Change>)
    requires TrueList(a, c, es)
    ensures var l := Collapsed(AsRead(a, c, es));
            Patchable(a, c, l) && Before(a, l, 0, 1) && Patch(a, c, l, 0, 1) == Taken(a, c, es)
  {
    hide Collapsed, Patchable, Patch;
    ReadInOrder(a, c, es);
    StartsLevel(a, c, es);
    if InsertsFirst(a, es) {
      InsertedBehind(a, c, es);
    } else if !DeletesFirst(c, es) {
      TrueListTaken(a, c, es);
    } else if |es| > 1 && es[1].now.from == 2 {
      DeletedAndJoined(a, c, es);
    } else {
      Deleted(a, c, es);
    }
  }

  lemma InsertedBehind(a: seq<Line>, c: seq<Line>, es: seq<Change>)
    requires TrueList(a, c, es) && InsertsFirst(a, es)
    requires var l := Collapsed(AsRead(a, c, es)); Patchable(a, c, l) && Before(a, l, 0, 1)
    ensures var n := es[0].now.to - 1;
            && 0 <= n < |c| && c[n] == a[0]
            && Patch(a, c, Collapsed(AsRead(a, c, es)), 0, 1) == [a[0]] + c[..n] + c[n + 1..]
  {
    hide Patch, Patchable, Aligned, Slice;
    var l, n := AsRead(a, c, es), es[0].now.to - 1;
    assert Collapsed(l) == l && l[1..] == es[1..];
    OneLineOn(a, c, es);
    PatchGoesOn(a, c, es, 1, 2, n + 2, l, 1);
    PatchStep(a, c, l, 0, 1);
    Regrouped(a, c, n);
  }

  /** The line behind the insertion is line 1 of a. */
  lemma OneLineOn(a: seq<Line>, c: seq<Line>, es: seq<Change>)
    requires TrueList(a, c, es) && InsertsFirst(a, es)
    ensures var n := es[0].now.to - 1;
            es[0].now.from == 1 && 0 <= n < |c| && c[n] == a[0] && Aligned(a, c, es, 1, 2, n + 2)
  {
    hide Slice;
    var n := es[0].now.to - 1;
    assert Aligned(a, c, es, 1, 1, n + 1) && InFile(c, es[0].now);
    assert 1 <= Gap(c, es, 1, n + 1);
    AlignedAdvance(a, c, es, 1, 1, n + 1, 1);
    FirstAgrees(a, c, 1, n + 1);
  }

  lemma FirstAgrees(a: seq<Line>, c: seq<Line>, pa: int, pc: int)
    requires Agree(a, c, pa, pc, 1)
    ensures 1 <= pa <= |a| && 1 <= pc <= |c| && a[pa - 1] == c[pc - 1]
  {
    assert Slice(a, pa, pa + 1)[0] == Slice(c, pc, pc + 1)[0];
  }

  lemma Regrouped(a: seq<Line>, c: seq<Line>, n: nat)
    requires a != [] && n < |c|
    ensures Slice(a, 1, 2) + (Slice(c, 1, n + 1) + Slice(c, n + 2, |c| + 1)) == [a[0]] + c[..n] + c[n + 1..]
  {
  }

  lemma Deleted(a: seq<Line>, c: seq<Line>, es: seq<Change>)
    requires TrueList(a, c, es) && DeletesFirst(c, es) && !InsertsFirst(a, es) && !(|es| > 1 && es[1].now.from == 2)
    requires var l := Collapsed(AsRead(a, c, es)); Patchable(a, c, l) && Before(a, l, 0, 1)
    ensures Patch(a, c, Collapsed(AsRead(a, c, es)), 0, 1) == c
  {
    hide Patch, Patchable;
    var l := AsRead(a, c, es);
    assert Collapsed(l) == l && l[1..] == es[1..];
    assert es[0].was.from == 1;
    PatchGoesOn(a, c, es, 1, es[0].was.to, 1, l, 1);
    PatchStep(a, c, l, 0, 1);
    assert Slice(a, 1, 1) == [] && Slice(c, 2, 2) == [] && Slice(c, 1, |c| + 1) == c;
  }

  lemma DeletedAndJoined(a: seq<Line>, c: seq<Line>, es: seq<Change>)
    requires TrueList(a, c, es) && DeletesFirst(c, es) && !InsertsFirst(a, es) && |es| > 1 && es[1].now.from == 2
    requires var l := Collapsed(AsRead(a, c, es)); Patchable(a, c, l) && Before(a, l, 0, 1)
    ensures Patch(a, c, Collapsed(AsRead(a, c, es)), 0, 1) == c[1..]
  {
    hide Patch, Patchable;
    var l := Collapsed(AsRead(a, c, es));
    assert es[0].was.from == 1;
    var was, now := es[1].was, es[1].now;
    assert l[0] == Change(Range(1, was.to), Range(2, now.to)) && l[1..] == es[2..];
    assert Aligned(a, c, es, 1, es[0].was.to, 1) && Aligned(a, c, es, 2, was.to, now.to);
    PatchGoesOn(a, c, es, 2, was.to, now.to, l, 1);
    PatchStep(a, c, l, 0, 1);
    assert Slice(a, 1, 1) == [] && Slice(c, 2, now.to) + Slice(c, now.to, |c| + 1) == c[1..];
  }

  /** Taking over every change as read gives the other file exactly if they add up. */
  lemma TakenIff(a: seq<Line>, c: seq<Line>, es: seq<Change>)
    requires TrueList(a, c, es)
    ensures var l := Collapsed(AsRead(a, c, es));
            && Patchable(a, c, l) && Before(a, l, 0, 1) && Patch(a, c, l, 0, 1) == Taken(a, c, es)
            && (Taken(a, c, es) == c <==> AddsUp(a, c, es))
  {
    hide Collapsed, AsRead, Patch, Patchable, Before, TrueList;
    MisreadTaken(a, c, es);
    if InsertsFirst(a, es) {
      OneLineOn(a, c, es);
      var n := es[0].now.to - 1;
      MovedLine(c, n, a[0]);
    }
  }

  /** A line moved from behind the first n to the start. */
  lemma MovedLine(c: seq<Line>, n: nat, w: Line)
    requires n < |c| && c[n] == w
    ensures [w] + c[..n] + c[n + 1..] == c <==> forall i | 0 <= i < n :: c[i] == w
  {
    var moved := [w] + c[..n] + c[n + 1..];
    if moved == c {
      AllTheSame(c, n, w);
    }
    if forall i | 0 <= i < n :: c[i] == w {
      assert moved == c;
    }
  }

  lemma {:induction false} AllTheSame(c: seq<Line>, n: nat, w: Line)
    requires n < |c| && [w] + c[..n] + c[n + 1..] == c
    ensures forall i | 0 <= i < n :: c[i] == w
  {
    forall i | 0 <= i < n
      ensures i == 0 ==> c[i] == w
      ensures i > 0 ==> c[i] == c[i - 1]
    {
      assert c[i] == ([w] + c[..n] + c[n + 1..])[i];
    }
    Repeated(c, n, w);
  }

  lemma {:induction false} Repeated(c: seq<Line>, n: nat, w: Line)
    requires n <= |c| && forall i | 0 <= i < n :: if i == 0 then c[i] == w else c[i] == c[i - 1]
    ensures forall i | 0 <= i < n :: c[i] == w
  {
    if n > 0 {
      Repeated(c, n - 1, w);
      assert if n - 1 == 0 then c[n - 1] == w else c[n - 1] == c[n - 2];
    }
  }
}
