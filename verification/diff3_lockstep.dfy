/** Change lists as readin() of lib/diff3.c may leave them: in order, but not always
  true. What merge()'s walk needs of any two lists, and where it goes when both are
  one and the same.
*/
module Diff3Lockstep {
  import opened Diff3Changes

  // ------------------------------------------------------------ lists in order

  /** In file 3 the changes are in order and within the file. */
  ghost predicate Readable(c: seq<Line>, ds: seq<Change>) {
    ReadyFrom(ds, 0, 0, |c|)
  }

  /** The same from change i on, and behind a line of a file of n lines; change i may
      have been stretched or joined. */
  ghost predicate ReadyFrom(ds: seq<Change>, i: nat, line: int, n: nat) {
    && (forall k | i <= k < |ds| :: line < ds[k].now.from <= ds[k].now.to <= n + 1)
    && (forall k, l | i <= k < l < |ds| :: ds[k].now.from <= ds[l].now.from)
  }

  lemma ReadySkipped(ds: seq<Change>, i: nat, line: int, n: nat)
    requires ReadyFrom(ds, i, line, n)
    ensures ReadyFrom(ds, i + 1, line, n)
  {
  }

  lemma ReadyJoined(ds: seq<Change>, i: nat, line: int, n: nat)
    requires ReadyFrom(ds, i, line, n) && i + 1 < |ds|
    ensures ReadyFrom(JoinNext(ds, i), i + 1, line, n)
  {
  }

  lemma ReadyStretched(ds: seq<Change>, i: nat, line: int, n: nat, r: Range)
    requires ReadyFrom(ds, i, line, n) && i < |ds| && line < r.from <= r.to <= n + 1
    ensures ReadyFrom(Stretched(ds, i, r), i, line, n)
  {
  }

  lemma ReadyBehind(ds: seq<Change>, i: nat, line: int, n: nat)
    requires ReadyFrom(ds, i, line, n) && i < |ds| && !Reaches(ds, i)
    ensures ReadyFrom(ds, i + 1, ds[i].now.to - 1, n)
  {
    forall k | i + 1 <= k < |ds|
      ensures ds[i].now.to <= ds[k].now.from
    {
      assert ds[i].now.to < ds[i + 1].now.from;
    }
  }

  // ------------------------------------------------------------ the walk over two equal lists

  /** A list whose ranges of the other file are in order, and whose changes, but for
      the first one, reach no other. */
  ghost predicate Lockable(a: seq<Line>, e: seq<Change>) {
    && (forall k | 0 <= k < |e| :: InFile(a, e[k].was))
    && (forall k | 0 < k < |e| :: e[k - 1].was.to <= e[k].was.from)
    && (forall k | 1 <= k < |e| :: !Reaches(e, k))
  }

  /** The list with its first change joined with the second one if it reaches it. */
  function Collapsed(e: seq<Change>): seq<Change> {
    if Reaches(e, 0) then JoinNext(e, 0)[1..] else e
  }

  /** The edits take these changes over from file 3. */
  ghost predicate Gathered(de: seq<Edit>, l: seq<Change>) {
    |de| == |l| && forall k | 0 <= k < |de| :: TakesOver(de[k], l[k])
  }

  predicate TakesOver(e: Edit, d: Change) {
    e.was == d.was && e.newo == Range(d.now.from - 1, d.now.to - 1) && !e.overlap
  }

  /** Where the walk over e and e can be: i1 and i2 are the next changes, de the
      edits so far. */
  ghost predicate InLockstep(d13: seq<Change>, d23: seq<Change>, e: seq<Change>, i1: nat, i2: nat, de: seq<Edit>) {
    if !Reaches(e, 0) then d13 == d23 == e && i1 == i2 <= |e| && Gathered(de, e[..i1])
    else if i2 == 0 then d23 == e && de == [] && (if i1 == 0 then d13 == e else i1 == 1 && d13 == JoinNext(e, 0))
    else d13 == d23 == JoinNext(e, 0) && i1 == i2 <= |e| && Gathered(de, JoinNext(e, 0)[1..i1])
  }

  lemma LockstepStarts(e: seq<Change>)
    ensures InLockstep(e, e, e, 0, 0, [])
  {
  }

  lemma LockstepEnds(d13: seq<Change>, d23: seq<Change>, e: seq<Change>, de: seq<Edit>)
    requires InLockstep(d13, d23, e, |d13|, |d23|, de)
    ensures Gathered(de, Collapsed(e))
  {
    if Reaches(e, 0) {
      assert JoinNext(e, 0)[1..|e|] == Collapsed(e);
    } else {
      assert e[..|e|] == e;
    }
  }

  /** In every round both lists have a change and the two touch; a change that
      reaches the next one is joined in the one list and then in the other;
      otherwise they coincide. */
  lemma LockstepMoves(a: seq<Line>, c: seq<Line>, d13: seq<Change>, d23: seq<Change>, e: seq<Change>, i1: nat, i2: nat,
                      de: seq<Edit>)
    requires InLockstep(d13, d23, e, i1, i2, de) && Lockable(a, e) && Readable(c, e)
    requires i1 < |d13| || i2 < |d23|
    ensures i1 < |d13| && i2 < |d23|
    ensures d13[i1].now.to >= d23[i2].now.from && d23[i2].now.to >= d13[i1].now.from
    ensures Reaches(d13, i1) ==> InLockstep(JoinNext(d13, i1), d23, e, i1 + 1, i2, de)
    ensures !Reaches(d13, i1) && Reaches(d23, i2) ==> InLockstep(d13, JoinNext(d23, i2), e, i1, i2 + 1, de)
    ensures !Reaches(d13, i1) && !Reaches(d23, i2) ==>
              && d13[i1] == d23[i2] && InFile(a, d13[i1].was)
              && (i1 + 1 < |d13| ==> d13[i1].was.from <= d13[i1 + 1].was.from)
  {
    if Reaches(e, 0) {
      var j := JoinNext(e, 0);
      forall k | 1 <= k < |j|
        ensures !Reaches(j, k)
      {
        assert !Reaches(e, k);
      }
    }
  }

  lemma LockstepEdit(a: seq<Line>, d13: seq<Change>, d23: seq<Change>, e: seq<Change>, i1: nat, i2: nat,
                     de: seq<Edit>, x: Edit)
    requires InLockstep(d13, d23, e, i1, i2, de) && Lockable(a, e) && i1 < |d13| && i2 < |d23|
    requires !Reaches(d13, i1) && !Reaches(d23, i2) && TakesOver(x, d13[i1])
    ensures InLockstep(d13, d23, e, i1 + 1, i2 + 1, de + [x])
  {
  }

  // ------------------------------------------------------------ what the edits make of the file

  ghost predicate Patchable(a: seq<Line>, c: seq<Line>, l: seq<Change>) {
    && (forall k | 0 <= k < |l| :: InFile(a, l[k].was) && InFile(c, l[k].now))
    && (forall k | 0 < k < |l| :: l[k - 1].was.to <= l[k].was.from)
  }

  lemma CollapsedIsPatchable(a: seq<Line>, c: seq<Line>, e: seq<Change>)
    requires Lockable(a, e) && Readable(c, e)
    ensures Patchable(a, c, Collapsed(e)) && Before(a, Collapsed(e), 0, 1)
  {
  }

  /** Can patching go on with change i from line p on? */
  predicate Before(a: seq<Line>, l: seq<Change>, i: nat, p: int)
    requires i <= |l|
  {
    1 <= p <= |a| + 1 && (i < |l| ==> p <= l[i].was.from)
  }

  /** File a from line p on, with the changes from i on taken over from file c. */
  function Patch(a: seq<Line>, c: seq<Line>, l: seq<Change>, i: nat, p: int): seq<Line>
    requires i <= |l| && Patchable(a, c, l) && Before(a, l, i, p)
    decreases |l| - i
  {
    if i == |l| then Slice(a, p, |a| + 1)
    else
      Slice(a, p, l[i].was.from) + Slice(c, l[i].now.from, l[i].now.to) + Patch(a, c, l, i + 1, l[i].was.to)
  }

  /** A true change list turns the one file into the other. */
  lemma {:induction false} PatchIsTheOther(a: seq<Line>, c: seq<Line>, l: seq<Change>, i: nat, pa: int, pc: int)
    requires i <= |l| && Patchable(a, c, l) && Aligned(a, c, l, i, pa, pc)
    ensures Before(a, l, i, pa) && 1 <= pc <= |c| + 1
    ensures Patch(a, c, l, i, pa) == Slice(c, pc, |c| + 1)
    decreases |l| - i
  {
    if i < |l| {
      var d := l[i];
      PatchIsTheOther(a, c, l, i + 1, d.was.to, d.now.to);
      assert Slice(a, pa, d.was.from) == Slice(c, pc, d.now.from);
      SlicesJoin(c, pc, d.now.from, d.now.to);
    }
  }

  lemma SlicesJoin(c: seq<Line>, p: int, q: int, r: int)
    requires 1 <= p <= q <= r <= |c| + 1
    ensures Slice(c, p, q) + Slice(c, q, r) + Slice(c, r, |c| + 1) == Slice(c, p, |c| + 1)
  {
  }

  lemma PatchStep(a: seq<Line>, c: seq<Line>, l: seq<Change>, i: nat, p: int)
    requires i < |l| && Patchable(a, c, l) && Before(a, l, i, p)
    ensures Before(a, l, i + 1, l[i].was.to) && p <= l[i].was.from && InFile(a, l[i].was) && InFile(c, l[i].now)
    ensures Patch(a, c, l, i, p)
            == Slice(a, p, l[i].was.from) + (Slice(c, l[i].now.from, l[i].now.to) + Patch(a, c, l, i + 1, l[i].was.to))
  {
  }

  /** A list that goes on as a true one is patched as the true one. */
  lemma {:induction false} PatchGoesOn(a: seq<Line>, c: seq<Line>, es: seq<Change>, i: nat, pa: int, pc: int,
                                       l: seq<Change>, j: nat)
    requires i <= |es| && j <= |l| && l[j..] == es[i..] && Aligned(a, c, es, i, pa, pc) && Patchable(a, c, l)
    ensures Before(a, l, j, pa) && 1 <= pc <= |c| + 1 && Patch(a, c, l, j, pa) == Slice(c, pc, |c| + 1)
  {
    AlignedAlike(a, c, es, i, pa, pc, l, j);
    PatchIsTheOther(a, c, l, j, pa, pc);
  }

  lemma {:induction false} AlignedAlike(a: seq<Line>, c: seq<Line>, es: seq<Change>, i: nat, pa: int, pc: int,
                                        l: seq<Change>, j: nat)
    requires i <= |es| && j <= |l| && l[j..] == es[i..] && Aligned(a, c, es, i, pa, pc)
    ensures Aligned(a, c, l, j, pa, pc)
    decreases |es| - i
  {
    hide Agree;
    assert |es| - i == |l| - j;
    if i < |es| {
      assert es[i] == es[i..][0] == l[j..][0] == l[j];
      assert es[i + 1..] == es[i..][1..] == l[j..][1..] == l[j + 1..];
      AlignedAlike(a, c, es, i + 1, es[i].was.to, es[i].now.to, l, j + 1);
    }
  }

  /** A true change list, taken over, gives the other file. */
  lemma TrueListTaken(a: seq<Line>, c: seq<Line>, e: seq<Change>)
    requires ChangeList(a, c, e)
    ensures Lockable(a, e) && Collapsed(e) == e && Patchable(a, c, e) && Before(a, e, 0, 1) && Patch(a, c, e, 0, 1) == c
  {
    hide Agree, Patch;
    forall k | 0 <= k < |e|
      ensures InFile(a, e[k].was) && InFile(c, e[k].now) && (0 < k ==> e[k - 1].was.to <= e[k].was.from)
    {
      AlignedUpto(a, c, e, 0, 1, 1, k);
    }
    PatchIsTheOther(a, c, e, 0, 1, 1);
    assert Slice(c, 1, |c| + 1) == c;
  }

  lemma {:induction false} AlignedUpto(a: seq<Line>, c: seq<Line>, e: seq<Change>, i: nat, pa: int, pc: int, k: nat)
    requires i <= k < |e| && Aligned(a, c, e, i, pa, pc)
    ensures InFile(a, e[k].was) && InFile(c, e[k].now) && (i < k ==> e[k - 1].was.to <= e[k].was.from)
    decreases k - i
  {
    if i < k {
      AlignedUpto(a, c, e, i + 1, e[i].was.to, e[i].now.to, k);
    }
  }
}
