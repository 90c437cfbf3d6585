/** Change lists of diff3 (lib/diff3.c): lists of changed ranges that relate one
  file to another, and what stretching and joining their ranges does to them. Line
  numbers start at 1 and ranges are half open.
*/
module Diff3Changes {
  type Line = string

  datatype Range = Range(from: int, to: int)

  /** A changed range: where it was, and where it is now in file 3. */
  datatype Change = Change(was: Range, now: Range)

  function Slice(f: seq<Line>, from: int, to: int): seq<Line>
    requires 1 <= from <= to <= |f| + 1
  {
    f[from - 1..to - 1]
  }

  predicate InFile(f: seq<Line>, r: Range) {
    1 <= r.from <= r.to <= |f| + 1
  }

  predicate TextRange(f: seq<Line>, r: Range) {
    0 <= r.from <= r.to <= |f|
  }

  /** An element of "de": the range of file 1 to replace, and the lines of
      file 3 and of the base, as positions counted from 0 in their files. */
  datatype Edit = Edit(was: Range, oldo: Range, newo: Range, overlap: bool)

  // ------------------------------------------------------------ change lists

  /** Files a and c agree line by line from (pa, pc) for n lines. */
  ghost predicate Agree(a: seq<Line>, c: seq<Line>, pa: int, pc: int, n: int) {
    && 0 <= n && 1 <= pa && 1 <= pc && pa + n <= |a| + 1 && pc + n <= |c| + 1
    && Slice(a, pa, pa + n) == Slice(c, pc, pc + n)
  }

  /** From line pa of a and line pc of c on, the changes ds[i..] are all the
      differences there are. */
  ghost predicate Aligned(a: seq<Line>, c: seq<Line>, ds: seq<Change>, i: nat, pa: int, pc: int)
    requires i <= |ds|
    decreases |ds| - i
  {
    if i == |ds| then
      |a| - pa == |c| - pc && Agree(a, c, pa, pc, |a| + 1 - pa)
    else
      && InFile(a, ds[i].was) && InFile(c, ds[i].now)
      && ds[i].was.from - pa == ds[i].now.from - pc
      && Agree(a, c, pa, pc, ds[i].now.from - pc)
      && Aligned(a, c, ds, i + 1, ds[i].was.to, ds[i].now.to)
  }

  /** A change list: it accounts for every difference, and consecutive changes have a
      common line between them. */
  ghost predicate ChangeList(a: seq<Line>, c: seq<Line>, ds: seq<Change>) {
    Aligned(a, c, ds, 0, 1, 1) && Separated(ds)
  }

  ghost predicate Separated(ds: seq<Change>) {
    forall i | 0 < i < |ds| :: ds[i - 1].now.to < ds[i].now.from
  }

  // ------------------------------------------------------------ alignment under extension

  lemma AgreeSplit(a: seq<Line>, c: seq<Line>, pa: int, pc: int, n: int, k: int)
    requires Agree(a, c, pa, pc, n) && 0 <= k <= n
    ensures Agree(a, c, pa, pc, k) && Agree(a, c, pa + k, pc + k, n - k)
  {
    SliceParts(a, pa, n, k);
    SliceParts(c, pc, n, k);
    hide Slice;
  }

  lemma SliceParts(f: seq<Line>, p: int, n: int, k: int)
    requires 1 <= p <= p + n <= |f| + 1 && 0 <= k <= n
    ensures Slice(f, p, p + k) == Slice(f, p, p + n)[..k] && Slice(f, p + k, p + n) == Slice(f, p, p + n)[k..]
  {
  }

  lemma {:induction false} AlignedSame(a: seq<Line>, c: seq<Line>, ds: seq<Change>, es: seq<Change>, i: nat, pa: int,
                                       pc: int)
    requires i <= |ds| == |es| && Aligned(a, c, ds, i, pa, pc)
    requires forall j | i <= j < |ds| :: ds[j] == es[j]
    ensures Aligned(a, c, es, i, pa, pc)
    decreases |ds| - i
  {
    if i < |ds| { AlignedSame(a, c, ds, es, i + 1, ds[i].was.to, ds[i].now.to); }
  }

  /** How many lines agree before change i, counted from line pc of file c. */
  function Gap(c: seq<Line>, ds: seq<Change>, i: nat, pc: int): int {
    if i < |ds| then ds[i].now.from - pc else |c| + 1 - pc
  }

  lemma AlignedAdvance(a: seq<Line>, c: seq<Line>, ds: seq<Change>, i: nat, pa: int, pc: int, k: int)
    requires i <= |ds| && Aligned(a, c, ds, i, pa, pc) && 0 <= k <= Gap(c, ds, i, pc)
    ensures Agree(a, c, pa, pc, k) && Aligned(a, c, ds, i, pa + k, pc + k)
  {
    AgreeSplit(a, c, pa, pc, Gap(c, ds, i, pc), k);
  }

  /** One side of the walk: the changes from i on are aligned from (pa, pc), or
      change i has been stretched over the start of change i + 1 and will be
      joined with it. */
  ghost predicate Side(a: seq<Line>, c: seq<Line>, ds: seq<Change>, i: nat, pa: int, pc: int, over: bool)
    requires i <= |ds|
  {
    if !over then Aligned(a, c, ds, i, pa, pc)
    else
      && i + 1 < |ds|
      && ds[i].was.from - pa == ds[i].now.from - pc
      && Agree(a, c, pa, pc, ds[i].now.from - pc)
      && InFile(a, ds[i + 1].was) && InFile(c, ds[i + 1].now)
      && ds[i].was.from <= ds[i + 1].was.from && ds[i].now.from <= ds[i + 1].now.from <= ds[i].now.to
      && Aligned(a, c, ds, i + 2, ds[i + 1].was.to, ds[i + 1].now.to)
  }

  function JoinNext(ds: seq<Change>, i: nat): (es: seq<Change>)
    requires i + 1 < |ds|
    ensures |es| == |ds|
  {
    ds[i + 1 := Change(Range(ds[i].was.from, ds[i + 1].was.to), Range(ds[i].now.from, ds[i + 1].now.to))]
  }

  lemma JoinKeepsSide(a: seq<Line>, c: seq<Line>, ds: seq<Change>, i: nat, pa: int, pc: int, over: bool)
    requires i + 1 < |ds| && Side(a, c, ds, i, pa, pc, over)
    ensures Side(a, c, JoinNext(ds, i), i + 1, pa, pc, false)
  {
    var es := JoinNext(ds, i);
    assert Aligned(a, c, ds, i + 2, ds[i + 1].was.to, ds[i + 1].now.to) by {
      if !over { assert Aligned(a, c, ds, i + 1, ds[i].was.to, ds[i].now.to); }
    }
    AlignedSame(a, c, ds, es, i + 2, ds[i + 1].was.to, ds[i + 1].now.to);
    assert ds[i].was.from <= ds[i + 1].was.from && ds[i].now.from <= ds[i + 1].now.from by {
      if !over { assert Aligned(a, c, ds, i + 1, ds[i].was.to, ds[i].now.to); }
    }
  }

  function Lowered(ds: seq<Change>, i: nat, t: int): seq<Change>
    requires i < |ds|
  {
    ds[i := Change(Range(ds[i].was.from - t, ds[i].was.to), Range(ds[i].now.from - t, ds[i].now.to))]
  }

  function Raised(ds: seq<Change>, i: nat, t: int): seq<Change>
    requires i < |ds|
  {
    ds[i := Change(Range(ds[i].was.from, ds[i].was.to + t), Range(ds[i].now.from, ds[i].now.to + t))]
  }

  /** Stretching a change down over agreeing lines keeps it a true correspondence. */
  lemma LowerKeepsSide(a: seq<Line>, c: seq<Line>, ds: seq<Change>, i: nat, pa: int, pc: int, t: int)
    requires i < |ds| && Aligned(a, c, ds, i, pa, pc) && 0 <= t <= ds[i].now.from - pc
    ensures Aligned(a, c, Lowered(ds, i, t), i, pa, pc)
  {
    AgreeSplit(a, c, pa, pc, ds[i].now.from - pc, ds[i].now.from - pc - t);
    AlignedSame(a, c, ds, Lowered(ds, i, t), i + 1, ds[i].was.to, ds[i].now.to);
  }

  /** Stretching it up does too, unless it now reaches the next change. */
  lemma RaiseKeepsSide(a: seq<Line>, c: seq<Line>, ds: seq<Change>, i: nat, pa: int, pc: int, t: int)
    requires i < |ds| && Aligned(a, c, ds, i, pa, pc) && 0 <= t && ds[i].now.to + t <= |c| + 1
    requires i + 1 < |ds| ==> ds[i].now.to < ds[i + 1].now.from
    ensures var es := Raised(ds, i, t);
            Side(a, c, es, i, pa, pc, i + 1 < |ds| && es[i].now.to >= es[i + 1].now.from)
  {
    hide Agree;
    var es := Raised(ds, i, t);
    AlignedSame(a, c, ds, es, i + 1, ds[i].was.to, ds[i].now.to);
    if i + 1 < |ds| && es[i].now.to >= es[i + 1].now.from {
    } else {
      AlignedAdvance(a, c, es, i + 1, ds[i].was.to, ds[i].now.to, t);
    }
  }

  function Max(a: int, b: int): int { if a > b then a else b }

  /** Change i made to cover [from, to) of file 3 as well. */
  function Stretched(ds: seq<Change>, i: nat, r: Range): (es: seq<Change>)
    requires i < |ds|
    ensures |es| == |ds|
  {
    Raised(Lowered(ds, i, Max(0, ds[i].now.from - r.from)), i, Max(0, r.to - ds[i].now.to))
  }

  predicate Reaches(ds: seq<Change>, i: nat) {
    i + 1 < |ds| && ds[i].now.to >= ds[i + 1].now.from
  }
}
