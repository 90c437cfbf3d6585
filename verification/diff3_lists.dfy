/** How diff3 gets its change lists: the diff engine's chunks are written as the
  headers of a plain diff (lib/diff_output_edscript.c) and read back (readin() of
  lib/diff3.c).
*/
module Diff3Lists {
  import opened DiffChunks
  import opened DiffStates
  import opened EditDistance
  import opened DiffPlans
  import opened DiffMeaning
  import opened Diff3Changes
  import opened Diff3Lockstep
  import opened Diff3Misread
  import DiffDriver
  import Diff3
  import Diff3Groups
  import Diff3Script

  /** Adjacent minus and plus chunks, printed as one change: the chunks, and the
      atoms of both sides, counted from 0 with the ends excluded. */
  datatype Context = Context(c0: nat, c1: nat, l0: nat, l1: nat, r0: nat, r1: nat)

  function ContextAt(cs: seq<Chunk>, i: nat): Context
    requires i < |cs|
  {
    Context(i, i + 1, cs[i].leftStart, cs[i].leftStart + cs[i].leftCount, cs[i].rightStart,
            cs[i].rightStart + cs[i].rightCount)
  }

  function Both(a: Context, b: Context): Context {
    Context(Least(a.c0, b.c0), Most(a.c1, b.c1), Least(a.l0, b.l0), Most(a.l1, b.l1), Least(a.r0, b.r0),
            Most(a.r1, b.r1))
  }

  function Least(a: nat, b: nat): nat { if a < b then a else b }
  function Most(a: nat, b: nat): nat { if a > b then a else b }

  /** The changes of a chunk list: a minus chunk and the plus chunk behind it are one. */
  function ContextsOf(cs: seq<Chunk>): (ctxs: seq<Context>)
    ensures cs != [] && cs[|cs| - 1].Type() != Same ==> ctxs != []
  {
    if cs == [] then []
    else
      var n, before := |cs|, ContextsOf(cs[..|cs| - 1]);
      if cs[n - 1].Type() == Same then before
      else if n > 1 && cs[n - 2].Type() != Same then
        before[|before| - 1 := Both(before[|before| - 1], ContextAt(cs, n - 1))]
      else before + [ContextAt(cs, n - 1)]
  }

  function ChangeOf(x: Context): Change {
    Change(Range(x.l0 + 1, x.l1 + 1), Range(x.r0 + 1, x.r1 + 1))
  }

  function ChangesOf(cs: seq<Chunk>): (ds: seq<Change>)
    ensures |ds| == |ContextsOf(cs)| && forall i | 0 <= i < |ds| :: ds[i] == ChangeOf(ContextsOf(cs)[i])
  {
    seq(|ContextsOf(cs)|, i requires 0 <= i < |ContextsOf(cs)| => ChangeOf(ContextsOf(cs)[i]))
  }

  // ------------------------------------------------------------ where the last change ends

  /** The last change ends where the list does, or before a chunk of equal lines. */
  ghost predicate LastEnds(cs: seq<Chunk>, n1: nat, n2: nat) {
    var xs := ContextsOf(cs);
    xs != [] ==>
      var x := xs[|xs| - 1];
      && x.c0 < x.c1 <= |cs| && x.l0 <= x.l1 && x.r0 <= x.r1 && x.l0 + x.r0 < x.l1 + x.r1
      && if cs[|cs| - 1].Type() == Same then x.c1 < |cs| && x.l1 < n1 && x.r1 < n2
         else x.c1 == |cs| && x.l1 == n1 && x.r1 == n2
  }

  lemma {:induction false} LastContext(cs: seq<Chunk>, n1: nat, n2: nat)
    requires Tiles(cs, 0, 0, n1, n2) && Normal(cs)
    ensures LastEnds(cs, n1, n2)
    decreases |cs|
  {
    if cs != [] {
      var front, c := cs[..|cs| - 1], cs[|cs| - 1];
      NormalFront(cs, |cs| - 1);
      LastContext(front, c.leftStart, c.rightStart);
      OneMoreContext(cs, n1, n2);
    }
  }

  lemma OneMoreContext(cs: seq<Chunk>, n1: nat, n2: nat)
    requires Tiles(cs, 0, 0, n1, n2) && Normal(cs) && cs != []
    requires LastEnds(cs[..|cs| - 1], cs[|cs| - 1].leftStart, cs[|cs| - 1].rightStart)
    ensures LastEnds(cs, n1, n2)
  {
    var n, front, c := |cs|, cs[..|cs| - 1], cs[|cs| - 1];
    assert c.Settled() && c.leftStart + c.leftCount == n1 && c.rightStart + c.rightCount == n2;
    if n > 1 { assert MayFollow(cs[n - 2], c); }
    hide Tiles, Normal, MayFollow;
    ContextsStep(cs);
  }

  lemma ContextsStep(cs: seq<Chunk>)
    requires cs != []
    ensures var n, before := |cs|, ContextsOf(cs[..|cs| - 1]);
            ContextsOf(cs) ==
            if cs[n - 1].Type() == Same then before
            else if n > 1 && cs[n - 2].Type() != Same then
              before[|before| - 1 := Both(before[|before| - 1], ContextAt(cs, n - 1))]
            else before + [ContextAt(cs, n - 1)]
  {
  }

  // ------------------------------------------------------------ writing

  /** The header of one change: two numbers on each side, the second one absent if
      it says nothing new. */
  datatype Second = Absent | Upto(n: nat)
  datatype Entry = Entry(left: nat, leftTo: Second, kind: char, right: nat, rightTo: Second)

  function TheOther(first: nat, s: Second): nat { if s.Upto? then s.n else first }

  /** What readin() makes of a header. */
  function ReadEntry(e: Entry): Change {
    Change(Range(if e.kind == 'a' then e.left + 1 else e.left, TheOther(e.left, e.leftTo) + 1),
           Range(if e.kind == 'd' then e.right + 1 else e.right, TheOther(e.right, e.rightTo) + 1))
  }

  /** An empty side at the very start of a file that is not empty is written as line
      1 instead of 0, and so read one line too far down. */
  function TooFar(from: nat, to: nat, len: nat): nat {
    if from == to == 0 && len > 0 then 1 else 0
  }

  function ChangeRead(x: Context, leftLen: nat, rightLen: nat): Change {
    var dl, dr := TooFar(x.l0, x.l1, leftLen), TooFar(x.r0, x.r1, rightLen);
    Change(Range(x.l0 + 1 + dl, x.l1 + 1 + dl), Range(x.r0 + 1 + dr, x.r1 + 1 + dr))
  }

  /** output_edscript_chunk() */
  method OutputEdscriptChunk(cc: Context, leftAtoms: nat, rightAtoms: nat) returns (e: Entry)
    requires cc.l0 <= cc.l1 <= leftAtoms && cc.r0 <= cc.r1 <= rightAtoms && cc.l0 + cc.r0 < cc.l1 + cc.r1
    ensures ReadEntry(e) == ChangeRead(cc, leftAtoms, rightAtoms)
    ensures e.kind == if cc.l0 == cc.l1 then 'a' else if cc.r0 == cc.r1 then 'd' else 'c'
  {
    var leftLen := cc.l1 - cc.l0;
    var leftStart := if leftAtoms == 0 then 0 else if leftLen == 0 && cc.l0 > 0 then cc.l0 else cc.l0 + 1;
    var rightLen := cc.r1 - cc.r0;
    var rightStart := if rightAtoms == 0 then 0 else if rightLen == 0 && cc.r0 > 0 then cc.r0 else cc.r0 + 1;
    if leftLen == 0 {
      if rightLen == 1 {
        e := Entry(leftStart, Absent, 'a', rightStart, Absent);
      } else {
        e := Entry(leftStart, Absent, 'a', rightStart, Upto(cc.r1));
      }
    } else if rightLen == 0 {
      if leftLen == 1 {
        e := Entry(leftStart, Absent, 'd', rightStart, Absent);
      } else {
        e := Entry(leftStart, Upto(cc.l1), 'd', rightStart, Absent);
      }
    } else {
      if leftLen == 1 && rightLen == 1 {
        e := Entry(leftStart, Absent, 'c', rightStart, Absent);
      } else if leftLen == 1 {
        e := Entry(leftStart, Absent, 'c', rightStart, Upto(cc.r1));
      } else if rightLen == 1 {
        e := Entry(leftStart, Upto(cc.l1), 'c', rightStart, Absent);
      } else {
        e := Entry(leftStart, Upto(cc.l1), 'c', rightStart, Upto(cc.r1));
      }
    }
  }

  predicate ContextsTouch(a: Context, b: Context) {
    || (a.c1 >= b.c0 && a.c0 <= b.c1)
    || (a.l1 >= b.l0 && a.l0 <= b.l1)
    || (a.r1 >= b.r0 && a.r0 <= b.r1)
  }

  /** Written headers of the first changes of a list. */
  ghost predicate Written(es: seq<Entry>, xs: seq<Context>, leftLen: nat, rightLen: nat) {
    |es| == |xs| && forall i | 0 <= i < |es| :: ReadEntry(es[i]) == ChangeRead(xs[i], leftLen, rightLen)
  }

  lemma WrittenMore(es: seq<Entry>, xs: seq<Context>, e: Entry, x: Context, leftLen: nat, rightLen: nat)
    requires Written(es, xs, leftLen, rightLen) && ReadEntry(e) == ChangeRead(x, leftLen, rightLen)
    ensures Written(es + [e], xs + [x], leftLen, rightLen)
  {
  }

  /** diff_output_edscript(), for text files */
  method DiffOutputEdscript(cs: seq<Chunk>, leftLen: nat, rightLen: nat) returns (es: seq<Entry>)
    requires Tiles(cs, 0, 0, leftLen, rightLen) && Normal(cs)
    ensures Written(es, ContextsOf(cs), leftLen, rightLen)
  {
    hide Tiles, Normal, Written, ContextsOf, ContextsTouch;
    es := [];
    var cc := Context(0, 0, 0, 0, 0, 0);
    ghost var done: seq<Context> := [];
    NothingYet(cs, leftLen, rightLen);
    var i := 0;
    while i < |cs|
      invariant 0 <= i <= |cs| && Written(es, done, leftLen, rightLen)
      invariant ContextsOf(cs[..i]) == if cc.c0 == cc.c1 then done else done + [cc]
      invariant cc.c0 == cc.c1 ==> done == []
      invariant cc.c0 != cc.c1 ==>
                  cc.l0 <= cc.l1 <= leftLen && cc.r0 <= cc.r1 <= rightLen && cc.l0 + cc.r0 < cc.l1 + cc.r1
    {
      var t := cs[i].Type();
      ChunkHere(cs, i, leftLen, rightLen);
      NextContext(cs, i, leftLen, rightLen);
      assert cs[..i + 1][..i] == cs[..i];
      if t != Minus && t != Plus {
        i := i + 1;
        continue;
      }
      var next := Context(i, i + 1, cs[i].leftStart, Least(leftLen, cs[i].leftStart + cs[i].leftCount),
                          cs[i].rightStart, Least(rightLen, cs[i].rightStart + cs[i].rightCount));
      assert next == ContextAt(cs, i);
      if cc.c0 == cc.c1 {
        cc := next;
      } else if ContextsTouch(cc, next) {
        cc := Both(cc, next);
      } else {
        var e := OutputEdscriptChunk(cc, leftLen, rightLen);
        WrittenMore(es, done, e, cc, leftLen, rightLen);
        es, done := es + [e], done + [cc];
        cc := next;
      }
      i := i + 1;
    }
    assert cs[..i] == cs;
    if cc.c0 != cc.c1 {
      var e := OutputEdscriptChunk(cc, leftLen, rightLen);
      WrittenMore(es, done, e, cc, leftLen, rightLen);
      es := es + [e];
    }
  }

  lemma NothingYet(cs: seq<Chunk>, leftLen: nat, rightLen: nat)
    ensures ContextsOf(cs[..0]) == [] && Written([], [], leftLen, rightLen)
  {
  }

  lemma ChunkHere(cs: seq<Chunk>, i: nat, leftLen: nat, rightLen: nat)
    requires Tiles(cs, 0, 0, leftLen, rightLen) && Normal(cs) && i < |cs|
    ensures cs[i].Settled() && cs[i].leftStart + cs[i].leftCount <= leftLen
            && cs[i].rightStart + cs[i].rightCount <= rightLen
  {
    TilesGrow(cs, 0, 0, leftLen, rightLen);
  }

  /** Chunk i joins the change before it exactly if the contexts touch. */
  lemma NextContext(cs: seq<Chunk>, i: nat, leftLen: nat, rightLen: nat)
    requires Tiles(cs, 0, 0, leftLen, rightLen) && Normal(cs) && i < |cs|
    ensures var before, x := ContextsOf(cs[..i]), ContextAt(cs, i);
            && ContextsOf(cs[..i + 1]) ==
               (if cs[i].Type() == Same then before
                else if before != []
                  && ContextsTouch(before[|before| - 1], x) then before[|before| - 1 := Both(before[|before| - 1], x)]
                else before + [x])
            && (before != [] ==>
                  var last := before[|before| - 1];
                  last.c0 < last.c1 && last.l0 <= last.l1 <= x.l0 && last.r0 <= last.r1 <= x.r0
                    && last.l0 + last.r0 < last.l1 + last.r1)
  {
    hide Both, ContextsTouch, ContextsOf, Tiles, Normal;
    var upto := cs[..i + 1];
    assert upto[..i] == cs[..i] && upto[i] == cs[i] && ContextAt(upto, i) == ContextAt(cs, i);
    PrefixTiles(cs, i + 1, leftLen, rightLen);
    JoinedIfTouching(upto, cs[i].leftStart + cs[i].leftCount, cs[i].rightStart + cs[i].rightCount);
  }

  lemma PrefixTiles(cs: seq<Chunk>, i: nat, leftLen: nat, rightLen: nat)
    requires Tiles(cs, 0, 0, leftLen, rightLen) && Normal(cs) && 0 < i <= |cs|
    ensures Tiles(cs[..i], 0, 0, cs[i - 1].leftStart + cs[i - 1].leftCount, cs[i - 1].rightStart + cs[i - 1].rightCount)
    ensures Normal(cs[..i])
  {
    NormalFront(cs, i);
    NextStart(cs, i - 1, 0, 0, leftLen, rightLen);
    if i < |cs| {
      TilesSplit(cs, i, 0, 0, leftLen, rightLen);
    } else {
      assert cs[..i] == cs;
    }
  }

  lemma JoinedIfTouching(cs: seq<Chunk>, n1: nat, n2: nat)
    requires Tiles(cs, 0, 0, n1, n2) && Normal(cs) && cs != []
    ensures var n := |cs|;
            var before, x := ContextsOf(cs[..n - 1]), ContextAt(cs, n - 1);
            && ContextsOf(cs) ==
               (if cs[n - 1].Type() == Same then before
                else if before != []
                  && ContextsTouch(before[|before| - 1], x) then before[|before| - 1 := Both(before[|before| - 1], x)]
                else before + [x])
            && (before != [] ==>
                  var last := before[|before| - 1];
                  last.c0 < last.c1 && last.l0 <= last.l1 <= x.l0 && last.r0 <= last.r1 <= x.r0
                    && last.l0 + last.r0 < last.l1 + last.r1)
  {
    hide Both, ContextsOf, Normal;
    var n, front, c := |cs|, cs[..|cs| - 1], cs[|cs| - 1];
    NormalFront(cs, n - 1);
    LastContext(front, c.leftStart, c.rightStart);
    ContextsStep(cs);
    LastOfFront(front);
  }

  lemma LastOfFront(front: seq<Chunk>)
    ensures front == [] ==> ContextsOf(front) == []
    ensures front != [] && front[|front| - 1].Type() != Same ==> ContextsOf(front) != []
  {
  }

  // ------------------------------------------------------------ chunks are a change list

  lemma AgreeLonger(a: seq<Line>, c: seq<Line>, x: seq<Line>, y: seq<Line>, pa: int, pc: int, n: int)
    requires Agree(a, c, pa, pc, n)
    ensures Agree(a + x, c + y, pa, pc, n)
  {
    SliceLonger(a, x, pa, pa + n);
    SliceLonger(c, y, pc, pc + n);
  }

  lemma SliceLonger(f: seq<Line>, x: seq<Line>, from: int, to: int)
    requires 1 <= from <= to <= |f| + 1
    ensures Slice(f + x, from, to) == Slice(f, from, to)
  {
  }

  /** Equal lines at the end of both files. */
  lemma {:induction false} AlignedLonger(a: seq<Line>, c: seq<Line>, x: seq<Line>, ds: seq<Change>, i: nat, pa: int,
                                         pc: int)
    requires i <= |ds| && Aligned(a, c, ds, i, pa, pc)
    ensures Aligned(a + x, c + x, ds, i, pa, pc)
    decreases |ds| - i
  {
    if i == |ds| {
      assert Slice(a + x, pa, |a + x| + 1) == Slice(a, pa, |a| + 1) + x;
      assert Slice(c + x, pc, |c + x| + 1) == Slice(c, pc, |c| + 1) + x;
    } else {
      AgreeLonger(a, c, x, x, pa, pc, ds[i].now.from - pc);
      AlignedLonger(a, c, x, ds, i + 1, ds[i].was.to, ds[i].now.to);
    }
  }

  function EndChange(a: seq<Line>, c: seq<Line>, x: seq<Line>, y: seq<Line>): Change {
    Change(Range(|a| + 1, |a| + |x| + 1), Range(|c| + 1, |c| + |y| + 1))
  }

  /** A change at the end of both files. */
  lemma {:induction false} AlignedChanged(a: seq<Line>, c: seq<Line>, x: seq<Line>, y: seq<Line>, ds: seq<Change>,
                                          i: nat, pa: int, pc: int)
    requires i <= |ds| && Aligned(a, c, ds, i, pa, pc)
    ensures Aligned(a + x, c + y, ds + [EndChange(a, c, x, y)], i, pa, pc)
    decreases |ds| - i
  {
    var es := ds + [EndChange(a, c, x, y)];
    if i == |ds| {
      AgreeLonger(a, c, x, y, pa, pc, |a| + 1 - pa);
      assert Agree(a + x, c + y, |a + x| + 1, |c + y| + 1, 0);
      assert Aligned(a + x, c + y, es, i + 1, es[i].was.to, es[i].now.to);
    } else {
      AgreeLonger(a, c, x, y, pa, pc, ds[i].now.from - pc);
      AlignedChanged(a, c, x, y, ds, i + 1, ds[i].was.to, ds[i].now.to);
    }
  }

  /** The last change with more lines at the end of both files. */
  function Widened(ds: seq<Change>, x: seq<Line>, y: seq<Line>): seq<Change>
    requires ds != []
  {
    var d := ds[|ds| - 1];
    ds[|ds| - 1 := Change(Range(d.was.from, d.was.to + |x|), Range(d.now.from, d.now.to + |y|))]
  }

  lemma {:induction false} AlignedWidened(a: seq<Line>, c: seq<Line>, x: seq<Line>, y: seq<Line>, ds: seq<Change>,
                                          i: nat, pa: int, pc: int)
    requires i < |ds| && Aligned(a, c, ds, i, pa, pc)
    requires ds[|ds| - 1].was.to == |a| + 1 && ds[|ds| - 1].now.to == |c| + 1
    ensures Aligned(a + x, c + y, Widened(ds, x, y), i, pa, pc)
    decreases |ds| - i
  {
    AgreeLonger(a, c, x, y, pa, pc, ds[i].now.from - pc);
    if i == |ds| - 1 {
      assert Agree(a + x, c + y, |a + x| + 1, |c + y| + 1, 0);
      assert Aligned(a + x, c + y, Widened(ds, x, y), i + 1, |a + x| + 1, |c + y| + 1);
    } else {
      AlignedWidened(a, c, x, y, ds, i + 1, ds[i].was.to, ds[i].now.to);
    }
  }

  /** The diff engine's script for two files, as a change list. */
  lemma {:induction false} ScriptIsChangeList(a: seq<Line>, c: seq<Line>, cs: seq<Chunk>)
    requires Script(FilesOf(a, c), cs, |a|, |c|)
    ensures ChangeList(a, c, ChangesOf(cs))
    decreases |cs|
  {
    hide Aligned, Separated, Agree, ContextsOf;
    if cs == [] {
      NoChunks(a, c);
    } else {
      var front, last := cs[..|cs| - 1], cs[|cs| - 1];
      var a0, c0 := a[..last.leftStart], c[..last.rightStart];
      FrontScript(a, c, cs);
      LastLines(a, c, cs);
      assert a == a0 + a[last.leftStart..] && c == c0 + c[last.rightStart..];
      ScriptIsChangeList(a0, c0, front);
      LastContext(front, |a0|, |c0|);
      LastOfFront(front);
      ContextsStep(cs);
      if last.Type() == Same {
        SameLongers(a0, c0, a[last.leftStart..], front);
        assert ChangesOf(cs) == ChangesOf(front);
      } else if front != [] && front[|front| - 1].Type() != Same {
        WidensLast(a0, c0, a[last.leftStart..], c[last.rightStart..], cs);
      } else {
        AddsChange(a0, c0, a[last.leftStart..], c[last.rightStart..], cs);
      }
    }
  }

  lemma NoChunks(a: seq<Line>, c: seq<Line>)
    requires a == [] && c == []
    ensures ChangeList(a, c, ChangesOf([]))
  {
  }

  /** A script without its last chunk is one of the files without its lines. */
  lemma FrontScript(a: seq<Line>, c: seq<Line>, cs: seq<Chunk>)
    requires Script(FilesOf(a, c), cs, |a|, |c|) && cs != []
    ensures var last := cs[|cs| - 1];
            && last.leftStart + last.leftCount == |a| && last.rightStart + last.rightCount == |c|
            && Script(FilesOf(a[..last.leftStart], c[..last.rightStart]), cs[..|cs| - 1], last.leftStart,
                      last.rightStart)
  {
    var front, last := cs[..|cs| - 1], cs[|cs| - 1];
    hide Normal, AllSame;
    assert Tiles(front, 0, 0, last.leftStart, last.rightStart);
    NormalFront(cs, |cs| - 1);
    FrontPairs(FilesOf(a, c), cs);
    SameInside(a, c, last.leftStart, last.rightStart, front);
  }

  lemma FrontPairs(f: Files, cs: seq<Chunk>)
    requires cs != [] && AllSame(f, Pairs(cs))
    ensures AllSame(f, Pairs(cs[..|cs| - 1])) && AllSame(f, ChunkPairs(cs[|cs| - 1]))
  {
    hide AllSame;
    AllSameConcat(f, Pairs(cs[..|cs| - 1]), ChunkPairs(cs[|cs| - 1]));
  }

  lemma SameInside(a: seq<Line>, c: seq<Line>, l: nat, r: nat, front: seq<Chunk>)
    requires l <= |a| && r <= |c| && Tiles(front, 0, 0, l, r) && Normal(front) && AllSame(FilesOf(a, c), Pairs(front))
    ensures AllSame(FilesOf(a[..l], c[..r]), Pairs(front))
  {
    PairsAreCommonSubsequence(FilesOf(a, c), front, 0, 0, l, r);
    hide Tiles, Normal, Pairs;
    var ps := Pairs(front);
    forall i | 0 <= i < |ps|
      ensures FilesOf(a[..l], c[..r]).same(ps[i].0, ps[i].1)
    {
      assert InSection(Section(0, l, 0, r), ps[i]);
      assert FilesOf(a, c).same(ps[i].0, ps[i].1);
    }
  }

  /** The lines of the last chunk. */
  lemma LastLines(a: seq<Line>, c: seq<Line>, cs: seq<Chunk>)
    requires Script(FilesOf(a, c), cs, |a|, |c|) && cs != []
    ensures var last := cs[|cs| - 1];
            && last.Settled() && last.leftStart + last.leftCount == |a| && last.rightStart + last.rightCount == |c|
            && (last.Type() == Same ==> a[last.leftStart..] == c[last.rightStart..])
            && (|cs| > 1 ==> MayFollow(cs[|cs| - 2], last))
  {
    hide Pairs, AllSame, FilesOf, Run;
    FrontPairs(FilesOf(a, c), cs);
    var last := cs[|cs| - 1];
    if |cs| > 1 { assert MayFollow(cs[|cs| - 2], last); }
    if last.Type() == Same {
      SameTail(a, c, last.leftStart, last.rightStart);
    }
  }

  lemma SameTail(a: seq<Line>, c: seq<Line>, l: nat, r: nat)
    requires l <= |a| && r <= |c| && |a| - l == |c| - r && AllSame(FilesOf(a, c), Run(l, r, |a| - l))
    ensures a[l..] == c[r..]
  {
    forall i | 0 <= i < |a| - l
      ensures a[l..][i] == c[r..][i]
    {
      assert Run(l, r, |a| - l)[i] == (l + i, r + i);
    }
  }

  lemma SameLongers(a0: seq<Line>, c0: seq<Line>, x: seq<Line>, front: seq<Chunk>)
    requires ChangeList(a0, c0, ChangesOf(front))
    ensures ChangeList(a0 + x, c0 + x, ChangesOf(front))
  {
    AlignedLonger(a0, c0, x, ChangesOf(front), 0, 1, 1);
  }

  /** A plus chunk behind a minus chunk. */
  lemma WidensLast(a0: seq<Line>, c0: seq<Line>, x: seq<Line>, y: seq<Line>, cs: seq<Chunk>)
    requires cs != [] && ChangeList(a0, c0, ChangesOf(cs[..|cs| - 1])) && LastEnds(cs[..|cs| - 1], |a0|, |c0|)
    requires |cs| > 1 && cs[|cs| - 2].Type() != Same && cs[|cs| - 1].Type() != Same
    requires ContextAt(cs, |cs| - 1) == Context(|cs| - 1, |cs|, |a0|, |a0| + |x|, |c0|, |c0| + |y|)
    ensures ChangeList(a0 + x, c0 + y, ChangesOf(cs))
  {
    hide Aligned, Agree, ContextsOf;
    var front := cs[..|cs| - 1];
    assert front[|front| - 1] == cs[|cs| - 2];
    ContextsStep(cs);
    LastOfFront(front);
    var ds := ChangesOf(front);
    AlignedWidened(a0, c0, x, y, ds, 0, 1, 1);
    assert ChangesOf(cs) == Widened(ds, x, y);
  }

  lemma AddsChange(a0: seq<Line>, c0: seq<Line>, x: seq<Line>, y: seq<Line>, cs: seq<Chunk>)
    requires cs != [] && ChangeList(a0, c0, ChangesOf(cs[..|cs| - 1])) && LastEnds(cs[..|cs| - 1], |a0|, |c0|)
    requires |cs| > 1 ==> cs[|cs| - 2].Type() == Same
    requires cs[|cs| - 1].Type() != Same
    requires ContextAt(cs, |cs| - 1) == Context(|cs| - 1, |cs|, |a0|, |a0| + |x|, |c0|, |c0| + |y|)
    ensures ChangeList(a0 + x, c0 + y, ChangesOf(cs))
  {
    hide Aligned, Agree, ContextsOf, Separated, ContextAt, EndChange;
    var front := cs[..|cs| - 1];
    var ds := ChangesOf(front);
    AlignedChanged(a0, c0, x, y, ds, 0, 1, 1);
    OneMoreChange(cs, |a0|, |c0|);
    EndChangeIs(a0, c0, x, y, |cs|);
  }

  /** A new change behind equal lines is apart from the ones before. */
  lemma OneMoreChange(cs: seq<Chunk>, l: nat, r: nat)
    requires cs != [] && Separated(ChangesOf(cs[..|cs| - 1])) && LastEnds(cs[..|cs| - 1], l, r)
    requires |cs| > 1 ==> cs[|cs| - 2].Type() == Same
    requires cs[|cs| - 1].Type() != Same && ContextAt(cs, |cs| - 1).l0 == l && ContextAt(cs, |cs| - 1).r0 == r
    ensures ChangesOf(cs) == ChangesOf(cs[..|cs| - 1]) + [ChangeOf(ContextAt(cs, |cs| - 1))]
    ensures Separated(ChangesOf(cs))
  {
    hide ContextsOf, ContextAt;
    var front := cs[..|cs| - 1];
    assert front != [] ==> front[|front| - 1] == cs[|cs| - 2];
    ContextsStep(cs);
    LastOfFront(front);
  }

  lemma EndChangeIs(a0: seq<Line>, c0: seq<Line>, x: seq<Line>, y: seq<Line>, n: nat)
    requires n > 0
    ensures ChangeOf(Context(n - 1, n, |a0|, |a0| + |x|, |c0|, |c0| + |y|)) == EndChange(a0, c0, x, y)
  {
  }

  // ------------------------------------------------------------ reading back

  /** readin() */
  method ReadIn(es: seq<Entry>) returns (ds: seq<Change>)
    ensures |ds| == |es| && forall i | 0 <= i < |es| :: ds[i] == ReadEntry(es[i])
  {
    ds := [];
    var i := 0;
    while i < |es|
      invariant 0 <= i == |ds| <= |es| && forall k | 0 <= k < i :: ds[k] == ReadEntry(es[k])
    {
      var e := es[i];
      var a, b, c, d := e.left, e.left, e.right, e.right;
      if e.leftTo.Upto? {
        b := e.leftTo.n;
      }
      if e.rightTo.Upto? {
        d := e.rightTo.n;
      }
      if e.kind == 'a' {
        a := a + 1;
      }
      if e.kind == 'd' {
        c := c + 1;
      }
      b, d := b + 1, d + 1;
      ds := ds + [Change(Range(a, b), Range(c, d))];
      i := i + 1;
    }
  }

  /** No change has an empty side at the start of a file that is not empty. */
  predicate NoneTooFar(cs: seq<Chunk>, leftLen: nat, rightLen: nat) {
    forall i | 0 <= i < |ContextsOf(cs)| :: InPlace(ContextsOf(cs)[i], leftLen, rightLen)
  }

  predicate InPlace(x: Context, leftLen: nat, rightLen: nat) {
    TooFar(x.l0, x.l1, leftLen) == 0 && TooFar(x.r0, x.r1, rightLen) == 0
  }

  /** The list as read back. */
  ghost predicate ReadBack(ds: seq<Change>, cs: seq<Chunk>, leftLen: nat, rightLen: nat) {
    |ds| == |ContextsOf(cs)| && forall i | 0 <= i < |ds| :: ds[i] == ChangeRead(ContextsOf(cs)[i], leftLen, rightLen)
  }

  /** It is a change list exactly when nothing was read too far down. */
  lemma ReadBackIff(a: seq<Line>, c: seq<Line>, cs: seq<Chunk>, ds: seq<Change>)
    requires Script(FilesOf(a, c), cs, |a|, |c|) && ReadBack(ds, cs, |a|, |c|)
    ensures ChangeList(a, c, ds) <==> NoneTooFar(cs, |a|, |c|)
    ensures NoneTooFar(cs, |a|, |c|) ==> ds == ChangesOf(cs)
  {
    hide Script, ContextsOf, Aligned, Separated;
    if NoneTooFar(cs, |a|, |c|) {
      assert forall i | 0 <= i < |ds| :: InPlace(ContextsOf(cs)[i], |a|, |c|);
      assert ds == ChangesOf(cs);
      ScriptIsChangeList(a, c, cs);
    } else {
      var i :| 0 <= i < |ContextsOf(cs)| && !InPlace(ContextsOf(cs)[i], |a|, |c|);
      OnlyFirstAtStart(a, c, cs, i);
      if ChangeList(a, c, ds) {
        StartsLevel(a, c, ds);
        assert false;
      }
    }
  }

  /** Only the first change can start a file, and it starts both. */
  lemma OnlyFirstAtStart(a: seq<Line>, c: seq<Line>, cs: seq<Chunk>, i: nat)
    requires Script(FilesOf(a, c), cs, |a|, |c|) && i < |ContextsOf(cs)|
    requires ContextsOf(cs)[i].l0 == 0 || ContextsOf(cs)[i].r0 == 0
    ensures i == 0 && ContextsOf(cs)[i].l0 == ContextsOf(cs)[i].r0 == 0
    ensures ContextsOf(cs)[i].l1 + ContextsOf(cs)[i].r1 > 0
  {
    hide Script, ContextsOf, Separated;
    ScriptIsChangeList(a, c, cs);
    var ds := ChangesOf(cs);
    StartsLevel(a, c, ds);
    Apart(a, c, ds);
    forall k | 0 < k < |ds|
      ensures 1 < ds[k].was.from && 1 < ds[k].now.from
    {
      assert InFile(a, ds[k - 1].was) && InFile(c, ds[k - 1].now);
    }
    SomethingChanged(a, c, cs, i);
  }

  lemma {:induction false} SomethingChanged(a: seq<Line>, c: seq<Line>, cs: seq<Chunk>, i: nat)
    requires Script(FilesOf(a, c), cs, |a|, |c|) && i < |ContextsOf(cs)|
    ensures var x := ContextsOf(cs)[i]; x.l0 <= x.l1 && x.r0 <= x.r1 && x.l0 + x.r0 < x.l1 + x.r1
    decreases |cs|
  {
    hide ContextsOf, FilesOf;
    if cs == [] {
      LastOfFront(cs);
    } else {
      var last := cs[|cs| - 1];
      var front := cs[..|cs| - 1];
      FrontScript(a, c, cs);
      LastContext(cs, |a|, |c|);
      LastOfFront(front);
      ContextsStep(cs);
      if i < |ContextsOf(cs)| - 1 || last.Type() == Same {
        SomethingChanged(a[..last.leftStart], c[..last.rightStart], front, i);
      }
    }
  }

  /** The list as read is the true one but for a first change with an empty side at
      the start of a file. */
  lemma ReadIsMisread(a: seq<Line>, c: seq<Line>, cs: seq<Chunk>, ds: seq<Change>)
    requires Script(FilesOf(a, c), cs, |a|, |c|) && ReadBack(ds, cs, |a|, |c|)
    ensures TrueList(a, c, ChangesOf(cs)) && ds == AsRead(a, c, ChangesOf(cs))
  {
    hide Script, ContextsOf, ChangeList;
    ScriptIsChangeList(a, c, cs);
    forall i | 0 <= i < |ds|
      ensures i > 0 ==> ds[i] == ChangesOf(cs)[i]
    {
      if i > 0 && !InPlace(ContextsOf(cs)[i], |a|, |c|) {
        OnlyFirstAtStart(a, c, cs, i);
      }
    }
    if ds != [] {
      SomethingChanged(a, c, cs, 0);
      if ContextsOf(cs)[0].l0 == 0 || ContextsOf(cs)[0].r0 == 0 {
        OnlyFirstAtStart(a, c, cs, 0);
      }
    }
  }

  // ------------------------------------------------------------ both together

  /** diff_output_edscript() and readin(): the change list of two files. */
  method ReadChanges(a: seq<Line>, c: seq<Line>, cs: seq<Chunk>) returns (ds: seq<Change>)
    requires Script(FilesOf(a, c), cs, |a|, |c|)
    ensures ReadBack(ds, cs, |a|, |c|) && TrueList(a, c, ChangesOf(cs)) && ds == AsRead(a, c, ChangesOf(cs))
    ensures ChangeList(a, c, ds) <==> NoneTooFar(cs, |a|, |c|)
  {
    hide ContextsOf, ChangeList, NoneTooFar, TrueList;
    var es := DiffOutputEdscript(cs, |a|, |c|);
    ds := ReadIn(es);
    ReadBackIff(a, c, cs, ds);
    ReadIsMisread(a, c, cs, ds);
  }

  /** When neither list is read too far down, the merge is by the groups of the scripts'
      changes. */
  ghost predicate GroupMerge(f: Diff3.Files, m: Diff3.Marks, cs13: seq<Chunk>, cs23: seq<Chunk>,
                             r: Diff3Script.MergeResult, hs: seq<Diff3.Hunk>, gs: seq<Diff3Groups.Group>) {
    NoneTooFar(cs13, |f.f1|, |f.f3|) && NoneTooFar(cs23, |f.f2|, |f.f3|) ==>
      && (forall i | 0 <= i < |hs| :: Diff3.HunkOk(hs[i]))
      && Diff3.FileA(hs) == f.f1 && Diff3.FileO(hs) == f.f2 && Diff3.FileB(hs) == f.f3
      && Diff3.Grouped(f, ChangesOf(cs13), ChangesOf(cs23), hs, gs)
      && r == Diff3Script.Done(Diff3Script.Lines(Diff3.ResolveAll(m, hs)), Diff3.Conflicts(hs))
  }

  /** Read too far down or not: with no change in one script, the output is file 1. With
      the same changes from file 1 as from the base, and these two alike, there is no
      overlap, and the output is file 3 exactly if the changes as read add up. */
  ghost predicate AlikeMerge(f: Diff3.Files, cs13: seq<Chunk>, cs23: seq<Chunk>, r: Diff3Script.MergeResult) {
    && (ContextsOf(cs13) == [] || ContextsOf(cs23) == [] ==> r == Diff3Script.Done(Diff3Script.Lines(f.f1), 0))
    && (ContextsOf(cs13) == [] ==> f.f1 == f.f3)
    && (f.f1 == f.f2 && cs13 == cs23 ==>
          && r.Done? && r.outcome.Lines? && r.overlapcnt == 0
          && (r.outcome.ls == f.f3 <==> AddsUp(f.f1, f.f3, ChangesOf(cs13)))
          && TrueList(f.f1, f.f3, ChangesOf(cs13)) && r.outcome.ls == Taken(f.f1, f.f3, ChangesOf(cs13)))
  }

  /** got_merge_diff3() from the two scripts on. */
  method MergeScripts(f: Diff3.Files, m: Diff3.Marks, cs13: seq<Chunk>, cs23: seq<Chunk>)
    returns (r: Diff3Script.MergeResult, ghost hs: seq<Diff3.Hunk>, ghost gs: seq<Diff3Groups.Group>)
    requires Script(FilesOf(f.f1, f.f3), cs13, |f.f1|, |f.f3|) && Script(FilesOf(f.f2, f.f3), cs23, |f.f2|, |f.f3|)
    ensures GroupMerge(f, m, cs13, cs23, r, hs, gs)
    ensures AlikeMerge(f, cs13, cs23, r)
  {
    hide ContextsOf, Script, ChangeList, Aligned, NoneTooFar, TrueList, Diff3.Grouped, Readable, Lockable, Patchable,
      Patch, Before, AddsUp, Collapsed;
    var d13 := ReadChanges(f.f1, f.f3, cs13);
    var d23 := ReadChanges(f.f2, f.f3, cs23);
    ReadInOrder(f.f1, f.f3, ChangesOf(cs13));
    ReadInOrder(f.f2, f.f3, ChangesOf(cs23));
    ReadInPlace(f.f1, f.f3, cs13, d13);
    ReadInPlace(f.f2, f.f3, cs23, d23);
    TakenIff(f.f1, f.f3, ChangesOf(cs13));
    r, hs, gs := Diff3Script.MergeFiles(f, m, d13, d23);
    if ContextsOf(cs13) == [] {
      NothingChanged(f.f1, f.f3, cs13);
    }
  }

  lemma ReadInPlace(a: seq<Line>, c: seq<Line>, cs: seq<Chunk>, ds: seq<Change>)
    requires Script(FilesOf(a, c), cs, |a|, |c|) && ReadBack(ds, cs, |a|, |c|)
    ensures NoneTooFar(cs, |a|, |c|) ==> ds == ChangesOf(cs)
    ensures ds == [] <==> ContextsOf(cs) == []
  {
    ReadBackIff(a, c, cs, ds);
  }

  lemma NothingChanged(a: seq<Line>, c: seq<Line>, cs: seq<Chunk>)
    requires Script(FilesOf(a, c), cs, |a|, |c|) && ContextsOf(cs) == []
    ensures a == c
  {
    hide Script, ContextsOf;
    ScriptIsChangeList(a, c, cs);
    assert ChangesOf(cs) == [];
    Diff3Script.NoChangesNoDifference(a, c);
  }

  /** A script without an edit has no change. */
  lemma UneditedNoChange(a: seq<Line>, c: seq<Line>, cs: seq<Chunk>)
    requires Script(FilesOf(a, c), cs, |a|, |c|) && Edits(cs) == 0
    ensures ContextsOf(cs) == []
  {
    UneditedIsLevel(cs, |a|, |c|);
    NoContexts(cs);
  }

  lemma {:induction false} NoContexts(cs: seq<Chunk>)
    requires forall i | 0 <= i < |cs| :: cs[i].Type() == Same
    ensures ContextsOf(cs) == []
    decreases |cs|
  {
    if cs != [] {
      NoContexts(cs[..|cs| - 1]);
    }
  }

  lemma EqualFiles(a: seq<Line>, c: seq<Line>)
    ensures a == c ==> FilesOf(a, c).leftLen == FilesOf(a, c).rightLen && EqualUpto(FilesOf(a, c), |a|)
  {
  }

  /** got_merge_diff3() from the three files on. If one file is the same as file 3, the
      output is file 1. */
  method MergeVersions(f: Diff3.Files, m: Diff3.Marks, configs: Configs,
                       algo: Option<nat>, maxDepth: nat, ghost rank: nat -> nat)
    returns (r: Diff3Script.MergeResult, cs13: seq<Chunk>, cs23: seq<Chunk>,
             ghost hs: seq<Diff3.Hunk>, ghost gs: seq<Diff3Groups.Group>)
    requires DividersOk(FilesOf(f.f1, f.f3), configs) && DividersOk(FilesOf(f.f2, f.f3), configs)
    requires FallbacksEnd(configs, rank)
    ensures Script(FilesOf(f.f1, f.f3), cs13, |f.f1|, |f.f3|) && Script(FilesOf(f.f2, f.f3), cs23, |f.f2|, |f.f3|)
    ensures FoundBy(FilesOf(f.f1, f.f3), configs, algo, maxDepth, cs13)
    ensures FoundBy(FilesOf(f.f2, f.f3), configs, algo, maxDepth, cs23)
    ensures ShortestIfMyers(FilesOf(f.f1, f.f3), configs, rank, algo, cs13)
    ensures ShortestIfMyers(FilesOf(f.f2, f.f3), configs, rank, algo, cs23)
    ensures forall q | DividerPairs(configs, algo, WholeOf(FilesOf(f.f1, f.f3)), q) :: q in Pairs(cs13)
    ensures forall q | DividerPairs(configs, algo, WholeOf(FilesOf(f.f2, f.f3)), q) :: q in Pairs(cs23)
    ensures GroupMerge(f, m, cs13, cs23, r, hs, gs)
    ensures AlikeMerge(f, cs13, cs23, r)
    ensures f.f1 == f.f3 && DividersLevel(FilesOf(f.f1, f.f3), configs) ==>
              r == Diff3Script.Done(Diff3Script.Lines(f.f1), 0)
    ensures f.f2 == f.f3 && DividersLevel(FilesOf(f.f2, f.f3), configs) ==>
              r == Diff3Script.Done(Diff3Script.Lines(f.f1), 0)
  {
    hide DividersOk, DividersLevel, FallbacksEnd, Script, GroupMerge, AlikeMerge,
      EqualUpto, Edits, ContextsOf, FoundBy, MyersSolves, Dist, DividerPairs, Pairs;
    EqualFiles(f.f1, f.f3);
    EqualFiles(f.f2, f.f3);
    var result13 := DiffDriver.DiffMain(FilesOf(f.f1, f.f3), configs, algo, maxDepth, rank);
    cs13 := result13.chunks;
    var result23 := DiffDriver.DiffMain(FilesOf(f.f2, f.f3), configs, algo, maxDepth, rank);
    cs23 := result23.chunks;
    r, hs, gs := MergeScripts(f, m, cs13, cs23);
    if Edits(cs13) == 0 {
      UneditedNoChange(f.f1, f.f3, cs13);
    }
    if Edits(cs23) == 0 {
      UneditedNoChange(f.f2, f.f3, cs23);
    }
    OneListEmpty(f, cs13, cs23, r);
  }

  lemma OneListEmpty(f: Diff3.Files, cs13: seq<Chunk>, cs23: seq<Chunk>, r: Diff3Script.MergeResult)
    requires AlikeMerge(f, cs13, cs23, r)
    ensures ContextsOf(cs13) == [] || ContextsOf(cs23) == [] ==> r == Diff3Script.Done(Diff3Script.Lines(f.f1), 0)
  {
  }

  // ------------------------------------------------------------ where the numbering fails

  /** A line x inserted before the only line a: the script is right, but its change is
      read back as an insertion behind line 1. */
  lemma InsertedAtTheStart(cs: seq<Chunk>)
    requires cs == [Chunk(true, 0, 0, 0, 1), Chunk(true, 0, 1, 1, 1)]
    ensures Script(FilesOf(["a"], ["x", "a"]), cs, 1, 2)
    ensures ChangesOf(cs) == [Change(Range(1, 1), Range(1, 2))]
    ensures AsRead(["a"], ["x", "a"], ChangesOf(cs)) == [Change(Range(2, 2), Range(1, 2))]
  {
    var c0 := cs[0];
    assert cs[..1] == [c0] && cs[..1][..0] == [];
    ContextsStep(cs);
    ContextsStep([c0]);
    assert Pairs([c0]) == [] && Pairs(cs) == Run(0, 1, 1);
    assert Tiles([c0], 0, 0, 0, 1);
  }

  /** x deleted before line a, and y behind it changed to z: the headers 1d1 and 3c2
      are read back as a deletion behind line 1 of the new file, which is where the
      other change begins. */
  lemma DeletedAtTheStart(cs: seq<Chunk>)
    requires cs == [Chunk(true, 0, 1, 0, 0), Chunk(true, 1, 1, 0, 1), Chunk(true, 2, 1, 1, 0), Chunk(true, 3, 0, 1, 1)]
    ensures Script(FilesOf(["x", "a", "y"], ["a", "z"]), cs, 3, 2)
    ensures ChangesOf(cs) == [Change(Range(1, 2), Range(1, 1)), Change(Range(3, 4), Range(2, 3))]
    ensures AsRead(["x", "a", "y"], ["a", "z"], ChangesOf(cs))
            == [Change(Range(1, 2), Range(2, 2)), Change(Range(3, 4), Range(2, 3))]
  {
    DeletedChanges(cs);
    hide ContextsOf;
    var c0, c1, c2, c3 := cs[0], cs[1], cs[2], cs[3];
    assert cs[..3] == [c0, c1, c2] && [c0, c1, c2][..2] == [c0, c1] && [c0, c1][..1] == [c0] && [c0][..0] == [];
    assert Pairs([c0]) == [] && Pairs([c0, c1]) == Run(1, 0, 1) == [(1, 0)];
    assert Pairs([c0, c1, c2]) == [(1, 0)] && Pairs(cs) == [(1, 0)];
    assert Tiles([c0], 0, 0, 1, 0) && Tiles([c0, c1], 0, 0, 2, 1) && Tiles([c0, c1, c2], 0, 0, 3, 1);
  }

  lemma DeletedChanges(cs: seq<Chunk>)
    requires cs == [Chunk(true, 0, 1, 0, 0), Chunk(true, 1, 1, 0, 1), Chunk(true, 2, 1, 1, 0), Chunk(true, 3, 0, 1, 1)]
    ensures ChangesOf(cs) == [Change(Range(1, 2), Range(1, 1)), Change(Range(3, 4), Range(2, 3))]
  {
    hide ContextsOf;
    var c0, c1, c2, c3 := cs[0], cs[1], cs[2], cs[3];
    assert cs[..3] == [c0, c1, c2] && [c0, c1, c2][..2] == [c0, c1] && [c0, c1][..1] == [c0] && [c0][..0] == [];
    ContextsStep(cs);
    ContextsStep([c0, c1, c2]);
    ContextsStep([c0, c1]);
    ContextsStep([c0]);
    LastOfFront([]);
  }

  /** What diff3 then makes of it when nothing else has changed: line x ends up behind
      line a, and line a is lost, both without an overlap. */
  method MergeAtTheStart(m: Diff3.Marks) returns (inserted: Diff3Script.MergeResult, deleted: Diff3Script.MergeResult)
    ensures inserted == Diff3Script.Done(Diff3Script.Lines(["a", "x"]), 0)
    ensures deleted == Diff3Script.Done(Diff3Script.Lines(["z"]), 0)
  {
    var cs := [Chunk(true, 0, 0, 0, 1), Chunk(true, 0, 1, 1, 1)];
    InsertedAtTheStart(cs);
    ghost var hs, gs;
    inserted, hs, gs := MergeScripts(Diff3.Files(["a"], ["a"], ["x", "a"]), m, cs, cs);
    cs := [Chunk(true, 0, 1, 0, 0), Chunk(true, 1, 1, 0, 1), Chunk(true, 2, 1, 1, 0), Chunk(true, 3, 0, 1, 1)];
    DeletedAtTheStart(cs);
    var o := ["x", "a", "y"];
    deleted, hs, gs := MergeScripts(Diff3.Files(o, o, ["a", "z"]), m, cs, cs);
  }
}
