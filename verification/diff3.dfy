/** Three-way merge (lib/diff3.c). File 1 is the one being edited, file 2 the
  common ancestor, file 3 the other version. Change lists d13 and d23 relate
  files 1 and 2 to file 3; line numbers start at 1 and ranges are half open.
*/
module Diff3 {
  import opened Diff3Changes
  import opened Diff3Groups
  import opened Diff3Lockstep

  // ------------------------------------------------------------ hunks

  datatype Kind = Stable | First | Second | Third | Conflict

  /** One aligned piece of all three files. */
  datatype Hunk = Hunk(kind: Kind, a: seq<Line>, o: seq<Line>, b: seq<Line>, base: seq<Line>)

  /** The number of lines that are the same, in texts of one length. */
  function FirstDiff(a: seq<Line>, o: seq<Line>): (n: nat)
    requires |a| == |o|
    ensures n <= |o|
  {
    if a == [] || a[0] != o[0] then 0 else 1 + FirstDiff(a[1..], o[1..])
  }

  /** What a conflict shows of the base: nothing if file 1 has more or fewer lines there,
      else the base's lines up to the first that differs. */
  function BaseShown(a: seq<Line>, o: seq<Line>): seq<Line> {
    if |a| != |o| then [] else if FirstDiff(a, o) == |o| then o else o[..FirstDiff(a, o) + 1]
  }

  lemma {:induction false} FirstDiffIs(a: seq<Line>, o: seq<Line>, n: nat)
    requires n < |a| == |o| && a[n] != o[n] && forall i | 0 <= i < n :: a[i] == o[i]
    ensures FirstDiff(a, o) == n
    decreases n
  {
    if n > 0 {
      FirstDiffIs(a[1..], o[1..], n - 1);
    }
  }

  ghost predicate HunkOk(h: Hunk) {
    match h.kind
    case Stable => h.a == h.o == h.b
    case First => h.o == h.b
    case Second => h.a == h.b
    case Third => h.a == h.o
    case Conflict => h.a != h.o && h.base == BaseShown(h.a, h.o)
  }

  function FileA(hs: seq<Hunk>): seq<Line> { if hs == [] then [] else FileA(hs[..|hs| - 1]) + hs[|hs| - 1].a }
  function FileO(hs: seq<Hunk>): seq<Line> { if hs == [] then [] else FileO(hs[..|hs| - 1]) + hs[|hs| - 1].o }
  function FileB(hs: seq<Hunk>): seq<Line> { if hs == [] then [] else FileB(hs[..|hs| - 1]) + hs[|hs| - 1].b }

  datatype Marks = Marks(f1mark: Line, f2mark: Line, sep: Line, f3mark: Line)

  /** What a conflict looks like in the merged file. */
  function ConflictBlock(m: Marks, a: seq<Line>, base: seq<Line>, b: seq<Line>): seq<Line> {
    [m.f1mark] + a + (if base == [] then [m.sep] else [m.f2mark] + base + [m.sep]) + b + [m.f3mark]
  }

  function Resolve(m: Marks, h: Hunk): seq<Line> {
    match h.kind
    case Third => h.b
    case Conflict => ConflictBlock(m, h.a, h.base, h.b)
    case _ => h.a
  }

  function ResolveAll(m: Marks, hs: seq<Hunk>): seq<Line> {
    if hs == [] then [] else ResolveAll(m, hs[..|hs| - 1]) + Resolve(m, hs[|hs| - 1])
  }

  function Conflicts(hs: seq<Hunk>): nat {
    if hs == [] then 0 else Conflicts(hs[..|hs| - 1]) + if hs[|hs| - 1].kind == Conflict then 1 else 0
  }

  lemma HunkAdded(m: Marks, hs: seq<Hunk>, h: Hunk)
    ensures FileA(hs + [h]) == FileA(hs) + h.a && FileO(hs + [h]) == FileO(hs) + h.o
            && FileB(hs + [h]) == FileB(hs) + h.b
    ensures ResolveAll(m, hs + [h]) == ResolveAll(m, hs) + Resolve(m, h)
    ensures Conflicts(hs + [h]) == Conflicts(hs) + if h.kind == Conflict then 1 else 0
  {
    assert (hs + [h])[..|hs + [h]| - 1] == hs;
  }

  // ------------------------------------------------------------ gathered edits

  /** The lines an edit takes from the other files are there. */
  predicate EditText(f2: seq<Line>, f3: seq<Line>, e: Edit) {
    TextRange(f3, e.newo) && (e.oldo.from < e.oldo.to ==> TextRange(f2, e.oldo))
  }

  predicate EditOk(f1: seq<Line>, f2: seq<Line>, f3: seq<Line>, e: Edit) {
    InFile(f1, e.was) && EditText(f2, f3, e)
  }

  function BaseText(f2: seq<Line>, e: Edit): seq<Line>
    requires e.oldo.from < e.oldo.to ==> TextRange(f2, e.oldo)
  {
    BaseLines(f2, e.oldo)
  }

  function BaseLines(f2: seq<Line>, r: Range): seq<Line>
    requires r.from < r.to ==> TextRange(f2, r)
  {
    if r.from < r.to then f2[r.from..r.to] else []
  }

  function Replacement(m: Marks, f1: seq<Line>, f2: seq<Line>, f3: seq<Line>, e: Edit): seq<Line>
    requires EditOk(f1, f2, f3, e)
  {
    if e.overlap then ConflictBlock(m, Slice(f1, e.was.from, e.was.to), BaseText(f2, e), f3[e.newo.from..e.newo.to])
    else f3[e.newo.from..e.newo.to]
  }

  /** Edits in file order, not overlapping, all before line `upto`. */
  ghost predicate EditsOk(f1: seq<Line>, f2: seq<Line>, f3: seq<Line>, de: seq<Edit>, upto: int) {
    if de == [] then 1 <= upto <= |f1| + 1
    else
      var e := de[|de| - 1];
      && EditOk(f1, f2, f3, e) && e.was.to <= upto <= |f1| + 1
      && EditsOk(f1, f2, f3, de[..|de| - 1], e.was.from)
  }

  /** One left-to-right pass over file 1 up to line `upto`, replacing the edited
      ranges. */
  function Splice(m: Marks, f1: seq<Line>, f2: seq<Line>, f3: seq<Line>, de: seq<Edit>, upto: int): seq<Line>
    requires EditsOk(f1, f2, f3, de, upto)
  {
    if de == [] then Slice(f1, 1, upto)
    else
      var e := de[|de| - 1];
      Splice(m, f1, f2, f3, de[..|de| - 1], e.was.from) + Replacement(m, f1, f2, f3, e) + Slice(f1, e.was.to, upto)
  }

  // ------------------------------------------------------------ the walk

  datatype Files = Files(f1: seq<Line>, f2: seq<Line>, f3: seq<Line>)

  /** Where the merge is: the next change of each list, and the line of each
      file up to which all three files have been split into hunks. */
  datatype Walk = Walk(i1: nat, i2: nat, p1: int, p2: int, p3: int, over1: bool, over2: bool)

  ghost predicate Walking(f: Files, d13: seq<Change>, d23: seq<Change>, w: Walk) {
    && w.i1 <= |d13| && w.i2 <= |d23|
    && Side(f.f1, f.f3, d13, w.i1, w.p1, w.p3, w.over1)
    && Side(f.f2, f.f3, d23, w.i2, w.p2, w.p3, w.over2)
    && (w.over1 || w.over2 ==> w.i1 < |d13| && w.i2 < |d23| && d13[w.i1].now.from == d23[w.i2].now.from)
    && (w.i1 < |d13| ==> d13[w.i1].now.from <= d13[w.i1].now.to)
    && (w.i2 < |d23| ==> d23[w.i2].now.from <= d23[w.i2].now.to)
  }

  /** A change of the list da alone: the other file agrees with file c over its
      range. */
  lemma SkipChange(a: seq<Line>, da: seq<Change>, ia: nat, pa: int, overA: bool,
                   o: seq<Line>, dO: seq<Change>, io: nat, po: int, overO: bool, c: seq<Line>, pc: int)
    requires ia < |da| && io <= |dO| && da[ia].now.from <= da[ia].now.to
    requires Side(a, c, da, ia, pa, pc, overA) && Side(o, c, dO, io, po, pc, overO)
    requires overA || overO ==> io < |dO| && da[ia].now.from == dO[io].now.from
    requires io == |dO| || da[ia].now.to < dO[io].now.from
    ensures var d, k := da[ia], da[ia].now.from - pc;
            var n := d.now.to - d.now.from;
            && !overA && !overO && InFile(a, d.was) && InFile(c, d.now) && d.was.from == pa + k
            && Agree(a, c, pa, pc, k) && Agree(o, c, po, pc, k) && Agree(o, c, po + k, pc + k, n)
            && Side(a, c, da, ia + 1, d.was.to, d.now.to, false)
            && Side(o, c, dO, io, po + k + n, d.now.to, false)
  {
    hide Agree;
    var d, k := da[ia], da[ia].now.from - pc;
    var n := d.now.to - d.now.from;
    assert 0 <= k by { assert Agree(a, c, pa, pc, k); AgreeLength(a, c, pa, pc, k); }
    AlignedAdvance(o, c, dO, io, po, pc, k + n);
    AgreeSplit(o, c, po, pc, k + n, k);
  }

  lemma AgreeLength(a: seq<Line>, c: seq<Line>, pa: int, pc: int, n: int)
    requires Agree(a, c, pa, pc, n)
    ensures 0 <= n && 1 <= pa && 1 <= pc && pa + n <= |a| + 1 && pc + n <= |c| + 1
    ensures Slice(a, pa, pa + n) == Slice(c, pc, pc + n)
  {
  }

  /** A change peculiar to file 1: files 2 and 3 agree over its range. */
  lemma SkipFirst(f: Files, d13: seq<Change>, d23: seq<Change>, w: Walk)
    requires Walking(f, d13, d23, w) && w.i1 < |d13|
    requires w.i2 == |d23| || d13[w.i1].now.to < d23[w.i2].now.from
    ensures var d, k := d13[w.i1], d13[w.i1].now.from - w.p3;
            var n := d.now.to - d.now.from;
            && InFile(f.f1, d.was) && InFile(f.f3, d.now) && d.was.from == w.p1 + k
            && Agree(f.f1, f.f3, w.p1, w.p3, k) && Agree(f.f2, f.f3, w.p2, w.p3, k)
            && Agree(f.f2, f.f3, w.p2 + k, w.p3 + k, n)
            && Walking(f, d13, d23, Walk(w.i1 + 1, w.i2, d.was.to, w.p2 + k + n, d.now.to, false, false))
  {
    hide Agree, Aligned, InFile;
    SkipChange(f.f1, d13, w.i1, w.p1, w.over1, f.f2, d23, w.i2, w.p2, w.over2, f.f3, w.p3);
    NextInFile(f.f1, f.f3, d13, w.i1);
  }

  /** A change peculiar to file 2: files 1 and 3 agree over its range. */
  lemma SkipSecond(f: Files, d13: seq<Change>, d23: seq<Change>, w: Walk)
    requires Walking(f, d13, d23, w) && w.i2 < |d23|
    requires w.i1 == |d13| || d23[w.i2].now.to < d13[w.i1].now.from
    ensures var d, k := d23[w.i2], d23[w.i2].now.from - w.p3;
            var n := d.now.to - d.now.from;
            && InFile(f.f2, d.was) && InFile(f.f3, d.now) && d.was.from == w.p2 + k
            && Agree(f.f1, f.f3, w.p1, w.p3, k) && Agree(f.f2, f.f3, w.p2, w.p3, k)
            && Agree(f.f1, f.f3, w.p1 + k, w.p3 + k, n)
            && Walking(f, d13, d23, Walk(w.i1, w.i2 + 1, w.p1 + k + n, d.was.to, d.now.to, false, false))
  {
    hide Agree, Aligned, InFile;
    SkipChange(f.f2, d23, w.i2, w.p2, w.over2, f.f1, d13, w.i1, w.p1, w.over1, f.f3, w.p3);
    NextInFile(f.f2, f.f3, d23, w.i2);
  }

  /** The range after an aligned change is well formed. */
  lemma NextInFile(a: seq<Line>, c: seq<Line>, ds: seq<Change>, i: nat)
    requires i < |ds| && Aligned(a, c, ds, i + 1, ds[i].was.to, ds[i].now.to)
    ensures i + 1 < |ds| ==> ds[i + 1].now.from <= ds[i + 1].now.to
  {
  }

  /** Both lists have a change of the same range of file 3. */
  lemma Coincide(f: Files, d13: seq<Change>, d23: seq<Change>, w: Walk)
    requires Walking(f, d13, d23, w) && w.i1 < |d13| && w.i2 < |d23|
    requires w.i1 + 1 < |d13| ==> d13[w.i1].now.to < d13[w.i1 + 1].now.from
    requires w.i2 + 1 < |d23| ==> d23[w.i2].now.to < d23[w.i2 + 1].now.from
    requires d13[w.i1].now == d23[w.i2].now
    ensures var d1, d2, k := d13[w.i1], d23[w.i2], d13[w.i1].now.from - w.p3;
            && InFile(f.f1, d1.was) && InFile(f.f2, d2.was) && InFile(f.f3, d1.now)
            && d1.was.from == w.p1 + k && d2.was.from == w.p2 + k
            && Agree(f.f1, f.f3, w.p1, w.p3, k) && Agree(f.f2, f.f3, w.p2, w.p3, k)
            && Walking(f, d13, d23, Walk(w.i1 + 1, w.i2 + 1, d1.was.to, d2.was.to, d1.now.to, false, false))
  {
  }

  // ------------------------------------------------------------ splitting into hunks

  /** The hunks split all three files up to (p1, p2, p3), and resolving them
      gives what the gathered edits make of file 1 so far. */
  ghost predicate SplitUpTo(f: Files, m: Marks, hs: seq<Hunk>, de: seq<Edit>, p1: int, p2: int, p3: int) {
    && 1 <= p1 <= |f.f1| + 1 && 1 <= p2 <= |f.f2| + 1 && 1 <= p3 <= |f.f3| + 1
    && (forall i | 0 <= i < |hs| :: HunkOk(hs[i]))
    && FileA(hs) == Slice(f.f1, 1, p1) && FileO(hs) == Slice(f.f2, 1, p2) && FileB(hs) == Slice(f.f3, 1, p3)
    && EditsOk(f.f1, f.f2, f.f3, de, p1)
    && ResolveAll(m, hs) == Splice(m, f.f1, f.f2, f.f3, de, p1)
  }

  lemma SliceJoin(f: seq<Line>, p: int, q: int)
    requires 1 <= p <= q <= |f| + 1
    ensures Slice(f, 1, p) + Slice(f, p, q) == Slice(f, 1, q)
  {
  }

  lemma SpliceFurther(f: Files, m: Marks, de: seq<Edit>, p: int, q: int)
    requires EditsOk(f.f1, f.f2, f.f3, de, p) && p <= q <= |f.f1| + 1 && 1 <= p
    ensures EditsOk(f.f1, f.f2, f.f3, de, q)
    ensures Splice(m, f.f1, f.f2, f.f3, de, q) == Splice(m, f.f1, f.f2, f.f3, de, p) + Slice(f.f1, p, q)
  {
    if de == [] {
      SliceJoin(f.f1, p, q);
    } else {
      var e := de[|de| - 1];
      assert Slice(f.f1, e.was.to, p) + Slice(f.f1, p, q) == Slice(f.f1, e.was.to, q);
    }
  }

  lemma SpliceAdded(f: Files, m: Marks, de: seq<Edit>, e: Edit)
    requires EditOk(f.f1, f.f2, f.f3, e) && EditsOk(f.f1, f.f2, f.f3, de, e.was.from)
    ensures EditsOk(f.f1, f.f2, f.f3, de + [e], e.was.to)
    ensures Splice(m, f.f1, f.f2, f.f3, de + [e], e.was.to)
            == Splice(m, f.f1, f.f2, f.f3, de, e.was.from) + Replacement(m, f.f1, f.f2, f.f3, e)
  {
    assert (de + [e])[..|de + [e]| - 1] == de;
    assert Slice(f.f1, e.was.to, e.was.to) == [];
  }

  lemma FilesGrow(f: Files, m: Marks, hs: seq<Hunk>, de: seq<Edit>, p1: int, p2: int, p3: int, h: Hunk, q1: int,
                  q2: int, q3: int)
    requires SplitUpTo(f, m, hs, de, p1, p2, p3) && HunkOk(h)
    requires p1 <= q1 <= |f.f1| + 1 && p2 <= q2 <= |f.f2| + 1 && p3 <= q3 <= |f.f3| + 1
    requires h.a == Slice(f.f1, p1, q1) && h.o == Slice(f.f2, p2, q2) && h.b == Slice(f.f3, p3, q3)
    ensures forall i | 0 <= i < |hs + [h]| :: HunkOk((hs + [h])[i])
    ensures FileA(hs + [h]) == Slice(f.f1, 1, q1) && FileO(hs + [h]) == Slice(f.f2, 1, q2)
            && FileB(hs + [h]) == Slice(f.f3, 1, q3)
  {
    HunkAdded(m, hs, h);
    hide FileA, FileO, FileB, ResolveAll, HunkOk, EditsOk, Splice;
    SliceJoin(f.f1, p1, q1);
    SliceJoin(f.f2, p2, q2);
    SliceJoin(f.f3, p3, q3);
  }

  /** A hunk that keeps file 1 needs no edit. */
  lemma AddKept(f: Files, m: Marks, hs: seq<Hunk>, de: seq<Edit>, p1: int, p2: int, p3: int, h: Hunk, q1: int,
                q2: int, q3: int)
    requires SplitUpTo(f, m, hs, de, p1, p2, p3) && HunkOk(h) && h.kind in {Stable, First, Second}
    requires p1 <= q1 <= |f.f1| + 1 && p2 <= q2 <= |f.f2| + 1 && p3 <= q3 <= |f.f3| + 1
    requires h.a == Slice(f.f1, p1, q1) && h.o == Slice(f.f2, p2, q2) && h.b == Slice(f.f3, p3, q3)
    ensures SplitUpTo(f, m, hs + [h], de, q1, q2, q3)
  {
    FilesGrow(f, m, hs, de, p1, p2, p3, h, q1, q2, q3);
    HunkAdded(m, hs, h);
    SpliceFurther(f, m, de, p1, q1);
    hide FileA, FileO, FileB, ResolveAll, HunkOk, EditsOk, Splice, Slice;
  }

  /** A hunk that takes file 3, or conflicts, is one edit. */
  lemma AddEdited(f: Files, m: Marks, hs: seq<Hunk>, de: seq<Edit>, p1: int, p2: int, p3: int, h: Hunk, e: Edit,
                  q1: int, q2: int, q3: int)
    requires SplitUpTo(f, m, hs, de, p1, p2, p3) && HunkOk(h) && h.kind in {Third, Conflict}
    requires p1 <= q1 <= |f.f1| + 1 && p2 <= q2 <= |f.f2| + 1 && p3 <= q3 <= |f.f3| + 1
    requires h.a == Slice(f.f1, p1, q1) && h.o == Slice(f.f2, p2, q2) && h.b == Slice(f.f3, p3, q3)
    requires EditOk(f.f1, f.f2, f.f3, e) && e.was == Range(p1, q1) && e.newo == Range(p3 - 1, q3 - 1)
    requires e.overlap == (h.kind == Conflict) && (e.overlap ==> h.base == BaseText(f.f2, e))
    ensures SplitUpTo(f, m, hs + [h], de + [e], q1, q2, q3)
  {
    hide EditsOk, Splice;
    assert 1 <= p3 <= q3;
    FilesGrow(f, m, hs, de, p1, p2, p3, h, q1, q2, q3);
    HunkAdded(m, hs, h);
    SpliceAdded(f, m, de, e);
    assert Replacement(m, f.f1, f.f2, f.f3, e) == Resolve(m, h);
  }

  /** The agreeing lines before a change. */
  lemma AddStable(f: Files, m: Marks, hs: seq<Hunk>, de: seq<Edit>, p1: int, p2: int, p3: int, k: int)
    requires SplitUpTo(f, m, hs, de, p1, p2, p3)
    requires Agree(f.f1, f.f3, p1, p3, k) && Agree(f.f2, f.f3, p2, p3, k)
    ensures SplitUpTo(f, m, hs + [StableHunk(f, p1, k)], de, p1 + k, p2 + k, p3 + k)
  {
    hide SplitUpTo;
    AgreeLength(f.f1, f.f3, p1, p3, k);
    AgreeLength(f.f2, f.f3, p2, p3, k);
    assert Slice(f.f1, p1, p1 + k) == Slice(f.f3, p3, p3 + k) == Slice(f.f2, p2, p2 + k);
    AddKept(f, m, hs, de, p1, p2, p3, StableHunk(f, p1, k), p1 + k, p2 + k, p3 + k);
  }

  function StableHunk(f: Files, p1: int, k: int): Hunk
    requires 1 <= p1 <= p1 + k <= |f.f1| + 1
  {
    Hunk(Stable, Slice(f.f1, p1, p1 + k), Slice(f.f1, p1, p1 + k), Slice(f.f1, p1, p1 + k), [])
  }

  /** The hunk holds these ranges of the three files. */
  ghost predicate HunkIs(f: Files, h: Hunk, a: Range, o: Range, b: Range) {
    && InFile(f.f1, a) && InFile(f.f2, o) && InFile(f.f3, b)
    && h.a == Slice(f.f1, a.from, a.to) && h.o == Slice(f.f2, o.from, o.to) && h.b == Slice(f.f3, b.from, b.to)
  }

  /** Two more hunks, a stable one first. */
  ghost predicate OneMore(hs: seq<Hunk>, hs': seq<Hunk>) {
    |hs'| == |hs| + 2 && hs'[..|hs|] == hs && hs'[|hs|].kind == Stable
  }

  /** One round: a stable hunk and then hunk h, leading to walk w'. */
  ghost predicate Advanced(f: Files, m: Marks, d13: seq<Change>, d23: seq<Change>, w: Walk, w': Walk,
                           hs: seq<Hunk>, stable: Hunk, h: Hunk, de': seq<Edit>) {
    && Walking(f, d13, d23, w') && stable.kind == Stable
    && SplitUpTo(f, m, hs + [stable] + [h], de', w'.p1, w'.p2, w'.p3)
    && w.p1 <= w'.p1 && w.p2 <= w'.p2 && w.p3 <= w'.p3
  }

  lemma KeepFirst(f: Files, m: Marks, d13: seq<Change>, d23: seq<Change>, de: seq<Edit>, w: Walk, hs: seq<Hunk>)
    returns (w': Walk, stable: Hunk, h: Hunk)
    requires Walking(f, d13, d23, w) && SplitUpTo(f, m, hs, de, w.p1, w.p2, w.p3) && w.i1 < |d13|
    requires w.i2 == |d23| || d13[w.i1].now.to < d23[w.i2].now.from
    ensures Advanced(f, m, d13, d23, w, w', hs, stable, h, de)
    ensures w'.i1 == w.i1 + 1 && w'.i2 == w.i2 && h.kind == First
    ensures var d, shift := d13[w.i1], w.p2 - w.p3;
            && HunkIs(f, h, d.was, Range(d.now.from + shift, d.now.to + shift), d.now)
            && w'.p1 == d.was.to && w'.p2 == d.now.to + shift && w'.p3 == d.now.to
  {
    hide Aligned, SplitUpTo, Agree, Slice, Side;
    assert w.i1 < |d13| && w.i2 <= |d23|;
    SkipFirst(f, d13, d23, w);
    var d, k := d13[w.i1], d13[w.i1].now.from - w.p3;
    var n := d.now.to - d.now.from;
    AgreeLength(f.f1, f.f3, w.p1, w.p3, k);
    AgreeLength(f.f2, f.f3, w.p2 + k, w.p3 + k, n);
    assert Slice(f.f2, w.p2 + k, w.p2 + k + n) == Slice(f.f3, d.now.from, d.now.to);
    w' := Walk(w.i1 + 1, w.i2, d.was.to, w.p2 + k + n, d.now.to, false, false);
    stable := StableHunk(f, w.p1, k);
    h := Hunk(First, Slice(f.f1, d.was.from, d.was.to), Slice(f.f3, d.now.from, d.now.to),
              Slice(f.f3, d.now.from, d.now.to), []);
    AddStable(f, m, hs, de, w.p1, w.p2, w.p3, k);
    AddKept(f, m, hs + [stable], de, w.p1 + k, w.p2 + k, w.p3 + k, h, w'.p1, w'.p2, w'.p3);
  }

  lemma KeepSecond(f: Files, m: Marks, d13: seq<Change>, d23: seq<Change>, de: seq<Edit>, w: Walk, hs: seq<Hunk>)
    returns (w': Walk, stable: Hunk, h: Hunk)
    requires Walking(f, d13, d23, w) && SplitUpTo(f, m, hs, de, w.p1, w.p2, w.p3) && w.i2 < |d23|
    requires w.i1 == |d13| || d23[w.i2].now.to < d13[w.i1].now.from
    ensures Advanced(f, m, d13, d23, w, w', hs, stable, h, de)
    ensures w'.i1 == w.i1 && w'.i2 == w.i2 + 1 && h.kind == Second
    ensures var d, shift := d23[w.i2], w.p1 - w.p3;
            && HunkIs(f, h, Range(d.now.from + shift, d.now.to + shift), d.was, d.now)
            && w'.p1 == d.now.to + shift && w'.p2 == d.was.to && w'.p3 == d.now.to
  {
    hide Aligned, SplitUpTo, Agree, Slice, Side;
    assert w.i1 <= |d13| && w.i2 < |d23|;
    SkipSecond(f, d13, d23, w);
    var d, k := d23[w.i2], d23[w.i2].now.from - w.p3;
    var n := d.now.to - d.now.from;
    AgreeLength(f.f1, f.f3, w.p1, w.p3, k);
    AgreeLength(f.f2, f.f3, w.p2, w.p3, k);
    AgreeLength(f.f1, f.f3, w.p1 + k, w.p3 + k, n);
    assert Slice(f.f1, w.p1 + k, w.p1 + k + n) == Slice(f.f3, d.now.from, d.now.to);
    w' := Walk(w.i1, w.i2 + 1, w.p1 + k + n, d.was.to, d.now.to, false, false);
    stable := StableHunk(f, w.p1, k);
    h := Hunk(Second, Slice(f.f3, d.now.from, d.now.to), Slice(f.f2, d.was.from, d.was.to),
              Slice(f.f3, d.now.from, d.now.to), []);
    AddStable(f, m, hs, de, w.p1, w.p2, w.p3, k);
    AddKept(f, m, hs + [stable], de, w.p1 + k, w.p2 + k, w.p3 + k, h, w'.p1, w'.p2, w'.p3);
  }

  /** The base lines remembered for two ranges are the ones a conflict shows. */
  ghost predicate BaseRemembered(f: Files, r1: Range, r2: Range, oldo: Range)
    requires InFile(f.f1, r1) && InFile(f.f2, r2) && (oldo.from < oldo.to ==> TextRange(f.f2, oldo))
  {
    BaseLines(f.f2, oldo) == BaseShown(Slice(f.f1, r1.from, r1.to), Slice(f.f2, r2.from, r2.to))
  }

  lemma EditBoth(f: Files, m: Marks, d13: seq<Change>, d23: seq<Change>, de: seq<Edit>, w: Walk, hs: seq<Hunk>,
                 dpl: bool, oldo: Range)
    returns (w': Walk, stable: Hunk, h: Hunk)
    requires Walking(f, d13, d23, w) && SplitUpTo(f, m, hs, de, w.p1, w.p2, w.p3) && w.i1 < |d13| && w.i2 < |d23|
    requires w.i1 + 1 < |d13| ==> d13[w.i1].now.to < d13[w.i1 + 1].now.from
    requires w.i2 + 1 < |d23| ==> d23[w.i2].now.to < d23[w.i2 + 1].now.from
    requires d13[w.i1].now == d23[w.i2].now
    requires InFile(f.f1, d13[w.i1].was) && InFile(f.f2, d23[w.i2].was)
    requires dpl <==>
               Slice(f.f1, d13[w.i1].was.from, d13[w.i1].was.to)
               == Slice(f.f2, d23[w.i2].was.from, d23[w.i2].was.to)
    requires oldo.from < oldo.to ==> TextRange(f.f2, oldo)
    requires !dpl ==> BaseRemembered(f, d13[w.i1].was, d23[w.i2].was, oldo)
    ensures Advanced(f, m, d13, d23, w, w', hs, stable, h, de + [EditOf(d13[w.i1], dpl, oldo)])
    ensures w'.i1 == w.i1 + 1 && w'.i2 == w.i2 + 1 && w'.p3 == d13[w.i1].now.to
    ensures w'.p1 == d13[w.i1].was.to && w'.p2 == d23[w.i2].was.to
    ensures h.kind == (if dpl then Third else Conflict) && HunkIs(f, h, d13[w.i1].was, d23[w.i2].was, d13[w.i1].now)
  {
    hide Aligned, SplitUpTo, Agree, Slice, Side;
    Coincide(f, d13, d23, w);
    var d1, d2, k := d13[w.i1], d23[w.i2], d13[w.i1].now.from - w.p3;
    AgreeLength(f.f1, f.f3, w.p1, w.p3, k);
    AgreeLength(f.f2, f.f3, w.p2, w.p3, k);
    var e := EditOf(d1, dpl, oldo);
    w' := Walk(w.i1 + 1, w.i2 + 1, d1.was.to, d2.was.to, d1.now.to, false, false);
    stable := StableHunk(f, w.p1, k);
    h := Hunk(if dpl then Third else Conflict, Slice(f.f1, d1.was.from, d1.was.to),
              Slice(f.f2, d2.was.from, d2.was.to), Slice(f.f3, d1.now.from, d1.now.to), BaseText(f.f2, e));
    AddStable(f, m, hs, de, w.p1, w.p2, w.p3, k);
    AddEdited(f, m, hs + [stable], de, w.p1 + k, w.p2 + k, w.p3 + k, h, e, w'.p1, w'.p2, w'.p3);
  }

  /** What edit() records for a change. */
  function EditOf(d: Change, dpl: bool, oldo: Range): Edit {
    Edit(d.was, oldo, Range(d.now.from - 1, d.now.to - 1), !dpl)
  }

  lemma StretchKeepsSide(a: seq<Line>, c: seq<Line>, ds: seq<Change>, i: nat, pa: int, pc: int, r: Range)
    requires i < |ds| && Aligned(a, c, ds, i, pa, pc) && !Reaches(ds, i)
    requires pc <= r.from && r.to <= |c| + 1
    ensures var es := Stretched(ds, i, r);
            && Side(a, c, es, i, pa, pc, Reaches(es, i))
            && es[i].now == Range(if r.from < ds[i].now.from then r.from else ds[i].now.from, Max(r.to, ds[i].now.to))
  {
    hide Aligned;
    var t := Max(0, ds[i].now.from - r.from);
    assert 0 <= t <= ds[i].now.from - pc by { ChangeInFile(a, c, ds, i, pa, pc); }
    assert ds[i].now.to <= |c| + 1 by { ChangeInFile(a, c, ds, i, pa, pc); }
    LowerKeepsSide(a, c, ds, i, pa, pc, t);
    RaiseKeepsSide(a, c, Lowered(ds, i, t), i, pa, pc, Max(0, r.to - ds[i].now.to));
  }

  lemma ChangeInFile(a: seq<Line>, c: seq<Line>, ds: seq<Change>, i: nat, pa: int, pc: int)
    requires i < |ds| && Aligned(a, c, ds, i, pa, pc)
    ensures pc <= ds[i].now.from <= ds[i].now.to <= |c| + 1
  {
  }

  /** Two overlapping changes, each stretched over the other's range, cover the
      same range of file 3. */
  lemma StretchBoth(f: Files, d13: seq<Change>, d23: seq<Change>, w: Walk)
    requires Walking(f, d13, d23, w) && w.i1 < |d13| && w.i2 < |d23|
    requires !Reaches(d13, w.i1) && !Reaches(d23, w.i2)
    ensures var e13, e23 := Stretched(d13, w.i1, d23[w.i2].now), Stretched(d23, w.i2, d13[w.i1].now);
            && e13[w.i1].now == e23[w.i2].now
            && Walking(f, e13, e23, w.(over1 := Reaches(e13, w.i1), over2 := Reaches(e23, w.i2)))
  {
    hide Aligned;
    ChangeInFile(f.f1, f.f3, d13, w.i1, w.p1, w.p3);
    ChangeInFile(f.f2, f.f3, d23, w.i2, w.p2, w.p3);
    StretchKeepsSide(f.f1, f.f3, d13, w.i1, w.p1, w.p3, d23[w.i2].now);
    StretchKeepsSide(f.f2, f.f3, d23, w.i2, w.p2, w.p3, d13[w.i1].now);
    hide Stretched, Side;
  }

  lemma JoinFirst(f: Files, d13: seq<Change>, d23: seq<Change>, w: Walk)
    requires Walking(f, d13, d23, w) && w.i1 < |d13| && Reaches(d13, w.i1)
    requires w.over2 ==> w.i2 < |d23|
    ensures Walking(f, JoinNext(d13, w.i1), d23, w.(i1 := w.i1 + 1, over1 := false))
  {
    JoinKeepsSide(f.f1, f.f3, d13, w.i1, w.p1, w.p3, w.over1);
    JoinedInOrder(f.f1, f.f3, d13, w.i1, w.p1, w.p3, w.over1);
    hide Side;
  }

  lemma JoinSecond(f: Files, d13: seq<Change>, d23: seq<Change>, w: Walk)
    requires Walking(f, d13, d23, w) && w.i2 < |d23| && Reaches(d23, w.i2)
    ensures Walking(f, d13, JoinNext(d23, w.i2), w.(i2 := w.i2 + 1, over2 := false))
  {
    JoinKeepsSide(f.f2, f.f3, d23, w.i2, w.p2, w.p3, w.over2);
    JoinedInOrder(f.f2, f.f3, d23, w.i2, w.p2, w.p3, w.over2);
    hide Side;
  }

  lemma JoinedInOrder(a: seq<Line>, c: seq<Line>, ds: seq<Change>, i: nat, pa: int, pc: int, over: bool)
    requires i + 1 < |ds| && Side(a, c, ds, i, pa, pc, over)
    ensures ds[i].now.from <= ds[i + 1].now.to
  {
    if !over { assert Aligned(a, c, ds, i + 1, ds[i].was.to, ds[i].now.to); }
  }

  lemma StartWalk(f: Files, m: Marks, d13: seq<Change>, d23: seq<Change>)
    requires ChangeList(f.f1, f.f3, d13) && ChangeList(f.f2, f.f3, d23)
    ensures Walking(f, d13, d23, Walk(0, 0, 1, 1, 1, false, false))
    ensures SplitUpTo(f, m, [], [], 1, 1, 1)
  {
  }

  /** After the last change the three files agree to their ends. */
  lemma FinishWalk(f: Files, m: Marks, d13: seq<Change>, d23: seq<Change>, de: seq<Edit>, w: Walk, hs: seq<Hunk>)
    returns (h: Hunk)
    requires Walking(f, d13, d23, w) && SplitUpTo(f, m, hs, de, w.p1, w.p2, w.p3)
    requires w.i1 == |d13| && w.i2 == |d23|
    ensures h.kind == Stable
    ensures SplitUpTo(f, m, hs + [h], de, |f.f1| + 1, |f.f2| + 1, |f.f3| + 1)
  {
    hide SplitUpTo;
    h := StableHunk(f, w.p1, |f.f1| + 1 - w.p1);
    AddStable(f, m, hs, de, w.p1, w.p2, w.p3, |f.f1| + 1 - w.p1);
  }

  lemma WholeFile(f: seq<Line>)
    ensures Slice(f, 1, |f| + 1) == f
  {
  }

  lemma TwoHunksAdded(m: Marks, hs: seq<Hunk>, stable: Hunk, h: Hunk)
    requires stable.kind == Stable
    ensures Conflicts(hs + [stable] + [h]) == Conflicts(hs) + (if h.kind == Conflict then 1 else 0)
    ensures OneMore(hs, hs + [stable] + [h]) && (hs + [stable] + [h])[|hs| + 1] == h
  {
    hide Conflicts, ResolveAll, FileA, FileO, FileB;
    HunkAdded(m, hs, stable);
    HunkAdded(m, hs + [stable], h);
  }

  /** What merge() keeps true between two rounds of its loop over true change lists. */
  ghost predicate Round(f: Files, m: Marks, d13: seq<Change>, d23: seq<Change>, de: seq<Edit>, n: nat,
                        w: Walk, hs: seq<Hunk>) {
    && Walking(f, d13, d23, w) && SplitUpTo(f, m, hs, de, w.p1, w.p2, w.p3) && Conflicts(hs) == n
  }

  function Work(d13: seq<Change>, i1: nat, d23: seq<Change>, i2: nat): int {
    2 * (|d13| - i1 + |d23| - i2) + if i1 < |d13| && i2 < |d23| && d13[i1].now == d23[i2].now then 0 else 1
  }

  lemma NextIsRange(f: Files, d13: seq<Change>, d23: seq<Change>, w: Walk)
    requires Walking(f, d13, d23, w)
    ensures w.i1 <= |d13| && w.i2 <= |d23|
    ensures w.i1 < |d13| ==> d13[w.i1].now.from <= d13[w.i1].now.to
    ensures w.i2 < |d23| ==> d23[w.i2].now.from <= d23[w.i2].now.to
  {
  }

  lemma RoundRanges(f: Files, m: Marks, d13: seq<Change>, d23: seq<Change>, de: seq<Edit>, n: nat, w: Walk,
                    hs: seq<Hunk>)
    requires Round(f, m, d13, d23, de, n, w, hs)
    ensures w.i1 < |d13| ==> d13[w.i1].now.from <= d13[w.i1].now.to
    ensures w.i2 < |d23| ==> d23[w.i2].now.from <= d23[w.i2].now.to
  {
    NextIsRange(f, d13, d23, w);
  }

  lemma RoundFirst(f: Files, m: Marks, d13: seq<Change>, d23: seq<Change>, de: seq<Edit>, n: nat, w: Walk,
                   hs: seq<Hunk>)
    returns (w': Walk, hs': seq<Hunk>)
    requires Round(f, m, d13, d23, de, n, w, hs) && w.i1 < |d13|
    requires w.i2 == |d23| || d13[w.i1].now.to < d23[w.i2].now.from
    ensures Round(f, m, d13, d23, de, n, w', hs') && w'.i1 == w.i1 + 1 && w'.i2 == w.i2 && OneMore(hs, hs')
    ensures var d, shift, h := d13[w.i1], w.p2 - w.p3, hs'[|hs| + 1];
            && h.kind == First && HunkIs(f, h, d.was, Range(d.now.from + shift, d.now.to + shift), d.now)
            && w'.p1 == d.was.to && w'.p2 == d.now.to + shift && w'.p3 == d.now.to
    ensures w.p1 <= w'.p1 && w.p2 <= w'.p2 && w.p3 <= w'.p3
  {
    hide Walking, SplitUpTo, Separated, HunkIs, Conflicts, OneMore;
    NextIsRange(f, d13, d23, w);
    var stable, h;
    w', stable, h := KeepFirst(f, m, d13, d23, de, w, hs);
    TwoHunksAdded(m, hs, stable, h);
    hs' := hs + [stable] + [h];
  }

  lemma RoundSecond(f: Files, m: Marks, d13: seq<Change>, d23: seq<Change>, de: seq<Edit>, n: nat, w: Walk,
                    hs: seq<Hunk>)
    returns (w': Walk, hs': seq<Hunk>)
    requires Round(f, m, d13, d23, de, n, w, hs) && w.i2 < |d23|
    requires w.i1 == |d13| || d23[w.i2].now.to < d13[w.i1].now.from
    ensures Round(f, m, d13, d23, de, n, w', hs') && w'.i1 == w.i1 && w'.i2 == w.i2 + 1 && OneMore(hs, hs')
    ensures var d, shift, h := d23[w.i2], w.p1 - w.p3, hs'[|hs| + 1];
            && h.kind == Second && HunkIs(f, h, Range(d.now.from + shift, d.now.to + shift), d.was, d.now)
            && w'.p1 == d.now.to + shift && w'.p2 == d.was.to && w'.p3 == d.now.to
    ensures w.p1 <= w'.p1 && w.p2 <= w'.p2 && w.p3 <= w'.p3
  {
    hide Walking, SplitUpTo, Separated, HunkIs, Conflicts, OneMore;
    NextIsRange(f, d13, d23, w);
    var stable, h;
    w', stable, h := KeepSecond(f, m, d13, d23, de, w, hs);
    TwoHunksAdded(m, hs, stable, h);
    hs' := hs + [stable] + [h];
  }

  lemma RoundBoth(f: Files, m: Marks, d13: seq<Change>, d23: seq<Change>, de: seq<Edit>, n: nat, w: Walk,
                  hs: seq<Hunk>,
                  dpl: bool, oldo: Range)
    returns (w': Walk, hs': seq<Hunk>)
    requires Round(f, m, d13, d23, de, n, w, hs) && w.i1 < |d13| && w.i2 < |d23|
    requires !Reaches(d13, w.i1) && !Reaches(d23, w.i2) && d13[w.i1].now == d23[w.i2].now
    requires InFile(f.f1, d13[w.i1].was) && InFile(f.f2, d23[w.i2].was)
    requires dpl <==>
               Slice(f.f1, d13[w.i1].was.from, d13[w.i1].was.to)
               == Slice(f.f2, d23[w.i2].was.from, d23[w.i2].was.to)
    requires oldo.from < oldo.to ==> TextRange(f.f2, oldo)
    requires !dpl ==> BaseRemembered(f, d13[w.i1].was, d23[w.i2].was, oldo)
    ensures Round(f, m, d13, d23, de + [EditOf(d13[w.i1], dpl, oldo)], n + (if dpl then 0 else 1), w', hs')
    ensures w'.i1 == w.i1 + 1 && w'.i2 == w.i2 + 1 && w'.p3 == d13[w.i1].now.to
    ensures w'.p1 == d13[w.i1].was.to && w'.p2 == d23[w.i2].was.to && OneMore(hs, hs')
    ensures hs'[|hs| + 1].kind == (if dpl then Third else Conflict)
    ensures HunkIs(f, hs'[|hs| + 1], d13[w.i1].was, d23[w.i2].was, d13[w.i1].now)
  {
    hide Walking, SplitUpTo, Separated, Slice, HunkIs, Conflicts, OneMore;
    var stable, h;
    w', stable, h := EditBoth(f, m, d13, d23, de, w, hs, dpl, oldo);
    TwoHunksAdded(m, hs, stable, h);
    hs' := hs + [stable] + [h];
  }

  lemma RoundJoinFirst(f: Files, m: Marks, d13: seq<Change>, d23: seq<Change>, de: seq<Edit>, n: nat, w: Walk,
                       hs: seq<Hunk>)
    requires Round(f, m, d13, d23, de, n, w, hs) && w.i1 < |d13| && w.i2 < |d23| && Reaches(d13, w.i1)
    ensures Round(f, m, JoinNext(d13, w.i1), d23, de, n, w.(i1 := w.i1 + 1, over1 := false), hs)
  {
    hide Walking, SplitUpTo;
    JoinFirst(f, d13, d23, w);
  }

  lemma RoundJoinSecond(f: Files, m: Marks, d13: seq<Change>, d23: seq<Change>, de: seq<Edit>, n: nat, w: Walk,
                        hs: seq<Hunk>)
    requires Round(f, m, d13, d23, de, n, w, hs) && w.i1 < |d13| && w.i2 < |d23| && Reaches(d23, w.i2)
    ensures Round(f, m, d13, JoinNext(d23, w.i2), de, n, w.(i2 := w.i2 + 1, over2 := false), hs)
  {
    hide Walking, SplitUpTo;
    JoinSecond(f, d13, d23, w);
  }

  lemma RoundStretch(f: Files, m: Marks, d13: seq<Change>, d23: seq<Change>, de: seq<Edit>, n: nat, w: Walk,
                     hs: seq<Hunk>)
    requires Round(f, m, d13, d23, de, n, w, hs) && w.i1 < |d13| && w.i2 < |d23|
    requires !Reaches(d13, w.i1) && !Reaches(d23, w.i2) && d13[w.i1].now != d23[w.i2].now
    ensures var e13, e23 := Stretched(d13, w.i1, d23[w.i2].now), Stretched(d23, w.i2, d13[w.i1].now);
            && e13[w.i1].now == e23[w.i2].now
            && Round(f, m, e13, e23, de, n, w.(over1 := Reaches(e13, w.i1), over2 := Reaches(e23, w.i2)), hs)
  {
    hide Walking, SplitUpTo;
    StretchBoth(f, d13, d23, w);
    hide Stretched;
  }

  lemma RoundCoincide(f: Files, m: Marks, d13: seq<Change>, d23: seq<Change>, de: seq<Edit>, n: nat, w: Walk,
                      hs: seq<Hunk>)
    requires Round(f, m, d13, d23, de, n, w, hs) && w.i1 < |d13| && w.i2 < |d23|
    requires !Reaches(d13, w.i1) && !Reaches(d23, w.i2) && d13[w.i1].now == d23[w.i2].now
    ensures InFile(f.f1, d13[w.i1].was) && InFile(f.f2, d23[w.i2].was) && InFile(f.f3, d13[w.i1].now)
    ensures w.p1 <= d13[w.i1].was.from && w.p2 <= d23[w.i2].was.from && w.p3 <= d13[w.i1].now.from
  {
    hide SplitUpTo;
    Coincide(f, d13, d23, w);
    AgreeLength(f.f1, f.f3, w.p1, w.p3, d13[w.i1].now.from - w.p3);
  }

  lemma RoundStart(f: Files, m: Marks, d13: seq<Change>, d23: seq<Change>)
    requires ChangeList(f.f1, f.f3, d13) && ChangeList(f.f2, f.f3, d23)
    ensures Round(f, m, d13, d23, [], 0, Walk(0, 0, 1, 1, 1, false, false), [])
  {
    StartWalk(f, m, d13, d23);
  }

  /** What the merge promises about its hunks and edits. */
  ghost predicate Merged(f: Files, m: Marks, de: seq<Edit>, n: nat, hs: seq<Hunk>) {
    && (forall i | 0 <= i < |hs| :: HunkOk(hs[i]))
    && FileA(hs) == f.f1 && FileO(hs) == f.f2 && FileB(hs) == f.f3
    && EditsOk(f.f1, f.f2, f.f3, de, |f.f1| + 1)
    && ResolveAll(m, hs) == Splice(m, f.f1, f.f2, f.f3, de, |f.f1| + 1)
    && Conflicts(hs) == n
  }

  lemma RoundEnd(f: Files, m: Marks, d13: seq<Change>, d23: seq<Change>, de: seq<Edit>, n: nat, w: Walk,
                 hs: seq<Hunk>)
    returns (hs': seq<Hunk>)
    requires Round(f, m, d13, d23, de, n, w, hs) && w.i1 == |d13| && w.i2 == |d23|
    ensures Merged(f, m, de, n, hs') && |hs'| == |hs| + 1 && hs'[..|hs|] == hs && hs'[|hs|].kind == Stable
  {
    hide Walking, SplitUpTo, Separated;
    var h := FinishWalk(f, m, d13, d23, de, w, hs);
    HunkAdded(m, hs, h);
    hs' := hs + [h];
    FinalSplit(f, m, hs', de);
  }

  lemma FinalSplit(f: Files, m: Marks, hs: seq<Hunk>, de: seq<Edit>)
    requires SplitUpTo(f, m, hs, de, |f.f1| + 1, |f.f2| + 1, |f.f3| + 1)
    ensures Merged(f, m, de, Conflicts(hs), hs)
  {
    WholeFile(f.f1);
    WholeFile(f.f2);
    WholeFile(f.f3);
  }

  lemma SliceIs(f: seq<Line>, r: Range)
    requires InFile(f, r)
    ensures var s := Slice(f, r.from, r.to);
            |s| == r.to - r.from && forall i | 0 <= i < |s| :: s[i] == f[r.from - 1 + i]
  {
  }

  lemma SlicesDiffer(a: seq<Line>, r1: Range, o: seq<Line>, r2: Range, n: nat)
    requires InFile(a, r1) && InFile(o, r2) && n < r1.to - r1.from == r2.to - r2.from
    requires SameLines(a, r1.from - 1, o, r2.from - 1, n) && !SameLine(a, r1.from - 1, o, r2.from - 1, n)
    ensures Slice(a, r1.from, r1.to) != Slice(o, r2.from, r2.to)
    ensures o[r2.from - 1..r2.from - 1 + n + 1] == BaseShown(Slice(a, r1.from, r1.to), Slice(o, r2.from, r2.to))
  {
    var x, y := Slice(a, r1.from, r1.to), Slice(o, r2.from, r2.to);
    assert x[n] != y[n];
    forall i | 0 <= i < n
      ensures x[i] == y[i]
    {
      assert SameLine(a, r1.from - 1, o, r2.from - 1, i);
    }
    FirstDiffIs(x, y, n);
  }

  lemma SlicesEqual(a: seq<Line>, r1: Range, o: seq<Line>, r2: Range, n: nat)
    requires InFile(a, r1) && InFile(o, r2) && r1.to - r1.from == r2.to - r2.from == n
    requires SameLines(a, r1.from - 1, o, r2.from - 1, n)
    ensures Slice(a, r1.from, r1.to) == Slice(o, r2.from, r2.to)
  {
    forall i | 0 <= i < n
      ensures Slice(a, r1.from, r1.to)[i] == Slice(o, r2.from, r2.to)[i]
    {
      assert SameLine(a, r1.from - 1, o, r2.from - 1, i);
    }
  }

  /** Is the line i lines on there in both files, and the same? */
  predicate SameLine(a: seq<Line>, at1: nat, o: seq<Line>, at2: nat, i: nat) {
    at1 + i < |a| && at2 + i < |o| && a[at1 + i] == o[at2 + i]
  }

  ghost predicate SameLines(a: seq<Line>, at1: nat, o: seq<Line>, at2: nat, n: int) {
    forall i | 0 <= i < n :: SameLine(a, at1, o, at2, i)
  }

  /** The loop of duplicate(): where the two files differ in the next n lines, if they
      do, or run out of lines. */
  method CompareLines(a: seq<Line>, at1: nat, o: seq<Line>, at2: nat, n: int) returns (eof: bool, dpl: bool, nline: nat)
    ensures dpl <==> SameLines(a, at1, o, at2, n)
    ensures SameLines(a, at1, o, at2, nline)
    ensures eof ==> !dpl && nline < n && (at1 + nline >= |a| || at2 + nline >= |o|)
    ensures !eof && !dpl ==>
              nline < n && at1 + nline < |a| && at2 + nline < |o| && a[at1 + nline] != o[at2 + nline]
  {
    nline := 0;
    while nline < n
      invariant nline <= n || nline == 0
      invariant forall i | 0 <= i < nline :: SameLine(a, at1, o, at2, i)
    {
      if at1 + nline >= |a| || at2 + nline >= |o| {
        assert !SameLine(a, at1, o, at2, nline);
        return true, false, nline;
      }
      if a[at1 + nline] != o[at2 + nline] {
        assert !SameLine(a, at1, o, at2, nline);
        return false, false, nline;
      }
      nline := nline + 1;
    }
    return false, true, nline;
  }

  lemma ComparedRanges(a: seq<Line>, r1: Range, o: seq<Line>, r2: Range, dpl: bool, nline: nat)
    requires InFile(a, r1) && InFile(o, r2) && r1.to - r1.from == r2.to - r2.from
    requires dpl <==> SameLines(a, r1.from - 1, o, r2.from - 1, r1.to - r1.from)
    requires !dpl ==> nline < r1.to - r1.from && !SameLine(a, r1.from - 1, o, r2.from - 1, nline)
    requires SameLines(a, r1.from - 1, o, r2.from - 1, nline)
    ensures dpl <==> Slice(a, r1.from, r1.to) == Slice(o, r2.from, r2.to)
    ensures !dpl ==>
              o[r2.from - 1..r2.from - 1 + nline + 1] == BaseShown(Slice(a, r1.from, r1.to), Slice(o, r2.from, r2.to))
  {
    hide Slice;
    if dpl {
      SlicesEqual(a, r1, o, r2, r1.to - r1.from);
    } else {
      SlicesDiffer(a, r1, o, r2, nline);
    }
  }

  // ------------------------------------------------------------ hunks and groups

  /** The hunk a group of changes becomes: kept when only one list has changes
      there, and otherwise taken from file 3 or a conflict. */
  ghost predicate HunkOfGroup(f: Files, d13: seq<Change>, d23: seq<Change>, g: Group, h: Hunk)
    requires g.i1 <= g.j1 <= |d13| && g.i2 <= g.j2 <= |d23|
  {
    && HunkIs(f, h, Was(d13, g.i1, g.j1, g.r), Was(d23, g.i2, g.j2, g.r), g.r)
    && h.kind == if g.i2 == g.j2 then First else if g.i1 == g.j1 then Second else if h.a == h.o then Third else Conflict
  }

  function End1(gs: seq<Group>): nat { if gs == [] then 0 else gs[|gs| - 1].j1 }
  function End2(gs: seq<Group>): nat { if gs == [] then 0 else gs[|gs| - 1].j2 }

  /** Group t follows the groups before it, and is hunk 2 * t + 1, behind a stable one. */
  ghost predicate GroupAt(f: Files, d13: seq<Change>, d23: seq<Change>, hs: seq<Hunk>, gs: seq<Group>, t: nat)
    requires t < |gs| && 2 * t + 1 < |hs|
  {
    && hs[2 * t].kind == Stable && IsGroup(d13, d23, gs[t]) && HunkOfGroup(f, d13, d23, gs[t], hs[2 * t + 1])
    && gs[t].i1 == (if t == 0 then 0 else gs[t - 1].j1) && gs[t].i2 == (if t == 0 then 0 else gs[t - 1].j2)
  }

  ghost predicate GroupedSoFar(f: Files, d13: seq<Change>, d23: seq<Change>, hs: seq<Hunk>, gs: seq<Group>) {
    |hs| == 2 * |gs| && forall t | 0 <= t < |gs| :: GroupAt(f, d13, d23, hs, gs, t)
  }

  /** The hunks are the groups of the two change lists, all of them and in order,
      with stable hunks around them. */
  ghost predicate Grouped(f: Files, d13: seq<Change>, d23: seq<Change>, hs: seq<Hunk>, gs: seq<Group>) {
    && |hs| == 2 * |gs| + 1 && hs[2 * |gs|].kind == Stable
    && (forall t | 0 <= t < |gs| :: GroupAt(f, d13, d23, hs, gs, t))
    && End1(gs) == |d13| && End2(gs) == |d23|
  }

  /** The walk and the groups so far: d13 and d23 as they are now, e13 and e23 as
      they were. */
  ghost predicate Gathering(f: Files, d13: seq<Change>, d23: seq<Change>, e13: seq<Change>, e23: seq<Change>,
                            w: Walk, hs: seq<Hunk>, gs: seq<Group>, last: int) {
    && Collecting(d13, d23, e13, e23, w.i1, w.i2, End1(gs), End2(gs), last)
    && GroupedSoFar(f, e13, e23, hs, gs)
    && End1(gs) <= |e13| && w.p1 - w.p3 == Off(e13, End1(gs))
    && End2(gs) <= |e23| && w.p2 - w.p3 == Off(e23, End2(gs))
  }

  lemma GatheringStarts(f: Files, d13: seq<Change>, d23: seq<Change>)
    requires ChangeList(f.f1, f.f3, d13) && ChangeList(f.f2, f.f3, d23)
    ensures Gathering(f, d13, d23, d13, d23, Walk(0, 0, 1, 1, 1, false, false), [], [], 0)
  {
    hide Listed, ChangeList;
    ChangesAreListed(f.f1, f.f3, d13);
    ChangesAreListed(f.f2, f.f3, d23);
    CollectingStarts(d13, d23);
  }

  lemma GroupAdded(f: Files, e13: seq<Change>, e23: seq<Change>, hs: seq<Hunk>, hs': seq<Hunk>, gs: seq<Group>,
                   g: Group)
    requires GroupedSoFar(f, e13, e23, hs, gs) && OneMore(hs, hs') && g.i1 == End1(gs) && g.i2 == End2(gs)
    requires IsGroup(e13, e23, g) && g.i1 <= g.j1 <= |e13| && g.i2 <= g.j2 <= |e23|
             && HunkOfGroup(f, e13, e23, g, hs'[|hs| + 1])
    ensures GroupedSoFar(f, e13, e23, hs', gs + [g])
  {
    hide IsGroup, HunkOfGroup;
    var gs' := gs + [g];
    forall t | 0 <= t < |gs'|
      ensures GroupAt(f, e13, e23, hs', gs', t)
    {
      if t < |gs| {
        assert GroupAt(f, e13, e23, hs, gs, t);
        assert hs'[2 * t] == hs[2 * t] && hs'[2 * t + 1] == hs[2 * t + 1];
      }
    }
  }

  lemma GatheredFirst(f: Files, d13: seq<Change>, d23: seq<Change>, e13: seq<Change>, e23: seq<Change>,
                      w: Walk, hs: seq<Hunk>, gs: seq<Group>, last: int, w': Walk, hs': seq<Hunk>) returns (g: Group)
    requires Gathering(f, d13, d23, e13, e23, w, hs, gs, last) && w.i1 < |d13| && OneMore(hs, hs')
    requires w.i2 < |d23| ==> d13[w.i1].now.to < d23[w.i2].now.from && d13[w.i1].now.from <= d13[w.i1].now.to
    requires w'.i1 == w.i1 + 1 && w'.i2 == w.i2
    requires var d, shift, h := d13[w.i1], w.p2 - w.p3, hs'[|hs| + 1];
             && h.kind == First && HunkIs(f, h, d.was, Range(d.now.from + shift, d.now.to + shift), d.now)
             && w'.p1 == d.was.to && w'.p2 == d.now.to + shift && w'.p3 == d.now.to
    ensures Gathering(f, d13, d23, e13, e23, w', hs', gs + [g], w'.p3)
  {
    hide Collecting, IsGroup, GroupedSoFar, HunkIs;
    FirstAlone(d13, d23, e13, e23, w.i1, w.i2, End1(gs), End2(gs), last);
    WasAlone(d13, d23, e13, e23, w.i1, w.i2, End1(gs), End2(gs), last);
    g := Group(w.i1, w.i1 + 1, w.i2, w.i2, e13[w.i1].now);
    GroupAdded(f, e13, e23, hs, hs', gs, g);
  }

  /** A change that was not joined or stretched is where its list says. */
  lemma WasAlone(d13: seq<Change>, d23: seq<Change>, e13: seq<Change>, e23: seq<Change>,
                 i1: nat, i2: nat, g1: nat, g2: nat, last: int)
    requires Collecting(d13, d23, e13, e23, i1, i2, g1, g2, last) && g1 == i1 && g2 == i2
    ensures |d13| == |e13| && |d23| == |e23| && i1 <= |e13| && i2 <= |e23|
    ensures i1 < |e13| ==> e13[i1].was == Was(e13, i1, i1 + 1, e13[i1].now)
    ensures i2 < |e23| ==> e23[i2].was == Was(e23, i2, i2 + 1, e23[i2].now)
  {
    hide AllCovered, Separated;
  }

  lemma GatheredSecond(f: Files, d13: seq<Change>, d23: seq<Change>, e13: seq<Change>, e23: seq<Change>,
                       w: Walk, hs: seq<Hunk>, gs: seq<Group>, last: int, w': Walk, hs': seq<Hunk>) returns (g: Group)
    requires Gathering(f, d13, d23, e13, e23, w, hs, gs, last) && w.i2 < |d23| && OneMore(hs, hs')
    requires w.i1 < |d13| ==> d23[w.i2].now.to < d13[w.i1].now.from && d23[w.i2].now.from <= d23[w.i2].now.to
    requires w'.i1 == w.i1 && w'.i2 == w.i2 + 1
    requires var d, shift, h := d23[w.i2], w.p1 - w.p3, hs'[|hs| + 1];
             && h.kind == Second && HunkIs(f, h, Range(d.now.from + shift, d.now.to + shift), d.was, d.now)
             && w'.p1 == d.now.to + shift && w'.p2 == d.was.to && w'.p3 == d.now.to
    ensures Gathering(f, d13, d23, e13, e23, w', hs', gs + [g], w'.p3)
  {
    hide Collecting, IsGroup, GroupedSoFar, HunkIs;
    SecondAlone(d13, d23, e13, e23, w.i1, w.i2, End1(gs), End2(gs), last);
    WasAlone(d13, d23, e13, e23, w.i1, w.i2, End1(gs), End2(gs), last);
    g := Group(w.i1, w.i1, w.i2, w.i2 + 1, e23[w.i2].now);
    GroupAdded(f, e13, e23, hs, hs', gs, g);
  }

  lemma GatheredBoth(f: Files, d13: seq<Change>, d23: seq<Change>, e13: seq<Change>, e23: seq<Change>,
                     w: Walk, hs: seq<Hunk>, gs: seq<Group>, last: int, w': Walk, hs': seq<Hunk>) returns (g: Group)
    requires Gathering(f, d13, d23, e13, e23, w, hs, gs, last) && w.i1 < |d13| && w.i2 < |d23| && OneMore(hs, hs')
    requires !Reaches(d13, w.i1) && !Reaches(d23, w.i2) && d13[w.i1].now == d23[w.i2].now
    requires w'.i1 == w.i1 + 1 && w'.i2 == w.i2 + 1
    requires w'.p1 == d13[w.i1].was.to && w'.p2 == d23[w.i2].was.to && w'.p3 == d13[w.i1].now.to
    requires var h := hs'[|hs| + 1];
             && h.kind == (if h.a == h.o then Third else Conflict)
             && HunkIs(f, h, d13[w.i1].was, d23[w.i2].was, d13[w.i1].now)
    ensures Gathering(f, d13, d23, e13, e23, w', hs', gs + [g], w'.p3)
  {
    hide Collecting, IsGroup, GroupedSoFar, HunkIs;
    SameLengths(d13, d23, e13, e23, w.i1, w.i2, End1(gs), End2(gs), last);
    InOrder(f, hs'[|hs| + 1], d13[w.i1].was, d23[w.i2].was, d13[w.i1].now);
    GroupComplete(d13, d23, e13, e23, w.i1, w.i2, End1(gs), End2(gs), last);
    g := Group(End1(gs), w.i1 + 1, End2(gs), w.i2 + 1, d13[w.i1].now);
    GroupAdded(f, e13, e23, hs, hs', gs, g);
  }

  lemma BothHunk(f: Files, h: Hunk, a: Range, o: Range, b: Range)
    requires HunkIs(f, h, a, o, b)
    ensures InFile(f.f1, a) && InFile(f.f2, o)
    ensures h.a == Slice(f.f1, a.from, a.to) && h.o == Slice(f.f2, o.from, o.to)
  {
  }

  lemma InOrder(f: Files, h: Hunk, a: Range, o: Range, b: Range)
    requires HunkIs(f, h, a, o, b)
    ensures b.from <= b.to
  {
  }

  lemma AllGrouped(f: Files, d13: seq<Change>, d23: seq<Change>, e13: seq<Change>, e23: seq<Change>,
                   w: Walk, hs: seq<Hunk>, gs: seq<Group>, last: int, h: Hunk)
    requires Gathering(f, d13, d23, e13, e23, w, hs, gs, last) && w.i1 == |d13| && w.i2 == |d23| && h.kind == Stable
    ensures Grouped(f, e13, e23, hs + [h], gs)
  {
    hide IsGroup, HunkOfGroup, Listed;
    var hs' := hs + [h];
    forall t | 0 <= t < |gs|
      ensures GroupAt(f, e13, e23, hs', gs, t)
    {
      assert GroupAt(f, e13, e23, hs, gs, t);
      assert hs'[2 * t] == hs[2 * t] && hs'[2 * t + 1] == hs[2 * t + 1];
    }
  }

  /** Only groups with changes of both lists can conflict, and they do unless the
      changes of file 1 left the lines of file 2 as they were. */
  lemma ConflictsAreMixed(f: Files, d13: seq<Change>, d23: seq<Change>, hs: seq<Hunk>, gs: seq<Group>)
    requires Grouped(f, d13, d23, hs, gs)
    ensures Conflicts(hs) == 0 <==>
            forall t | 0 <= t < |gs| && gs[t].i1 < gs[t].j1 && gs[t].i2 < gs[t].j2 :: hs[2 * t + 1].a == hs[2 * t + 1].o
  {
    hide IsGroup, HunkIs;
    NoConflict(hs);
    forall t | 0 <= t < |gs|
      ensures hs[2 * t].kind == Stable && MixedHunk(gs[t], hs[2 * t + 1])
    {
      assert GroupAt(f, d13, d23, hs, gs, t);
      GroupAtMixed(f, d13, d23, hs, gs, t);
    }
    if exists i :: 0 <= i < |hs| && hs[i].kind == Conflict {
      var i :| 0 <= i < |hs| && hs[i].kind == Conflict;
      var t := i / 2;
      assert i == 2 * t || i == 2 * t + 1;
      assert MixedHunk(gs[t], hs[2 * t + 1]);
    } else {
      forall t | 0 <= t < |gs| && gs[t].i1 < gs[t].j1 && gs[t].i2 < gs[t].j2
        ensures hs[2 * t + 1].a == hs[2 * t + 1].o
      {
        assert MixedHunk(gs[t], hs[2 * t + 1]);
      }
    }
  }

  predicate MixedHunk(g: Group, h: Hunk) {
    h.kind == Conflict <==> g.i1 < g.j1 && g.i2 < g.j2 && h.a != h.o
  }

  lemma GroupAtMixed(f: Files, d13: seq<Change>, d23: seq<Change>, hs: seq<Hunk>, gs: seq<Group>, t: nat)
    requires t < |gs| && 2 * t + 1 < |hs| && GroupAt(f, d13, d23, hs, gs, t)
    ensures hs[2 * t].kind == Stable && MixedHunk(gs[t], hs[2 * t + 1])
  {
    hide HunkIs, AllCovered, Within, Apart;
  }

  lemma {:induction false} NoConflict(hs: seq<Hunk>)
    ensures Conflicts(hs) == 0 <==> forall i | 0 <= i < |hs| :: hs[i].kind != Conflict
    decreases |hs|
  {
    if hs != [] {
      NoConflict(hs[..|hs| - 1]);
    }
  }

  /** A conflict has a change of file 1 and one of file 2 that touch. */
  lemma ConflictTouches(f: Files, d13: seq<Change>, d23: seq<Change>, hs: seq<Hunk>, gs: seq<Group>)
    returns (k: nat, l: nat)
    requires ChangeList(f.f1, f.f3, d13) && ChangeList(f.f2, f.f3, d23) && Grouped(f, d13, d23, hs, gs)
             && Conflicts(hs) != 0
    ensures k < |d13| && l < |d23| && Touch(d13[k].now, d23[l].now)
  {
    hide IsGroup, Listed, ChangeList, HunkOfGroup;
    ChangesAreListed(f.f1, f.f3, d13);
    ChangesAreListed(f.f2, f.f3, d23);
    ConflictsAreMixed(f, d13, d23, hs, gs);
    var t :| 0 <= t < |gs| && gs[t].i1 < gs[t].j1 && gs[t].i2 < gs[t].j2 && hs[2 * t + 1].a != hs[2 * t + 1].o;
    assert GroupAt(f, d13, d23, hs, gs, t);
    k, l := MixedGroupTouches(d13, d23, gs[t]);
  }

  // ------------------------------------------------------------ any lists in order

  lemma BothReady(c: seq<Line>, d13: seq<Change>, d23: seq<Change>)
    requires Readable(c, d13) && Readable(c, d23)
    ensures ReadyFrom(d13, 0, 0, |c|) && ReadyFrom(d23, 0, 0, |c|)
  {
  }

  lemma FirstInFile(a: seq<Line>, e: seq<Change>)
    ensures Lockable(a, e) && e != [] ==> e[0].was.from >= 1
  {
  }

  lemma NextReady(ds: seq<Change>, i: nat, line: int, n: nat)
    requires ReadyFrom(ds, i, line, n) && i < |ds|
    ensures line < ds[i].now.from <= ds[i].now.to <= n + 1
  {
  }

  lemma JoinedNext(ds: seq<Change>, i: nat)
    requires i + 1 < |ds|
    ensures |JoinNext(ds, i)| == |ds| && JoinNext(ds, i)[i + 1].was.from == ds[i].was.from
  {
  }

  lemma StretchedAlike(d13: seq<Change>, i1: nat, d23: seq<Change>, i2: nat)
    requires i1 < |d13| && i2 < |d23|
    ensures Stretched(d13, i1, d23[i2].now)[i1].now == Stretched(d23, i2, d13[i1].now)[i2].now
  {
  }

  lemma TextThere(f2: seq<Line>, f3: seq<Line>, d: Change, dpl: bool, oldo: Range)
    requires 1 <= d.now.from <= d.now.to <= |f3| + 1 && (oldo.from < oldo.to ==> TextRange(f2, oldo))
    ensures EditText(f2, f3, EditOf(d, dpl, oldo)) && (dpl ==> TakesOver(EditOf(d, dpl, oldo), d))
  {
  }

  // ------------------------------------------------------------ following the walk

  /** Where the walk over true change lists is, and what it has made so far. */
  datatype Trace = Trace(w: Walk, hs: seq<Hunk>, gs: seq<Group>, last: int)

  ghost predicate Tracing(f: Files, m: Marks, d13: seq<Change>, d23: seq<Change>, e13: seq<Change>, e23: seq<Change>,
                          i1: nat, i2: nat, de: seq<Edit>, n: nat, t: Trace) {
    && t.w.i1 == i1 && t.w.i2 == i2 && Round(f, m, d13, d23, de, n, t.w, t.hs)
    && Gathering(f, d13, d23, e13, e23, t.w, t.hs, t.gs, t.last)
  }

  lemma TraceStarts(f: Files, m: Marks, d13: seq<Change>, d23: seq<Change>)
    requires ChangeList(f.f1, f.f3, d13) && ChangeList(f.f2, f.f3, d23)
    ensures Tracing(f, m, d13, d23, d13, d23, 0, 0, [], 0, Trace(Walk(0, 0, 1, 1, 1, false, false), [], [], 0))
  {
    hide Round, Gathering, ChangeList;
    GatheringStarts(f, d13, d23);
    RoundStart(f, m, d13, d23);
  }

  lemma TraceFirst(f: Files, m: Marks, d13: seq<Change>, d23: seq<Change>, e13: seq<Change>, e23: seq<Change>,
                   i1: nat, i2: nat, de: seq<Edit>, n: nat, t: Trace) returns (t': Trace)
    requires Tracing(f, m, d13, d23, e13, e23, i1, i2, de, n, t) && i1 < |d13|
    requires i2 == |d23| || d13[i1].now.to < d23[i2].now.from
    ensures Tracing(f, m, d13, d23, e13, e23, i1 + 1, i2, de, n, t')
    ensures t.w.p1 <= t'.w.p1 && t.w.p2 <= t'.w.p2
  {
    hide Round, Gathering, HunkIs;
    RoundRanges(f, m, d13, d23, de, n, t.w, t.hs);
    var w', hs' := RoundFirst(f, m, d13, d23, de, n, t.w, t.hs);
    var g := GatheredFirst(f, d13, d23, e13, e23, t.w, t.hs, t.gs, t.last, w', hs');
    t' := Trace(w', hs', t.gs + [g], w'.p3);
  }

  lemma TraceSecond(f: Files, m: Marks, d13: seq<Change>, d23: seq<Change>, e13: seq<Change>, e23: seq<Change>,
                    i1: nat, i2: nat, de: seq<Edit>, n: nat, t: Trace) returns (t': Trace)
    requires Tracing(f, m, d13, d23, e13, e23, i1, i2, de, n, t) && i2 < |d23|
    requires i1 == |d13| || d23[i2].now.to < d13[i1].now.from
    ensures Tracing(f, m, d13, d23, e13, e23, i1, i2 + 1, de, n, t')
    ensures t.w.p1 <= t'.w.p1 && t.w.p2 <= t'.w.p2
  {
    hide Round, Gathering, HunkIs;
    RoundRanges(f, m, d13, d23, de, n, t.w, t.hs);
    var w', hs' := RoundSecond(f, m, d13, d23, de, n, t.w, t.hs);
    var g := GatheredSecond(f, d13, d23, e13, e23, t.w, t.hs, t.gs, t.last, w', hs');
    t' := Trace(w', hs', t.gs + [g], w'.p3);
  }

  lemma TraceJoinFirst(f: Files, m: Marks, d13: seq<Change>, d23: seq<Change>, e13: seq<Change>, e23: seq<Change>,
                       i1: nat, i2: nat, de: seq<Edit>, n: nat, t: Trace) returns (t': Trace)
    requires Tracing(f, m, d13, d23, e13, e23, i1, i2, de, n, t) && i1 < |d13| && i2 < |d23| && Reaches(d13, i1)
    ensures Tracing(f, m, JoinNext(d13, i1), d23, e13, e23, i1 + 1, i2, de, n, t')
    ensures t'.w.p1 == t.w.p1 && t'.w.p2 == t.w.p2
  {
    hide Round, Collecting, GroupedSoFar, JoinNext;
    FirstJoined(d13, d23, e13, e23, i1, i2, End1(t.gs), End2(t.gs), t.last);
    RoundJoinFirst(f, m, d13, d23, de, n, t.w, t.hs);
    t' := t.(w := t.w.(i1 := i1 + 1, over1 := false));
  }

  lemma TraceJoinSecond(f: Files, m: Marks, d13: seq<Change>, d23: seq<Change>, e13: seq<Change>, e23: seq<Change>,
                        i1: nat, i2: nat, de: seq<Edit>, n: nat, t: Trace) returns (t': Trace)
    requires Tracing(f, m, d13, d23, e13, e23, i1, i2, de, n, t) && i1 < |d13| && i2 < |d23| && Reaches(d23, i2)
    ensures Tracing(f, m, d13, JoinNext(d23, i2), e13, e23, i1, i2 + 1, de, n, t')
    ensures t'.w.p1 == t.w.p1 && t'.w.p2 == t.w.p2
  {
    hide Round, Collecting, GroupedSoFar, JoinNext;
    SecondJoined(d13, d23, e13, e23, i1, i2, End1(t.gs), End2(t.gs), t.last);
    RoundJoinSecond(f, m, d13, d23, de, n, t.w, t.hs);
    t' := t.(w := t.w.(i2 := i2 + 1, over2 := false));
  }

  lemma TraceStretch(f: Files, m: Marks, d13: seq<Change>, d23: seq<Change>, e13: seq<Change>, e23: seq<Change>,
                     i1: nat, i2: nat, de: seq<Edit>, n: nat, t: Trace) returns (t': Trace)
    requires Tracing(f, m, d13, d23, e13, e23, i1, i2, de, n, t) && i1 < |d13| && i2 < |d23|
    requires !Reaches(d13, i1) && !Reaches(d23, i2) && d13[i1].now != d23[i2].now && Touch(d13[i1].now, d23[i2].now)
    ensures Tracing(f, m, Stretched(d13, i1, d23[i2].now), Stretched(d23, i2, d13[i1].now), e13, e23, i1, i2, de, n, t')
    ensures t'.w.p1 == t.w.p1 && t'.w.p2 == t.w.p2
  {
    hide Round, Collecting, GroupedSoFar, Stretched;
    BothStretched(d13, d23, e13, e23, i1, i2, End1(t.gs), End2(t.gs), t.last);
    RoundStretch(f, m, d13, d23, de, n, t.w, t.hs);
    var x13, x23 := Stretched(d13, i1, d23[i2].now), Stretched(d23, i2, d13[i1].now);
    t' := t.(w := t.w.(over1 := Reaches(x13, i1), over2 := Reaches(x23, i2)));
  }

  lemma TraceCoincide(f: Files, m: Marks, d13: seq<Change>, d23: seq<Change>, e13: seq<Change>, e23: seq<Change>,
                      i1: nat, i2: nat, de: seq<Edit>, n: nat, t: Trace)
    requires Tracing(f, m, d13, d23, e13, e23, i1, i2, de, n, t) && i1 < |d13| && i2 < |d23|
    requires !Reaches(d13, i1) && !Reaches(d23, i2) && d13[i1].now == d23[i2].now
    ensures InFile(f.f1, d13[i1].was) && InFile(f.f2, d23[i2].was)
    ensures t.w.p1 <= d13[i1].was.from && t.w.p2 <= d23[i2].was.from
  {
    hide Round, Gathering;
    RoundCoincide(f, m, d13, d23, de, n, t.w, t.hs);
  }

  lemma TraceBoth(f: Files, m: Marks, d13: seq<Change>, d23: seq<Change>, e13: seq<Change>, e23: seq<Change>,
                  i1: nat, i2: nat, de: seq<Edit>, n: nat, t: Trace, dpl: bool, oldo: Range) returns (t': Trace)
    requires Tracing(f, m, d13, d23, e13, e23, i1, i2, de, n, t) && i1 < |d13| && i2 < |d23|
    requires !Reaches(d13, i1) && !Reaches(d23, i2) && d13[i1].now == d23[i2].now
    requires InFile(f.f1, d13[i1].was) && InFile(f.f2, d23[i2].was)
    requires dpl <==> Slice(f.f1, d13[i1].was.from, d13[i1].was.to) == Slice(f.f2, d23[i2].was.from, d23[i2].was.to)
    requires oldo.from < oldo.to ==> TextRange(f.f2, oldo)
    requires !dpl ==> BaseRemembered(f, d13[i1].was, d23[i2].was, oldo)
    ensures Tracing(f, m, d13, d23, e13, e23, i1 + 1, i2 + 1, de + [EditOf(d13[i1], dpl, oldo)],
                    n + (if dpl then 0 else 1), t')
    ensures t'.w.p1 == d13[i1].was.to && t'.w.p2 == d23[i2].was.to
  {
    hide Round, Gathering, HunkIs, Slice;
    var w', hs' := RoundBoth(f, m, d13, d23, de, n, t.w, t.hs, dpl, oldo);
    BothHunk(f, hs'[|t.hs| + 1], d13[i1].was, d23[i2].was, d13[i1].now);
    var g := GatheredBoth(f, d13, d23, e13, e23, t.w, t.hs, t.gs, t.last, w', hs');
    t' := Trace(w', hs', t.gs + [g], w'.p3);
  }

  lemma TraceEnds(f: Files, m: Marks, d13: seq<Change>, d23: seq<Change>, e13: seq<Change>, e23: seq<Change>,
                  de: seq<Edit>, n: nat, t: Trace) returns (hs: seq<Hunk>)
    requires Tracing(f, m, d13, d23, e13, e23, |d13|, |d23|, de, n, t)
    ensures Merged(f, m, de, n, hs) && Grouped(f, e13, e23, hs, t.gs)
  {
    hide Round, Gathering, Merged, Grouped;
    hs := RoundEnd(f, m, d13, d23, de, n, t.w, t.hs);
    AllGrouped(f, d13, d23, e13, e23, t.w, t.hs, t.gs, t.last, hs[|t.hs|]);
    assert hs == t.hs + [hs[|t.hs|]];
  }

  // ------------------------------------------------------------ the state of diff3

  class Diff3State {
    const f: Files
    var d13: seq<Change>
    var d23: seq<Change>
    var de: seq<Edit>
    var overlapcnt: nat
    // number of the last line read in each file
    var cline1: nat
    var cline2: nat
    var cline3: nat

    constructor (f: Files, d13: seq<Change>, d23: seq<Change>)
      ensures this.f == f && this.d13 == d13 && this.d23 == d23 && de == [] && overlapcnt == 0
      ensures cline1 == cline2 == cline3 == 0
    {
      this.f, this.d13, this.d23 := f, d13, d23;
      de, overlapcnt, cline1, cline2, cline3 := [], 0, 0, 0, 0;
    }

    /** Both ranges are lines of their files not yet passed. */
    ghost predicate Placed(r1: Range, r2: Range)
      reads this
    {
      InFile(f.f1, r1) && InFile(f.f2, r2) && cline1 <= r1.from - 1 && cline2 <= r2.from - 1
    }

    /** duplicate(): do two ranges of files 1 and 2 hold the same lines? When
        they differ although equally long, the base lines up to the first
        difference are remembered. Reading past the end of a file is an error. */
    method Duplicate(r1: Range, r2: Range) returns (eof: bool, dpl: bool, oldo: Range)
      modifies this`cline1, this`cline2
      ensures oldo.from < oldo.to ==> TextRange(f.f2, oldo)
      ensures old(Placed(r1, r2)) ==>
                && !eof && cline1 <= r1.from - 1 && cline2 <= r2.from - 1
                && (dpl <==> Slice(f.f1, r1.from, r1.to) == Slice(f.f2, r2.from, r2.to))
                && (!dpl ==> BaseRemembered(f, r1, r2, oldo))
      ensures old(Placed(r1, r2)) && r1 == r2 && f.f1 == f.f2 ==> cline1 == r1.from - 1 && cline2 == r2.from - 1
    {
      hide Slice;
      if r1.to - r1.from != r2.to - r2.from {
        if InFile(f.f1, r1) && InFile(f.f2, r2) {
          SliceIs(f.f1, r1);
          SliceIs(f.f2, r2);
        }
        return false, false, Range(0, 0);
      }
      SkipFiles(r1.from, r2.from);
      var nline;
      eof, dpl, nline := CompareLines(f.f1, cline1, f.f2, cline2, r1.to - r1.from);
      oldo := if eof || dpl then Range(cline2, 0) else Range(cline2, cline2 + nline + 1);
      if old(Placed(r1, r2)) {
        ComparedRanges(f.f1, r1, f.f2, r2, dpl, nline);
      }
    }

    /** skip() on files 1 and 2. */
    method SkipFiles(from1: int, from2: int)
      modifies this`cline1, this`cline2
      ensures cline1 == if old(cline1) < from1 - 1 then from1 - 1 else old(cline1)
      ensures cline2 == if old(cline2) < from2 - 1 then from2 - 1 else old(cline2)
    {
      while cline1 < from1 - 1
        invariant cline2 == old(cline2) && old(cline1) <= cline1
        invariant cline1 > old(cline1) ==> cline1 <= from1 - 1
      {
        cline1 := cline1 + 1;
      }
      ghost var done := cline1;
      while cline2 < from2 - 1
        invariant cline1 == done && old(cline2) <= cline2
        invariant cline2 > old(cline2) ==> cline2 <= from2 - 1
      {
        cline2 := cline2 + 1;
      }
    }

    /** skip() on file 3. */
    method SkipFile3(from: int) returns (nskipped: nat)
      requires cline3 <= from - 1
      modifies this`cline3
      ensures cline3 == from - 1 && nskipped == cline3 - old(cline3)
    {
      nskipped := 0;
      while cline3 < from - 1
        invariant cline3 <= from - 1 && nskipped == cline3 - old(cline3)
      {
        cline3 := cline3 + 1;
        nskipped := nskipped + 1;
      }
    }

    /** edit(): gather an edit. The text position is accumulated from what was
        skipped since the previous edit, and still is the right one. */
    method GatherEdit(d: Change, dpl: bool, oldo: Range)
      requires 1 <= d.now.from <= d.now.to
      requires cline3 == (if de == [] then 0 else de[|de| - 1].newo.to) && cline3 <= d.now.from - 1
      modifies this`de, this`overlapcnt, this`cline3
      ensures de == old(de) + [EditOf(d, dpl, oldo)]
      ensures overlapcnt == old(overlapcnt) + (if dpl then 0 else 1)
      ensures cline3 == d.now.to - 1
    {
      if !dpl {
        overlapcnt := overlapcnt + 1;
      }
      var prevTo := if |de| == 0 then 0 else de[|de| - 1].newo.to;
      var nskipped := SkipFile3(d.now.from);
      var from := prevTo + nskipped;
      nskipped := SkipFile3(d.now.to);
      de := de + [Edit(d.was, oldo, Range(from, from + nskipped), !dpl)];
    }

    /** merge(): walk both change lists, gathering edits. Over true change lists, the
        hunks it returns split all three files, and resolving them is splicing the
        gathered edits into file 1. Over any lists in order it ends, and when both
        are the same it takes every change over. */
    method Merge(ghost m: Marks) returns (eof: bool, ghost hs: seq<Hunk>, ghost gs: seq<Group>)
      requires Readable(f.f3, d13) && Readable(f.f3, d23)
      requires de == [] && overlapcnt == 0 && cline1 == cline2 == cline3 == 0
      modifies this
      ensures ChangeList(f.f1, f.f3, old(d13)) && ChangeList(f.f2, f.f3, old(d23)) ==>
                !eof && Merged(f, m, de, overlapcnt, hs) && Grouped(f, old(d13), old(d23), hs, gs)
      ensures forall k | 0 <= k < |de| :: EditText(f.f2, f.f3, de[k])
      ensures old(d13) == [] || old(d23) == [] ==> !eof && de == [] && overlapcnt == 0
      ensures old(d13) == old(d23) && f.f1 == f.f2 && Lockable(f.f1, old(d13)) ==>
                !eof && Gathered(de, Collapsed(old(d13))) && overlapcnt == 0
    {
      hide ChangeList, Merged, Grouped, Lockable, Readable, EditText, Gathered, Collapsed, InRound;
      ghost var e13, e23 := d13, d23;
      ghost var good := ChangeList(f.f1, f.f3, d13) && ChangeList(f.f2, f.f3, d23);
      ghost var lock := d13 == d23 && f.f1 == f.f2 && Lockable(f.f1, d13);
      ghost var t := Trace(Walk(0, 0, 1, 1, 1, false, false), [], [], 0);
      FirstRound(m, good, lock);
      eof, hs, gs := false, [], [];
      var i1: nat, i2: nat := 0, 0;
      while true
        invariant InRound(m, e13, e23, i1, i2, t, good, lock) && !eof
        decreases Work(d13, i1, d23, i2)
      {
        RoundHere(m, e13, e23, i1, i2, t, good, lock);
        var t1, t2 := i1 < |d13|, i2 < |d23|;
        if !t1 && !t2 {
          break;
        }
        if !t2 || (t1 && d13[i1].now.to < d23[i2].now.from) {
          t := FirstSkipped(m, e13, e23, i1, i2, t, good, lock);
          i1 := i1 + 1;
        } else if !t1 || (t2 && d23[i2].now.to < d13[i1].now.from) {
          t := SecondSkipped(m, e13, e23, i1, i2, t, good, lock);
          i2 := i2 + 1;
        } else {
          t, i1, i2, eof := MergeOverlap(m, t, i1, i2, good, lock, e13, e23);
          if eof {
            return;
          }
        }
      }
      hs := LastRound(m, e13, e23, t, good, lock);
      gs := t.gs;
    }

    lemma FirstRound(m: Marks, good: bool, lock: bool)
      requires Readable(f.f3, d13) && Readable(f.f3, d23)
      requires de == [] && overlapcnt == 0 && cline1 == cline2 == cline3 == 0
      requires good ==> ChangeList(f.f1, f.f3, d13) && ChangeList(f.f2, f.f3, d23)
      requires lock ==> d13 == d23 && f.f1 == f.f2 && Lockable(f.f1, d13)
      ensures InRound(m, d13, d23, 0, 0, Trace(Walk(0, 0, 1, 1, 1, false, false), [], [], 0), good, lock)
    {
      hide Tracing, ChangeList, Lockable, InLockstep, Readable, ReadyFrom, EditText, InFile;
      if good {
        TraceStarts(f, m, d13, d23);
      }
      BothReady(f.f3, d13, d23);
      LockstepStarts(d13);
      FirstInFile(f.f1, d13);
    }

    /** A change peculiar to file 1 is passed over. */
    lemma FirstSkipped(m: Marks, e13: seq<Change>, e23: seq<Change>, i1: nat, i2: nat, t: Trace, good: bool, lock: bool)
      returns (t': Trace)
      requires InRound(m, e13, e23, i1, i2, t, good, lock) && i1 < |d13| && i2 <= |d23|
      requires i2 == |d23| || d13[i1].now.to < d23[i2].now.from
      ensures InRound(m, e13, e23, i1 + 1, i2, t', good, lock)
    {
      hide Tracing, Lockable, InLockstep, Readable, ReadyFrom, EditText, Reaches, InFile;
      t' := t;
      if lock {
        LockstepMoves(f.f1, f.f3, d13, d23, e13, i1, i2, de);
      }
      if good {
        t' := TraceFirst(f, m, d13, d23, e13, e23, i1, i2, de, overlapcnt, t);
      }
      ReadySkipped(d13, i1, cline3, |f.f3|);
    }

    lemma SecondSkipped(m: Marks, e13: seq<Change>, e23: seq<Change>, i1: nat, i2: nat, t: Trace, good: bool,
                        lock: bool)
      returns (t': Trace)
      requires InRound(m, e13, e23, i1, i2, t, good, lock) && i1 <= |d13| && i2 < |d23|
      requires i1 == |d13| || d23[i2].now.to < d13[i1].now.from
      ensures InRound(m, e13, e23, i1, i2 + 1, t', good, lock)
    {
      hide Tracing, Lockable, InLockstep, Readable, ReadyFrom, EditText, Reaches, InFile;
      t' := t;
      if lock {
        LockstepMoves(f.f1, f.f3, d13, d23, e13, i1, i2, de);
      }
      if good {
        t' := TraceSecond(f, m, d13, d23, e13, e23, i1, i2, de, overlapcnt, t);
      }
      ReadySkipped(d23, i2, cline3, |f.f3|);
    }

    lemma LastRound(m: Marks, e13: seq<Change>, e23: seq<Change>, t: Trace, good: bool, lock: bool)
      returns (hs: seq<Hunk>)
      requires InRound(m, e13, e23, |d13|, |d23|, t, good, lock)
      ensures good ==> Merged(f, m, de, overlapcnt, hs) && Grouped(f, e13, e23, hs, t.gs)
      ensures lock ==> Gathered(de, Collapsed(e13)) && overlapcnt == 0
      ensures e13 == [] || e23 == [] ==> de == [] && overlapcnt == 0
    {
      hide Tracing, Merged, Grouped, Lockable, InLockstep, Readable, ReadyFrom, EditText, Gathered, Collapsed;
      hs := [];
      if lock {
        LockstepEnds(d13, d23, e13, de);
      }
      if good {
        hs := TraceEnds(f, m, d13, d23, e13, e23, de, overlapcnt, t);
      }
    }

    /** What holds of any lists in order between two rounds. */
    ghost predicate Running(i1: nat, i2: nat)
      reads this
    {
      && ReadyFrom(d13, i1, cline3, |f.f3|) && ReadyFrom(d23, i2, cline3, |f.f3|)
      && cline3 == (if de == [] then 0 else de[|de| - 1].newo.to)
      && (forall k | 0 <= k < |de| :: EditText(f.f2, f.f3, de[k]))
      && (d13 == [] || d23 == [] ==> de == [] && overlapcnt == 0)
    }

    /** True change lists: the cursors have not been read past what is split. */
    ghost predicate Followed(m: Marks, e13: seq<Change>, e23: seq<Change>, i1: nat, i2: nat, t: Trace)
      reads this
    {
      Tracing(f, m, d13, d23, e13, e23, i1, i2, de, overlapcnt, t) && cline1 <= t.w.p1 - 1 && cline2 <= t.w.p2 - 1
    }

    /** Equal lists: nor past the next change. */
    ghost predicate InStep(e: seq<Change>, i1: nat, i2: nat)
      reads this
    {
      && InLockstep(d13, d23, e, i1, i2, de) && overlapcnt == 0
      && f.f1 == f.f2 && Lockable(f.f1, e) && Readable(f.f3, e)
      && cline1 == cline2 && (i1 < |d13| ==> cline1 <= d13[i1].was.from - 1)
    }

    /** All of this, for the lists as they were at first. */
    ghost predicate InRound(m: Marks, e13: seq<Change>, e23: seq<Change>, i1: nat, i2: nat, t: Trace, good: bool,
                            lock: bool)
      reads this
    {
      && i1 <= |d13| == |e13| && i2 <= |d23| == |e23| && Running(i1, i2)
      && (good ==> Followed(m, e13, e23, i1, i2, t)) && (lock ==> InStep(e13, i1, i2))
    }

    /** The part of merge()'s loop for changes that overlap or touch: join a
        change with one it reaches, or edit when both cover the same range, or
        stretch them until they do. */
    method MergeOverlap(ghost m: Marks, ghost t: Trace, i1: nat, i2: nat, ghost good: bool, ghost lock: bool,
                        ghost e13: seq<Change>, ghost e23: seq<Change>)
      returns (ghost t': Trace, i1': nat, i2': nat, eof: bool)
      requires InRound(m, e13, e23, i1, i2, t, good, lock) && i1 < |d13| && i2 < |d23|
      requires d13[i1].now.to >= d23[i2].now.from && d23[i2].now.to >= d13[i1].now.from
      modifies this
      ensures (good || lock ==> !eof) && forall k | 0 <= k < |de| :: EditText(f.f2, f.f3, de[k])
      ensures !eof ==>
                InRound(m, e13, e23, i1', i2', t', good, lock) && Work(d13, i1', d23, i2') < old(Work(d13, i1, d23, i2))
    {
      hide InRound, EditText, Stretched, JoinNext;
      t', i1', i2', eof := t, i1, i2, false;
      RoundHere(m, e13, e23, i1, i2, t, good, lock);
      if i1 + 1 < |d13| && d13[i1].now.to >= d13[i1 + 1].now.from {
        t' := JoinFirstTwo(m, t, i1, i2, good, lock, e13, e23);
        i1' := i1 + 1;
      } else if i2 + 1 < |d23| && d23[i2].now.to >= d23[i2 + 1].now.from {
        t' := JoinSecondTwo(m, t, i1, i2, good, lock, e13, e23);
        i2' := i2 + 1;
      } else if d13[i1].now.from == d23[i2].now.from && d13[i1].now.to == d23[i2].now.to {
        t', eof := EditHere(m, t, i1, i2, good, lock, e13, e23);
        i1', i2' := i1 + 1, i2 + 1;
      } else {
        t' := StretchHere(m, t, i1, i2, good, lock, e13, e23);
      }
    }

    lemma RoundHere(m: Marks, e13: seq<Change>, e23: seq<Change>, i1: nat, i2: nat, t: Trace, good: bool, lock: bool)
      requires InRound(m, e13, e23, i1, i2, t, good, lock)
      ensures i1 <= |d13| == |e13| && i2 <= |d23| == |e23| && forall k | 0 <= k < |de| :: EditText(f.f2, f.f3, de[k])
    {
    }

    /** "merge overlapping changes in first file" */
    method JoinFirstTwo(ghost m: Marks, ghost t: Trace, i1: nat, i2: nat, ghost good: bool, ghost lock: bool,
                        ghost e13: seq<Change>, ghost e23: seq<Change>)
      returns (ghost t': Trace)
      requires InRound(m, e13, e23, i1, i2, t, good, lock) && i1 < |d13| && i2 < |d23| && Reaches(d13, i1)
      modifies this`d13
      ensures d13 == JoinNext(old(d13), i1) && InRound(m, e13, e23, i1 + 1, i2, t', good, lock)
    {
      hide Tracing, Lockable, InLockstep, Readable, ReadyFrom, EditText, JoinNext;
      t' := t;
      if lock {
        LockstepMoves(f.f1, f.f3, d13, d23, e13, i1, i2, de);
      }
      if good {
        t' := TraceJoinFirst(f, m, d13, d23, e13, e23, i1, i2, de, overlapcnt, t);
      }
      ReadyJoined(d13, i1, cline3, |f.f3|);
      JoinedNext(d13, i1);
      d13 := JoinNext(d13, i1);
    }

    method JoinSecondTwo(ghost m: Marks, ghost t: Trace, i1: nat, i2: nat, ghost good: bool, ghost lock: bool,
                         ghost e13: seq<Change>, ghost e23: seq<Change>)
      returns (ghost t': Trace)
      requires InRound(m, e13, e23, i1, i2, t, good, lock) && i1 < |d13| && i2 < |d23|
      requires !Reaches(d13, i1) && Reaches(d23, i2)
      modifies this`d23
      ensures d23 == JoinNext(old(d23), i2) && InRound(m, e13, e23, i1, i2 + 1, t', good, lock)
    {
      hide Tracing, Lockable, InLockstep, Readable, ReadyFrom, EditText, JoinNext;
      t' := t;
      if lock {
        LockstepMoves(f.f1, f.f3, d13, d23, e13, i1, i2, de);
      }
      if good {
        t' := TraceJoinSecond(f, m, d13, d23, e13, e23, i1, i2, de, overlapcnt, t);
      }
      ReadyJoined(d23, i2, cline3, |f.f3|);
      JoinedNext(d23, i2);
      d23 := JoinNext(d23, i2);
    }

    /** "stuff peculiar to third file or different in all" */
    method EditHere(ghost m: Marks, ghost t: Trace, i1: nat, i2: nat, ghost good: bool, ghost lock: bool,
                    ghost e13: seq<Change>, ghost e23: seq<Change>)
      returns (ghost t': Trace, eof: bool)
      requires InRound(m, e13, e23, i1, i2, t, good, lock) && i1 < |d13| && i2 < |d23|
      requires !Reaches(d13, i1) && !Reaches(d23, i2) && d13[i1].now == d23[i2].now
      modifies this`cline1, this`cline2, this`cline3, this`de, this`overlapcnt
      ensures (good || lock ==> !eof) && forall k | 0 <= k < |de| :: EditText(f.f2, f.f3, de[k])
      ensures !eof ==> InRound(m, e13, e23, i1 + 1, i2 + 1, t', good, lock)
    {
      hide Tracing, Lockable, InLockstep, Readable, ReadyFrom, EditText, Slice, Reaches;
      t' := t;
      if lock {
        LockstepMoves(f.f1, f.f3, d13, d23, e13, i1, i2, de);
      }
      if good {
        TraceCoincide(f, m, d13, d23, e13, e23, i1, i2, de, overlapcnt, t);
      }
      NextReady(d13, i1, cline3, |f.f3|);
      var dpl, oldo;
      eof, dpl, oldo := Duplicate(d13[i1].was, d23[i2].was);
      if eof {
        return;
      }
      if good {
        t' := TraceBoth(f, m, d13, d23, e13, e23, i1, i2, de, overlapcnt, t, dpl, oldo);
      }
      TextThere(f.f2, f.f3, d13[i1], dpl, oldo);
      if lock {
        LockstepEdit(f.f1, d13, d23, e13, i1, i2, de, EditOf(d13[i1], dpl, oldo));
      }
      ReadyBehind(d13, i1, cline3, |f.f3|);
      ReadyBehind(d23, i2, cline3, |f.f3|);
      GatherEdit(d13[i1], dpl, oldo);
    }

    /** "Overlapping changes from file 1 and 2" */
    method StretchHere(ghost m: Marks, ghost t: Trace, i1: nat, i2: nat, ghost good: bool, ghost lock: bool,
                       ghost e13: seq<Change>, ghost e23: seq<Change>)
      returns (ghost t': Trace)
      requires InRound(m, e13, e23, i1, i2, t, good, lock) && i1 < |d13| && i2 < |d23|
      requires !Reaches(d13, i1) && !Reaches(d23, i2) && d13[i1].now != d23[i2].now && Touch(d13[i1].now, d23[i2].now)
      modifies this`d13, this`d23
      ensures d13 == Stretched(old(d13), i1, old(d23)[i2].now) && d23 == Stretched(old(d23), i2, old(d13)[i1].now)
      ensures d13[i1].now == d23[i2].now && InRound(m, e13, e23, i1, i2, t', good, lock)
    {
      hide Tracing, Lockable, InLockstep, Readable, ReadyFrom, EditText, Stretched, Reaches;
      t' := t;
      if lock {
        LockstepMoves(f.f1, f.f3, d13, d23, e13, i1, i2, de);
      }
      if good {
        t' := TraceStretch(f, m, d13, d23, e13, e23, i1, i2, de, overlapcnt, t);
      }
      NextReady(d13, i1, cline3, |f.f3|);
      NextReady(d23, i2, cline3, |f.f3|);
      ReadyStretched(d13, i1, cline3, |f.f3|, d23[i2].now);
      ReadyStretched(d23, i2, cline3, |f.f3|, d13[i1].now);
      StretchedAlike(d13, i1, d23, i2);
      Stretch(i1, i2);
    }

    /** "extend changes appropriately to make them coincide" */
    method Stretch(i1: nat, i2: nat)
      requires i1 < |d13| && i2 < |d23|
      modifies this`d13, this`d23
      ensures d13 == Stretched(old(d13), i1, old(d23)[i2].now) && d23 == Stretched(old(d23), i2, old(d13)[i1].now)
    {
      if d13[i1].now.from < d23[i2].now.from {
        d23 := Lowered(d23, i2, d23[i2].now.from - d13[i1].now.from);
      } else if d23[i2].now.from < d13[i1].now.from {
        d13 := Lowered(d13, i1, d13[i1].now.from - d23[i2].now.from);
      }
      if d13[i1].now.to > d23[i2].now.to {
        d23 := Raised(d23, i2, d13[i1].now.to - d23[i2].now.to);
      } else if d23[i2].now.to > d13[i1].now.to {
        d13 := Raised(d13, i1, d23[i2].now.to - d13[i1].now.to);
      }
    }
  }
}
