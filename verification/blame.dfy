/** Blame (lib/blame.c): lines are annotated while a line map is carried back
  through the diffs of a linear list of versions, newest first.
*/
module Blames {
  import opened DiffChunks
  import opened DiffStates
  import opened EditDistance
  import opened DiffPlans
  import opened DiffMeaning
  import DiffDriver

  type Line = string
  type CommitId = nat

  datatype BlameLine = BlameLine(annotated: bool, id: CommitId)

  // ------------------------------------------------------------ line maps

  /** Each line of a version stands for at most one blamed line, in order. */
  ghost predicate Increasing(m: seq<int>) {
    && (forall i | 0 <= i < |m| :: m[i] >= -1)
    && (forall i, j | 0 <= i < j < |m| && m[i] >= 0 && m[j] >= 0 :: m[i] < m[j])
  }

  /** Mapped lines are equal to the blamed lines they stand for. */
  ghost predicate SameLines(m: seq<int>, v: seq<Line>, blamed: seq<Line>) {
    |m| == |v| && forall i | 0 <= i < |m| && m[i] >= 0 :: m[i] < |blamed| && v[i] == blamed[m[i]]
  }

  function OwnLines(n: nat): seq<int> {
    seq(n, i requires i >= 0 => i as int)
  }

  ghost predicate Mapped(m: seq<int>, from: nat, to: nat, x: int) {
    exists i | from <= i < to && i < |m| :: m[i] == x
  }

  /** The unannotated lines are exactly the ones still mapped. */
  ghost predicate MappedAreOpen(lines: seq<BlameLine>, m: seq<int>) {
    forall x | 0 <= x < |lines| :: !lines[x].annotated <==> Mapped(m, 0, |m|, x)
  }

  function CountAnnotated(lines: seq<BlameLine>): nat {
    if lines == [] then 0 else CountAnnotated(lines[..|lines| - 1]) + if lines[|lines| - 1].annotated then 1 else 0
  }

  lemma {:induction false} CountOne(lines: seq<BlameLine>, x: nat, id: CommitId)
    requires x < |lines| && !lines[x].annotated
    ensures CountAnnotated(lines[x := BlameLine(true, id)]) == CountAnnotated(lines) + 1
    decreases |lines|
  {
    var lines' := lines[x := BlameLine(true, id)];
    if x == |lines| - 1 {
      assert lines'[..|lines| - 1] == lines[..|lines| - 1];
    } else {
      CountOne(lines[..|lines| - 1], x, id);
      assert lines'[..|lines| - 1] == lines[..|lines| - 1][x := BlameLine(true, id)];
    }
  }

  lemma {:induction false} NoneAnnotated(lines: seq<BlameLine>)
    requires forall x | 0 <= x < |lines| :: !lines[x].annotated
    ensures CountAnnotated(lines) == 0
    decreases |lines|
  {
    if lines != [] {
      NoneAnnotated(lines[..|lines| - 1]);
    }
  }

  /** The count says whether all lines are annotated. */
  lemma {:induction false} CountAll(lines: seq<BlameLine>)
    ensures CountAnnotated(lines) <= |lines|
    ensures CountAnnotated(lines) == |lines| <==> forall x | 0 <= x < |lines| :: lines[x].annotated
    decreases |lines|
  {
    if lines != [] {
      CountAll(lines[..|lines| - 1]);
      assert forall x | 0 <= x < |lines| - 1 :: lines[x] == lines[..|lines| - 1][x];
    }
  }

  // ------------------------------------------------------------ carrying a map back

  /** The map m2 of the newer version has been carried back to the first l
      lines of the older one, using up its first r entries. */
  ghost predicate Carried(lines: seq<BlameLine>, m1: seq<int>, m2: seq<int>, l: nat, r: nat, v1: seq<Line>,
                          blamed: seq<Line>) {
    && l <= |m1| == |v1| && r <= |m2| && Increasing(m2)
    && (forall i | 0 <= i < l :: m1[i] >= -1)
    && (forall i, j | 0 <= i < j < l && m1[i] >= 0 && m1[j] >= 0 :: m1[i] < m1[j])
    && (forall i, j | 0 <= i < l && r <= j < |m2| && m1[i] >= 0 && m2[j] >= 0 :: m1[i] < m2[j])
    && (forall i | 0 <= i < l && m1[i] >= 0 :: m1[i] < |blamed| && v1[i] == blamed[m1[i]])
    && (forall x | 0 <= x < |lines| :: !lines[x].annotated <==> Mapped(m1, 0, l, x) || Mapped(m2, r, |m2|, x))
  }

  lemma MappedSplit(m: seq<int>, from: nat, to: nat, x: int)
    requires from < to <= |m|
    ensures Mapped(m, from, to, x) <==> m[from] == x || Mapped(m, from + 1, to, x)
    ensures Mapped(m, from, to, x) <==> m[to - 1] == x || Mapped(m, from, to - 1, x)
  {
  }

  lemma MappedSame(m: seq<int>, m': seq<int>, to: nat, x: int)
    requires to <= |m| == |m'| && forall i | 0 <= i < to :: m[i] == m'[i]
    ensures Mapped(m, 0, to, x) <==> Mapped(m', 0, to, x)
  {
  }

  /** An unchanged line passes its entry on. */
  lemma CarrySame(lines: seq<BlameLine>, m1: seq<int>, m2: seq<int>, l: nat, r: nat, v1: seq<Line>, v2: seq<Line>,
                  blamed: seq<Line>)
    requires Carried(lines, m1, m2, l, r, v1, blamed) && SameLines(m2, v2, blamed)
    requires l < |v1| && r < |v2| && v1[l] == v2[r]
    ensures Carried(lines, m1[l := m2[r]], m2, l + 1, r + 1, v1, blamed)
  {
    var m1' := m1[l := m2[r]];
    forall x | 0 <= x < |lines|
      ensures !lines[x].annotated <==> Mapped(m1', 0, l + 1, x) || Mapped(m2, r + 1, |m2|, x)
    {
      MappedSplit(m2, r, |m2|, x);
      MappedSplit(m1', 0, l + 1, x);
      MappedSame(m1, m1', l, x);
    }
  }

  /** A line that the newer version no longer has is mapped to nothing. */
  lemma CarryMinus(lines: seq<BlameLine>, m1: seq<int>, m2: seq<int>, l: nat, r: nat, v1: seq<Line>, blamed: seq<Line>)
    requires Carried(lines, m1, m2, l, r, v1, blamed) && l < |v1|
    ensures Carried(lines, m1[l := -1], m2, l + 1, r, v1, blamed)
  {
    var m1' := m1[l := -1];
    forall x | 0 <= x < |lines|
      ensures !lines[x].annotated <==> Mapped(m1', 0, l + 1, x) || Mapped(m2, r, |m2|, x)
    {
      MappedSplit(m1', 0, l + 1, x);
      MappedSame(m1, m1', l, x);
    }
  }

  function Annotated(lines: seq<BlameLine>, x: int, id: CommitId): seq<BlameLine> {
    if 0 <= x < |lines| && !lines[x].annotated then lines[x := BlameLine(true, id)] else lines
  }

  /** A line new in the newer version is annotated, and mapped no longer. */
  lemma CarryPlus(lines: seq<BlameLine>, m1: seq<int>, m2: seq<int>, l: nat, r: nat, v1: seq<Line>, blamed: seq<Line>,
                  id: CommitId)
    requires Carried(lines, m1, m2, l, r, v1, blamed) && r < |m2|
    ensures Carried(Annotated(lines, m2[r], id), m1, m2, l, r + 1, v1, blamed)
  {
    var lines' := Annotated(lines, m2[r], id);
    forall x | 0 <= x < |lines'|
      ensures !lines'[x].annotated <==> Mapped(m1, 0, l, x) || Mapped(m2, r + 1, |m2|, x)
    {
      MappedSplit(m2, r, |m2|, x);
      assert x == m2[r] ==> !Mapped(m1, 0, l, x) && !Mapped(m2, r + 1, |m2|, x);
    }
  }

  /** The older version's entries for one chunk: an unchanged line takes over
      the newer line's entry, a removed one has none. */
  function ChunkMap(c: Chunk, m: seq<int>): seq<int> {
    seq(c.leftCount, i requires 0 <= i < c.leftCount =>
      if c.leftCount == c.rightCount && c.rightStart + i < |m| then m[c.rightStart + i] else -1)
  }

  /** The newer version's map m composed with the pairs of a script. */
  function CarriedMap(cs: seq<Chunk>, m: seq<int>): seq<int> {
    if cs == [] then [] else CarriedMap(cs[..|cs| - 1], m) + ChunkMap(cs[|cs| - 1], m)
  }

  /** A line paired with a newer line takes over its entry; all others have none. */
  lemma {:induction false} CarriedMapFollowsPairs(cs: seq<Chunk>, m: seq<int>, n1: nat, n2: nat)
    requires Tiles(cs, 0, 0, n1, n2) && n2 <= |m| && forall k | 0 <= k < |cs| :: cs[k].Settled()
    ensures FollowsPairs(CarriedMap(cs, m), m, Pairs(cs), n1, n2)
    decreases |cs|
  {
    if cs != [] {
      var front, c := cs[..|cs| - 1], cs[|cs| - 1];
      CarriedMapFollowsPairs(front, m, c.leftStart, c.rightStart);
      hide Tiles, FollowsPairs, ChunkMap, ChunkPairs;
      FollowsMore(CarriedMap(front, m), m, Pairs(front), c);
    }
  }

  ghost predicate FollowsPairs(m1: seq<int>, m: seq<int>, ps: seq<(nat, nat)>, n1: nat, n2: nat) {
    && |m1| == n1 && n2 <= |m|
    && (forall i | 0 <= i < |ps| :: ps[i].0 < n1 && ps[i].1 < n2 && m1[ps[i].0] == m[ps[i].1])
    && (forall l | 0 <= l < n1 :: m1[l] == -1 || PairedLeft(ps, l))
  }

  lemma FollowsMore(m1: seq<int>, m: seq<int>, ps: seq<(nat, nat)>, c: Chunk)
    requires FollowsPairs(m1, m, ps, c.leftStart, c.rightStart) && c.Settled() && c.rightStart + c.rightCount <= |m|
    ensures FollowsPairs(m1 + ChunkMap(c, m), m, ps + ChunkPairs(c), c.leftStart + c.leftCount,
                         c.rightStart + c.rightCount)
  {
    hide PairedLeft;
    var m1', ps' := m1 + ChunkMap(c, m), ps + ChunkPairs(c);
    forall i | 0 <= i < |ps'|
      ensures ps'[i].0 < |m1'| && ps'[i].1 < c.rightStart + c.rightCount && m1'[ps'[i].0] == m[ps'[i].1]
    {
      assert i < |ps| ==> ps'[i] == ps[i];
    }
    forall l | 0 <= l < |m1'|
      ensures m1'[l] == -1 || PairedLeft(ps', l)
    {
      if l < |m1| {
        PairedStays(ps, ChunkPairs(c), l);
      } else if c.Type() == Same {
        PairedAt(ps', |ps| + (l - |m1|), l);
      }
    }
  }

  lemma PairedStays(ps: seq<(nat, nat)>, qs: seq<(nat, nat)>, l: nat)
    ensures PairedLeft(ps, l) ==> PairedLeft(ps + qs, l)
  {
    if PairedLeft(ps, l) {
      var i :| 0 <= i < |ps| && ps[i].0 == l;
      assert (ps + qs)[i].0 == l;
    }
  }

  lemma PairedAt(ps: seq<(nat, nat)>, i: nat, l: nat)
    requires i < |ps| && ps[i].0 == l
    ensures PairedLeft(ps, l)
  {
  }

  ghost predicate PairedLeft(ps: seq<(nat, nat)>, l: nat) {
    exists i | 0 <= i < |ps| :: ps[i].0 == l
  }

  /** m is `before` with `part` written from index l on. */
  ghost predicate Filled(before: seq<int>, m: seq<int>, l: nat, part: seq<int>) {
    l + |part| <= |m| == |before| && m == before[..l] + part + before[l + |part|..]
  }

  lemma FillOne(before: seq<int>, m: seq<int>, l: nat, part: seq<int>, x: int)
    requires Filled(before, m, l, part) && l + |part| < |m|
    ensures Filled(before, m[l + |part| := x], l, part + [x])
  {
  }

  lemma FillNone(m: seq<int>, l: nat)
    requires l <= |m|
    ensures Filled(m, m, l, []) && Gaps(0) == []
  {
  }

  /** Writing the map of chunk i extends the map of the chunks before it. */
  lemma FilledMap(before: seq<int>, m1: seq<int>, l: nat, cs: seq<Chunk>, i: nat, m2: seq<int>)
    requires i < |cs| && Filled(before, m1, l, ChunkMap(cs[i], m2)) && before[..l] == CarriedMap(cs[..i], m2)
    ensures l + cs[i].leftCount <= |m1| && m1[..l + cs[i].leftCount] == CarriedMap(cs[..i + 1], m2)
  {
    var part := ChunkMap(cs[i], m2);
    assert m1[..l + |part|] == before[..l] + part;
    assert cs[..i + 1][..i] == cs[..i];
  }

  lemma FillGap(before: seq<int>, m: seq<int>, l: nat, n: nat)
    requires Filled(before, m, l, Gaps(n)) && l + n < |m|
    ensures Filled(before, m[l + n := -1], l, Gaps(n + 1))
  {
    FillOne(before, m, l, Gaps(n), -1);
    assert Gaps(n) + [-1] == Gaps(n + 1);
  }

  function Gaps(n: nat): seq<int> {
    seq(n, _ => -1)
  }

  lemma ChunkMapIs(c: Chunk, m: seq<int>)
    requires c.rightStart + c.rightCount <= |m|
    ensures ChunkMap(c, m) == if c.leftCount == c.rightCount then m[c.rightStart..c.rightStart + c.rightCount]
            else Gaps(c.leftCount)
  {
  }

  /** Line r of the newer version is not in the older one. */
  ghost predicate Added(cs: seq<Chunk>, r: nat) {
    exists i | 0 <= i < |cs| :: cs[i].Type() == Plus && cs[i].rightStart <= r < cs[i].rightStart + cs[i].rightCount
  }

  /** Lines annotated since `before` got this commit, and stand at an added line
      of its version; earlier annotations stay. */
  ghost predicate NewlyBlamed(before: seq<BlameLine>, lines: seq<BlameLine>, m2: seq<int>, cs: seq<Chunk>,
                              id: CommitId) {
    && |before| == |lines|
    && (forall x | 0 <= x < |lines| && before[x].annotated :: lines[x] == before[x])
    && (forall x | 0 <= x < |lines| && !before[x].annotated && lines[x].annotated ::
          lines[x].id == id && StandsAtAdded(m2, cs, x))
  }

  ghost predicate StandsAtAdded(m2: seq<int>, cs: seq<Chunk>, x: int) {
    exists r | 0 <= r < |m2| :: m2[r] == x && Added(cs, r)
  }

  lemma NewlyBlamedStep(before: seq<BlameLine>, lines: seq<BlameLine>, m2: seq<int>, cs: seq<Chunk>, id: CommitId,
                        r: nat)
    requires NewlyBlamed(before, lines, m2, cs, id) && r < |m2| && Added(cs, r)
    ensures NewlyBlamed(before, Annotated(lines, m2[r], id), m2, cs, id)
  {
    hide Added;
    assert StandsAtAdded(m2, cs, m2[r]);
  }

  lemma NoneOpen(lines: seq<BlameLine>, m1: seq<int>, m2: seq<int>, l: nat, r: nat, v1: seq<Line>, blamed: seq<Line>)
    requires Carried(lines, m1, m2, l, r, v1, blamed)
    ensures |m1| == |v1| && r <= |m2|
  {
  }

  // ------------------------------------------------------------ the state

  class Blame {
    const nlines: nat
    var nannotated: nat
    var lines: seq<BlameLine>
    var linemap1: seq<int>
    var linemap2: seq<int>
    /** The calls of the callback, as line number (from 1) and commit. */
    var calls: seq<(int, CommitId)>

    constructor (nlines: nat, nlines2: nat)
      ensures Valid() && this.nlines == nlines && nannotated == 0 && |lines| == nlines && calls == [] && linemap1 == []
      ensures forall x | 0 <= x < nlines :: !lines[x].annotated
      ensures linemap2 == OwnLines(nlines2)
    {
      this.nlines := nlines;
      nannotated, calls, linemap1 := 0, [], [];
      lines := seq(nlines, _ => BlameLine(false, 0));
      linemap2 := OwnLines(nlines2);
      new;
      NoneAnnotated(lines);
    }

    /** The count is right, and the callback was called once for each annotated
        line, with its commit. */
    ghost predicate Valid()
      reads `lines, `nannotated, `calls
    {
      && |lines| == nlines && nannotated == CountAnnotated(lines) && |calls| == nannotated
      && (forall k | 0 <= k < |calls| :: Called(lines, calls[k]))
      && (forall i, j | 0 <= i < j < |calls| :: calls[i].0 != calls[j].0)
    }

    static ghost predicate Called(lines: seq<BlameLine>, c: (int, CommitId)) {
      1 <= c.0 <= |lines| && lines[c.0 - 1] == BlameLine(true, c.1)
    }

    lemma CountInRange()
      requires Valid()
      ensures nannotated <= nlines
    {
      CountAll(lines);
    }

    lemma NothingToDo()
      requires Valid() && MappedAreOpen(lines, linemap2) && linemap2 == []
      ensures nannotated == nlines
    {
      NothingOpen(lines, linemap2);
    }

    lemma AllCalled()
      requires Valid() && nannotated == nlines
      ensures forall x | 0 <= x < nlines :: (x + 1, lines[x].id) in calls
    {
      EachLineCalled(lines, calls);
    }

    /** annotate_line() */
    method AnnotateLine(lineno: int, id: CommitId)
      requires Valid()
      modifies this`lines, this`nannotated, this`calls
      ensures Valid()
      ensures lines == Annotated(old(lines), lineno, id)
    {
      if lineno < 0 || lineno >= nlines {
        return;
      }
      if lines[lineno].annotated {
        return;
      }
      CountOne(lines, lineno, id);
      lines := lines[lineno := BlameLine(true, id)];
      nannotated := nannotated + 1;
      calls := calls + [(lineno + 1, id)];
    }

    /** Copy the map over an equal run. */
    method CarryRun(l: nat, r: nat, n: nat, v1: seq<Line>, v2: seq<Line>, blamed: seq<Line>)
      requires Carried(lines, linemap1, linemap2, l, r, v1, blamed) && SameLines(linemap2, v2, blamed)
      requires l + n <= |v1| && r + n <= |v2| && AllSame(FilesOf(v1, v2), Run(l, r, n))
      modifies this`linemap1
      ensures Carried(lines, linemap1, linemap2, l + n, r + n, v1, blamed)
      ensures r + n <= |linemap2| && Filled(old(linemap1), linemap1, l, linemap2[r..r + n])
    {
      hide Carried, SameLines, Filled, Increasing;
      assert |linemap2| == |v2| by { LengthsAgree(lines, linemap1, linemap2, l, r, v1, v2, blamed); }
      assert |linemap1| == |v1| by { LengthsAgree(lines, linemap1, linemap2, l, r, v1, v2, blamed); }
      var j := 0;
      FillNone(linemap1, l);
      assert linemap2[r..r] == [];
      while j < n
        invariant 0 <= j <= n && |linemap1| == |v1|
        invariant Filled(old(linemap1), linemap1, l, linemap2[r..r + j])
        invariant Carried(lines, linemap1, linemap2, l + j, r + j, v1, blamed)
      {
        assert Run(l, r, n)[j] == (l + j, r + j);
        CarrySame(lines, linemap1, linemap2, l + j, r + j, v1, v2, blamed);
        FillOne(old(linemap1), linemap1, l, linemap2[r..r + j], linemap2[r + j]);
        assert linemap2[r..r + j] + [linemap2[r + j]] == linemap2[r..r + j + 1];
        linemap1 := linemap1[l + j := linemap2[r + j]];
        j := j + 1;
      }
    }

    method CarryMinusRun(l: nat, r: nat, n: nat, v1: seq<Line>, ghost blamed: seq<Line>)
      requires Carried(lines, linemap1, linemap2, l, r, v1, blamed) && l + n <= |v1|
      modifies this`linemap1
      ensures Carried(lines, linemap1, linemap2, l + n, r, v1, blamed)
      ensures Filled(old(linemap1), linemap1, l, Gaps(n))
    {
      hide *;
      NoneOpen(lines, linemap1, linemap2, l, r, v1, blamed);
      var j := 0;
      FillNone(linemap1, l);
      while j < n
        invariant 0 <= j <= n && |linemap1| == |v1|
        invariant Filled(old(linemap1), linemap1, l, Gaps(j))
        invariant Carried(lines, linemap1, linemap2, l + j, r, v1, blamed)
      {
        CarryMinus(lines, linemap1, linemap2, l + j, r, v1, blamed);
        FillGap(old(linemap1), linemap1, l, j);
        linemap1 := linemap1[l + j := -1];
        j := j + 1;
      }
    }

    /** Annotate the lines an added run stands for, until all are annotated. */
    method AnnotateRun(l: nat, r: nat, n: nat, id: CommitId, ghost v1: seq<Line>, ghost blamed: seq<Line>,
                       ghost cs: seq<Chunk>, ghost before: seq<BlameLine>)
      requires Valid() && Carried(lines, linemap1, linemap2, l, r, v1, blamed) && r + n <= |linemap2|
      requires NewlyBlamed(before, lines, linemap2, cs, id) && forall j | r <= j < r + n :: Added(cs, j)
      modifies this`lines, this`nannotated, this`calls
      ensures Valid() && NewlyBlamed(before, lines, linemap2, cs, id)
      ensures nannotated < nlines || n == 0 ==> Carried(lines, linemap1, linemap2, l, r + n, v1, blamed)
    {
      hide Carried, NewlyBlamed, Added, Valid;
      var j := 0;
      while j < n
        invariant 0 <= j <= n && Valid()
        invariant Carried(lines, linemap1, linemap2, l, r + j, v1, blamed)
                  && NewlyBlamed(before, lines, linemap2, cs, id)
      {
        var ln := linemap2[r + j];
        CarryPlus(lines, linemap1, linemap2, l, r + j, v1, blamed, id);
        NewlyBlamedStep(before, lines, linemap2, cs, id, r + j);
        AnnotateLine(ln, id);
        if nlines == nannotated {
          return;
        }
        j := j + 1;
      }
    }

    /** One chunk of the diff. */
    method BlameChunk(c: Chunk, idx1: nat, idx2: nat, id: CommitId, v1: seq<Line>, v2: seq<Line>,
                      blamed: seq<Line>, ghost chunks: seq<Chunk>, ghost before: seq<BlameLine>)
      returns (idx1': nat, idx2': nat)
      requires Valid() && nannotated < nlines && ChunkHere(v1, v2, chunks, c, idx1, idx2)
      requires SameLines(linemap2, v2, blamed) && NewlyBlamed(before, lines, linemap2, chunks, id)
      requires Carried(lines, linemap1, linemap2, idx1, idx2, v1, blamed)
      modifies this`lines, this`nannotated, this`calls, this`linemap1
      ensures Valid() && NewlyBlamed(before, lines, linemap2, chunks, id)
      ensures nannotated < nlines ==>
                && (idx1', idx2') == (idx1 + c.leftCount, idx2 + c.rightCount)
                && Carried(lines, linemap1, linemap2, idx1', idx2', v1, blamed)
                && Filled(old(linemap1), linemap1, idx1, ChunkMap(c, linemap2))
    {
      hide Added, AllSame, Carried, ChunkMap, Gaps, NewlyBlamed, Run, SameLines, Valid;
      LengthsAgree(lines, linemap1, linemap2, idx1, idx2, v1, v2, blamed);
      ChunkMapIs(c, linemap2);
      idx1', idx2' := idx1, idx2;
      if c.leftCount == c.rightCount {
        CarryRun(idx1, idx2, c.leftCount, v1, v2, blamed);
        idx1', idx2' := idx1 + c.leftCount, idx2 + c.leftCount;
      } else if c.rightCount == 0 {
        CarryMinusRun(idx1, idx2, c.leftCount, v1, blamed);
        idx1' := idx1 + c.leftCount;
      } else {
        FillNone(linemap1, idx1);
        AnnotateRun(idx1, idx2, c.rightCount, id, v1, blamed, chunks, before);
        idx2' := idx2 + c.rightCount;
      }
    }

    /** blame_changes(): walk the chunks of the diff between an older and the
        newer version, carrying the line map back and annotating what the newer
        version added. */
    method BlameChanges(chunks: seq<Chunk>, id: CommitId, v1: seq<Line>, v2: seq<Line>, blamed: seq<Line>)
      requires Valid() && |linemap1| == |v1|
      requires Script(FilesOf(v1, v2), chunks, |v1|, |v2|)
      requires Increasing(linemap2) && SameLines(linemap2, v2, blamed) && MappedAreOpen(lines, linemap2)
      modifies this`lines, this`nannotated, this`calls, this`linemap1
      ensures Valid() && NewlyBlamed(old(lines), lines, linemap2, chunks, id)
      ensures nannotated < nlines ==>
                && Increasing(linemap1) && SameLines(linemap1, v1, blamed) && MappedAreOpen(lines, linemap1)
                && linemap1 == CarriedMap(chunks, linemap2)
    {
      hide *;
      ghost var before := lines;
      var idx1, idx2 := 0, 0;
      var i := 0;
      StartCarry(lines, linemap1, linemap2, v1, v2, blamed, chunks, id);
      while i < |chunks| && nannotated < nlines
        invariant 0 <= i <= |chunks| && Valid() && NewlyBlamed(before, lines, linemap2, chunks, id)
        invariant nannotated < nlines ==>
                    && (idx1, idx2) == StartOf(chunks, i, |v1|, |v2|)
                    && Carried(lines, linemap1, linemap2, idx1, idx2, v1, blamed)
                    && idx1 <= |linemap1| && linemap1[..idx1] == CarriedMap(chunks[..i], linemap2)
      {
        ghost var was, l := linemap1, idx1;
        ChunkWork(v1, v2, chunks, i, idx1, idx2);
        idx1, idx2 := BlameChunk(chunks[i], idx1, idx2, id, v1, v2, blamed, chunks, before);
        if nannotated < nlines {
          FilledMap(was, linemap1, l, chunks, i, linemap2);
        }
        i := i + 1;
      }
      if nannotated < nlines {
        EndCarry(lines, linemap1, linemap2, idx1, idx2, v1, v2, blamed, chunks);
      }
    }

    /** blame_commit(): diff the parent's version with this commit's and blame
        the changes; a commit without a parent blames nothing. */
    method BlameCommit(id: CommitId, v1: seq<Line>, v2: seq<Line>, blamed: seq<Line>,
                       configs: Configs, algo: Option<nat>, maxDepth: nat, ghost rank: nat -> nat)
      returns (ghost chunks: seq<Chunk>)
      requires DividersOk(FilesOf(v1, v2), configs) && FallbacksEnd(configs, rank)
      requires Valid() && |v2| > 0
      requires Increasing(linemap2) && SameLines(linemap2, v2, blamed) && MappedAreOpen(lines, linemap2)
      modifies this`lines, this`nannotated, this`calls, this`linemap1
      ensures Valid() && Script(FilesOf(v1, v2), chunks, |v1|, |v2|)
      ensures FoundBy(FilesOf(v1, v2), configs, algo, maxDepth, chunks)
      ensures ShortestIfMyers(FilesOf(v1, v2), configs, rank, algo, chunks)
      ensures forall q | DividerPairs(configs, algo, WholeOf(FilesOf(v1, v2)), q) :: q in Pairs(chunks)
      ensures NewlyBlamed(old(lines), lines, linemap2, chunks, id)
      ensures nannotated < nlines ==>
                && Increasing(linemap1) && SameLines(linemap1, v1, blamed) && MappedAreOpen(lines, linemap1)
                && linemap1 == CarriedMap(chunks, linemap2)
    {
      var result := DiffDriver.DiffMain(FilesOf(v1, v2), configs, algo, maxDepth, rank);
      chunks := result.chunks;
      SomeChunk(FilesOf(v1, v2), chunks, |v1|, |v2|);
      hide Valid, Script, MappedAreOpen, Increasing, SameLines, NewlyBlamed, FilesOf, FoundBy, MyersSolves, Edits, Dist,
        DividerPairs, Pairs;
      if |result.chunks| > 0 {
        linemap1 := seq(|v1|, _ => 0);
        BlameChanges(result.chunks, id, v1, v2, blamed);
      } else {
        assert false;
      }
    }

    /** close_file2_and_reuse_file1() */
    method CloseFile2AndReuseFile1()
      modifies this`linemap1, this`linemap2
      ensures linemap2 == old(linemap1) && linemap1 == []
    {
      linemap2 := linemap1;
      linemap1 := [];
    }

    /** "Annotate remaining non-annotated lines with last commit." */
    method AnnotateRemaining(id: CommitId)
      requires Valid()
      modifies this`lines, this`nannotated, this`calls
      ensures Valid() && nannotated == nlines
      ensures |lines| == |old(lines)| && forall x | 0 <= x < |lines| ::
                lines[x] == if old(lines)[x].annotated then old(lines)[x] else BlameLine(true, id)
    {
      hide Called, CountAnnotated;
      var lineno := 0;
      while lineno < nlines
        invariant 0 <= lineno <= nlines && Valid()
        invariant |lines| == |old(lines)| && forall x | 0 <= x < |lines| ::
                    lines[x] == if x < lineno && !old(lines)[x].annotated then BlameLine(true, id) else old(lines)[x]
      {
        AnnotateLine(lineno, id);
        lineno := lineno + 1;
      }
      CountAll(lines);
    }
  }

  lemma SomeChunk(f: Files, cs: seq<Chunk>, n1: nat, n2: nat)
    requires Script(f, cs, n1, n2) && n2 > 0
    ensures cs != []
  {
  }

  lemma StartCarry(lines: seq<BlameLine>, m1: seq<int>, m2: seq<int>, v1: seq<Line>, v2: seq<Line>, blamed: seq<Line>,
                   cs: seq<Chunk>, id: CommitId)
    requires |m1| == |v1| && Increasing(m2) && SameLines(m2, v2, blamed) && MappedAreOpen(lines, m2)
    requires Script(FilesOf(v1, v2), cs, |v1|, |v2|)
    ensures Carried(lines, m1, m2, 0, 0, v1, blamed) && NewlyBlamed(lines, lines, m2, cs, id)
    ensures StartOf(cs, 0, |v1|, |v2|) == (0, 0) && m1[..0] == CarriedMap(cs[..0], m2)
  {
    FirstStart(cs, 0, 0, |v1|, |v2|);
  }

  lemma EndCarry(lines: seq<BlameLine>, m1: seq<int>, m2: seq<int>, l: nat, r: nat, v1: seq<Line>, v2: seq<Line>,
                 blamed: seq<Line>,
                 cs: seq<Chunk>)
    requires Carried(lines, m1, m2, l, r, v1, blamed) && (l, r) == StartOf(cs, |cs|, |v1|, |v2|)
    requires SameLines(m2, v2, blamed) && l <= |m1| && m1[..l] == CarriedMap(cs[..|cs|], m2)
    ensures Increasing(m1) && SameLines(m1, v1, blamed) && MappedAreOpen(lines, m1) && m1 == CarriedMap(cs, m2)
  {
    assert cs[..|cs|] == cs && m1[..l] == m1;
  }

  ghost predicate ChunkHere(v1: seq<Line>, v2: seq<Line>, cs: seq<Chunk>, c: Chunk, l: nat, r: nat) {
    && (l, r) == (c.leftStart, c.rightStart) && l + c.leftCount <= |v1| && r + c.rightCount <= |v2|
    && (c.leftCount == c.rightCount ==> AllSame(FilesOf(v1, v2), Run(l, r, c.leftCount)))
    && (c.leftCount != c.rightCount && c.rightCount != 0 ==>
          c.leftCount == 0 && forall j | r <= j < r + c.rightCount :: Added(cs, j))
  }

  /** What one chunk of the diff says about the next lines of both versions. */
  lemma ChunkWork(v1: seq<Line>, v2: seq<Line>, cs: seq<Chunk>, i: nat, l: nat, r: nat)
    requires i < |cs| && Script(FilesOf(v1, v2), cs, |v1|, |v2|)
    requires (l, r) == StartOf(cs, i, |v1|, |v2|)
    ensures ChunkHere(v1, v2, cs, cs[i], l, r)
    ensures StartOf(cs, i + 1, |v1|, |v2|) == (l + cs[i].leftCount, r + cs[i].rightCount)
  {
    ChunkFits(FilesOf(v1, v2), cs, i, |v1|, |v2|);
  }

  lemma ChunkFits(f: Files, cs: seq<Chunk>, i: nat, n1: nat, n2: nat)
    requires i < |cs| && Script(f, cs, n1, n2)
    ensures cs[i].Settled() && cs[i].leftStart + cs[i].leftCount <= n1 && cs[i].rightStart + cs[i].rightCount <= n2
    ensures cs[i].Type() == Same ==> AllSame(f, Run(cs[i].leftStart, cs[i].rightStart, cs[i].leftCount))
    ensures StartOf(cs, i + 1, n1, n2)
            == (cs[i].leftStart + cs[i].leftCount, cs[i].rightStart + cs[i].rightCount)
  {
    TilesGrow(cs, 0, 0, n1, n2);
    NextStart(cs, i, 0, 0, n1, n2);
    PairsOfChunk(f, cs, i);
  }

  lemma {:induction false} PairsOfChunk(f: Files, cs: seq<Chunk>, i: nat)
    requires i < |cs| && AllSame(f, Pairs(cs))
    ensures AllSame(f, ChunkPairs(cs[i]))
    decreases |cs|
  {
    var front := cs[..|cs| - 1];
    AllSameConcat(f, Pairs(front), ChunkPairs(cs[|cs| - 1]));
    if i < |cs| - 1 {
      PairsOfChunk(f, front, i);
    }
  }

  lemma LengthsAgree(lines: seq<BlameLine>, m1: seq<int>, m2: seq<int>, l: nat, r: nat, v1: seq<Line>, v2: seq<Line>,
                     blamed: seq<Line>)
    requires Carried(lines, m1, m2, l, r, v1, blamed) && SameLines(m2, v2, blamed)
    ensures |m1| == |v1| && |m2| == |v2|
  {
  }

  // ------------------------------------------------------------ the history loop

  ghost predicate Stands(m: seq<int>, x: int) {
    Mapped(m, 0, |m|, x)
  }

  /** Line x stands at a line of version k, and the next older version does not
      have that line, or version k is the oldest. */
  ghost predicate Introduced(maps: seq<seq<int>>, scripts: seq<seq<Chunk>>, last: nat, x: int, k: nat) {
    k < |maps| && if k == last then Stands(maps[k], x) else k < |scripts| && StandsAtAdded(maps[k], scripts[k], x)
  }

  /** Every annotated line carries the commit of a version that introduced it. */
  ghost predicate Explained(lines: seq<BlameLine>, ids: seq<CommitId>, maps: seq<seq<int>>, scripts: seq<seq<Chunk>>) {
    forall x | 0 <= x < |lines| && lines[x].annotated :: ExplainedLine(lines[x].id, ids, maps, scripts, x)
  }

  ghost predicate ExplainedLine(id: CommitId, ids: seq<CommitId>, maps: seq<seq<int>>, scripts: seq<seq<Chunk>>,
                                x: int) {
    exists k | 0 <= k < |ids| :: ids[k] == id && Introduced(maps, scripts, |ids| - 1, x, k)
  }

  lemma ExplainedGrows(before: seq<BlameLine>, lines: seq<BlameLine>, ids: seq<CommitId>, maps: seq<seq<int>>,
                       scripts: seq<seq<Chunk>>, m1: seq<int>, cs: seq<Chunk>)
    requires Explained(before, ids, maps, scripts) && |maps| == |scripts| + 1 <= |ids|
    requires NewlyBlamed(before, lines, maps[|scripts|], cs, ids[|scripts|])
    ensures Explained(lines, ids, maps, scripts + [cs])
    ensures Explained(lines, ids, maps + [m1], scripts + [cs])
  {
    var maps', scripts' := maps + [m1], scripts + [cs];
    forall x | 0 <= x < |lines| && lines[x].annotated
      ensures ExplainedLine(lines[x].id, ids, maps, scripts', x) && ExplainedLine(lines[x].id, ids, maps', scripts', x)
    {
      if before[x].annotated {
        assert ExplainedLine(before[x].id, ids, maps, scripts, x);
        var k :| 0 <= k < |ids| && ids[k] == before[x].id && Introduced(maps, scripts, |ids| - 1, x, k);
        assert Introduced(maps, scripts', |ids| - 1, x, k) && Introduced(maps', scripts', |ids| - 1, x, k);
      } else {
        assert Introduced(maps, scripts', |ids| - 1, x, |scripts|)
               && Introduced(maps', scripts', |ids| - 1, x, |scripts|);
      }
    }
  }

  /** The versions' line maps: the blamed version's own lines first, then each
      map composed with the next diff; all increasing and pointing at equal
      lines. */
  ghost predicate MapsOk(maps: seq<seq<int>>, scripts: seq<seq<Chunk>>, versions: seq<seq<Line>>) {
    && 0 < |maps| <= |versions| && |maps| <= |scripts| + 1
    && maps[0] == OwnLines(|versions[0]|)
    && (forall k | 0 <= k < |maps| :: Increasing(maps[k]) && SameLines(maps[k], versions[k], versions[0]))
    && (forall k | 0 <= k < |maps| - 1 :: FollowsDiff(maps, scripts, k))
  }

  ghost predicate FollowsDiff(maps: seq<seq<int>>, scripts: seq<seq<Chunk>>, k: nat) {
    k + 1 < |maps| && k < |scripts| && maps[k + 1] == CarriedMap(scripts[k], maps[k])
  }

  /** Script k is what the diff engine answered for versions k + 1 and k. */
  ghost predicate ScriptsOk(scripts: seq<seq<Chunk>>, versions: seq<seq<Line>>) {
    |scripts| <= |versions| && forall k | 0 <= k < |scripts| :: DiffOf(versions, k, scripts[k])
  }

  ghost predicate DiffOf(versions: seq<seq<Line>>, k: nat, cs: seq<Chunk>) {
    k + 1 < |versions| && Script(FilesOf(versions[k + 1], versions[k]), cs, |versions[k + 1]|, |versions[k]|)
  }

  /** And it found them as the configurations say. */
  ghost predicate ScriptsFound(scripts: seq<seq<Chunk>>, versions: seq<seq<Line>>, configs: Configs, algo: Option<nat>,
                               maxDepth: nat) {
    forall k | 0 <= k < |scripts| :: FoundAt(versions, k, configs, algo, maxDepth, scripts[k])
  }

  ghost predicate FoundAt(versions: seq<seq<Line>>, k: nat, configs: Configs, algo: Option<nat>, maxDepth: nat,
                          cs: seq<Chunk>) {
    k + 1 < |versions| && FoundBy(FilesOf(versions[k + 1], versions[k]), configs, algo, maxDepth, cs)
  }

  lemma NoneFound(versions: seq<seq<Line>>, configs: Configs, algo: Option<nat>, maxDepth: nat)
    ensures ScriptsFound([], versions, configs, algo, maxDepth)
  {
  }

  lemma FoundOneMore(scripts: seq<seq<Chunk>>, versions: seq<seq<Line>>, configs: Configs, algo: Option<nat>,
                     maxDepth: nat, cs: seq<Chunk>)
    requires ScriptsFound(scripts, versions, configs, algo, maxDepth) && |scripts| + 1 < |versions|
    requires FoundBy(FilesOf(versions[|scripts| + 1], versions[|scripts|]), configs, algo, maxDepth, cs)
    ensures ScriptsFound(scripts + [cs], versions, configs, algo, maxDepth)
  {
    hide FoundBy, FilesOf;
  }

  /** What the loop knows after |scripts| diffs. */
  ghost predicate History(lines: seq<BlameLine>, ids: seq<CommitId>, versions: seq<seq<Line>>, maps: seq<seq<int>>,
                          scripts: seq<seq<Chunk>>) {
    MapsOk(maps, scripts, versions) && ScriptsOk(scripts, versions) && Explained(lines, ids, maps, scripts)
  }

  lemma HistoryGrows(before: seq<BlameLine>, lines: seq<BlameLine>, ids: seq<CommitId>, versions: seq<seq<Line>>,
                     maps: seq<seq<int>>, scripts: seq<seq<Chunk>>, m1: seq<int>, cs: seq<Chunk>, finished: bool)
    returns (maps': seq<seq<int>>)
    requires History(before, ids, versions, maps, scripts) && |maps| == |scripts| + 1 < |versions| == |ids|
    requires NewlyBlamed(before, lines, maps[|scripts|], cs, ids[|scripts|]) && DiffOf(versions, |scripts|, cs)
    requires !finished ==>
               && Increasing(m1) && SameLines(m1, versions[|maps|], versions[0])
               && m1 == CarriedMap(cs, maps[|scripts|])
    ensures maps' == if finished then maps else maps + [m1]
    ensures History(lines, ids, versions, maps', scripts + [cs])
  {
    hide AllSame, CarriedMap, Explained, Increasing, MapsOk, NewlyBlamed, Normal, Pairs, SameLines, ScriptsOk, Tiles;
    ExplainedGrows(before, lines, ids, maps, scripts, m1, cs);
    ScriptsGrow(scripts, versions, cs);
    if finished {
      MapsStay(maps, scripts, versions, cs);
      maps' := maps;
    } else {
      MapsGrow(maps, scripts, versions, m1, cs);
      maps' := maps + [m1];
    }
  }

  lemma MapsGrow(maps: seq<seq<int>>, scripts: seq<seq<Chunk>>, versions: seq<seq<Line>>, m1: seq<int>, cs: seq<Chunk>)
    requires MapsOk(maps, scripts, versions) && |maps| == |scripts| + 1 < |versions|
    requires Increasing(m1) && SameLines(m1, versions[|maps|], versions[0]) && m1 == CarriedMap(cs, maps[|scripts|])
    ensures MapsOk(maps + [m1], scripts + [cs], versions)
  {
    var maps', scripts' := maps + [m1], scripts + [cs];
    hide Increasing, SameLines, CarriedMap;
    forall k | 0 <= k < |maps'| - 1
      ensures FollowsDiff(maps', scripts', k)
    {
      assert k < |maps| - 1 ==> FollowsDiff(maps, scripts, k);
    }
  }

  lemma MapsStay(maps: seq<seq<int>>, scripts: seq<seq<Chunk>>, versions: seq<seq<Line>>, cs: seq<Chunk>)
    requires MapsOk(maps, scripts, versions)
    ensures MapsOk(maps, scripts + [cs], versions)
  {
    hide Increasing, SameLines, CarriedMap;
    assert forall k | 0 <= k < |maps| - 1 :: FollowsDiff(maps, scripts, k) ==> FollowsDiff(maps, scripts + [cs], k);
  }

  lemma ScriptsGrow(scripts: seq<seq<Chunk>>, versions: seq<seq<Line>>, cs: seq<Chunk>)
    requires ScriptsOk(scripts, versions) && DiffOf(versions, |scripts|, cs)
    ensures ScriptsOk(scripts + [cs], versions)
  {
  }

  /** Number of lines to blame: an empty last line is not one. */
  function BlamedLines(v: seq<Line>): nat {
    if |v| > 0 && v[|v| - 1] == "" then |v| - 1 else |v|
  }

  lemma StartOpen(lines: seq<BlameLine>, v: seq<Line>)
    requires |lines| == BlamedLines(v) && forall x | 0 <= x < |lines| :: !lines[x].annotated
    ensures var m := OwnLines(|v|);
            Increasing(m) && SameLines(m, v, v) && MappedAreOpen(lines, m)
  {
    var m := OwnLines(|v|);
    forall x | 0 <= x < |lines|
      ensures Mapped(m, 0, |m|, x)
    {
      assert m[x] == x;
    }
  }

  lemma NothingOpen(lines: seq<BlameLine>, m: seq<int>)
    requires MappedAreOpen(lines, m) && m == []
    ensures CountAnnotated(lines) == |lines|
  {
    CountAll(lines);
  }

  lemma HistoryStarts(lines: seq<BlameLine>, ids: seq<CommitId>, versions: seq<seq<Line>>)
    requires versions != [] && forall x | 0 <= x < |lines| :: !lines[x].annotated
    ensures History(lines, ids, versions, [OwnLines(|versions[0]|)], [])
  {
  }

  // ------------------------------------------------------------ one version per line

  /** A line that was added is paired with none. */
  lemma {:induction false} AddedIsUnpaired(cs: seq<Chunk>, n1: nat, n2: nat, p: (nat, nat))
    requires Tiles(cs, 0, 0, n1, n2) && p in Pairs(cs)
    ensures p.1 < n2 && !Added(cs, p.1)
    decreases |cs|
  {
    var front, c := cs[..|cs| - 1], cs[|cs| - 1];
    TilesGrow(front, 0, 0, c.leftStart, c.rightStart);
    if p in Pairs(front) {
      AddedIsUnpaired(front, c.leftStart, c.rightStart, p);
    }
    forall i | 0 <= i < |cs| && cs[i].Type() == Plus
      ensures !(cs[i].rightStart <= p.1 < cs[i].rightStart + cs[i].rightCount)
    {
      if i < |front| {
        assert cs[i] == front[i];
      }
    }
  }

  /** A line that stands in the older version does so in the newer one, and was
      not added there. */
  lemma OlderIsPaired(cs: seq<Chunk>, m: seq<int>, n1: nat, x: int)
    requires Tiles(cs, 0, 0, n1, |m|) && forall k | 0 <= k < |cs| :: cs[k].Settled()
    requires Increasing(m) && x >= 0 && Stands(CarriedMap(cs, m), x)
    ensures Stands(m, x) && !StandsAtAdded(m, cs, x)
  {
    hide Tiles, CarriedMap, Pairs, Added;
    CarriedMapFollowsPairs(cs, m, n1, |m|);
    var m1, ps := CarriedMap(cs, m), Pairs(cs);
    var l :| 0 <= l < |m1| && m1[l] == x;
    assert PairedLeft(ps, l);
    var i :| 0 <= i < |ps| && ps[i].0 == l;
    assert ps[i] in ps && m[ps[i].1] == x;
    AddedIsUnpaired(cs, n1, |m|, ps[i]);
  }

  /** Line x stands in the versions up to the one that introduced it, and in none
      before that. */
  lemma {:induction false} StandsUpTo(ids: seq<CommitId>, versions: seq<seq<Line>>, maps: seq<seq<int>>,
                                      scripts: seq<seq<Chunk>>,
                                      x: int, k: nat, i: nat)
    requires MapsOk(maps, scripts, versions) && ScriptsOk(scripts, versions) && |versions| == |ids| && x >= 0
    requires Introduced(maps, scripts, |ids| - 1, x, k) && i < |maps|
    ensures Stands(maps[i], x) <==> i <= k
    decreases if i < k then k - i else i - k
  {
    hide Increasing, SameLines, CarriedMap, StandsAtAdded, Script, FilesOf, Stands;
    if i == k {
      IntroducedStands(maps, scripts, |ids| - 1, x, k);
    } else if i < k {
      StandsUpTo(ids, versions, maps, scripts, x, k, i + 1);
      OneVersionOlder(maps, scripts, versions, x, i);
    } else {
      StandsUpTo(ids, versions, maps, scripts, x, k, i - 1);
      OneVersionOlder(maps, scripts, versions, x, i - 1);
    }
  }

  lemma IntroducedStands(maps: seq<seq<int>>, scripts: seq<seq<Chunk>>, last: nat, x: int, k: nat)
    requires Introduced(maps, scripts, last, x, k)
    ensures Stands(maps[k], x)
  {
  }

  lemma OneVersionOlder(maps: seq<seq<int>>, scripts: seq<seq<Chunk>>, versions: seq<seq<Line>>, x: int, k: nat)
    requires MapsOk(maps, scripts, versions) && ScriptsOk(scripts, versions) && x >= 0 && k + 1 < |maps|
    ensures Stands(maps[k + 1], x) ==> Stands(maps[k], x) && !StandsAtAdded(maps[k], scripts[k], x)
  {
    hide Increasing, CarriedMap, StandsAtAdded, FilesOf, Stands;
    assert FollowsDiff(maps, scripts, k) && DiffOf(versions, k, scripts[k]);
    assert |maps[k]| == |versions[k]|;
    if Stands(maps[k + 1], x) {
      OlderIsPaired(scripts[k], maps[k], |versions[k + 1]|, x);
    }
  }

  /** So exactly one version introduced a line, and that one's commit is blamed. */
  lemma BlamedOnTheOne(lines: seq<BlameLine>, ids: seq<CommitId>, versions: seq<seq<Line>>, maps: seq<seq<int>>,
                       scripts: seq<seq<Chunk>>, x: nat, k: nat)
    requires History(lines, ids, versions, maps, scripts) && |versions| == |ids|
    requires x < |lines| && lines[x].annotated && Introduced(maps, scripts, |ids| - 1, x, k)
    ensures lines[x].id == ids[k]
    ensures forall i | 0 <= i < |maps| :: Stands(maps[i], x) <==> i <= k
  {
    hide MapsOk, ScriptsOk, StandsAtAdded, Stands;
    assert ExplainedLine(lines[x].id, ids, maps, scripts, x);
    var j :| 0 <= j < |ids| && ids[j] == lines[x].id && Introduced(maps, scripts, |ids| - 1, x, j);
    forall i | 0 <= i < |maps|
      ensures (Stands(maps[i], x) <==> i <= k) && (Stands(maps[i], x) <==> i <= j)
    {
      StandsUpTo(ids, versions, maps, scripts, x, k, i);
      StandsUpTo(ids, versions, maps, scripts, x, j, i);
    }
    assert Stands(maps[j], x) && Stands(maps[k], x);
  }

  // ------------------------------------------------------------ blame_open()

  /** The lines left over belong to the oldest version. */
  lemma ExplainedAtEnd(before: seq<BlameLine>, lines: seq<BlameLine>, ids: seq<CommitId>, maps: seq<seq<int>>,
                       scripts: seq<seq<Chunk>>)
    requires Explained(before, ids, maps, scripts) && |before| == |lines| && |maps| == |ids| > 0
    requires MappedAreOpen(before, maps[|ids| - 1])
    requires forall x | 0 <= x < |lines| ::
               lines[x] == if before[x].annotated then before[x] else BlameLine(true, ids[|ids| - 1])
    ensures Explained(lines, ids, maps, scripts)
  {
    forall x | 0 <= x < |lines|
      ensures ExplainedLine(lines[x].id, ids, maps, scripts, x)
    {
      if before[x].annotated {
        assert ExplainedLine(before[x].id, ids, maps, scripts, x);
      } else {
        assert Introduced(maps, scripts, |ids| - 1, x, |ids| - 1);
      }
    }
  }

  /** The history loop of blame_open(), over a linear list of versions. */
  method BlameOpen(versions: seq<seq<Line>>, ids: seq<CommitId>, configs: Configs,
                   algo: Option<nat>, maxDepth: nat, ghost rank: nat -> nat)
    returns (blame: Blame, ghost maps: seq<seq<int>>, ghost scripts: seq<seq<Chunk>>)
    requires |versions| == |ids| > 0
    requires forall k | 0 <= k < |versions| - 1 :: DividersOk(FilesOf(versions[k + 1], versions[k]), configs)
    requires FallbacksEnd(configs, rank)
    ensures fresh(blame) && blame.Valid() && blame.nlines == blame.nannotated == BlamedLines(versions[0])
    ensures var v := versions[0]; blame.nlines == |v| - if v != [] && v[|v| - 1] == "" then 1 else 0
    ensures History(blame.lines, ids, versions, maps, scripts)
    ensures ScriptsFound(scripts, versions, configs, algo, maxDepth)
    ensures forall x | 0 <= x < blame.nlines :: (x + 1, blame.lines[x].id) in blame.calls
  {
    hide AllSame, Blame.Valid, CarriedMap, DividersOk, FallbacksEnd, FoundBy, MyersSolves, Edits, Dist, DividerPairs,
      ScriptsFound, Explained, Increasing,
      MappedAreOpen, MapsOk, NewlyBlamed, Normal, OwnLines, Pairs, SameLines, ScriptsOk, Tiles;
    var nlines := BlamedLines(versions[0]);
    blame := new Blame(nlines, |versions[0]|);
    maps, scripts := [blame.linemap2], [];
    StartOpen(blame.lines, versions[0]);
    HistoryStarts(blame.lines, ids, versions);
    NoneFound(versions, configs, algo, maxDepth);
    if |versions[0]| == 0 {
      blame.NothingToDo();
      blame.AllCalled();
      return;
    }
    var k := 0;
    var id := ids[0];
    while k < |ids|
      invariant 0 <= k <= |ids| && blame.Valid()
      invariant History(blame.lines, ids, versions, maps, scripts)
      invariant ScriptsFound(scripts, versions, configs, algo, maxDepth)
      invariant |scripts| == if k < |ids| then k else |ids| - 1
      invariant |maps| == |scripts| + 1
      invariant k < |ids| ==> blame.linemap2 == maps[k] && MappedAreOpen(blame.lines, maps[k])
      invariant k == |ids| ==> MappedAreOpen(blame.lines, maps[k - 1])
      invariant k == 0 ==> |versions[0]| > 0
      invariant k > 0 ==> blame.nannotated < blame.nlines && id == ids[k - 1]
    {
      id := ids[k];
      if k + 1 < |ids| {
        ghost var before := blame.lines;
        VersionNotEmpty(blame, ids, maps, scripts, versions, k);
        ghost var chunks := blame.BlameCommit(id, versions[k + 1], versions[k], versions[0], configs, algo, maxDepth,
                                              rank);
        assert DiffOf(versions, k, chunks);
        maps := HistoryGrows(before, blame.lines, ids, versions, maps, scripts, blame.linemap1, chunks,
                             blame.nannotated >= blame.nlines);
        FoundOneMore(scripts, versions, configs, algo, maxDepth, chunks);
        scripts := scripts + [chunks];
      }
      blame.CountInRange();
      if blame.nannotated == blame.nlines {
        break;
      }
      blame.CloseFile2AndReuseFile1();
      k := k + 1;
    }
    if blame.nannotated < blame.nlines {
      ghost var before := blame.lines;
      blame.AnnotateRemaining(id);
      HistoryEnds(before, blame.lines, ids, versions, maps, scripts);
    }
    blame.AllCalled();
  }

  /** While lines are open, the version they are mapped to has lines. */
  lemma VersionNotEmpty(blame: Blame, ids: seq<CommitId>, maps: seq<seq<int>>, scripts: seq<seq<Chunk>>,
                        versions: seq<seq<Line>>, k: nat)
    requires History(blame.lines, ids, versions, maps, scripts) && blame.Valid() && k < |maps|
    requires MappedAreOpen(blame.lines, maps[k])
    requires if k == 0 then |versions[0]| > 0 else blame.nannotated < blame.nlines
    ensures k < |versions| && |versions[k]| > 0 && Increasing(maps[k]) && SameLines(maps[k], versions[k], versions[0])
  {
    hide Increasing, MappedAreOpen;
    if |maps[k]| == 0 && k > 0 {
      NothingOpen(blame.lines, maps[k]);
    }
  }

  /** When all lines are annotated the callback was called for each line, with
      its commit (and, by Valid, no line twice). */
  lemma HistoryEnds(before: seq<BlameLine>, lines: seq<BlameLine>, ids: seq<CommitId>, versions: seq<seq<Line>>,
                    maps: seq<seq<int>>, scripts: seq<seq<Chunk>>)
    requires History(before, ids, versions, maps, scripts) && |before| == |lines| && |maps| == |ids| > 0
    requires MappedAreOpen(before, maps[|ids| - 1])
    requires forall x | 0 <= x < |lines| ::
               lines[x] == if before[x].annotated then before[x] else BlameLine(true, ids[|ids| - 1])
    ensures History(lines, ids, versions, maps, scripts)
  {
    hide MapsOk, ScriptsOk;
    ExplainedAtEnd(before, lines, ids, maps, scripts);
  }

  lemma EachLineCalled(lines: seq<BlameLine>, calls: seq<(int, CommitId)>)
    requires |calls| == |lines| && forall k | 0 <= k < |calls| :: Blame.Called(lines, calls[k])
    requires forall i, j | 0 <= i < j < |calls| :: calls[i].0 != calls[j].0
    ensures forall x | 0 <= x < |lines| :: (x + 1, lines[x].id) in calls
  {
    var n := |lines|;
    var called := set k | 0 <= k < n :: calls[k].0;
    CountDistinct(calls);
    var all := UpTo(n);
    CountUpTo(n);
    EqualBySize(called, all);
    forall x | 0 <= x < n
      ensures (x + 1, lines[x].id) in calls
    {
      assert x + 1 in all;
      var k :| 0 <= k < n && calls[k].0 == x + 1;
      assert Blame.Called(lines, calls[k]);
      assert calls[k] == (x + 1, lines[x].id);
    }
  }

  lemma {:induction false} CountDistinct(calls: seq<(int, CommitId)>)
    requires forall i, j | 0 <= i < j < |calls| :: calls[i].0 != calls[j].0
    ensures |set k | 0 <= k < |calls| :: calls[k].0| == |calls|
    decreases |calls|
  {
    if calls != [] {
      var front := calls[..|calls| - 1];
      CountDistinct(front);
      assert (set k | 0 <= k < |calls| :: calls[k].0)
             == (set k | 0 <= k < |front| :: front[k].0) + {calls[|calls| - 1].0};
    }
  }

  function UpTo(n: nat): set<int> {
    if n == 0 then {} else UpTo(n - 1) + {n}
  }

  lemma {:induction false} CountUpTo(n: nat)
    ensures |UpTo(n)| == n && forall x :: x in UpTo(n) <==> 1 <= x <= n
  {
    if n > 0 {
      CountUpTo(n - 1);
    }
  }

  lemma EqualBySize(a: set<int>, b: set<int>)
    requires a <= b && |a| == |b|
    ensures a == b
  {
    assert b == a + (b - a);
  }
}
