/** Diff chunks and what a list of them means (lib/diff_internal.h, lib/diff_main.c).

  Atoms are identified by their absolute index in each file; `same` is what
  diff_atom_same() answers. Nothing is assumed about `same`.
*/
module DiffChunks {

  datatype Files = Files(leftLen: nat, rightLen: nat, same: (nat, nat) -> bool)

  /** The part of both files one run of a diff algorithm works on. */
  datatype Section = Section(leftStart: nat, leftLen: nat, rightStart: nat, rightLen: nat)

  datatype ChunkType = Empty | Plus | Minus | Same | Error

  datatype Chunk = Chunk(solved: bool, leftStart: nat, leftCount: nat, rightStart: nat, rightCount: nat)
  {
    function Type(): ChunkType {
      if leftCount == 0 && rightCount == 0 then Empty
      else if !solved then Error
      else if rightCount == 0 then Minus
      else if leftCount == 0 then Plus
      else if leftCount != rightCount then Error
      else Same
    }

    /** A chunk that belongs in a final result. */
    predicate Settled() {
      solved && Type() in {Plus, Minus, Same}
    }
  }

  // ---------------------------------------------------------------- meaning

  /** The n index pairs on the diagonal that starts at (l, r). */
  function Run(l: nat, r: nat, n: nat): (ps: seq<(nat, nat)>) {
    seq(n, t requires t >= 0 => (l + t, r + t))
  }

  function ChunkPairs(c: Chunk): seq<(nat, nat)> {
    if c.Type() == Same then Run(c.leftStart, c.rightStart, c.leftCount) else []
  }

  function ChunkEdits(c: Chunk): nat {
    if c.Type() == Same then 0 else c.leftCount + c.rightCount
  }

  /** The atoms a chunk list pairs up as equal, in order. */
  function Pairs(cs: seq<Chunk>): seq<(nat, nat)> {
    if cs == [] then [] else Pairs(cs[..|cs| - 1]) + ChunkPairs(cs[|cs| - 1])
  }

  /** The pairs that have come since the list was `before`. */
  function NewPairs(before: seq<Chunk>, after: seq<Chunk>): seq<(nat, nat)>
    requires Pairs(before) <= Pairs(after)
  {
    Pairs(after)[|Pairs(before)|..]
  }

  /** Deleted plus inserted atoms. */
  function Edits(cs: seq<Chunk>): nat {
    if cs == [] then 0 else Edits(cs[..|cs| - 1]) + ChunkEdits(cs[|cs| - 1])
  }

  /** Two sequences of lines as the diff engine sees them. */
  function FilesOf<T(==)>(left: seq<T>, right: seq<T>): Files {
    Files(|left|, |right|, (i: nat, j: nat) => i < |left| && j < |right| && left[i] == right[j])
  }

  /** The left atoms named by the chunks, in order; likewise the right ones. */
  function LeftAtoms(cs: seq<Chunk>): seq<nat> {
    if cs == [] then [] else LeftAtoms(cs[..|cs| - 1]) + Range(cs[|cs| - 1].leftStart, cs[|cs| - 1].leftCount)
  }

  function RightAtoms(cs: seq<Chunk>): seq<nat> {
    if cs == [] then [] else RightAtoms(cs[..|cs| - 1]) + Range(cs[|cs| - 1].rightStart, cs[|cs| - 1].rightCount)
  }

  function Range(start: nat, n: nat): seq<nat> {
    seq(n, t requires t >= 0 => start + t)
  }

  /** The chunks follow each other without gap or overlap on both sides, from
      (l, r) up to (l2, r2). */
  ghost predicate Tiles(cs: seq<Chunk>, l: nat, r: nat, l2: nat, r2: nat) {
    if cs == [] then
      l == l2 && r == r2
    else
      var last := cs[|cs| - 1];
      && last.leftStart + last.leftCount == l2
      && last.rightStart + last.rightCount == r2
      && Tiles(cs[..|cs| - 1], l, r, last.leftStart, last.rightStart)
  }

  ghost predicate AllSame(f: Files, ps: seq<(nat, nat)>) {
    forall i | 0 <= i < |ps| :: f.same(ps[i].0, ps[i].1)
  }

  /** Neighbours in a finished list: different types, and no plus directly
      before a minus. */
  ghost predicate MayFollow(a: Chunk, b: Chunk) {
    a.Type() != b.Type() && !(a.Type() == Plus && b.Type() == Minus)
  }

  ghost predicate Normal(cs: seq<Chunk>) {
    && (forall i | 0 <= i < |cs| :: cs[i].Settled())
    && (forall i | 0 < i < |cs| :: MayFollow(cs[i - 1], cs[i]))
  }

  /** Strictly increasing in both coordinates, inside the section, all equal:
      a common subsequence of the two sides. */
  ghost predicate CommonSubsequence(f: Files, s: Section, ps: seq<(nat, nat)>) {
    && AllSame(f, ps)
    && (forall i | 0 <= i < |ps| :: InSection(s, ps[i]))
    && (forall i, j | 0 <= i < j < |ps| :: ps[i].0 < ps[j].0 && ps[i].1 < ps[j].1)
  }

  ghost predicate InSection(s: Section, p: (nat, nat)) {
    && s.leftStart <= p.0 < s.leftStart + s.leftLen
    && s.rightStart <= p.1 < s.rightStart + s.rightLen
  }

  // -------------------------------------------------------- facts about lists

  lemma RunJoins(l: nat, r: nat, n: nat, m: nat)
    ensures Run(l, r, n) + Run(l + n, r + n, m) == Run(l, r, n + m)
  {
  }

  lemma RangeJoins(l: nat, n: nat, m: nat)
    ensures Range(l, n) + Range(l + n, m) == Range(l, n + m)
  {
  }

  lemma LastOf(cs: seq<Chunk>, c: Chunk)
    ensures Pairs(cs + [c]) == Pairs(cs) + ChunkPairs(c)
    ensures Edits(cs + [c]) == Edits(cs) + ChunkEdits(c)
  {
    assert (cs + [c])[..|cs + [c]| - 1] == cs;
  }

  lemma TilesSnoc(cs: seq<Chunk>, c: Chunk, l: nat, r: nat)
    requires Tiles(cs, l, r, c.leftStart, c.rightStart)
    ensures Tiles(cs + [c], l, r, c.leftStart + c.leftCount, c.rightStart + c.rightCount)
  {
    assert (cs + [c])[..|cs + [c]| - 1] == cs;
  }

  lemma {:induction false} TilesGrow(cs: seq<Chunk>, l: nat, r: nat, l2: nat, r2: nat)
    requires Tiles(cs, l, r, l2, r2)
    ensures l <= l2 && r <= r2
    ensures forall i | 0 <= i < |cs| ::
              && l <= cs[i].leftStart && cs[i].leftStart + cs[i].leftCount <= l2
              && r <= cs[i].rightStart && cs[i].rightStart + cs[i].rightCount <= r2
  {
    if cs != [] {
      var last := cs[|cs| - 1];
      TilesGrow(cs[..|cs| - 1], l, r, last.leftStart, last.rightStart);
      forall i | 0 <= i < |cs|
        ensures l <= cs[i].leftStart && cs[i].leftStart + cs[i].leftCount <= l2
        ensures r <= cs[i].rightStart && cs[i].rightStart + cs[i].rightCount <= r2
      {
        if i < |cs| - 1 { assert cs[i] == cs[..|cs| - 1][i]; }
      }
    }
  }

  /** A tiling names every left atom and every right atom of its range exactly
      once and in order. */
  lemma {:induction false} TilingNamesEveryAtom(cs: seq<Chunk>, l: nat, r: nat, l2: nat, r2: nat)
    requires Tiles(cs, l, r, l2, r2)
    ensures l <= l2 && r <= r2
    ensures LeftAtoms(cs) == Range(l, l2 - l)
    ensures RightAtoms(cs) == Range(r, r2 - r)
  {
    hide Tiles, LeftAtoms, RightAtoms, Range;
    if cs == [] {
      NoAtoms(l, r, l2, r2);
    } else {
      var front, last := cs[..|cs| - 1], cs[|cs| - 1];
      LastTile(cs, l, r, l2, r2);
      TilingNamesEveryAtom(front, l, r, last.leftStart, last.rightStart);
      RangeJoins(l, last.leftStart - l, last.leftCount);
      RangeJoins(r, last.rightStart - r, last.rightCount);
    }
  }

  lemma NoAtoms(l: nat, r: nat, l2: nat, r2: nat)
    requires Tiles([], l, r, l2, r2)
    ensures l == l2 && r == r2 && LeftAtoms([]) == Range(l, 0) && RightAtoms([]) == Range(r, 0)
  {
  }

  /** A tiling and its atoms, one chunk back. */
  lemma LastTile(cs: seq<Chunk>, l: nat, r: nat, l2: nat, r2: nat)
    requires Tiles(cs, l, r, l2, r2) && cs != []
    ensures var front, last := cs[..|cs| - 1], cs[|cs| - 1];
            && Tiles(front, l, r, last.leftStart, last.rightStart)
            && last.leftStart + last.leftCount == l2 && last.rightStart + last.rightCount == r2
            && LeftAtoms(cs) == LeftAtoms(front) + Range(last.leftStart, last.leftCount)
            && RightAtoms(cs) == RightAtoms(front) + Range(last.rightStart, last.rightCount)
  {
    hide Range;
  }

  /** Every atom of both sides is either paired or edited. */
  lemma {:induction false} EditsCountUnpaired(cs: seq<Chunk>, l: nat, r: nat, l2: nat, r2: nat)
    requires Tiles(cs, l, r, l2, r2)
    requires forall i | 0 <= i < |cs| :: cs[i].Settled()
    ensures l <= l2 && r <= r2
    ensures Edits(cs) + 2 * |Pairs(cs)| == (l2 - l) + (r2 - r)
  {
    if cs != [] {
      var last := cs[|cs| - 1];
      EditsCountUnpaired(cs[..|cs| - 1], l, r, last.leftStart, last.rightStart);
    }
  }

  lemma CommonSubsequenceSnoc(f: Files, s: Section, s': Section, ps: seq<(nat, nat)>, l: nat, r: nat, n: nat)
    requires CommonSubsequence(f, s, ps)
    requires l == s.leftStart + s.leftLen && r == s.rightStart + s.rightLen
    requires s'.leftStart == s.leftStart && s'.rightStart == s.rightStart
    requires l + n <= s'.leftStart + s'.leftLen && r + n <= s'.rightStart + s'.rightLen
    requires AllSame(f, Run(l, r, n))
    ensures CommonSubsequence(f, s', ps + Run(l, r, n))
  {
    var q := Run(l, r, n);
    assert forall i | 0 <= i < |ps| :: InSection(s, ps[i]);
    assert forall i | 0 <= i < |ps| :: (ps + q)[i] == ps[i];
    assert forall i | |ps| <= i < |ps + q| :: (ps + q)[i] == q[i - |ps|];
  }

  lemma AllSameConcat(f: Files, a: seq<(nat, nat)>, b: seq<(nat, nat)>)
    ensures AllSame(f, a + b) <==> AllSame(f, a) && AllSame(f, b)
  {
    if AllSame(f, a + b) {
      forall i | 0 <= i < |a| ensures f.same(a[i].0, a[i].1) { assert a[i] == (a + b)[i]; }
      forall i | 0 <= i < |b| ensures f.same(b[i].0, b[i].1) { assert b[i] == (a + b)[|a| + i]; }
    }
  }

  /** The pairs of a tiling are a common subsequence of the tiled section,
      provided each pair is equal. */
  lemma {:induction false} PairsAreCommonSubsequence(f: Files, cs: seq<Chunk>, l: nat, r: nat, l2: nat, r2: nat)
    requires Tiles(cs, l, r, l2, r2)
    requires AllSame(f, Pairs(cs))
    ensures l <= l2 && r <= r2
    ensures CommonSubsequence(f, Section(l, l2 - l, r, r2 - r), Pairs(cs))
  {
    if cs != [] {
      var last := cs[|cs| - 1];
      var front := cs[..|cs| - 1];
      var n := if last.Type() == Same then last.leftCount else 0;
      assert ChunkPairs(last) == Run(last.leftStart, last.rightStart, n);
      AllSameConcat(f, Pairs(front), ChunkPairs(last));
      PairsAreCommonSubsequence(f, front, l, r, last.leftStart, last.rightStart);
      hide AllSame, CommonSubsequence, Run;
      CommonSubsequenceSnoc(f, Section(l, last.leftStart - l, r, last.rightStart - r), Section(l, l2 - l, r, r2 - r),
                            Pairs(front), last.leftStart, last.rightStart, n);
    }
  }

  /** Tilings that meet can be concatenated. */
  lemma {:induction false} TilesConcat(a: seq<Chunk>, b: seq<Chunk>, l: nat, r: nat, l1: nat, r1: nat, l2: nat, r2: nat)
    requires Tiles(a, l, r, l1, r1) && Tiles(b, l1, r1, l2, r2)
    ensures Tiles(a + b, l, r, l2, r2)
  {
    if b == [] {
      assert a + b == a;
    } else {
      var last := b[|b| - 1];
      TilesConcat(a, b[..|b| - 1], l, r, l1, r1, last.leftStart, last.rightStart);
      assert (a + b)[..|a + b| - 1] == a + b[..|b| - 1];
    }
  }

  /** The part of a tiling before chunk i, and the rest. */
  lemma {:induction false} TilesSplit(cs: seq<Chunk>, i: nat, l: nat, r: nat, l2: nat, r2: nat)
    requires i < |cs|
    requires Tiles(cs, l, r, l2, r2)
    ensures Tiles(cs[..i], l, r, cs[i].leftStart, cs[i].rightStart)
    ensures Tiles(cs[..i + 1], l, r, cs[i].leftStart + cs[i].leftCount, cs[i].rightStart + cs[i].rightCount)
  {
    var last := cs[|cs| - 1];
    if i == |cs| - 1 {
      assert cs[..i + 1] == cs;
    } else {
      var front := cs[..|cs| - 1];
      TilesSplit(front, i, l, r, last.leftStart, last.rightStart);
      assert cs[..i] == front[..i] && cs[..i + 1] == front[..i + 1];
    }
  }

  /** Where chunk i begins; past the last chunk, where the tiling ends. */
  function StartOf(cs: seq<Chunk>, i: nat, l: nat, r: nat): (nat, nat) {
    if i < |cs| then (cs[i].leftStart, cs[i].rightStart) else (l, r)
  }

  lemma FirstStart(cs: seq<Chunk>, l: nat, r: nat, l2: nat, r2: nat)
    requires Tiles(cs, l, r, l2, r2)
    ensures StartOf(cs, 0, l2, r2) == (l, r)
  {
    if cs != [] {
      TilesSplit(cs, 0, l, r, l2, r2);
      assert cs[..0] == [];
    }
  }

  lemma NextStart(cs: seq<Chunk>, i: nat, l: nat, r: nat, l2: nat, r2: nat)
    requires i < |cs| && Tiles(cs, l, r, l2, r2)
    ensures StartOf(cs, i + 1, l2, r2) == (cs[i].leftStart + cs[i].leftCount, cs[i].rightStart + cs[i].rightCount)
  {
    TilesSplit(cs, i, l, r, l2, r2);
    if i + 1 < |cs| {
      TilesSplit(cs, i + 1, l, r, l2, r2);
      assert cs[..i + 1][i] == cs[i];
    }
  }

  // ------------------------------------------------- appending to a result

  function Joined(a: Chunk, c: Chunk): Chunk {
    a.(leftCount := a.leftCount + c.leftCount, rightCount := a.rightCount + c.rightCount)
  }

  function MovedTo(plus: Chunk, minus: Chunk): Chunk {
    plus.(leftStart := minus.leftStart + minus.leftCount)
  }

  /** The list diff_state_add_solved_chunk() leaves behind. */
  function Appended(cs: seq<Chunk>, c: Chunk): seq<Chunk> {
    var n := |cs|;
    if n == 0 then [c]
    else if c.Type() == cs[n - 1].Type() then
      cs[..n - 1] + [Joined(cs[n - 1], c)]
    else if cs[n - 1].Type() == Plus && c.Type() == Minus then
      if n > 1 && cs[n - 2].Type() == Minus then
        cs[..n - 2] + [Joined(cs[n - 2], c)] + [MovedTo(cs[n - 1], Joined(cs[n - 2], c))]
      else
        cs[..n - 1] + [c.(rightStart := cs[n - 1].rightStart)] + [MovedTo(cs[n - 1], c)]
    else
      cs + [c]
  }

  /** Appending a settled chunk at the end of the tiled range keeps the list a
      normal tiling, adds exactly the chunk's pairs after the existing ones,
      and adds exactly its edits. */
  lemma AppendKeepsScript(cs: seq<Chunk>, c: Chunk, l: nat, r: nat)
    requires Tiles(cs, l, r, c.leftStart, c.rightStart)
    requires Normal(cs) && c.Settled()
    ensures Tiles(Appended(cs, c), l, r, c.leftStart + c.leftCount, c.rightStart + c.rightCount)
    ensures Normal(Appended(cs, c))
    ensures Pairs(Appended(cs, c)) == Pairs(cs) + ChunkPairs(c)
    ensures Edits(Appended(cs, c)) == Edits(cs) + ChunkEdits(c)
  {
    AppendKeepsTiles(cs, c, l, r);
    AppendKeepsNormal(cs, c);
    AppendAddsPairs(cs, c, l, r);
  }

  lemma AppendKeepsTiles(cs: seq<Chunk>, c: Chunk, l: nat, r: nat)
    requires Tiles(cs, l, r, c.leftStart, c.rightStart)
    requires Normal(cs) && c.Settled()
    ensures Tiles(Appended(cs, c), l, r, c.leftStart + c.leftCount, c.rightStart + c.rightCount)
  {
    var cs' := Appended(cs, c);
    var n := |cs|;
    if n > 0 && c.Type() != cs[n - 1].Type() && cs[n - 1].Type() == Plus && c.Type() == Minus {
      assert cs'[..|cs'| - 1][..|cs'| - 2] == if n > 1 && cs[n - 2].Type() == Minus then cs[..n - 2] else cs[..n - 1];
      if n > 1 && cs[n - 2].Type() == Minus {
        assert cs[..n - 1][..n - 2] == cs[..n - 2];
        assert Tiles(cs[..n - 2], l, r, cs[n - 2].leftStart, cs[n - 2].rightStart);
      }
    } else {
      assert cs'[..|cs'| - 1] == if n > 0 && c.Type() == cs[n - 1].Type() then cs[..n - 1] else cs;
    }
  }

  lemma AppendKeepsNormal(cs: seq<Chunk>, c: Chunk)
    requires Normal(cs) && c.Settled()
    ensures Normal(Appended(cs, c))
  {
    var n := |cs|;
    if n > 0 {
      var last := cs[n - 1];
      if n > 1 { assert MayFollow(cs[n - 2], cs[n - 1]); }
      if c.Type() == last.Type() {
        NormalFront(cs, n - 1);
        NormalSnoc(cs[..n - 1], Joined(last, c));
      } else if last.Type() == Plus && c.Type() == Minus {
        AppendAbovePlusIsNormal(cs, c);
      } else {
        NormalSnoc(cs, c);
      }
    } else {
      NormalSnoc(cs, c);
    }
  }

  lemma AppendAbovePlusIsNormal(cs: seq<Chunk>, c: Chunk)
    requires Normal(cs) && c.Settled() && cs != []
    requires cs[|cs| - 1].Type() == Plus && c.Type() == Minus
    ensures Normal(Appended(cs, c))
  {
    var n := |cs|;
    var joined := n > 1 && cs[n - 2].Type() == Minus;
    var k := if joined then n - 2 else n - 1;
    var cs' := Appended(cs, c);
    assert |cs'| == k + 2 && cs'[..k] == cs[..k];
    NormalFront(cs, k);
    if n > 1 { assert MayFollow(cs[n - 2], cs[n - 1]); }
    if k > 0 { assert MayFollow(cs[k - 1], cs[k]); }
    var m, p := cs'[k], cs'[k + 1];
    assert m.Settled() && p.Settled() && m.Type() == Minus && p.Type() == Plus;
    NormalSnoc(cs[..k], m);
    NormalSnoc(cs[..k] + [m], p);
    assert cs' == cs[..k] + [m] + [p];
  }

  lemma NormalSnoc(front: seq<Chunk>, c: Chunk)
    requires Normal(front) && c.Settled()
    requires front != [] ==> MayFollow(front[|front| - 1], c)
    ensures Normal(front + [c])
  {
  }

  lemma NormalFront(cs: seq<Chunk>, n: nat)
    requires Normal(cs) && n <= |cs|
    ensures Normal(cs[..n])
  {
  }

  lemma AppendAddsPairs(cs: seq<Chunk>, c: Chunk, l: nat, r: nat)
    requires Tiles(cs, l, r, c.leftStart, c.rightStart)
    requires Normal(cs) && c.Settled()
    ensures Pairs(Appended(cs, c)) == Pairs(cs) + ChunkPairs(c)
    ensures Edits(Appended(cs, c)) == Edits(cs) + ChunkEdits(c)
  {
    var n := |cs|;
    assert n > 0 ==> cs[n - 1].leftStart + cs[n - 1].leftCount == c.leftStart
                     && cs[n - 1].rightStart + cs[n - 1].rightCount == c.rightStart;
    hide Pairs, Edits, Tiles, ChunkPairs, ChunkEdits;
    if n == 0 {
      LastOf(cs, c);
      assert cs + [c] == [c];
    } else if c.Type() == cs[n - 1].Type() {
      JoinAddsPairs(cs[..n - 1], cs[n - 1], c);
      assert cs == cs[..n - 1] + [cs[n - 1]];
    } else if cs[n - 1].Type() == Plus && c.Type() == Minus {
      AppendAbovePlusAddsPairs(cs, c);
    } else {
      LastOf(cs, c);
    }
  }

  lemma JoinAddsPairs(front: seq<Chunk>, last: Chunk, c: Chunk)
    requires last.Settled() && c.Settled() && c.Type() == last.Type()
    requires last.leftStart + last.leftCount == c.leftStart && last.rightStart + last.rightCount == c.rightStart
    ensures var j := Joined(last, c);
            && Pairs(front + [j]) == Pairs(front + [last]) + ChunkPairs(c)
            && Edits(front + [j]) == Edits(front + [last]) + ChunkEdits(c)
  {
    hide Pairs, Edits, Run;
    var j := Joined(last, c);
    LastOf(front, last);
    LastOf(front, j);
    RunJoins(last.leftStart, last.rightStart, last.leftCount, c.leftCount);
    assert ChunkPairs(j) == ChunkPairs(last) + ChunkPairs(c);
    assert Pairs(front) + (ChunkPairs(last) + ChunkPairs(c)) == Pairs(front) + ChunkPairs(last) + ChunkPairs(c);
  }

  lemma AppendAbovePlusAddsPairs(cs: seq<Chunk>, c: Chunk)
    requires Normal(cs) && c.Settled() && cs != []
    requires cs[|cs| - 1].Type() == Plus && c.Type() == Minus
    ensures Pairs(Appended(cs, c)) == Pairs(cs) + ChunkPairs(c)
    ensures Edits(Appended(cs, c)) == Edits(cs) + ChunkEdits(c)
  {
    hide Pairs, Edits, Normal, Appended, ChunkEdits;
    NotPaired(c);
    if |cs| > 1 && cs[|cs| - 2].Type() == Minus {
      AboveJoined(cs, c);
    } else {
      AboveAlone(cs, c);
    }
  }

  lemma NotPaired(c: Chunk)
    requires c.Type() != Same
    ensures ChunkPairs(c) == [] && forall ps: seq<(nat, nat)> :: ps + [] == ps
  {
  }

  lemma AboveAlone(cs: seq<Chunk>, c: Chunk)
    requires cs != [] && cs[|cs| - 1].Type() == Plus && c.Type() == Minus
    requires |cs| > 1 ==> cs[|cs| - 2].Type() != Minus
    ensures Pairs(Appended(cs, c)) == Pairs(cs)
    ensures Edits(Appended(cs, c)) == Edits(cs) + ChunkEdits(c)
  {
    hide Pairs, Edits, Appended;
    var front, plus := cs[..|cs| - 1], cs[|cs| - 1];
    var m := c.(rightStart := plus.rightStart);
    AppendedAlone(cs, c);
    LastOf(front, plus);
    NotPaired(plus);
    assert cs == front + [plus];
    UnpairedTail(front, m, MovedTo(plus, m));
  }

  lemma AppendedAlone(cs: seq<Chunk>, c: Chunk)
    requires cs != [] && cs[|cs| - 1].Type() == Plus && c.Type() == Minus
    requires |cs| > 1 ==> cs[|cs| - 2].Type() != Minus
    ensures var plus, m := cs[|cs| - 1], c.(rightStart := cs[|cs| - 1].rightStart);
            Appended(cs, c) == cs[..|cs| - 1] + [m] + [MovedTo(plus, m)]
  {
  }

  lemma AboveJoined(cs: seq<Chunk>, c: Chunk)
    requires |cs| > 1 && cs[|cs| - 1].Type() == Plus && c.Type() == Minus && cs[|cs| - 2].Type() == Minus
    ensures Pairs(Appended(cs, c)) == Pairs(cs)
    ensures Edits(Appended(cs, c)) == Edits(cs) + ChunkEdits(c)
  {
    hide Pairs, Edits, Appended;
    var front, minus, plus := cs[..|cs| - 2], cs[|cs| - 2], cs[|cs| - 1];
    var m := Joined(minus, c);
    AppendedJoined(cs, c);
    UnpairedTail(front, minus, plus);
    UnpairedTail(front, m, MovedTo(plus, m));
    assert cs == front + [minus] + [plus];
  }

  lemma AppendedJoined(cs: seq<Chunk>, c: Chunk)
    requires |cs| > 1 && cs[|cs| - 1].Type() == Plus && c.Type() == Minus && cs[|cs| - 2].Type() == Minus
    ensures var m := Joined(cs[|cs| - 2], c);
            Appended(cs, c) == cs[..|cs| - 2] + [m] + [MovedTo(cs[|cs| - 1], m)]
  {
  }

  lemma UnpairedTail(front: seq<Chunk>, a: Chunk, b: Chunk)
    requires a.Type() != Same && b.Type() != Same
    ensures Pairs(front + [a] + [b]) == Pairs(front)
    ensures Edits(front + [a] + [b]) == Edits(front) + ChunkEdits(a) + ChunkEdits(b)
  {
    hide Pairs, Edits;
    LastOf(front, a);
    LastOf(front + [a], b);
  }
}
