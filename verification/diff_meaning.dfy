/** What following a plan means for the script: when it is a shortest one, how its edits
  add up over the sections it was divided into, which pairs it must have, and that equal
  files have no edit.
*/
module DiffMeaning {
  import opened DiffChunks
  import opened DiffStates
  import opened EditDistance
  import opened DivideColumns
  import opened DiffPlans
  import Myers
  import MyersDivide

  // ------------------------------------------------------------ counting edits

  /** Deleted plus inserted atoms of a section solved by a plan. */
  function PlanEdits(s: Section, p: Plan): int {
    s.leftLen + s.rightLen - 2 * |PlanPairs(p)|
  }

  lemma LeafPairs(p: Plan)
    ensures p.Ends? || p.Shortest? ==> PlanPairs(p) == p.pairs
  {
  }

  lemma FallbackPairs(s: Section, p: Plan)
    requires p.GaveUp?
    ensures PlanPairs(p) == PlanPairs(p.next) && PlanEdits(s, p) == PlanEdits(s, p.next)
  {
  }

  /** Over the first i chunks: a solved chunk has its own edits, and any other one those
      of its plan. */
  function SumOfParts(p: Plan, i: nat): int
    requires p.Parts? && i <= |p.chunks| == |p.parts|
  {
    if i == 0 then 0
    else
      var c := p.chunks[i - 1];
      SumOfParts(p, i - 1) + if c.solved then ChunkEdits(c) else PlanEdits(SectionOf(c), p.parts[i - 1])
  }

  /** Chunks that continue each other and are settled or unsolved. */
  ghost predicate Tiling(s: Section, chunks: seq<Chunk>) {
    && Tiles(chunks, s.leftStart, s.rightStart, s.leftStart + s.leftLen, s.rightStart + s.rightLen)
    && SolvedSettled(chunks)
  }

  ghost predicate SolvedSettled(chunks: seq<Chunk>) {
    forall i | 0 <= i < |chunks| :: chunks[i].solved ==> chunks[i].Settled()
  }

  lemma {:induction false} PairsOfParts(s: Section, p: Plan, i: nat)
    requires p.Parts? && i <= |p.chunks| == |p.parts| && Tiling(s, p.chunks)
    ensures var (l, r) := StartOf(p.chunks, i, s.leftStart + s.leftLen, s.rightStart + s.rightLen);
            SumOfParts(p, i) + 2 * |PartPairs(p, i)| == l + r - s.leftStart - s.rightStart
    decreases i
  {
    hide Tiles, SumOfParts, PartPairs, StartOf;
    var l, r, l2, r2 := s.leftStart, s.rightStart, s.leftStart + s.leftLen, s.rightStart + s.rightLen;
    if i == 0 {
      FirstStart(p.chunks, l, r, l2, r2);
      NoParts(p);
    } else {
      PairsOfParts(s, p, i - 1);
      NextStart(p.chunks, i - 1, l, r, l2, r2);
      OneMorePart(p, i);
      StartHere(p.chunks, i - 1, l2, r2);
    }
  }

  lemma NoParts(p: Plan)
    requires p.Parts? && |p.chunks| == |p.parts|
    ensures SumOfParts(p, 0) == 0 && PartPairs(p, 0) == []
  {
  }

  lemma OneMorePart(p: Plan, i: nat)
    requires p.Parts? && 0 < i <= |p.chunks| == |p.parts| && (p.chunks[i - 1].solved ==> p.chunks[i - 1].Settled())
    ensures SumOfParts(p, i) + 2 * |PartPairs(p, i)|
            == SumOfParts(p, i - 1) + 2 * |PartPairs(p, i - 1)| + p.chunks[i - 1].leftCount + p.chunks[i - 1].rightCount
  {
    hide PlanPairs;
  }

  lemma StartHere(cs: seq<Chunk>, i: nat, l2: nat, r2: nat)
    requires i < |cs|
    ensures StartOf(cs, i, l2, r2) == (cs[i].leftStart, cs[i].rightStart)
  {
  }

  /** The edits of a divided section are those of its parts. */
  lemma PartsAddUp(s: Section, p: Plan)
    requires p.Parts? && |p.chunks| == |p.parts| && Tiling(s, p.chunks)
    ensures PlanEdits(s, p) == SumOfParts(p, |p.chunks|)
  {
    PairsOfParts(s, p, |p.chunks|);
  }

  /** A division tiles its section. */
  lemma DivisionTiles(f: Files, config: AlgoConfig, s: Section, chunks: seq<Chunk>)
    requires Divides(f, config, s, chunks) && s.leftLen > 0 && s.rightLen > 0
    requires config.impl.Divider? ==> DividerOk(f, config.impl.split)
    ensures Tiling(s, chunks)
  {
    hide Searched, AllSame, MyersDivide.Fits, MyersDivide.Divided, Tiling;
    if config.impl.Divide? {
      var cut, d, b :| DividedAt(f, s, cut, d, b, chunks);
      SearchedMeans(Grid(f, s), true, cut, d, b);
      MyersDivide.MidChunkOk(Grid(f, s), b, cut, d);
      DividedTiles(f, s, b);
    } else {
      SplitTiles(f, config.impl.split, s);
    }
  }

  lemma SplitTiles(f: Files, split: Section -> Division, s: Section)
    requires DividerOk(f, split) && split(s).Split? && s.leftLen > 0 && s.rightLen > 0
    ensures Tiling(s, split(s).chunks)
  {
  }

  lemma DividedTiles(f: Files, s: Section, b: Box)
    requires MyersDivide.Fits(s, b)
    requires b.leftEnd > b.leftStart || b.rightEnd > b.rightStart ==>
               ChunkOk(f, Chunk(true, s.leftStart + b.leftStart, b.leftEnd - b.leftStart,
                                s.rightStart + b.rightStart, b.rightEnd - b.rightStart))
    ensures Tiling(s, MyersDivide.Divided(s, b))
  {
    hide Tiles, AllSame, ChunkOk, SolvedSettled, MyersDivide.Piece, MyersDivide.Solid;
    var l, r, l2, r2 := s.leftStart, s.rightStart, s.leftStart + s.leftLen, s.rightStart + s.rightLen;
    var first := MyersDivide.Piece(l, b.leftStart, r, b.rightStart);
    var mid := MyersDivide.Solid(l + b.leftStart, b.leftEnd - b.leftStart, r + b.rightStart, b.rightEnd - b.rightStart);
    var last := MyersDivide.Piece(l + b.leftEnd, s.leftLen - b.leftEnd, r + b.rightEnd, s.rightLen - b.rightEnd);
    OnePiece(f, l, b.leftStart, r, b.rightStart);
    OnePiece(f, l + b.leftStart, b.leftEnd - b.leftStart, r + b.rightStart, b.rightEnd - b.rightStart);
    OnePiece(f, l + b.leftEnd, s.leftLen - b.leftEnd, r + b.rightEnd, s.rightLen - b.rightEnd);
    TilesConcat(first, mid, l, r, l + b.leftStart, r + b.rightStart, l + b.leftEnd, r + b.rightEnd);
    TilesConcat(first + mid, last, l, r, l + b.leftEnd, r + b.rightEnd, l2, r2);
    SettledConcat(first, mid);
    SettledConcat(first + mid, last);
  }

  lemma SettledConcat(a: seq<Chunk>, b: seq<Chunk>)
    requires SolvedSettled(a) && SolvedSettled(b)
    ensures SolvedSettled(a + b)
  {
  }

  lemma OnePiece(f: Files, l: nat, n: nat, r: nat, m: nat)
    ensures Tiles(MyersDivide.Piece(l, n, r, m), l, r, l + n, r + m)
    ensures Tiles(MyersDivide.Solid(l, n, r, m), l, r, l + n, r + m)
    ensures SolvedSettled(MyersDivide.Piece(l, n, r, m))
    ensures (n > 0 || m > 0 ==> ChunkOk(f, Chunk(true, l, n, r, m))) ==> SolvedSettled(MyersDivide.Solid(l, n, r, m))
  {
  }

  // ------------------------------------------------------------ shortest scripts

  /** Does a configuration come to the full Myers search for the whole section, itself or
      by its fallbacks? */
  ghost predicate MyersSolves(configs: Configs, rank: nat -> nat, id: Option<nat>, depth: nat, s: Section)
    requires FallbacksEnd(configs, rank)
    decreases RankOf(configs, rank, id)
  {
    && !Idle(configs, id, depth, s)
    && var config := configs[id.value];
       match config.impl
       case MyersFull =>
         Myers.StateSize(s) <= config.permittedStateSize || MyersSolves(configs, rank, config.fallback, depth, s)
       case Divider(split) => split(s).GivenUp? && MyersSolves(configs, rank, config.fallback, depth, s)
       case _ => false
  }

  lemma {:induction false} SolvedByMyers(f: Files, configs: Configs, rank: nat -> nat, id: Option<nat>, depth: nat,
                                         s: Section, p: Plan)
    requires FallbacksEnd(configs, rank) && MyersSolves(configs, rank, id, depth, s)
    requires Follows(f, configs, id, depth, s, p)
    ensures PairsMost(f, s, PlanPairs(p)) && PlanEdits(s, p) == Dist(Grid(f, s), s.leftLen, s.rightLen)
    decreases p
  {
    hide PairsEnds, CommonSubsequence, FallbacksEnd, Myers.StateSize;
    if p.GaveUp? {
      SolvedByMyers(f, configs, rank, configs[id.value].fallback, depth, s, p.next);
    }
  }

  /** The best a division can still come to: a solved chunk has its edits, and any other
      one its distance. */
  function SumOfDistances(f: Files, chunks: seq<Chunk>, i: nat): int
    requires i <= |chunks|
  {
    if i == 0 then 0
    else
      var c := chunks[i - 1];
      SumOfDistances(f, chunks, i - 1) +
      if c.solved then ChunkEdits(c) else Dist(Grid(f, SectionOf(c)), c.leftCount, c.rightCount)
  }

  /** If Myers solves every section the first algorithm that did not give up left, the
      edits are those of its chunks and the distances of these sections. */
  lemma {:induction false} DividedForMyers(f: Files, configs: Configs, rank: nat -> nat, id: Option<nat>, depth: nat,
                                           s: Section, p: Plan)
    requires FallbacksEnd(configs, rank) && Follows(f, configs, id, depth, s, p) && p.Parts?
    requires DividersOk(f, configs)
    requires forall i | 0 <= i < |p.chunks| && !p.chunks[i].solved ::
               MyersSolves(configs, rank, configs[id.value].inner, depth - 1, SectionOf(p.chunks[i]))
    ensures PlanEdits(s, p) == SumOfDistances(f, p.chunks, |p.chunks|)
  {
    hide MyersSolves, Divides, DividersOk, Dist, PlanEdits, Tiling, FallbacksEnd;
    if configs[id.value].impl.Divider? {
      DividerHere(f, configs, id.value);
    }
    DivisionTiles(f, configs[id.value], s, p.chunks);
    PartsAddUp(s, p);
    SumsAgree(f, configs, rank, configs[id.value].inner, depth - 1, p, |p.chunks|);
  }

  lemma DividerHere(f: Files, configs: Configs, id: nat)
    requires DividersOk(f, configs) && id in configs && configs[id].impl.Divider?
    ensures DividerOk(f, configs[id].impl.split)
  {
  }

  lemma {:induction false} SumsAgree(f: Files, configs: Configs, rank: nat -> nat, inner: Option<nat>, depth: nat,
                                     p: Plan, i: nat)
    requires FallbacksEnd(configs, rank) && p.Parts? && i <= |p.chunks| == |p.parts|
    requires forall k | 0 <= k < |p.parts| && !p.chunks[k].solved ::
               && Follows(f, configs, inner, depth, SectionOf(p.chunks[k]), p.parts[k])
               && MyersSolves(configs, rank, inner, depth, SectionOf(p.chunks[k]))
    ensures SumOfParts(p, i) == SumOfDistances(f, p.chunks, i)
    decreases i
  {
    hide MyersSolves, Follows, Dist, PlanEdits, FallbacksEnd, PairsMost;
    if i > 0 {
      SumsAgree(f, configs, rank, inner, depth, p, i - 1);
      if !p.chunks[i - 1].solved {
        SolvedByMyers(f, configs, rank, inner, depth, SectionOf(p.chunks[i - 1]), p.parts[i - 1]);
      }
    }
  }

  // ------------------------------------------------------------ pairs that must be there

  /** Every pair of a chunk solved at once is paired in the end, and so is every pair of
      the plan for any other. */
  lemma {:induction false} PartsKept(p: Plan, n: nat, i: nat)
    requires p.Parts? && i < n <= |p.chunks| == |p.parts|
    ensures var ps := if p.chunks[i].solved then ChunkPairs(p.chunks[i]) else PlanPairs(p.parts[i]);
            forall k | 0 <= k < |ps| :: ps[k] in PartPairs(p, n)
    decreases n
  {
    hide ChunkPairs, PlanPairs;
    var last := if p.chunks[n - 1].solved then ChunkPairs(p.chunks[n - 1]) else PlanPairs(p.parts[n - 1]);
    assert PartPairs(p, n) == PartPairs(p, n - 1) + last;
    if i < n - 1 {
      PartsKept(p, n - 1, i);
    }
  }

  // ------------------------------------------------------------ equal files

  /** The first n atoms are the same on both sides. */
  ghost predicate EqualUpto(f: Files, n: nat) {
    forall i: nat | i < n :: f.same(i, i)
  }

  /** The same range of both sides, with nothing different up to its end. */
  ghost predicate EqualSection(f: Files, s: Section) {
    s.leftStart == s.rightStart && s.leftLen == s.rightLen && EqualUpto(f, s.leftStart + s.leftLen)
  }

  /** As many atoms on the left as on the right, chunk by chunk. */
  ghost predicate Level(cs: seq<Chunk>) {
    forall i | 0 <= i < |cs| :: cs[i].leftCount == cs[i].rightCount
  }

  /** A divider that pairs the atoms of an equal section as they stand. */
  ghost predicate DividerLevel(f: Files, split: Section -> Division) {
    forall s: Section | s.leftLen > 0 && EqualSection(f, s) && split(s).Split? :: Level(split(s).chunks)
  }

  ghost predicate DividersLevel(f: Files, configs: Configs) {
    forall i | i in configs && configs[i].impl.Divider? :: DividerLevel(f, configs[i].impl.split)
  }

  lemma SectionAllEqual(f: Files, s: Section)
    requires EqualSection(f, s)
    ensures AllEqual(Grid(f, s)) && s.leftLen == s.rightLen
  {
  }

  lemma {:induction false} NoDistance(g: Grid, n: nat)
    requires AllEqual(g) && n <= g.N()
    ensures Dist(g, n, n) == 0
  {
    if n > 0 {
      assert g.Match(n - 1, n - 1);
      NoDistance(g, n - 1);
    }
  }

  /** An equal section has no edits, whatever the nesting. */
  lemma {:induction false} EqualUnedited(f: Files, configs: Configs, id: Option<nat>, depth: nat, s: Section, p: Plan)
    requires DividersOk(f, configs) && DividersLevel(f, configs) && EqualSection(f, s)
    requires Follows(f, configs, id, depth, s, p)
    ensures PlanEdits(s, p) == 0
    decreases p
  {
    hide PairsEnds, PairsMost, DividersOk, DividersLevel, EqualSection, Divides, Tiling, SumOfParts, Level;
    SectionAllEqual(f, s);
    match p {
      case Ends(pairs) =>
        EndsMeet(f, s, pairs);
      case Shortest(pairs) =>
        NoDistance(Grid(f, s), s.leftLen);
        MostOf(f, s, pairs);
      case GaveUp(next) =>
        EqualUnedited(f, configs, configs[id.value].fallback, depth, s, next);
      case Parts(chunks, parts) =>
        var config := configs[id.value];
        if config.impl.Divider? {
          DividerHere(f, configs, id.value);
        }
        DivisionTiles(f, config, s, chunks);
        DivisionLevel(f, configs, id.value, s, chunks);
        PartsAddUp(s, p);
        forall i | 0 <= i < |chunks|
          ensures if chunks[i].solved then ChunkEdits(chunks[i]) == 0
                  else PlanEdits(SectionOf(chunks[i]), parts[i]) == 0
        {
          PartIsEqual(f, s, chunks, i);
          if !chunks[i].solved {
            EqualUnedited(f, configs, config.inner, depth - 1, SectionOf(chunks[i]), parts[i]);
          }
        }
        NothingAddsUp(p, |chunks|);
    }
  }

  lemma MostOf(f: Files, s: Section, ps: seq<(nat, nat)>)
    requires PairsMost(f, s, ps)
    ensures Dist(Grid(f, s), s.leftLen, s.rightLen) + 2 * |ps| == s.leftLen + s.rightLen
  {
  }

  /** The equal runs at the ends of an equal section are all of it. */
  lemma EndsMeet(f: Files, s: Section, ps: seq<(nat, nat)>)
    requires EqualSection(f, s) && PairsEnds(f, s, ps)
    ensures |ps| == s.leftLen == s.rightLen
  {
    var equalStart: nat, equalEnd: nat :|
      && AreEnds(Grid(f, s), equalStart, equalEnd)
      && ps == EndPairs(s, equalStart, equalEnd);
    assert equalStart < s.leftLen ==> Grid(f, s).Match(equalStart, equalStart);
  }

  lemma DivisionLevel(f: Files, configs: Configs, id: nat, s: Section, chunks: seq<Chunk>)
    requires id in configs && Divides(f, configs[id], s, chunks) && s.leftLen > 0 && s.rightLen > 0
    requires DividersLevel(f, configs) && EqualSection(f, s)
    ensures Level(chunks)
  {
    hide Searched, AllSame, EqualSection, AllEqual;
    if configs[id].impl.Divide? {
      var cut, d, b :| DividedAt(f, s, cut, d, b, chunks);
      SectionAllEqual(f, s);
      SearchedMeans(Grid(f, s), true, cut, d, b);
    } else {
      assert DividerLevel(f, configs[id].impl.split);
    }
  }

  /** A chunk of a level tiling of an equal section is equal itself. */
  lemma PartIsEqual(f: Files, s: Section, chunks: seq<Chunk>, i: nat)
    requires Tiling(s, chunks) && Level(chunks) && EqualSection(f, s) && i < |chunks|
    ensures EqualSection(f, SectionOf(chunks[i])) && (chunks[i].solved ==> ChunkEdits(chunks[i]) == 0)
  {
    var l, r, l2, r2 := s.leftStart, s.rightStart, s.leftStart + s.leftLen, s.rightStart + s.rightLen;
    TilesGrow(chunks, l, r, l2, r2);
    TilesSplit(chunks, i, l, r, l2, r2);
    LevelStarts(chunks[..i], l, r, chunks[i].leftStart, chunks[i].rightStart);
  }

  lemma {:induction false} LevelStarts(cs: seq<Chunk>, l: nat, r: nat, l2: nat, r2: nat)
    requires Tiles(cs, l, r, l2, r2) && Level(cs)
    ensures l2 - l == r2 - r
    decreases |cs|
  {
    if cs != [] {
      LevelStarts(cs[..|cs| - 1], l, r, cs[|cs| - 1].leftStart, cs[|cs| - 1].rightStart);
    }
  }

  lemma {:induction false} NothingAddsUp(p: Plan, n: nat)
    requires p.Parts? && n <= |p.chunks| == |p.parts|
    requires forall i | 0 <= i < |p.chunks| ::
               if p.chunks[i].solved then ChunkEdits(p.chunks[i]) == 0
               else PlanEdits(SectionOf(p.chunks[i]), p.parts[i]) == 0
    ensures SumOfParts(p, n) == 0
    decreases n
  {
    if n > 0 {
      NothingAddsUp(p, n - 1);
    }
  }

  /** Without an edit the same atoms are covered on both sides, and every chunk is one
      of equal atoms. */
  lemma {:induction false} UneditedIsLevel(cs: seq<Chunk>, l: nat, r: nat)
    requires Tiles(cs, 0, 0, l, r) && Normal(cs) && Edits(cs) == 0
    ensures l == r && forall i | 0 <= i < |cs| :: cs[i].Type() == Same
    decreases |cs|
  {
    if cs != [] {
      var last := cs[|cs| - 1];
      assert last.Settled();
      NormalFront(cs, |cs| - 1);
      UneditedIsLevel(cs[..|cs| - 1], last.leftStart, last.rightStart);
    }
  }

  // ------------------------------------------------------------ the answer for two files

  const UINT_MAX: nat := 0xffff_ffff

  function WholeOf(f: Files): Section { Section(0, f.leftLen, 0, f.rightLen) }

  /** No limit of the depth is the largest one. */
  function DepthOf(maxRecursionDepth: nat): (depth: nat)
    ensures depth > 0
  {
    if maxRecursionDepth != 0 then maxRecursionDepth else UINT_MAX
  }

  /** A finished script of both files, found as the configurations say. */
  ghost predicate FoundBy(f: Files, configs: Configs, algo: Option<nat>, maxRecursionDepth: nat, cs: seq<Chunk>) {
    && Script(f, cs, f.leftLen, f.rightLen)
    && exists p :: Follows(f, configs, algo, DepthOf(maxRecursionDepth), WholeOf(f), p) && Pairs(cs) == PlanPairs(p)
  }

  /** Its plan. */
  lemma FoundPlan(f: Files, configs: Configs, algo: Option<nat>, maxRecursionDepth: nat, cs: seq<Chunk>)
    returns (p: Plan)
    requires FoundBy(f, configs, algo, maxRecursionDepth, cs)
    ensures Follows(f, configs, algo, DepthOf(maxRecursionDepth), WholeOf(f), p) && Pairs(cs) == PlanPairs(p)
    ensures Edits(cs) == PlanEdits(WholeOf(f), p)
  {
    hide Follows, PlanPairs, Pairs, Edits;
    p :| Follows(f, configs, algo, DepthOf(maxRecursionDepth), WholeOf(f), p) && Pairs(cs) == PlanPairs(p);
    EditsCountUnpaired(cs, 0, 0, f.leftLen, f.rightLen);
  }

  /** Is it a shortest script when Myers comes to solve the files whole? */
  ghost predicate ShortestIfMyers(f: Files, configs: Configs, rank: nat -> nat, algo: Option<nat>, cs: seq<Chunk>)
    requires FallbacksEnd(configs, rank)
  {
    MyersSolves(configs, rank, algo, 1, WholeOf(f)) ==> Edits(cs) == Dist(Grid(f, WholeOf(f)), f.leftLen, f.rightLen)
  }

  /** It is a shortest one if Myers comes to solve the files whole; it pairs what the
      divider that is asked first pairs; and it has no edit if the files are equal. */
  lemma FoundMeans(f: Files, configs: Configs, algo: Option<nat>, maxRecursionDepth: nat, rank: nat -> nat,
                   cs: seq<Chunk>)
    requires FoundBy(f, configs, algo, maxRecursionDepth, cs) && DividersOk(f, configs) && FallbacksEnd(configs, rank)
    ensures ShortestIfMyers(f, configs, rank, algo, cs)
    ensures forall q | DividerPairs(configs, algo, WholeOf(f), q) :: q in Pairs(cs)
    ensures f.leftLen == f.rightLen && EqualUpto(f, f.leftLen) && DividersLevel(f, configs) ==> Edits(cs) == 0
  {
    hide FoundBy, DividersOk, DividersLevel, FallbacksEnd, EqualUpto, Follows, PlanPairs, PlanEdits, Edits, Dist,
      DividerPairs, Pairs, PairsMost;
    var p := FoundPlan(f, configs, algo, maxRecursionDepth, cs);
    var s, depth := WholeOf(f), DepthOf(maxRecursionDepth);
    if MyersSolves(configs, rank, algo, 1, s) {
      AnyDepth(configs, rank, algo, depth, s);
      SolvedByMyers(f, configs, rank, algo, depth, s, p);
    }
    forall q | DividerPairs(configs, algo, s, q)
      ensures q in Pairs(cs)
    {
      DividerPairsKept(f, configs, algo, depth, s, p, q);
    }
    if f.leftLen == f.rightLen && EqualUpto(f, f.leftLen) && DividersLevel(f, configs) {
      EqualUnedited(f, configs, algo, depth, s, p);
    }
  }

  /** Is q a pair of a chunk that the divider asked first solves at once? */
  ghost predicate DividerPairs(configs: Configs, id: Option<nat>, s: Section, q: (nat, nat)) {
    && !Idle(configs, id, 1, s) && configs[id.value].impl.Divider? && configs[id.value].impl.split(s).Split?
    && var chunks := configs[id.value].impl.split(s).chunks;
       exists i | 0 <= i < |chunks| :: chunks[i].solved && q in ChunkPairs(chunks[i])
  }

  lemma DividerPairsKept(f: Files, configs: Configs, id: Option<nat>, depth: nat, s: Section, p: Plan, q: (nat, nat))
    requires Follows(f, configs, id, depth, s, p) && depth > 0 && DividerPairs(configs, id, s, q)
    ensures q in PlanPairs(p)
  {
    hide ChunkPairs;
    assert p.Parts? && p.chunks == configs[id.value].impl.split(s).chunks;
    var i :| 0 <= i < |p.chunks| && p.chunks[i].solved && q in ChunkPairs(p.chunks[i]);
    PartsKept(p, |p.parts|, i);
  }

  /** Any depth is enough for Myers. */
  lemma {:induction false} AnyDepth(configs: Configs, rank: nat -> nat, id: Option<nat>, depth: nat, s: Section)
    requires FallbacksEnd(configs, rank) && depth > 0 && MyersSolves(configs, rank, id, 1, s)
    ensures MyersSolves(configs, rank, id, depth, s)
    decreases RankOf(configs, rank, id)
  {
    var config := configs[id.value];
    if !(config.impl.MyersFull? && Myers.StateSize(s) <= config.permittedStateSize) {
      AnyDepth(configs, rank, config.fallback, depth, s);
    }
  }
}
