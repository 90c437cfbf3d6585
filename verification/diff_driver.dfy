/** Running nested diff algorithms (diff_algo_none, diff_run_algo and diff_main
  in lib/diff_main.c; the shipped configurations are in lib/diffreg.c).
*/
module DiffDriver {
  import opened DiffChunks
  import opened DiffStates
  import opened EditDistance
  import opened DivideColumns
  import opened DiffPlans
  import opened DiffMeaning
  import Myers
  import MyersDivide

  // ------------------------------------------------------------ no algorithm

  /** diff_algo_none(): equal atoms at both ends, everything between removed and
      added. */
  method DiffAlgoNone(f: Files, state: DiffState) returns (ghost pairs: seq<(nat, nat)>)
    requires state.tempResult == [] && Covered(f, state, state.s.leftStart, state.s.rightStart)
    modifies state, state.result
    ensures state.tempResult == []
    ensures Covered(f, state, state.s.leftStart + state.s.leftLen, state.s.rightStart + state.s.rightLen)
    ensures PairsEnds(f, state.s, pairs)
    ensures Pairs(state.result.chunks) == old(Pairs(state.result.chunks)) + pairs
  {
    hide AreEnds, Pairs, Run, Covered, EndPairs;
    var start, end := EqualEnds(Grid(f, state.s));
    EndsFit(Grid(f, state.s), start, end);
    PairsOfEnds(state.s, start, end);
    AddAll(f, state, state.s.leftStart, state.s.leftLen, state.s.rightStart, state.s.rightLen, start, end);
    pairs := EndPairs(state.s, start, end);
  }

  lemma PairsOfEnds(s: Section, equalStart: nat, equalEnd: nat)
    requires equalEnd <= s.leftLen && equalEnd <= s.rightLen
    ensures EndPairs(s, equalStart, equalEnd)
            == Run(s.leftStart, s.rightStart, equalStart)
               + Run(s.leftStart + s.leftLen - equalEnd, s.rightStart + s.rightLen - equalEnd, equalEnd)
  {
  }

  lemma EndsFit(g: Grid, equalStart: nat, equalEnd: nat)
    requires AreEnds(g, equalStart, equalEnd)
    ensures equalStart + equalEnd <= g.N() && equalStart + equalEnd <= g.M()
    ensures AllSame(g.f, Run(g.s.leftStart, g.s.rightStart, equalStart))
    ensures AllSame(g.f, Run(g.s.leftStart + g.N() - equalEnd, g.s.rightStart + g.M() - equalEnd, equalEnd))
  {
    AllSameConcat(g.f, Run(g.s.leftStart, g.s.rightStart, equalStart),
                  Run(g.s.leftStart + g.N() - equalEnd, g.s.rightStart + g.M() - equalEnd, equalEnd));
  }

  method AddAll(f: Files, state: DiffState, l: nat, leftLen: nat, r: nat, rightLen: nat, equalStart: nat, equalEnd: nat)
    requires state.tempResult == [] && Covered(f, state, l, r)
    requires equalStart + equalEnd <= leftLen && equalStart + equalEnd <= rightLen
    requires AllSame(f, Run(l, r, equalStart))
    requires AllSame(f, Run(l + leftLen - equalEnd, r + rightLen - equalEnd, equalEnd))
    modifies state, state.result
    ensures state.tempResult == [] && Covered(f, state, l + leftLen, r + rightLen)
    ensures Pairs(state.result.chunks) ==
            old(Pairs(state.result.chunks)) + (Run(l, r, equalStart) + Run(l + leftLen - equalEnd,
                r + rightLen - equalEnd, equalEnd))
  {
    hide Covered, ChunkOk, AllSame, Run, Pairs;
    RunChunkOk(f, l, r, equalStart);
    RunChunkOk(f, l + leftLen - equalEnd, r + rightLen - equalEnd, equalEnd);
    AddEnd(f, state, l, r, equalStart);
    AddMiddle(f, state, l + equalStart, leftLen - equalStart - equalEnd, r + equalStart,
              rightLen - equalStart - equalEnd);
    AddEnd(f, state, l + leftLen - equalEnd, r + rightLen - equalEnd, equalEnd);
  }

  /** A chunk of n equal atoms, if any. */
  method AddEnd(f: Files, state: DiffState, l: nat, r: nat, n: nat)
    requires state.tempResult == [] && Covered(f, state, l, r)
    requires n > 0 ==> ChunkOk(f, Chunk(true, l, n, r, n))
    modifies state, state.result
    ensures state.tempResult == [] && Covered(f, state, l + n, r + n)
    ensures Pairs(state.result.chunks) == old(Pairs(state.result.chunks)) + Run(l, r, n)
  {
    hide Covered, ChunkOk, Pairs;
    CoverIfAny(f, state, l, n, r, n);
  }

  /** A minus chunk with all lines from the left, then a plus chunk with all
      lines from the right. */
  method AddMiddle(f: Files, state: DiffState, l: nat, left: nat, r: nat, right: nat)
    requires state.tempResult == [] && Covered(f, state, l, r)
    modifies state, state.result
    ensures state.tempResult == [] && Covered(f, state, l + left, r + right)
    ensures Pairs(state.result.chunks) == old(Pairs(state.result.chunks))
  {
    hide Covered, ChunkOk, Pairs;
    OneSidedOk(f, l, left, r, 0);
    OneSidedOk(f, l + left, 0, r, right);
    CoverIfAny(f, state, l, left, r, 0);
    CoverIfAny(f, state, l + left, 0, r, right);
  }

  lemma RunChunkOk(f: Files, l: nat, r: nat, n: nat)
    requires AllSame(f, Run(l, r, n))
    ensures n > 0 ==> ChunkOk(f, Chunk(true, l, n, r, n))
  {
  }

  /** The longest equal run at the start and, after that, at the end. */
  method EqualEnds(g: Grid) returns (equalStart: nat, equalEnd: nat)
    ensures AreEnds(g, equalStart, equalEnd)
  {
    hide AllSame, Run, AreEnds;
    equalStart, equalEnd := 0, 0;
    NoneSame(g.f, g.s.leftStart, g.s.rightStart);
    NoneSame(g.f, g.s.leftStart + g.s.leftLen, g.s.rightStart + g.s.rightLen);
    while equalStart < g.s.leftLen && equalStart < g.s.rightLen
      invariant equalStart <= g.N() && equalStart <= g.M()
      invariant AllSame(g.f, Run(g.s.leftStart, g.s.rightStart, equalStart))
    {
      if !g.f.same(g.s.leftStart + equalStart, g.s.rightStart + equalStart) {
        break;
      }
      AppendSame(g.f, g.s.leftStart, g.s.rightStart, equalStart);
      equalStart := equalStart + 1;
    }
    while equalEnd < g.s.leftLen - equalStart && equalEnd < g.s.rightLen - equalStart
      invariant equalStart + equalEnd <= g.N() && equalStart + equalEnd <= g.M()
      invariant AllSame(g.f, Run(g.s.leftStart + g.N() - equalEnd, g.s.rightStart + g.M() - equalEnd, equalEnd))
    {
      if !g.f.same(g.s.leftStart + (g.s.leftLen - 1 - equalEnd), g.s.rightStart + (g.s.rightLen - 1 - equalEnd)) {
        break;
      }
      PrependSame(g.f, g.s.leftStart + (g.s.leftLen - 1 - equalEnd), g.s.rightStart + (g.s.rightLen - 1 - equalEnd),
                  equalEnd);
      equalEnd := equalEnd + 1;
    }
    EndsFound(g, equalStart, equalEnd);
  }

  lemma NoneSame(f: Files, l: nat, r: nat)
    ensures AllSame(f, Run(l, r, 0))
  {
  }

  lemma EndsFound(g: Grid, equalStart: nat, equalEnd: nat)
    requires equalStart + equalEnd <= g.N() && equalStart + equalEnd <= g.M()
    requires AllSame(g.f, Run(g.s.leftStart, g.s.rightStart, equalStart))
    requires AllSame(g.f, Run(g.s.leftStart + g.N() - equalEnd, g.s.rightStart + g.M() - equalEnd, equalEnd))
    requires !g.Match(equalStart, equalStart)
    requires equalStart + equalEnd < g.N() && equalStart + equalEnd < g.M() ==>
               !g.Match(g.N() - 1 - equalEnd, g.M() - 1 - equalEnd)
    ensures AreEnds(g, equalStart, equalEnd)
  {
    AllSameConcat(g.f, Run(g.s.leftStart, g.s.rightStart, equalStart),
                  Run(g.s.leftStart + g.N() - equalEnd, g.s.rightStart + g.M() - equalEnd, equalEnd));
  }

  lemma AppendSame(f: Files, l: nat, r: nat, n: nat)
    requires f.same(l + n, r + n) && AllSame(f, Run(l, r, n))
    ensures AllSame(f, Run(l, r, n + 1))
  {
    RunJoins(l, r, n, 1);
    AllSameConcat(f, Run(l, r, n), Run(l + n, r + n, 1));
  }

  lemma PrependSame(f: Files, l: nat, r: nat, n: nat)
    requires f.same(l, r) && AllSame(f, Run(l + 1, r + 1, n))
    ensures AllSame(f, Run(l, r, n + 1))
  {
    var ps, qs := Run(l, r, n + 1), Run(l + 1, r + 1, n);
    forall i | 0 <= i < |ps|
      ensures f.same(ps[i].0, ps[i].1)
    {
      if i > 0 { assert ps[i] == qs[i - 1]; }
    }
  }

  /** A divider's chunks, added one by one. */
  method RunDivider(f: Files, state: DiffState, chunks: seq<Chunk>)
    requires state.tempResult == [] && Covered(f, state, state.s.leftStart, state.s.rightStart)
    requires Tiles(chunks, state.s.leftStart, state.s.rightStart,
                   state.s.leftStart + state.s.leftLen, state.s.rightStart + state.s.rightLen)
    requires forall i | 0 <= i < |chunks| :: ChunkOk(f, chunks[i])
    modifies state, state.result
    ensures Covered(f, state, state.s.leftStart + state.s.leftLen, state.s.rightStart + state.s.rightLen)
    ensures Handed(old(state.result.chunks), state.result.chunks, state.tempResult, chunks)
  {
    hide Covered, ChunkOk, Tiles, ChunkEdits, Pairs, ChunkPairs, Handed;
    ghost var l, r := state.s.leftStart + state.s.leftLen, state.s.rightStart + state.s.rightLen;
    ghost var before := state.result.chunks;
    var i := 0;
    FirstStart(chunks, state.s.leftStart, state.s.rightStart, l, r);
    HandedNone(before);
    assert chunks[..0] == [];
    while i < |chunks|
      invariant 0 <= i <= |chunks|
      invariant Covered(f, state, StartOf(chunks, i, l, r).0, StartOf(chunks, i, l, r).1)
      invariant Handed(before, state.result.chunks, state.tempResult, chunks[..i])
    {
      var c := chunks[i];
      NextStart(chunks, i, state.s.leftStart, state.s.rightStart, l, r);
      ghost var result, waiting := state.result.chunks, state.tempResult;
      Cover(f, state, c.solved, c.leftStart, c.leftCount, c.rightStart, c.rightCount);
      HandedMore(before, result, waiting, chunks[..i], c, state.result.chunks, state.tempResult);
      assert chunks[..i + 1] == chunks[..i] + [c];
      i := i + 1;
    }
    assert chunks[..i] == chunks;
  }

  // ------------------------------------------------------------ the driver

  /** What an algorithm that has not given up leaves behind: a solved section, or the
      chunks it divided it into. */
  ghost predicate Solved(f: Files, config: AlgoConfig, s: Section, before: seq<Chunk>, after: seq<Chunk>,
                         waiting: seq<Chunk>, p: Plan) {
    match p
    case Ends(pairs) =>
      config.impl.None? && PairsEnds(f, s, pairs) && waiting == [] && Pairs(after) == Pairs(before) + pairs
    case Shortest(pairs) =>
      && config.impl.MyersFull? && Myers.StateSize(s) <= config.permittedStateSize && PairsMost(f, s, pairs)
      && waiting == [] && Pairs(after) == Pairs(before) + pairs
    case GaveUp(next) => false
    case Parts(chunks, parts) => parts == [] && Divides(f, config, s, chunks) && Handed(before, after, waiting, chunks)
  }

  /** One call of algo_config->impl(). */
  method RunImpl(f: Files, config: AlgoConfig, state: DiffState) returns (rc: Rc, ghost p: Plan)
    requires !config.impl.NoImpl? && (config.impl.Divider? ==> DividerOk(f, config.impl.split))
    requires state.s.leftLen > 0 && state.s.rightLen > 0
    requires state.tempResult == [] && Covered(f, state, state.s.leftStart, state.s.rightStart)
    modifies state, state.result
    ensures rc == UseFallback ==>
              && state.tempResult == [] && state.result.chunks == old(state.result.chunks)
              && Covered(f, state, state.s.leftStart, state.s.rightStart) && Declines(f, config, state.s)
    ensures rc == Ok ==> Covered(f, state, state.s.leftStart + state.s.leftLen, state.s.rightStart + state.s.rightLen)
    ensures rc == Ok ==>
              Solved(f, config, state.s, old(state.result.chunks), state.result.chunks, state.tempResult, p)
  {
    hide Script, Edits, Dist, Tiles, ChunkOk, Myers.StateSize, Pairs, Run, AreEnds, PairsEnds, CommonSubsequence,
      Handed, Searched, Reached, CutReached, NoneEqual, AllEqual, MyersDivide.Fits, MyersDivide.Divided, UnsolvedBelow;
    ghost var before := state.result.chunks;
    p := Ends([]);
    match config.impl {
      case None =>
        ghost var pairs := DiffAlgoNone(f, state);
        rc, p := Ok, Ends(pairs);
      case MyersFull =>
        rc := Myers.DiffAlgoMyers(f, state, config.permittedStateSize);
        if rc == Ok {
          MyersPairsMost(f, state.s, before, state.result.chunks);
          p := Shortest(NewPairs(before, state.result.chunks));
        }
      case Divide =>
        var cut;
        ghost var box, d;
        rc, cut, box, d := MyersDivide.DiffAlgoMyersDivide(f, state);
        if rc == Ok {
          assert DividedAt(f, state.s, cut, d, box, MyersDivide.Divided(state.s, box));
          p := Parts(MyersDivide.Divided(state.s, box), []);
        }
      case Divider(split) =>
        var division := split(state.s);
        if division.GivenUp? {
          rc := UseFallback;
        } else {
          RunDivider(f, state, division.chunks);
          rc, p := Ok, Parts(division.chunks, []);
        }
    }
  }

  lemma MyersPairsMost(f: Files, s: Section, before: seq<Chunk>, after: seq<Chunk>)
    requires Script(f, before, s.leftStart, s.rightStart)
    requires Script(f, after, s.leftStart + s.leftLen, s.rightStart + s.rightLen)
    requires Edits(after) == Edits(before) + Dist(Grid(f, s), s.leftLen, s.rightLen) && Pairs(before) <= Pairs(after)
    requires CommonSubsequence(f, s, NewPairs(before, after))
    ensures PairsMost(f, s, NewPairs(before, after)) && Pairs(after) == Pairs(before) + NewPairs(before, after)
  {
    hide Pairs, Edits, Dist, CommonSubsequence;
    EditsCountUnpaired(before, 0, 0, s.leftStart, s.rightStart);
    EditsCountUnpaired(after, 0, 0, s.leftStart + s.leftLen, s.rightStart + s.rightLen);
  }

  /** diff_run_algo(): whatever the nesting of algorithms, the section is solved
      completely, and as the configurations say. Inner algorithms cost recursion depth,
      fallbacks cost rank. */
  method RunAlgo(f: Files, configs: Configs, id: Option<nat>, state: DiffState, ghost rank: nat -> nat)
    returns (ghost p: Plan)
    requires DividersOk(f, configs) && FallbacksEnd(configs, rank)
    requires state.tempResult == [] && Covered(f, state, state.s.leftStart, state.s.rightStart)
    modifies state, state.result
    ensures state.tempResult == []
    ensures Covered(f, state, state.s.leftStart + state.s.leftLen, state.s.rightStart + state.s.rightLen)
    ensures Follows(f, configs, id, state.recursionDepthLeft, state.s, p)
    ensures Pairs(state.result.chunks) == old(Pairs(state.result.chunks)) + PlanPairs(p)
    decreases state.recursionDepthLeft, RankOf(configs, rank, id), 1
  {
    hide Covered, DividerOk, AreEnds, Pairs, PlanPairs, Follows, Solved, Declines, PairsEnds, Handed;
    if id == Nothing || id.value !in configs || configs[id.value].impl.NoImpl?
       || state.recursionDepthLeft == 0 || state.s.leftLen == 0 || state.s.rightLen == 0 {
      ghost var pairs := DiffAlgoNone(f, state);
      EndsFollow(f, configs, id, state.recursionDepthLeft, state.s, pairs);
      p := Ends(pairs);
      return;
    }
    var config := configs[id.value];
    ghost var before := state.result.chunks;
    var rc;
    rc, p := RunImpl(f, config, state);
    if rc == UseFallback {
      p := RunAlgo(f, configs, config.fallback, state, rank);
      FallbackFollows(f, configs, id, state.recursionDepthLeft, state.s, p);
      p := GaveUp(p);
      return;
    }
    ghost var after, waiting := state.result.chunks, state.tempResult;
    ghost var rest := SolveWaiting(f, configs, config.inner, state, rank);
    p := AllParts(f, configs, id, state.recursionDepthLeft, state.s, before, after, waiting, state.result.chunks, p,
                  rest);
  }

  lemma EndsFollow(f: Files, configs: Configs, id: Option<nat>, depth: nat, s: Section, pairs: seq<(nat, nat)>)
    requires Idle(configs, id, depth, s) && PairsEnds(f, s, pairs)
    ensures Follows(f, configs, id, depth, s, Ends(pairs)) && PlanPairs(Ends(pairs)) == pairs
  {
  }

  lemma FallbackFollows(f: Files, configs: Configs, id: Option<nat>, depth: nat, s: Section, p: Plan)
    requires !Idle(configs, id, depth, s) && Declines(f, configs[id.value], s)
    requires Follows(f, configs, configs[id.value].fallback, depth, s, p)
    ensures Follows(f, configs, id, depth, s, GaveUp(p)) && PlanPairs(GaveUp(p)) == PlanPairs(p)
  {
  }

  /** Plans for the waiting chunks, and what they pair. */
  ghost predicate PartsSolved(f: Files, configs: Configs, inner: Option<nat>, depth: nat, chunks: seq<Chunk>,
                              parts: seq<Plan>, before: seq<Chunk>, after: seq<Chunk>) {
    && |parts| == |chunks|
    && (forall i | 0 <= i < |parts| && !chunks[i].solved ::
          Follows(f, configs, inner, depth, SectionOf(chunks[i]), parts[i]))
    && Pairs(after) == Pairs(before) + PlanPairs(Parts(chunks, parts))
  }

  /** What the algorithm solved, and what was left for the inner one, as one plan. */
  lemma AllParts(f: Files, configs: Configs, id: Option<nat>, depth: nat, s: Section, before: seq<Chunk>,
                 after: seq<Chunk>, waiting: seq<Chunk>, last: seq<Chunk>, p: Plan, rest: seq<Plan>)
    returns (whole: Plan)
    requires !Idle(configs, id, depth, s) && Solved(f, configs[id.value], s, before, after, waiting, p)
    requires PartsSolved(f, configs, configs[id.value].inner, depth - 1, waiting, rest, after, last)
    ensures Follows(f, configs, id, depth, s, whole) && Pairs(last) == Pairs(before) + PlanPairs(whole)
  {
    hide PairsEnds, PairsMost, Divides, Pairs, PlanPairs, Myers.StateSize, Handed, PartsSolved;
    var inner := configs[id.value].inner;
    whole := p;
    if p.Parts? {
      var k := PartsHanded(f, configs, inner, depth - 1, before, after, waiting, p.chunks, rest, last);
      var parts := seq(k, _ => Ends([])) + rest;
      whole := Parts(p.chunks, parts);
      PartsFollow(f, configs, inner, depth - 1, k, waiting, p.chunks, rest, after, last);
      PartsPaired(f, configs, inner, depth - 1, before, after, waiting, p.chunks, k, rest, last);
    } else {
      PartsPairs(f, configs, inner, depth - 1, waiting, rest, after, last);
      NothingWaits(waiting, rest);
      LeafPairs(p);
    }
  }

  lemma PartsHanded(f: Files, configs: Configs, inner: Option<nat>, depth: nat, before: seq<Chunk>, after: seq<Chunk>,
                    waiting: seq<Chunk>, chunks: seq<Chunk>, rest: seq<Plan>, last: seq<Chunk>) returns (k: nat)
    requires Handed(before, after, waiting, chunks)
    requires PartsSolved(f, configs, inner, depth, waiting, rest, after, last)
    ensures k + |rest| == k + |waiting| == |chunks| && chunks[k..] == waiting
    ensures Pairs(after) == Pairs(before) + Pairs(chunks[..k])
    ensures forall i | 0 <= i < k :: chunks[i].solved
  {
    hide Pairs, Follows, PlanPairs;
    k := |chunks| - |waiting|;
  }

  lemma PartsPairs(f: Files, configs: Configs, inner: Option<nat>, depth: nat, waiting: seq<Chunk>, rest: seq<Plan>,
                   after: seq<Chunk>, last: seq<Chunk>)
    requires PartsSolved(f, configs, inner, depth, waiting, rest, after, last)
    ensures |rest| == |waiting| && Pairs(last) == Pairs(after) + PlanPairs(Parts(waiting, rest))
  {
    hide Pairs, Follows, PlanPairs;
  }

  lemma PartsFollow(f: Files, configs: Configs, inner: Option<nat>, depth: nat, k: nat, waiting: seq<Chunk>,
                    chunks: seq<Chunk>, rest: seq<Plan>, after: seq<Chunk>, last: seq<Chunk>)
    requires k + |rest| == k + |waiting| == |chunks| && chunks[k..] == waiting
    requires forall i | 0 <= i < k :: chunks[i].solved
    requires PartsSolved(f, configs, inner, depth, waiting, rest, after, last)
    ensures var parts := seq(k, _ => Ends([])) + rest;
            forall i | 0 <= i < |parts| && !chunks[i].solved ::
              Follows(f, configs, inner, depth, SectionOf(chunks[i]), parts[i])
  {
    hide Pairs, Follows, PlanPairs;
    var parts := seq(k, _ => Ends([])) + rest;
    forall i | 0 <= i < |parts| && !chunks[i].solved
      ensures Follows(f, configs, inner, depth, SectionOf(chunks[i]), parts[i])
    {
      assert i >= k && chunks[i] == waiting[i - k] && parts[i] == rest[i - k];
    }
  }

  lemma PartsPaired(f: Files, configs: Configs, inner: Option<nat>, depth: nat, before: seq<Chunk>, after: seq<Chunk>,
                    waiting: seq<Chunk>, chunks: seq<Chunk>, k: nat, rest: seq<Plan>, last: seq<Chunk>)
    requires k + |rest| == k + |waiting| == |chunks| && chunks[k..] == waiting
    requires Pairs(after) == Pairs(before) + Pairs(chunks[..k]) && forall i | 0 <= i < k :: chunks[i].solved
    requires PartsSolved(f, configs, inner, depth, waiting, rest, after, last)
    ensures Pairs(last) == Pairs(before) + PlanPairs(Parts(chunks, seq(k, _ => Ends([])) + rest))
  {
    hide Pairs, PartPairs, PartsSolved;
    var parts := seq(k, _ => Ends([])) + rest;
    PartsPairs(f, configs, inner, depth, waiting, rest, after, last);
    SolvedFirst(chunks, parts, k, k);
    assert parts[k..] == rest;
    PartsAppend(chunks, parts, k, waiting, rest, |rest|);
  }

  lemma NothingWaits(waiting: seq<Chunk>, rest: seq<Plan>)
    requires waiting == [] && rest == []
    ensures PlanPairs(Parts(waiting, rest)) == []
  {
  }

  lemma {:induction false} SolvedFirst(chunks: seq<Chunk>, parts: seq<Plan>, k: nat, i: nat)
    requires i <= k <= |chunks| == |parts| && forall j | 0 <= j < k :: chunks[j].solved
    ensures PartPairs(Parts(chunks, parts), i) == Pairs(chunks[..i])
    decreases i
  {
    hide ChunkPairs;
    if i > 0 {
      SolvedFirst(chunks, parts, k, i - 1);
      assert chunks[..i] == chunks[..i - 1] + [chunks[i - 1]];
      LastOf(chunks[..i - 1], chunks[i - 1]);
    } else {
      assert chunks[..0] == [];
    }
  }

  lemma {:induction false} PartsAppend(chunks: seq<Chunk>, parts: seq<Plan>, k: nat, waiting: seq<Chunk>,
                                       rest: seq<Plan>, i: nat)
    requires k <= |chunks| == |parts| && chunks[k..] == waiting && parts[k..] == rest && i <= |rest|
    ensures PartPairs(Parts(chunks, parts), k + i)
            == PartPairs(Parts(chunks, parts), k) + PartPairs(Parts(waiting, rest), i)
    decreases i
  {
    hide ChunkPairs, PlanPairs;
    if i > 0 {
      PartsAppend(chunks, parts, k, waiting, rest, i - 1);
      assert waiting[i - 1] == chunks[k + (i - 1)] && rest[i - 1] == parts[k + (i - 1)];
    }
  }

  /** The loop that feeds unsolved chunks to the inner algorithm and appends the
      solved ones after them. */
  method SolveWaiting(f: Files, configs: Configs, inner: Option<nat>, state: DiffState, ghost rank: nat -> nat)
    returns (ghost parts: seq<Plan>)
    requires DividersOk(f, configs) && FallbacksEnd(configs, rank) && state.recursionDepthLeft > 0
    requires Covered(f, state, state.s.leftStart + state.s.leftLen, state.s.rightStart + state.s.rightLen)
    modifies state, state.result
    ensures state.tempResult == []
    ensures Covered(f, state, state.s.leftStart + state.s.leftLen, state.s.rightStart + state.s.rightLen)
    ensures PartsSolved(f, configs, inner, state.recursionDepthLeft - 1, old(state.tempResult), parts,
                        old(state.result.chunks), state.result.chunks)
    decreases state.recursionDepthLeft, 0, 0
  {
    hide Script, ChunkOk, Tiles, Covered, DividersOk, FallbacksEnd, RankOf, Waiting, PartsSolved;
    var waiting := state.tempResult;
    ghost var before := state.result.chunks;
    parts := [];
    WaitingStarts(f, state);
    NoneSolved(f, configs, inner, state.recursionDepthLeft - 1, waiting, before);
    var i := 0;
    while i < |waiting|
      invariant 0 <= i <= |waiting| && state.tempResult == waiting
      invariant Waiting(f, state.s, waiting, i, state.result.chunks)
      invariant PartsSolved(f, configs, inner, state.recursionDepthLeft - 1, waiting[..i], parts, before,
                            state.result.chunks)
    {
      WaitingHere(f, state.s, waiting, i, state.result.chunks);
      ghost var done := state.result.chunks;
      ghost var p := SolveChunk(f, configs, inner, state, waiting[i], rank);
      WaitingNext(f, state.s, waiting, i, done, state.result.chunks);
      OneMoreSolved(f, configs, inner, state.recursionDepthLeft - 1, waiting, i, parts, before, done,
                    state.result.chunks, p);
      parts := parts + [p];
      i := i + 1;
    }
    assert waiting[..i] == waiting;
    state.tempResult := [];
    WaitingEnds(f, state, waiting);
  }

  lemma NoneSolved(f: Files, configs: Configs, inner: Option<nat>, depth: nat, waiting: seq<Chunk>, before: seq<Chunk>)
    ensures PartsSolved(f, configs, inner, depth, waiting[..0], [], before, before)
  {
    hide Pairs;
    assert waiting[..0] == [];
  }

  lemma OneMoreSolved(f: Files, configs: Configs, inner: Option<nat>, depth: nat, waiting: seq<Chunk>, i: nat,
                      parts: seq<Plan>, before: seq<Chunk>, done: seq<Chunk>, after: seq<Chunk>, p: Plan)
    requires i < |waiting| && PartsSolved(f, configs, inner, depth, waiting[..i], parts, before, done)
    requires !waiting[i].solved ==> Follows(f, configs, inner, depth, SectionOf(waiting[i]), p)
    requires Pairs(after) == Pairs(done) + if waiting[i].solved then ChunkPairs(waiting[i]) else PlanPairs(p)
    ensures PartsSolved(f, configs, inner, depth, waiting[..i + 1], parts + [p], before, after)
  {
    hide Follows, ChunkPairs, Pairs, PlanPairs;
    var chunks := waiting[..i + 1];
    OneMorePaired(waiting, i, parts, p);
    forall k | 0 <= k < |parts + [p]| && !chunks[k].solved
      ensures Follows(f, configs, inner, depth, SectionOf(chunks[k]), (parts + [p])[k])
    {
      if k < i {
        assert !waiting[..i][k].solved;
      }
    }
  }

  lemma OneMorePaired(waiting: seq<Chunk>, i: nat, parts: seq<Plan>, p: Plan)
    requires i < |waiting| && |parts| == i
    ensures PlanPairs(Parts(waiting[..i + 1], parts + [p]))
            == PlanPairs(Parts(waiting[..i], parts))
               + if waiting[i].solved then ChunkPairs(waiting[i]) else PlanPairs(p)
  {
    hide ChunkPairs, PartPairs;
    var whole := Parts(waiting[..i + 1], parts + [p]);
    SamePartsBefore(waiting[..i], parts, whole.chunks, whole.parts, i);
    LastPart(whole, i);
  }

  lemma LastPart(p: Plan, i: nat)
    requires p.Parts? && i < |p.chunks| == |p.parts|
    ensures PartPairs(p, i + 1)
            == PartPairs(p, i) + if p.chunks[i].solved then ChunkPairs(p.chunks[i]) else PlanPairs(p.parts[i])
  {
    hide ChunkPairs;
  }

  lemma {:induction false} SamePartsBefore(cs: seq<Chunk>, ps: seq<Plan>, ds: seq<Chunk>, qs: seq<Plan>, i: nat)
    requires i <= |cs| == |ps| && |ds| == |qs| && cs <= ds && ps <= qs
    ensures PartPairs(Parts(cs, ps), i) == PartPairs(Parts(ds, qs), i)
    decreases i
  {
    hide ChunkPairs, PlanPairs;
    if i > 0 {
      SamePartsBefore(cs, ps, ds, qs, i - 1);
      assert cs[i - 1] == ds[i - 1] && ps[i - 1] == qs[i - 1];
    }
  }

  /** The script is finished up to waiting chunk i, and the chunks from there on tile
      the rest of the section. */
  ghost predicate Waiting(f: Files, s: Section, waiting: seq<Chunk>, i: nat, done: seq<Chunk>) {
    var l, r := s.leftStart + s.leftLen, s.rightStart + s.rightLen;
    var first, here := StartOf(waiting, 0, l, r), StartOf(waiting, i, l, r);
    && i <= |waiting| && Script(f, done, here.0, here.1) && Tiles(waiting, first.0, first.1, l, r)
    && (forall k | 0 <= k < |waiting| :: ChunkOk(f, waiting[k]))
  }

  lemma WaitingStarts(f: Files, state: DiffState)
    requires Covered(f, state, state.s.leftStart + state.s.leftLen, state.s.rightStart + state.s.rightLen)
    ensures Waiting(f, state.s, state.tempResult, 0, state.result.chunks)
  {
    hide Script, ChunkOk;
  }

  lemma WaitingHere(f: Files, s: Section, waiting: seq<Chunk>, i: nat, done: seq<Chunk>)
    requires i < |waiting| && Waiting(f, s, waiting, i, done)
    ensures ChunkOk(f, waiting[i]) && Script(f, done, waiting[i].leftStart, waiting[i].rightStart)
  {
    hide Script, ChunkOk, Tiles;
  }

  lemma WaitingNext(f: Files, s: Section, waiting: seq<Chunk>, i: nat, before: seq<Chunk>, done: seq<Chunk>)
    requires i < |waiting| && Waiting(f, s, waiting, i, before)
    requires var c := waiting[i]; Script(f, done, c.leftStart + c.leftCount, c.rightStart + c.rightCount)
    ensures Waiting(f, s, waiting, i + 1, done)
  {
    hide Script, ChunkOk, Tiles;
    var l, r := s.leftStart + s.leftLen, s.rightStart + s.rightLen;
    NextStart(waiting, i, StartOf(waiting, 0, l, r).0, StartOf(waiting, 0, l, r).1, l, r);
  }

  lemma WaitingEnds(f: Files, state: DiffState, waiting: seq<Chunk>)
    requires state.tempResult == [] && Waiting(f, state.s, waiting, |waiting|, state.result.chunks)
    ensures Covered(f, state, state.s.leftStart + state.s.leftLen, state.s.rightStart + state.s.rightLen)
  {
    hide Script, ChunkOk, Tiles;
  }

  /** A solved chunk is appended; any other is a section of its own for the inner
      algorithm. */
  method SolveChunk(f: Files, configs: Configs, inner: Option<nat>, state: DiffState, c: Chunk, ghost rank: nat -> nat)
    returns (ghost p: Plan)
    requires DividersOk(f, configs) && FallbacksEnd(configs, rank) && state.recursionDepthLeft > 0
    requires ChunkOk(f, c) && Script(f, state.result.chunks, c.leftStart, c.rightStart)
    modifies state.result
    ensures Script(f, state.result.chunks, c.leftStart + c.leftCount, c.rightStart + c.rightCount)
    ensures !c.solved ==> Follows(f, configs, inner, state.recursionDepthLeft - 1, SectionOf(c), p)
    ensures Pairs(state.result.chunks)
            == old(Pairs(state.result.chunks)) + if c.solved then ChunkPairs(c) else PlanPairs(p)
    decreases state.recursionDepthLeft - 1, RankOf(configs, rank, inner), 2
  {
    hide Follows, PlanPairs;
    if c.solved {
      p := Ends([]);
      ScriptAppend(f, state.result.chunks, c);
      AddSolvedChunk(state.result, c);
    } else {
      var section := Section(c.leftStart, c.leftCount, c.rightStart, c.rightCount);
      var innerState := new DiffState(state.result, section, state.recursionDepthLeft - 1);
      p := RunAlgo(f, configs, inner, innerState, rank);
    }
  }

  /** diff_main(). */
  method DiffMain(f: Files, configs: Configs, algo: Option<nat>, maxRecursionDepth: nat, ghost rank: nat -> nat)
    returns (result: DiffResult)
    requires DividersOk(f, configs) && FallbacksEnd(configs, rank)
    ensures fresh(result) && Script(f, result.chunks, f.leftLen, f.rightLen)
    ensures FoundBy(f, configs, algo, maxRecursionDepth, result.chunks)
    ensures ShortestIfMyers(f, configs, rank, algo, result.chunks)
    ensures forall q | DividerPairs(configs, algo, WholeOf(f), q) :: q in Pairs(result.chunks)
    ensures f.leftLen == f.rightLen && EqualUpto(f, f.leftLen) && DividersLevel(f, configs) ==>
              Edits(result.chunks) == 0
  {
    hide DividersOk, DividersLevel, FallbacksEnd, EqualUpto, Follows, PlanPairs, Dist, DividerPairs;
    result := new DiffResult();
    var depth := if maxRecursionDepth != 0 then maxRecursionDepth else UINT_MAX;
    var state := new DiffState(result, Section(0, f.leftLen, 0, f.rightLen), depth);
    ghost var p := RunAlgo(f, configs, algo, state, rank);
    assert [] + PlanPairs(p) == PlanPairs(p);
    FoundMeans(f, configs, algo, maxRecursionDepth, rank, result.chunks);
  }

  // ------------------------------------------------------------ what the results mean

  /** Any finished script of a section, however it was found, deletes and
      inserts at least Dist atoms; so a script with exactly Dist edits is a
      shortest one. */
  lemma NoScriptIsShorter(f: Files, s: Section, cs: seq<Chunk>)
    requires Tiles(cs, s.leftStart, s.rightStart, s.leftStart + s.leftLen, s.rightStart + s.rightLen)
    requires Normal(cs) && AllSame(f, Pairs(cs))
    ensures Edits(cs) >= Dist(Grid(f, s), s.leftLen, s.rightLen)
  {
    PairsAreCommonSubsequence(f, cs, s.leftStart, s.rightStart, s.leftStart + s.leftLen, s.rightStart + s.rightLen);
    DistBoundsSubsequences(Grid(f, s), s.leftLen, s.rightLen, Pairs(cs));
    EditsCountUnpaired(cs, s.leftStart, s.rightStart, s.leftStart + s.leftLen, s.rightStart + s.rightLen);
  }

  /** A script with Dist edits pairs a longest common subsequence, and its edits
      number N + M - 2 * LCS. */
  lemma ShortestPairsLcs(f: Files, cs: seq<Chunk>)
    requires Script(f, cs, f.leftLen, f.rightLen)
    requires var s := Section(0, f.leftLen, 0, f.rightLen); Edits(cs) == Dist(Grid(f, s), f.leftLen, f.rightLen)
    ensures var s := Section(0, f.leftLen, 0, f.rightLen);
            && CommonSubsequence(f, s, Pairs(cs))
            && (forall ps | CommonSubsequence(f, s, ps) :: |ps| <= |Pairs(cs)|)
            && Edits(cs) == f.leftLen + f.rightLen - 2 * |Pairs(cs)|
  {
    var s := Section(0, f.leftLen, 0, f.rightLen);
    PairsAreCommonSubsequence(f, cs, 0, 0, f.leftLen, f.rightLen);
    EditsCountUnpaired(cs, 0, 0, f.leftLen, f.rightLen);
    forall ps | CommonSubsequence(f, s, ps)
      ensures |ps| <= |Pairs(cs)|
    {
      DistBoundsSubsequences(Grid(f, s), f.leftLen, f.rightLen, ps);
    }
  }

  /** Every result names all left atoms and all right atoms, each once and in
      order, and pairs only equal ones. */
  lemma ScriptIsComplete(f: Files, cs: seq<Chunk>)
    requires Script(f, cs, f.leftLen, f.rightLen)
    ensures LeftAtoms(cs) == Range(0, f.leftLen) && RightAtoms(cs) == Range(0, f.rightLen)
    ensures CommonSubsequence(f, Section(0, f.leftLen, 0, f.rightLen), Pairs(cs))
    ensures forall i | 0 < i < |cs| :: MayFollow(cs[i - 1], cs[i])
  {
    TilingNamesEveryAtom(cs, 0, 0, f.leftLen, f.rightLen);
    PairsAreCommonSubsequence(f, cs, 0, 0, f.leftLen, f.rightLen);
  }
}
