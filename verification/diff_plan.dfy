/** What running nested diff algorithms must amount to (diff_run_algo in
  lib/diff_main.c), said without the chunk lists it is done with: which algorithm
  solves which section, and what is paired in the end.
*/
module DiffPlans {
  import opened DiffChunks
  import opened DiffStates
  import opened EditDistance
  import opened DivideColumns
  import Myers
  import MyersDivide

  /** `Divider` stands for any other algorithm that splits a section into chunks
      or gives up, such as diff_algo_patience(). */
  datatype Impl = NoImpl | None | MyersFull | Divide | Divider(split: Section -> Division)

  datatype Division = GivenUp | Split(chunks: seq<Chunk>)

  datatype Option<T> = Nothing | Just(value: T)

  /** Configurations refer to each other by number, as the C structs do by
      pointer; inner references may be circular. */
  datatype AlgoConfig = AlgoConfig(impl: Impl, permittedStateSize: nat, inner: Option<nat>, fallback: Option<nat>)

  type Configs = map<nat, AlgoConfig>

  /** What a divider must do: tile the section with chunks an algorithm may add. */
  ghost predicate DividerOk(f: Files, split: Section -> Division) {
    forall s: Section | s.leftLen > 0 && s.rightLen > 0 :: split(s).Split? ==>
      && Tiles(split(s).chunks, s.leftStart, s.rightStart, s.leftStart + s.leftLen, s.rightStart + s.rightLen)
      && forall i | 0 <= i < |split(s).chunks| :: ChunkOk(f, split(s).chunks[i])
  }

  ghost predicate DividersOk(f: Files, configs: Configs) {
    forall i | i in configs && configs[i].impl.Divider? :: DividerOk(f, configs[i].impl.split)
  }

  /** Fallback chains are finite: `rank` decreases along them. */
  ghost predicate FallbacksEnd(configs: Configs, rank: nat -> nat) {
    forall i | i in configs && configs[i].fallback.Just? && configs[i].fallback.value in configs ::
      rank(configs[i].fallback.value) < rank(i)
  }

  ghost function RankOf(configs: Configs, rank: nat -> nat, id: Option<nat>): nat {
    if id.Just? && id.value in configs then rank(id.value) + 1 else 0
  }

  // ------------------------------------------------------------ plans

  /** How a section was solved, and the pairs where that leaves a choice: without an
      algorithm; by the full Myers search; by the fallback of an algorithm that gave up;
      or chunk by chunk, with a plan for each chunk that was not solved at once. */
  datatype Plan = Ends(pairs: seq<(nat, nat)>) | Shortest(pairs: seq<(nat, nat)>) | GaveUp(next: Plan)
                | Parts(chunks: seq<Chunk>, parts: seq<Plan>)

  /** What a plan pairs, in order. */
  function PlanPairs(p: Plan): seq<(nat, nat)>
    decreases p, if p.Parts? then |p.parts| + 1 else 0
  {
    match p
    case Ends(pairs) => pairs
    case Shortest(pairs) => pairs
    case GaveUp(next) => PlanPairs(next)
    case Parts(chunks, parts) => if |chunks| == |parts| then PartPairs(p, |parts|) else []
  }

  /** The same for the first i chunks. */
  function PartPairs(p: Plan, i: nat): seq<(nat, nat)>
    requires p.Parts? && i <= |p.chunks| == |p.parts|
    decreases p, i
  {
    if i == 0 then []
    else
      PartPairs(p, i - 1) + if p.chunks[i - 1].solved then ChunkPairs(p.chunks[i - 1]) else PlanPairs(p.parts[i - 1])
  }

  function SectionOf(c: Chunk): Section {
    Section(c.leftStart, c.leftCount, c.rightStart, c.rightCount)
  }

  /** Is there no algorithm to run, or nothing for it to do? */
  predicate Idle(configs: Configs, id: Option<nat>, depth: nat, s: Section) {
    || id == Nothing || id.value !in configs || configs[id.value].impl.NoImpl?
    || depth == 0 || s.leftLen == 0 || s.rightLen == 0
  }

  /** The longest equal run at the start of a section and, of the rest, at its
      end. */
  ghost predicate AreEnds(g: Grid, equalStart: nat, equalEnd: nat) {
    && equalStart + equalEnd <= g.N() && equalStart + equalEnd <= g.M()
    && AllSame(g.f, EndPairs(g.s, equalStart, equalEnd))
    && !g.Match(equalStart, equalStart)
    && (equalStart + equalEnd < g.N() && equalStart + equalEnd < g.M() ==>
          !g.Match(g.N() - 1 - equalEnd, g.M() - 1 - equalEnd))
  }

  function EndPairs(s: Section, equalStart: nat, equalEnd: nat): seq<(nat, nat)>
    requires equalEnd <= s.leftLen && equalEnd <= s.rightLen
  {
    Run(s.leftStart, s.rightStart, equalStart)
    + Run(s.leftStart + s.leftLen - equalEnd, s.rightStart + s.rightLen - equalEnd, equalEnd)
  }

  /** The pairs of the equal ends. */
  ghost predicate PairsEnds(f: Files, s: Section, ps: seq<(nat, nat)>) {
    exists equalStart: nat, equalEnd: nat ::
      && AreEnds(Grid(f, s), equalStart, equalEnd)
      && ps == EndPairs(s, equalStart, equalEnd)
  }

  /** A longest common subsequence, and so a shortest script. */
  ghost predicate PairsMost(f: Files, s: Section, ps: seq<(nat, nat)>) {
    CommonSubsequence(f, s, ps) && Dist(Grid(f, s), s.leftLen, s.rightLen) + 2 * |ps| == s.leftLen + s.rightLen
  }

  /** Does the algorithm leave the section to its fallback? */
  ghost predicate Declines(f: Files, config: AlgoConfig, s: Section) {
    match config.impl
    case MyersFull => Myers.StateSize(s) > config.permittedStateSize
    case Divide => exists cut, d, b :: Searched(Grid(f, s), false, cut, d, b)
    case Divider(split) => split(s).GivenUp?
    case _ => false
  }

  /** Does it divide the section into these chunks? */
  ghost predicate Divides(f: Files, config: AlgoConfig, s: Section, chunks: seq<Chunk>) {
    match config.impl
    case Divide => exists cut, d, b :: DividedAt(f, s, cut, d, b, chunks)
    case Divider(split) => split(s) == Split(chunks)
    case _ => false
  }

  ghost predicate DividedAt(f: Files, s: Section, cut: bool, d: nat, b: Box, chunks: seq<Chunk>) {
    Searched(Grid(f, s), true, cut, d, b) && MyersDivide.Fits(s, b) && chunks == MyersDivide.Divided(s, b)
  }

  /** Is this how the configuration must solve the section? */
  ghost predicate Follows(f: Files, configs: Configs, id: Option<nat>, depth: nat, s: Section, p: Plan)
    decreases p
  {
    if Idle(configs, id, depth, s) then p.Ends? && PairsEnds(f, s, p.pairs)
    else
      var config := configs[id.value];
      match p
      case Ends(pairs) => config.impl.None? && PairsEnds(f, s, pairs)
      case Shortest(pairs) =>
        config.impl.MyersFull? && Myers.StateSize(s) <= config.permittedStateSize && PairsMost(f, s, pairs)
      case GaveUp(next) => Declines(f, config, s) && Follows(f, configs, config.fallback, depth, s, next)
      case Parts(chunks, parts) =>
        && Divides(f, config, s, chunks) && |parts| == |chunks|
        && forall i | 0 <= i < |parts| && !chunks[i].solved ::
             Follows(f, configs, config.inner, depth - 1, SectionOf(chunks[i]), parts[i])
  }
}
