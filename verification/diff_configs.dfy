/** The configurations that ship with the program (lib/diffreg.c). */
module DiffConfigs {
  import opened DiffChunks
  import opened DiffStates
  import opened EditDistance
  import opened DivideColumns
  import opened DiffPlans
  import opened DiffMeaning
  import opened DiffDriver
  import Myers
  import MyersDivide

  const MYERS_DIVIDE: nat := 0
  const MYERS_THEN_MYERS_DIVIDE: nat := 1
  const PATIENCE: nat := 2
  const MYERS_THEN_PATIENCE: nat := 3

  const PERMITTED: nat := 1024 * 1024 * Myers.SIZEOF_INT

  /** The four configurations, with `split` for diff_algo_patience(). */
  function Shipped(split: Section -> Division): Configs {
    map[
      MYERS_DIVIDE := AlgoConfig(Divide, 0, Just(MYERS_THEN_MYERS_DIVIDE), Nothing),
      MYERS_THEN_MYERS_DIVIDE := AlgoConfig(MyersFull, PERMITTED, Nothing, Just(MYERS_DIVIDE)),
      PATIENCE := AlgoConfig(Divider(split), 0, Just(PATIENCE), Just(MYERS_THEN_MYERS_DIVIDE)),
      MYERS_THEN_PATIENCE := AlgoConfig(MyersFull, PERMITTED, Nothing, Just(PATIENCE))
    ]
  }

  predicate StartsWithMyers(algo: nat) {
    algo == MYERS_THEN_MYERS_DIVIDE || algo == MYERS_THEN_PATIENCE
  }

  /** Although their inner references are circular, their fallbacks end. */
  lemma ShippedFallbacksEnd(split: Section -> Division)
    ensures FallbacksEnd(Shipped(split), (id: nat) => id)
  {
  }

  /** What the permitted state size amounts to. */
  lemma PermittedIs511Atoms(s: Section)
    ensures Myers.StateSize(s) <= PERMITTED <==> s.leftLen + s.rightLen <= 511
  {
    var n := 2 * (s.leftLen + s.rightLen) + 1;
    if n <= 1023 {
      SquareGrows(n, 1023);
    } else {
      SquareGrows(1025, n);
    }
  }

  lemma SquareGrows(a: nat, b: nat)
    requires a <= b
    ensures a * a <= b * b
  {
    assert b * b == a * a + (b - a) * (a + b);
  }

  /** A finished script with a side that is empty has nothing to pair. */
  lemma EmptySideEdits(f: Files, cs: seq<Chunk>)
    requires Script(f, cs, f.leftLen, f.rightLen) && (f.leftLen == 0 || f.rightLen == 0)
    ensures Edits(cs) == f.leftLen + f.rightLen
  {
    PairsAreCommonSubsequence(f, cs, 0, 0, f.leftLen, f.rightLen);
    EditsCountUnpaired(cs, 0, 0, f.leftLen, f.rightLen);
  }

  /** diff_main() with a shipped configuration: always a complete script, and up to
      511 atoms no script is shorter, unless patience goes first. */
  method DiffShipped(f: Files, split: Section -> Division, algo: nat, maxRecursionDepth: nat)
    returns (result: DiffResult)
    requires DividerOk(f, split) && algo in Shipped(split)
    ensures fresh(result) && Script(f, result.chunks, f.leftLen, f.rightLen)
    ensures FoundBy(f, Shipped(split), Just(algo), maxRecursionDepth, result.chunks)
    ensures StartsWithMyers(algo) && f.leftLen + f.rightLen <= 511 ==>
              forall cs | Script(f, cs, f.leftLen, f.rightLen) :: Edits(result.chunks) <= Edits(cs)
  {
    hide DividerOk, Script, Edits, Dist, FoundBy;
    var configs := Shipped(split);
    ShippedFallbacksEnd(split);
    result := DiffMain(f, configs, Just(algo), maxRecursionDepth, (id: nat) => id);
    if StartsWithMyers(algo) && f.leftLen + f.rightLen <= 511 {
      ShippedIsShortest(f, split, algo, result.chunks);
    }
  }

  lemma ShippedIsShortest(f: Files, split: Section -> Division, algo: nat, cs: seq<Chunk>)
    requires StartsWithMyers(algo) && f.leftLen + f.rightLen <= 511 && Script(f, cs, f.leftLen, f.rightLen)
    requires FallbacksEnd(Shipped(split), (id: nat) => id)
    requires MyersSolves(Shipped(split), (id: nat) => id, Just(algo), 1, WholeOf(f)) ==>
               Edits(cs) == Dist(Grid(f, WholeOf(f)), f.leftLen, f.rightLen)
    ensures forall ds | Script(f, ds, f.leftLen, f.rightLen) :: Edits(cs) <= Edits(ds)
  {
    PermittedIs511Atoms(WholeOf(f));
    forall ds | Script(f, ds, f.leftLen, f.rightLen)
      ensures Edits(cs) <= Edits(ds)
    {
      if f.leftLen == 0 || f.rightLen == 0 {
        EmptySideEdits(f, cs);
        EmptySideEdits(f, ds);
      } else {
        NoScriptIsShorter(f, WholeOf(f), ds);
      }
    }
  }

  /** Beyond 511 atoms the result of the configurations without patience rests on the
      midpoint. If the search finds none, just the equal ends are paired; if it does, and
      leaves two sections of at most 511 atoms, these have shortest scripts. */
  lemma ShippedDivided(f: Files, split: Section -> Division, algo: nat, maxRecursionDepth: nat, cs: seq<Chunk>)
    returns (found: bool, cut: bool, d: nat, b: Box)
    requires DividerOk(f, split) && FoundBy(f, Shipped(split), Just(algo), maxRecursionDepth, cs)
    requires maxRecursionDepth != 1 && f.leftLen > 0 && f.rightLen > 0
    requires algo == MYERS_DIVIDE || (algo == MYERS_THEN_MYERS_DIVIDE && f.leftLen + f.rightLen > 511)
    ensures Searched(Grid(f, WholeOf(f)), found, cut, d, b)
    ensures !found ==> PairsEnds(f, WholeOf(f), Pairs(cs))
    ensures found ==> MyersDivide.Fits(WholeOf(f), b)
    ensures found && b.leftStart + b.rightStart <= 511 && f.leftLen - b.leftEnd + f.rightLen - b.rightEnd <= 511 ==>
              var chunks := MyersDivide.Divided(WholeOf(f), b);
              Edits(cs) == SumOfDistances(f, chunks, |chunks|)
  {
    hide Searched, MyersDivide.Fits, MyersDivide.Divided, PairsEnds, Pairs, Edits, SumOfDistances, MyersSolves,
      Myers.StateSize, PlanEdits, PairsMost, FoundBy;
    var configs, s := Shipped(split), WholeOf(f);
    PermittedIs511Atoms(s);
    ShippedFallbacksEnd(split);
    var p := FoundPlan(f, configs, Just(algo), maxRecursionDepth, cs);
    var depth := DepthOf(maxRecursionDepth);
    if algo == MYERS_THEN_MYERS_DIVIDE {
      FallbackPairs(s, p);
      p := p.next;
    }
    if p.GaveUp? {
      FallbackPairs(s, p);
      assert Follows(f, configs, Nothing, depth, s, p.next);
      LeafPairs(p.next);
      found := false;
      cut, d, b :| Searched(Grid(f, s), false, cut, d, b);
    } else {
      found := true;
      cut, d, b :| DividedAt(f, s, cut, d, b, p.chunks);
      if b.leftStart + b.rightStart <= 511 && f.leftLen - b.leftEnd + f.rightLen - b.rightEnd <= 511 {
        SmallPiecesForMyers(split, depth - 1, s, b);
        DividedForMyers(f, configs, (id: nat) => id, Just(MYERS_DIVIDE), depth, s, p);
      }
    }
  }

  /** The unsolved parts of a division go to Myers when they are small enough. */
  lemma SmallPiecesForMyers(split: Section -> Division, depth: nat, s: Section, b: Box)
    requires FallbacksEnd(Shipped(split), (id: nat) => id) && depth > 0 && MyersDivide.Fits(s, b)
    requires b.leftStart + b.rightStart <= 511 && s.leftLen - b.leftEnd + s.rightLen - b.rightEnd <= 511
    ensures var chunks := MyersDivide.Divided(s, b);
            forall i | 0 <= i < |chunks| && !chunks[i].solved ::
              MyersSolves(Shipped(split), (id: nat) => id, Just(MYERS_THEN_MYERS_DIVIDE), depth, SectionOf(chunks[i]))
  {
    hide Myers.StateSize;
    var chunks := MyersDivide.Divided(s, b);
    forall i | 0 <= i < |chunks| && !chunks[i].solved
      ensures MyersSolves(Shipped(split), (id: nat) => id, Just(MYERS_THEN_MYERS_DIVIDE), depth, SectionOf(chunks[i]))
    {
      PermittedIs511Atoms(SectionOf(chunks[i]));
    }
  }
}
