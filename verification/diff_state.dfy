/** The mutable state of a diff run and how chunks are added to it
  (lib/diff_main.c, lib/diff_internal.h).
*/
module DiffStates {
  import opened DiffChunks

  datatype Rc = Ok | UseFallback

  class DiffResult {
    var chunks: seq<Chunk>

    constructor ()
      ensures chunks == []
    {
      chunks := [];
    }
  }

  class DiffState {
    const result: DiffResult
    const s: Section
    const recursionDepthLeft: nat
    var tempResult: seq<Chunk>

    constructor (result: DiffResult, s: Section, recursionDepthLeft: nat)
      ensures this.result == result && this.s == s && this.recursionDepthLeft == recursionDepthLeft
      ensures tempResult == []
    {
      this.result, this.s, this.recursionDepthLeft := result, s, recursionDepthLeft;
      tempResult := [];
    }
  }

  /** A finished edit script for the first l left and r right atoms. */
  ghost predicate Script(f: Files, cs: seq<Chunk>, l: nat, r: nat) {
    Tiles(cs, 0, 0, l, r) && Normal(cs) && AllSame(f, Pairs(cs))
  }

  /** What an algorithm may add: a settled chunk whose pairs are equal, or an
      unsolved one with atoms on both sides. */
  ghost predicate ChunkOk(f: Files, c: Chunk) {
    if c.solved then c.Settled() && AllSame(f, ChunkPairs(c)) else c.leftCount > 0 && c.rightCount > 0
  }

  lemma ScriptAppend(f: Files, cs: seq<Chunk>, c: Chunk)
    requires Script(f, cs, c.leftStart, c.rightStart)
    requires c.solved && ChunkOk(f, c)
    ensures Script(f, Appended(cs, c), c.leftStart + c.leftCount, c.rightStart + c.rightCount)
    ensures Pairs(Appended(cs, c)) == Pairs(cs) + ChunkPairs(c)
    ensures Edits(Appended(cs, c)) == Edits(cs) + ChunkEdits(c)
  {
    AppendKeepsScript(cs, c, 0, 0);
    AllSameConcat(f, Pairs(cs), ChunkPairs(c));
  }

  /** diff_state_add_solved_chunk(): the two assertions are the ones the C code makes. */
  method AddSolvedChunk(result: DiffResult, c: Chunk)
    requires c.Settled() && Normal(result.chunks)
    requires Tiles(result.chunks, 0, 0, c.leftStart, c.rightStart)
    modifies result
    ensures result.chunks == Appended(old(result.chunks), c)
  {
    var n := |result.chunks|;
    var lastType := if n > 0 then result.chunks[n - 1].Type() else Empty;
    var newType := c.Type();
    if n > 0 {
      var last := result.chunks[n - 1];
      assert c.leftStart == last.leftStart + last.leftCount;
      assert c.rightStart == last.rightStart + last.rightCount;
    }
    if newType == lastType {
      result.chunks := result.chunks[n - 1 := Joined(result.chunks[n - 1], c)];
    } else if lastType == Plus && newType == Minus {
      var prevLastType := if n > 1 then result.chunks[n - 2].Type() else Empty;
      var at: nat;
      if prevLastType == Minus {
        at := n - 2;
        result.chunks := result.chunks[at := Joined(result.chunks[at], c)];
      } else {
        at := n - 1;
        result.chunks := result.chunks[..at] + [c] + result.chunks[at..];
        var last := result.chunks[|result.chunks| - 1];
        result.chunks := result.chunks[at := result.chunks[at].(rightStart := last.rightStart)];
      }
      var last := result.chunks[|result.chunks| - 1];
      result.chunks := result.chunks[|result.chunks| - 1 := MovedTo(last, result.chunks[at])];
    } else {
      result.chunks := result.chunks + [c];
    }
  }

  /** diff_state_add_chunk(): unsolved chunks, and everything after the first
      of them, wait in the intermediate result. */
  method AddChunk(state: DiffState, solved: bool, leftStart: nat, leftCount: nat, rightStart: nat, rightCount: nat)
    requires var c := Chunk(solved, leftStart, leftCount, rightStart, rightCount);
             solved && state.tempResult == [] ==>
               c.Settled() && Normal(state.result.chunks) && Tiles(state.result.chunks, 0, 0, leftStart, rightStart)
    modifies state, state.result
    ensures var c := Chunk(solved, leftStart, leftCount, rightStart, rightCount);
            if solved && old(state.tempResult) == [] then
              state.tempResult == [] && state.result.chunks == Appended(old(state.result.chunks), c)
            else
              state.tempResult == old(state.tempResult) + [c] && state.result.chunks == old(state.result.chunks)
  {
    var chunk := Chunk(solved, leftStart, leftCount, rightStart, rightCount);
    if !solved || |state.tempResult| > 0 {
      state.tempResult := state.tempResult + [chunk];
      return;
    }
    AddSolvedChunk(state.result, chunk);
  }

  /** Result and intermediate result together cover both files up to (l, r):
      the result is a finished script, and the waiting chunks continue it. */
  ghost predicate Covered(f: Files, state: DiffState, l: nat, r: nat)
    reads state, state.result
  {
    var cs := state.tempResult;
    if cs == [] then Script(f, state.result.chunks, l, r)
    else
      && Script(f, state.result.chunks, cs[0].leftStart, cs[0].rightStart)
      && Tiles(cs, cs[0].leftStart, cs[0].rightStart, l, r)
      && forall i | 0 <= i < |cs| :: ChunkOk(f, cs[i])
  }

  /** What the state holds after chunks have been added one by one: those before the
      first unsolved one are in the result, and the rest waits. */
  ghost predicate Handed(before: seq<Chunk>, after: seq<Chunk>, waiting: seq<Chunk>, chunks: seq<Chunk>) {
    var k := |chunks| - |waiting|;
    && 0 <= k && chunks[k..] == waiting && (waiting != [] ==> !waiting[0].solved)
    && (forall i | 0 <= i < k :: chunks[i].solved)
    && Pairs(after) == Pairs(before) + Pairs(chunks[..k])
  }

  lemma HandedNone(before: seq<Chunk>)
    ensures Handed(before, before, [], [])
  {
  }

  lemma HandedMore(before: seq<Chunk>, after: seq<Chunk>, waiting: seq<Chunk>, chunks: seq<Chunk>, c: Chunk,
                   after': seq<Chunk>, waiting': seq<Chunk>)
    requires Handed(before, after, waiting, chunks)
    requires if c.solved && waiting == [] then waiting' == [] && Pairs(after') == Pairs(after) + ChunkPairs(c)
             else waiting' == waiting + [c] && after' == after
    ensures Handed(before, after', waiting', chunks + [c])
  {
    hide Pairs, ChunkPairs;
    var k, k' := |chunks| - |waiting|, |chunks + [c]| - |waiting'|;
    if c.solved && waiting == [] {
      assert chunks[..k] == chunks && (chunks + [c])[..k'] == chunks + [c];
      LastOf(chunks, c);
    } else {
      assert (chunks + [c])[..k'] == chunks[..k];
    }
  }

  /** Everything that still waits has fewer than n atoms. */
  ghost predicate UnsolvedBelow(cs: seq<Chunk>, n: nat) {
    forall i | 0 <= i < |cs| :: !cs[i].solved ==> cs[i].leftCount + cs[i].rightCount < n
  }

  /** diff_state_add_chunk() at the end of what is covered, with a chunk an
      algorithm may add. */
  method Cover(f: Files, state: DiffState, solved: bool, l: nat, leftCount: nat, r: nat, rightCount: nat)
    requires Covered(f, state, l, r)
    requires ChunkOk(f, Chunk(solved, l, leftCount, r, rightCount))
    modifies state, state.result
    ensures Covered(f, state, l + leftCount, r + rightCount)
    ensures state.tempResult == if solved && old(state.tempResult) == [] then []
                                else old(state.tempResult) + [Chunk(solved, l, leftCount, r, rightCount)]
    ensures solved && old(state.tempResult) == [] ==>
              var c := Chunk(solved, l, leftCount, r, rightCount);
              && Pairs(state.result.chunks) == old(Pairs(state.result.chunks)) + ChunkPairs(c)
              && Edits(state.result.chunks) == old(Edits(state.result.chunks)) + ChunkEdits(c)
    ensures !solved || old(state.tempResult) != [] ==> state.result.chunks == old(state.result.chunks)
  {
    ghost var c := Chunk(solved, l, leftCount, r, rightCount);
    ghost var before, waiting := state.result.chunks, state.tempResult;
    if solved && waiting == [] {
      ScriptAppend(f, before, c);
    } else if waiting == [] {
      TilesSnoc([], c, l, r);
      assert [] + [c] == [c];
    } else {
      TilesSnoc(waiting, c, waiting[0].leftStart, waiting[0].rightStart);
    }
    hide Tiles, Normal, Pairs, Edits, Appended;
    AddChunk(state, solved, l, leftCount, r, rightCount);
  }

  lemma OneSidedOk(f: Files, l: nat, n: nat, r: nat, m: nat)
    ensures (n == 0 || m == 0) && n + m > 0 ==> ChunkOk(f, Chunk(true, l, n, r, m))
  {
  }

  /** Add a settled chunk unless it would be empty. */
  method CoverIfAny(f: Files, state: DiffState, l: nat, leftCount: nat, r: nat, rightCount: nat)
    requires Covered(f, state, l, r)
    requires leftCount + rightCount > 0 ==> ChunkOk(f, Chunk(true, l, leftCount, r, rightCount))
    modifies state, state.result
    ensures Covered(f, state, l + leftCount, r + rightCount)
    ensures old(state.tempResult) == [] ==>
              && state.tempResult == []
              && Pairs(state.result.chunks)
                 == old(Pairs(state.result.chunks)) + ChunkPairs(Chunk(true, l, leftCount, r, rightCount))
    ensures leftCount > 0 || rightCount > 0 ==>
              var c := Chunk(true, l, leftCount, r, rightCount);
              old(state.tempResult) != [] ==>
                state.tempResult == old(state.tempResult) + [c] && state.result.chunks == old(state.result.chunks)
    ensures leftCount == rightCount == 0 ==>
              state.tempResult == old(state.tempResult) && state.result.chunks == old(state.result.chunks)
  {
    hide Covered, ChunkOk, Pairs;
    if leftCount > 0 || rightCount > 0 {
      Cover(f, state, true, l, leftCount, r, rightCount);
    }
  }
}
