/** Clients of the commit graph: the youngest common ancestor search
  (lib/commit_graph.c) and the ancestry checks of got/got.c.
*/
module Ancestries {
  import opened CommitGraphs

  // ------------------------------------------------------------ chains

  /** The rest of a chain is the chain from there. */
  lemma {:induction false} ChainRest(h: History, rank: Id -> nat, id: Id, i: nat)
    requires Acyclic(h, rank) && id in h && i < |Chain(h, rank, id)|
    ensures Chain(h, rank, id)[i] in h
    ensures Chain(h, rank, id)[i..] == Chain(h, rank, Chain(h, rank, id)[i])
    decreases i
  {
    var c := Chain(h, rank, id);
    if i > 0 {
      var d := Chain(h, rank, h[id].parents[0]);
      ChainRest(h, rank, h[id].parents[0], i - 1);
      assert c == [id] + d && c[i] == d[i - 1] && c[i..] == d[i - 1..];
    }
  }

  lemma ChainDistinct(h: History, rank: Id -> nat, id: Id)
    requires Acyclic(h, rank) && id in h
    ensures var c := Chain(h, rank, id); forall i, j | 0 <= i < j < |c| :: c[i] != c[j]
  {
    ChainDescends(h, rank, id);
  }

  /** Once two chains meet they are the same. */
  lemma ChainsMerge(h: History, rank: Id -> nat, a: Id, b: Id, i: nat, j: nat, t: nat)
    requires Acyclic(h, rank) && a in h && b in h
    requires i + t < |Chain(h, rank, a)| && j < |Chain(h, rank, b)|
    requires Chain(h, rank, a)[i] == Chain(h, rank, b)[j]
    ensures j + t < |Chain(h, rank, b)| && Chain(h, rank, a)[i + t] == Chain(h, rank, b)[j + t]
  {
    ChainRest(h, rank, a, i);
    ChainRest(h, rank, b, j);
    assert Chain(h, rank, a)[i..][t] == Chain(h, rank, b)[j..][t];
  }

  /** The first commit of either chain that is also on the other: everything
      before it, on both chains, is on one chain only. */
  ghost predicate NearestShared(ca: seq<Id>, cb: seq<Id>, id: Id) {
    exists p, q | 0 <= p < |ca| && 0 <= q < |cb| ::
      && ca[p] == id == cb[q]
      && (forall i | 0 <= i < p :: ca[i] !in cb)
      && (forall j | 0 <= j < q :: cb[j] !in ca)
  }

  /** Two chains that agree at (p, q) and share nothing earlier on both meet
      there first. */
  lemma MeetingIsNearest(h: History, rank: Id -> nat, a: Id, b: Id, p: nat, q: nat)
    requires Acyclic(h, rank) && a in h && b in h
    requires p < |Chain(h, rank, a)| && q < |Chain(h, rank, b)| && Chain(h, rank, a)[p] == Chain(h, rank, b)[q]
    requires forall i, j | 0 <= i < p && 0 <= j < q :: Chain(h, rank, a)[i] != Chain(h, rank, b)[j]
    ensures NearestShared(Chain(h, rank, a), Chain(h, rank, b), Chain(h, rank, a)[p])
  {
    hide Chain, Acyclic;
    var ca, cb := Chain(h, rank, a), Chain(h, rank, b);
    ChainDistinct(h, rank, a);
    ChainDistinct(h, rank, b);
    forall i | 0 <= i < p
      ensures ca[i] !in cb
    {
      if y :| 0 <= y < |cb| && cb[y] == ca[i] {
        ChainsMerge(h, rank, a, b, i, y, p - i);
        assert false;
      }
    }
    forall j | 0 <= j < q
      ensures cb[j] !in ca
    {
      if x :| 0 <= x < |ca| && ca[x] == cb[j] {
        ChainsMerge(h, rank, b, a, j, x, q - j);
        assert false;
      }
    }
  }

  // ------------------------------------------------------------ whole traversals

  /** In first-parent mode the commits handed out so far are a prefix of the
      chain, and all of it when nothing is pending. */
  lemma HandedOutInOrder(g: CommitGraph, rank: Id -> nat, start: Id)
    requires Acyclic(g.h, rank) && g.firstParentOnly && g.Iterating(rank, start)
    ensures start in g.h && g.emitted <= Chain(g.h, rank, start)
    ensures g.iterList == [] <==> |g.emitted| == |Chain(g.h, rank, start)|
  {
    assert |Ids(g.iterList)| == |g.iterList|;
  }

  /** Following all parents: when nothing is pending, each reachable commit has
      been handed out exactly once, and nothing else. */
  lemma HandedOutAll(g: CommitGraph, rank: Id -> nat, start: Id)
    requires Acyclic(g.h, rank) && !g.firstParentOnly && g.Iterating(rank, start) && g.iterList == []
    ensures forall id :: multiset(g.emitted)[id] == if Reachable(g.h, start, id) then 1 else 0
  {
    assert g.nodeIds - {} == g.nodeIds && g.nodeIds + {} == g.nodeIds;
    assert Ids(g.iterList) == [];
    ClosedIsEverything(g.h, start, g.nodeIds);
    hide Reachable;
    assert multiset(g.emitted) == multiset(g.nodeIds);
  }

  /** And in order: nearest the start first, newest first among those equally far. */
  lemma HandedOutByDistance(g: CommitGraph, rank: Id -> nat, start: Id)
    requires Acyclic(g.h, rank) && !g.firstParentOnly && g.Iterating(rank, start) && g.iterList == []
    requires forall id :: multiset(g.emitted)[id] == if Reachable(g.h, start, id) then 1 else 0
    ensures InOrder(g.h, start, g.emitted) && g.emitted != [] && g.emitted[0] == start
  {
    hide Reachable, FrontierOf, Within;
    assert Ids(g.iterList) == [] && g.emitted + [] == g.emitted;
    StartReachable(g.h, start);
    assert multiset(g.emitted)[start] == 1;
    StartComesFirst(g.h, start, g.emitted);
  }

  lemma StartComesFirst(h: History, start: Id, ids: seq<Id>)
    requires InOrder(h, start, ids) && start in ids
    ensures ids[0] == start
  {
    hide Within;
    StartLevel(h, start);
    var i :| 0 <= i < |ids| && ids[i] == start;
    if i > 0 {
      assert Precedes(h, start, ids[0], ids[i]);
      assert start in Within(h, start, 1);
    }
  }

  lemma EmittedFits(g: CommitGraph, rank: Id -> nat, start: Id)
    requires Acyclic(g.h, rank) && g.Iterating(rank, start)
    ensures |g.emitted| <= |g.h.Keys|
  {
    assert g.nodeIds - {} == g.nodeIds;
    assert |multiset(Ids(g.iterList)) + multiset(g.emitted)| == |g.nodeIds|;
    SubsetSize(g.nodeIds, g.h.Keys);
  }

  /** Iterate until the graph reports completion, as "got log" does. */
  method Traverse(h: History, start: Id, firstParentOnly: bool, ghost rank: Id -> nat) returns (r: Result<seq<Id>>)
    requires Acyclic(h, rank)
    ensures r.Ok? <==> start in h
    ensures r.Err? ==> r.error == NoObj
    ensures r.Ok? && firstParentOnly ==> r.value == Chain(h, rank, start)
    ensures r.Ok? && !firstParentOnly ==>
              && (forall id :: multiset(r.value)[id] == if Reachable(h, start, id) then 1 else 0)
              && InOrder(h, start, r.value) && r.value != [] && r.value[0] == start
  {
    var graph := new CommitGraph(h, firstParentOnly);
    var started := graph.IterStart(start, rank);
    if started.Err? {
      return Err(started.error);
    }
    EmittedFits(graph, rank, start);
    hide Acyclic;
    var out: seq<Id> := [];
    while true
      invariant graph.Iterating(rank, start) && graph.h == h && graph.firstParentOnly == firstParentOnly
      invariant out == graph.emitted && |out| <= |h.Keys|
      decreases |h.Keys| - |out|
    {
      var next := graph.IterNext(rank, start);
      if next.Err? {
        break;
      }
      EmittedFits(graph, rank, start);
      out := out + [next.value];
    }
    if firstParentOnly {
      HandedOutInOrder(graph, rank, start);
    } else {
      HandedOutAll(graph, rank, start);
      HandedOutByDistance(graph, rank, start);
    }
    r := Ok(out);
  }

  // ------------------------------------------------------------ youngest common ancestor

  ghost predicate NoneShared(ca: seq<Id>, cb: seq<Id>) {
    forall i, j | 0 <= i < |ca| && 0 <= j < |cb| :: ca[i] != cb[j]
  }

  function Members(ca: seq<Id>, cb: seq<Id>): set<Id> {
    set id | id in ca + cb
  }

  /** One step of one of the two iterations: the next commit of its chain, or
      completion. */
  method Step(graph: CommitGraph, completed: bool, ghost rank: Id -> nat, ghost start: Id)
    returns (completed': bool, id: seq<Id>)
    requires Acyclic(graph.h, rank) && graph.firstParentOnly && graph.Iterating(rank, start)
    requires completed ==> graph.iterList == []
    modifies graph
    ensures graph.Iterating(rank, start) && (completed' ==> graph.iterList == []) && |id| <= 1
    ensures start in graph.h && graph.emitted == old(graph.emitted) + id && graph.emitted <= Chain(graph.h, rank, start)
    ensures id == [] ==> completed' && graph.emitted == Chain(graph.h, rank, start)
    ensures completed' <==> id == []
  {
    completed', id := completed, [];
    HandedOutInOrder(graph, rank, start);
    if !completed {
      var next := graph.IterNext(rank, start);
      if next.Err? {
        completed' := true;
      } else {
        id := [next.value];
      }
    }
    HandedOutInOrder(graph, rank, start);
  }

  lemma NextSeen(h: History, rank: Id -> nat, a: Id, b: Id, ea: seq<Id>, eb: seq<Id>, id: Id)
    requires Acyclic(h, rank) && a in h && b in h
    requires ea + [id] <= Chain(h, rank, a) && eb <= Chain(h, rank, b) && NoneShared(ea, eb)
    ensures id in Members(ea, eb) ==> NearestShared(Chain(h, rank, a), Chain(h, rank, b), id)
    ensures id !in Members(ea, eb) ==> NoneShared(ea + [id], eb)
    ensures Members(ea + [id], eb) == Members(ea, eb) + {id}
  {
    var ca, cb := Chain(h, rank, a), Chain(h, rank, b);
    ChainDistinct(h, rank, a);
    assert ca[|ea|] == (ea + [id])[|ea|] == id;
    assert forall i | 0 <= i < |ea| :: ca[i] == (ea + [id])[i] == ea[i];
    if id in eb {
      var j :| 0 <= j < |eb| && eb[j] == id;
      assert forall k | 0 <= k <= j :: cb[k] == eb[k];
      MeetingIsNearest(h, rank, a, b, |ea|, j);
    }
  }

  /** Look a commit up among those seen on either chain, and remember it. */
  method See(h: History, a: Id, b: Id, commitIds: set<Id>, id: seq<Id>, ghost ea: seq<Id>, ghost eb: seq<Id>,
             ghost rank: Id -> nat)
    returns (hit: bool, seen: set<Id>)
    requires Acyclic(h, rank) && a in h && b in h && |id| <= 1
    requires ea + id <= Chain(h, rank, a) && eb <= Chain(h, rank, b)
    requires commitIds == Members(ea, eb) && NoneShared(ea, eb)
    ensures hit ==> id != [] && NearestShared(Chain(h, rank, a), Chain(h, rank, b), id[0])
    ensures !hit ==> seen == Members(ea + id, eb) && NoneShared(ea + id, eb)
  {
    hit, seen := false, commitIds;
    if |id| > 0 {
      assert id == [id[0]];
      NextSeen(h, rank, a, b, ea, eb, id[0]);
      hit := id[0] in commitIds;
      seen := commitIds + {id[0]};
    } else {
      assert ea + id == ea;
    }
  }

  lemma SharedIsSymmetric(ca: seq<Id>, cb: seq<Id>)
    ensures NoneShared(ca, cb) <==> NoneShared(cb, ca)
    ensures forall id :: NearestShared(ca, cb, id) ==> NearestShared(cb, ca, id)
    ensures Members(ca, cb) == Members(cb, ca)
  {
  }

  /** got_commit_graph_find_youngest_common_ancestor() */
  method FindYoungestCommonAncestor(h: History, a: Id, b: Id, ghost rank: Id -> nat) returns (r: Result<Id>)
    requires Acyclic(h, rank)
    ensures a !in h || b !in h <==> r == Err(NoObj)
    ensures r.Ok? ==> NearestShared(Chain(h, rank, a), Chain(h, rank, b), r.value)
    ensures r.Err? && r.error != NoObj ==> r.error == Ancestry
    ensures r == Err(Ancestry) ==> NoneShared(Chain(h, rank, a), Chain(h, rank, b))
  {
    hide Acyclic, Chain, CommitGraph.OnChain, FrontierOf, Ids, NearestShared, SortedBehindHead;
    var graph := new CommitGraph(h, true);
    var graph2 := new CommitGraph(h, true);
    var started := graph.IterStart(a, rank);
    if started.Err? {
      return Err(started.error);
    }
    started := graph2.IterStart(b, rank);
    if started.Err? {
      return Err(started.error);
    }
    var completed, completed2 := false, false;
    var commitIds: set<Id> := {};
    ghost var ca, cb := Chain(h, rank, a), Chain(h, rank, b);
    assert commitIds == Members([], []) && NoneShared([], []);
    while true
      invariant graph.h == graph2.h == h && graph.firstParentOnly && graph2.firstParentOnly
      invariant graph.Iterating(rank, a) && graph2.Iterating(rank, b)
      invariant graph.emitted <= ca && graph2.emitted <= cb
      invariant completed ==> graph.iterList == []
      invariant completed2 ==> graph2.iterList == []
      invariant commitIds == Members(graph.emitted, graph2.emitted) && NoneShared(graph.emitted, graph2.emitted)
      decreases |ca| - |graph.emitted| + |cb| - |graph2.emitted|
    {
      ghost var ea, eb := graph.emitted, graph2.emitted;
      var id, id2, hit;
      completed, id := Step(graph, completed, rank, a);
      completed2, id2 := Step(graph2, completed2, rank, b);
      hit, commitIds := See(h, a, b, commitIds, id, ea, eb, rank);
      if hit {
        return Ok(id[0]);
      }
      SharedIsSymmetric(ea + id, eb);
      hit, commitIds := See(h, b, a, commitIds, id2, eb, ea + id, rank);
      if hit {
        SharedIsSymmetric(cb, ca);
        return Ok(id2[0]);
      }
      SharedIsSymmetric(eb + id2, ea + id);
      if completed && completed2 {
        return Err(Ancestry);
      }
    }
  }

  // ------------------------------------------------------------ checks of got/got.c

  datatype Option<T> = None | Some(value: T)

  lemma NearestAtStart(h: History, rank: Id -> nat, a: Id, b: Id, yca: Id)
    requires Acyclic(h, rank) && a in h && b in h
    requires NearestShared(Chain(h, rank, a), Chain(h, rank, b), yca)
    ensures yca == a <==> a in Chain(h, rank, b)
    ensures yca == b <==> b in Chain(h, rank, a)
  {
  }

  /** check_linear_ancestry(): one commit lies on the other's first-parent
      chain; in forward-only mode, the base on the commit's. */
  method CheckLinearAncestry(h: History, commit: Id, base: Id, allowForwardsInTimeOnly: bool, ghost rank: Id -> nat)
    returns (r: Result<()>)
    requires Acyclic(h, rank)
    ensures commit !in h || base !in h <==> r == Err(NoObj)
    ensures commit in h && base in h ==>
              (r.Ok? <==>
                   base in Chain(h, rank, commit) || (!allowForwardsInTimeOnly && commit in Chain(h, rank, base)))
    ensures r.Err? && r.error != NoObj ==> r.error == Ancestry
  {
    var yca := FindYoungestCommonAncestor(h, commit, base, rank);
    if yca.Err? {
      if yca.error == Ancestry {
        assert Chain(h, rank, base)[0] == base && Chain(h, rank, commit)[0] == commit;
      }
      return Err(yca.error);
    }
    NearestAtStart(h, rank, commit, base, yca.value);
    if allowForwardsInTimeOnly {
      if base != yca.value {
        return Err(Ancestry);
      }
    } else if commit != yca.value && base != yca.value {
      return Err(Ancestry);
    }
    r := Ok(());
  }

  /** The part of a chain before a commit, or all of it. */
  function Before(c: seq<Id>, stop: Option<Id>): seq<Id> {
    if c == [] || stop == Some(c[0]) then [] else [c[0]] + Before(c[1..], stop)
  }

  lemma {:induction false} BeforeSplits(c: seq<Id>, n: nat, stop: Option<Id>)
    requires n <= |c| && forall i | 0 <= i < n :: stop != Some(c[i])
    ensures Before(c, stop) == c[..n] + Before(c[n..], stop)
  {
    if n > 0 {
      BeforeSplits(c[1..], n - 1, stop);
      assert c[1..][n - 1..] == c[n..];
      assert [c[0]] + c[1..][..n - 1] == c[..n];
    } else {
      assert c[0..] == c;
    }
  }

  /** How far a walk that has not met the stop commit has come. */
  lemma BeforePrefix(c: seq<Id>, e: seq<Id>, stop: Option<Id>)
    requires e <= c && forall i | 0 <= i < |e| :: stop != Some(e[i])
    ensures |e| == |c| ==> Before(c, stop) == e
    ensures |e| < |c| && stop == Some(c[|e|]) ==> Before(c, stop) == e
    ensures |e| < |c| && stop != Some(c[|e|]) ==> c[|e|] in Before(c, stop)
  {
    assert c[..|e|] == e;
    BeforeSplits(c, |e|, stop);
  }

  /** check_same_branch(): the commit is the branch head, or the youngest common
      ancestor, or on the branch above that ancestor. */
  method CheckSameBranch(h: History, commit: Id, head: Id, yca: Option<Id>, ghost rank: Id -> nat)
    returns (r: Result<()>)
    requires Acyclic(h, rank)
    ensures r.Ok? <==>
              head == commit || yca == Some(commit) || (head in h && commit in Before(Chain(h, rank, head), yca))
    ensures r.Err? ==> r.error == if head in h then Ancestry else NoObj
  {
    if head == commit || yca == Some(commit) {
      return Ok(());
    }
    hide *;
    var graph := new CommitGraph(h, true);
    var started := graph.IterStart(head, rank);
    if started.Err? {
      return Err(started.error);
    }
    ghost var c := Chain(h, rank, head);
    while true
      invariant graph.h == h && graph.firstParentOnly && graph.Iterating(rank, head)
      invariant graph.emitted <= c && commit !in graph.emitted
      invariant forall i | 0 <= i < |graph.emitted| :: yca != Some(graph.emitted[i])
      decreases |c| - |graph.emitted|
    {
      ghost var e := graph.emitted;
      BeforePrefix(c, e, yca);
      var next := graph.IterNext(rank, head);
      HandedOutInOrder(graph, rank, head);
      if next.Err? {
        return Err(Ancestry);
      }
      assert c[|e|] == graph.emitted[|e|] == next.value;
      if yca == Some(next.value) {
        return Err(Ancestry);
      }
      if next.value == commit {
        return Ok(());
      }
    }
  }

  function Reversed(c: seq<Id>): seq<Id> {
    if c == [] then [] else Reversed(c[1..]) + [c[0]]
  }

  /** collect_commits(): the commits from the branch head down to, but not
      including, the stop commit, oldest first. */
  method CollectCommits(h: History, initial: Id, iterStart: Id, iterStop: Id, ghost rank: Id -> nat)
    returns (r: Result<seq<Id>>)
    requires Acyclic(h, rank)
    ensures iterStart !in h <==> r == Err(NoObj)
    ensures iterStart in h ==> (r.Ok? <==> iterStop in [initial] + Chain(h, rank, iterStart))
    ensures r.Ok? ==> r.value == Reversed(Before([initial] + Chain(h, rank, iterStart), Some(iterStop)))
    ensures r.Ok? && initial in h && h[initial].parents != [] && iterStart == h[initial].parents[0] ==>
              r.value == Reversed(Before(Chain(h, rank, initial), Some(iterStop)))
    ensures r.Err? && r.error != NoObj ==> r.error == Ancestry
  {
    hide Acyclic, Before, Chain, CommitGraph.Walking, Segment, Reversed;
    var graph := new CommitGraph(h, true);
    var started := graph.IterStart(iterStart, rank);
    if started.Err? {
      return Err(started.error);
    }
    ghost var c := Chain(h, rank, iterStart);
    ghost var done: seq<Id> := [];
    var commits: seq<Id> := [];
    var commitId := initial;
    SegmentStarts(initial, c, iterStop);
    while commitId != iterStop
      invariant graph.h == h && graph.firstParentOnly && graph.Iterating(rank, iterStart)
      invariant Segment(initial, c, graph.emitted, done, commitId, iterStop, commits)
      decreases |c| - |graph.emitted|
    {
      ghost var e := graph.emitted;
      HandedOutInOrder(graph, rank, iterStart);
      var parent := graph.IterNext(rank, iterStart);
      if parent.Err? {
        SegmentFails(initial, c, e, done, commitId, iterStop, commits);
        return Err(Ancestry);
      }
      HandedOutInOrder(graph, rank, iterStart);
      SegmentGrows(initial, c, e, done, commitId, iterStop, commits, parent.value);
      done := done + [commitId];
      commits := [commitId] + commits;
      commitId := parent.value;
    }
    SegmentStops(initial, c, graph.emitted, done, iterStop, commits);
    if initial in h && h[initial].parents != [] && iterStart == h[initial].parents[0] {
      SegmentOfChain(h, rank, initial);
    }
    r := Ok(commits);
  }

  /** Between two rounds: e is what has been handed out, `done` what was collected
      before commit id, and the stop commit is not among it. */
  ghost predicate Segment(initial: Id, c: seq<Id>, e: seq<Id>, done: seq<Id>, id: Id, stop: Id, commits: seq<Id>) {
    e <= c && done + [id] == [initial] + e && stop !in done && commits == Reversed(done)
  }

  lemma SegmentStarts(initial: Id, c: seq<Id>, stop: Id)
    ensures Segment(initial, c, [], [], initial, stop, [])
  {
  }

  lemma SegmentGrows(initial: Id, c: seq<Id>, e: seq<Id>, done: seq<Id>, id: Id, stop: Id, commits: seq<Id>, next: Id)
    requires Segment(initial, c, e, done, id, stop, commits) && id != stop && e + [next] <= c
    ensures Segment(initial, c, e + [next], done + [id], next, stop, [id] + commits)
  {
    ReversedSnoc(done, id);
    assert [initial] + (e + [next]) == done + [id] + [next];
  }

  lemma SegmentFails(initial: Id, c: seq<Id>, e: seq<Id>, done: seq<Id>, id: Id, stop: Id, commits: seq<Id>)
    requires Segment(initial, c, e, done, id, stop, commits) && id != stop && |e| == |c|
    ensures stop !in [initial] + c
  {
    assert [initial] + c == done + [id];
  }

  lemma SegmentStops(initial: Id, c: seq<Id>, e: seq<Id>, done: seq<Id>, stop: Id, commits: seq<Id>)
    requires Segment(initial, c, e, done, stop, stop, commits)
    ensures stop in [initial] + c && commits == Reversed(Before([initial] + c, Some(stop)))
  {
    var all := [initial] + c;
    assert done + [stop] <= all;
    assert all[|done|] == (done + [stop])[|done|] == stop;
    BeforePrefix(all, done, Some(stop));
  }

  lemma {:induction false} ReversedSnoc(c: seq<Id>, x: Id)
    ensures Reversed(c + [x]) == [x] + Reversed(c)
  {
    if c == [] {
    } else {
      ReversedSnoc(c[1..], x);
      assert (c + [x])[1..] == c[1..] + [x];
    }
  }

  /** Started at the head's first parent, the segment is one of the head's chain. */
  lemma SegmentOfChain(h: History, rank: Id -> nat, head: Id)
    requires Acyclic(h, rank) && head in h && h[head].parents != []
    ensures [head] + Chain(h, rank, h[head].parents[0]) == Chain(h, rank, head)
  {
  }
}