/** Walking commit history (lib/commit_graph.c), for the path "/". The object
  store is a finite map from commit ids to commits in which every parent exists.
*/
module CommitGraphs {
  type Id = nat

  datatype Commit = Commit(parents: seq<Id>, time: int)

  type History = map<Id, Commit>

  datatype Node = Node(id: Id, timestamp: int)

  datatype Error = IterBusy | IterCompleted | NoObj | Ancestry

  datatype Result<T> = Ok(value: T) | Err(error: Error)

  // ------------------------------------------------------------ history

  /** Every parent is stored, and no commit is its own ancestor. */
  ghost predicate Acyclic(h: History, rank: Id -> nat) {
    forall id, i | id in h && 0 <= i < |h[id].parents| ::
      h[id].parents[i] in h && rank(h[id].parents[i]) < rank(id)
  }

  ghost predicate ClosedUnderParents(h: History, s: set<Id>) {
    forall id, i | id in s && id in h && 0 <= i < |h[id].parents| :: h[id].parents[i] in s
  }

  /** id is in every set that holds `start` and the parents of its members. */
  ghost predicate Reachable(h: History, start: Id, id: Id) {
    forall s: set<Id> | start in s && ClosedUnderParents(h, s) :: id in s
  }

  /** A commit, its first parent, that one's first parent, and so on. */
  ghost function Chain(h: History, rank: Id -> nat, id: Id): (c: seq<Id>)
    requires Acyclic(h, rank) && id in h
    ensures |c| > 0 && c[0] == id
    decreases rank(id)
  {
    if h[id].parents == [] then [id] else [id] + Chain(h, rank, h[id].parents[0])
  }

  // ------------------------------------------------------------ the pending list

  function Ids(list: seq<Node>): seq<Id> {
    seq(|list|, i requires 0 <= i < |list| => list[i].id)
  }

  /** Newest first, except that the head stays where it is. */
  ghost predicate SortedBehindHead(list: seq<Node>) {
    forall i, j | 1 <= i < j < |list| :: list[i].timestamp >= list[j].timestamp
  }

  /** The list with a node put before the first later-than-head node that is
      not newer than it. */
  function Inserted(list: seq<Node>, node: Node): seq<Node> {
    if |list| < 2 then list + [node]
    else if node.timestamp >= list[1].timestamp then [list[0]] + [node] + list[1..]
    else [list[0]] + Inserted(list[1..], node)
  }

  lemma {:induction false} InsertKeepsOrder(list: seq<Node>, node: Node)
    requires SortedBehindHead(list)
    ensures SortedBehindHead(Inserted(list, node))
    ensures |Inserted(list, node)| == |list| + 1
    ensures list != [] ==> Inserted(list, node)[0] == list[0]
    ensures forall i | 0 <= i < |Inserted(list, node)| ::
              Inserted(list, node)[i] == node || exists j | 0 <= j < |list| :: list[j] == Inserted(list, node)[i]
  {
    if |list| >= 2 && node.timestamp < list[1].timestamp {
      InsertKeepsOrder(list[1..], node);
      var rest := Inserted(list[1..], node);
      forall i, j | 1 <= i < j < |rest| + 1
        ensures ([list[0]] + rest)[i].timestamp >= ([list[0]] + rest)[j].timestamp
      {
        if i == 1 {
          assert rest[0] == list[1];
          if rest[j - 1] != node {
            var t :| 0 <= t < |list[1..]| && list[1..][t] == rest[j - 1];
            assert list[t + 1] == rest[j - 1];
          }
        }
      }
    }
  }

  lemma {:induction false} InsertAddsOne(list: seq<Node>, node: Node)
    ensures multiset(Ids(Inserted(list, node))) == multiset(Ids(list)) + multiset{node.id}
    decreases |list|
  {
    hide Ids;
    if |list| < 2 {
      IdsJoin(list, node, []);
      assert list + [node] + [] == list + [node] && list + [] == list;
    } else if node.timestamp >= list[1].timestamp {
      IdsJoin([list[0]], node, list[1..]);
      assert [list[0]] + list[1..] == list;
    } else {
      InsertAddsOne(list[1..], node);
      IdsJoin([], list[0], Inserted(list[1..], node));
      IdsJoin([], list[0], list[1..]);
      assert [] + [list[0]] + Inserted(list[1..], node) == [list[0]] + Inserted(list[1..], node);
      assert [] + [list[0]] + list[1..] == list && [] + list[1..] == list[1..];
      assert [] + Inserted(list[1..], node) == Inserted(list[1..], node);
    }
  }

  /** A node anywhere in a list adds its id. */
  lemma IdsJoin(a: seq<Node>, node: Node, b: seq<Node>)
    ensures multiset(Ids(a + [node] + b)) == multiset(Ids(a + b)) + multiset{node.id}
  {
    assert Ids(a + [node] + b) == Ids(a) + [node.id] + Ids(b);
    assert Ids(a + b) == Ids(a) + Ids(b);
  }

  /** One step along the list towards the place of a new node. */
  lemma InsertedFrom(list: seq<Node>, n: nat, node: Node)
    requires n < |list|
    ensures list[..n] + Inserted(list[n..], node) ==
            if n + 1 < |list| && node.timestamp >= list[n + 1].timestamp then list[..n + 1] + [node] + list[n + 1..]
            else list[..n + 1] + Inserted(list[n + 1..], node)
  {
    hide Inserted;
    var rest := list[n..];
    InsertedIs(rest, node);
    InsertedNone(node);
    var x, tail := list[n], list[n + 1..];
    assert rest[1..] == tail && rest[0] == x && list[..n + 1] == list[..n] + [x];
    if |rest| < 2 {
      assert tail == [] && rest == [x];
      Shift(list[..n], x, [node]);
    } else if node.timestamp >= list[n + 1].timestamp {
      assert [x] + [node] + tail == [x] + ([node] + tail);
      Shift(list[..n], x, [node] + tail);
    } else {
      Shift(list[..n], x, Inserted(tail, node));
    }
  }

  lemma Shift(a: seq<Node>, x: Node, b: seq<Node>)
    ensures a + ([x] + b) == a + [x] + b
  {
  }

  lemma InsertedNone(node: Node)
    ensures Inserted([], node) == [node]
  {
  }

  lemma InsertedIs(rest: seq<Node>, node: Node)
    requires rest != []
    ensures Inserted(rest, node) ==
            if |rest| < 2 then rest + [node]
            else if node.timestamp >= rest[1].timestamp then [rest[0]] + [node] + rest[1..]
            else [rest[0]] + Inserted(rest[1..], node)
  {
  }

  lemma InsertedEnds(list: seq<Node>, node: Node)
    ensures list[..0] + Inserted(list[0..], node) == Inserted(list, node)
    ensures list[..|list|] + Inserted(list[|list|..], node) == list + [node]
  {
    assert list[0..] == list && list[..|list|] == list;
  }

  // ------------------------------------------------------------ the frontier

  /** The traversed and open commits are reachable, and the parents of every
      traversed commit, but for the pending ones, are traversed or open. */
  ghost predicate FrontierOf(h: History, start: Id, nodes: set<Id>, open: set<Id>, pending: set<Id>) {
    && start in nodes + open
    && (forall id | id in nodes + open :: Reachable(h, start, id))
    && (forall id, i | id in nodes - pending && id in h && 0 <= i < |h[id].parents| :: h[id].parents[i] in nodes + open)
  }

  function NewParents(h: History, id: Id, nodes: set<Id>): set<Id>
    requires id in h
  {
    set p | p in h[id].parents && p !in nodes
  }

  lemma FrontierAdvances(h: History, rank: Id -> nat, start: Id, nodes: set<Id>, open: set<Id>, pending: set<Id>,
                         id: Id)
    requires Acyclic(h, rank) && FrontierOf(h, start, nodes, open, pending)
    requires id in pending && open * nodes == pending && nodes <= h.Keys && open <= h.Keys
    ensures var open' := open - {id} + NewParents(h, id, nodes);
            && FrontierOf(h, start, nodes, open', pending - {id})
            && open' * nodes == pending - {id} && open' <= h.Keys
            && nodes - (pending - {id}) == (nodes - pending) + {id}
  {
    hide Reachable;
    forall p | p in NewParents(h, id, nodes)
      ensures p in h && Reachable(h, start, p)
    {
      var i :| 0 <= i < |h[id].parents| && h[id].parents[i] == p;
      ParentReachable(h, start, id, i);
    }
  }

  /** The open commits, once traversed, are the pending ones. */
  lemma FrontierTips(h: History, start: Id, nodes: set<Id>, open: set<Id>)
    requires FrontierOf(h, start, nodes, open, {})
    ensures FrontierOf(h, start, nodes + open, open, open)
  {
    hide Reachable;
    assert nodes + open + open == nodes + open;
  }

  lemma ParentReachable(h: History, start: Id, id: Id, i: nat)
    requires id in h && i < |h[id].parents| && Reachable(h, start, id)
    ensures Reachable(h, start, h[id].parents[i])
  {
    forall s: set<Id> | start in s && ClosedUnderParents(h, s)
      ensures h[id].parents[i] in s
    {
      assert id in s;
    }
  }

  lemma StartReachable(h: History, start: Id)
    ensures Reachable(h, start, start)
  {
  }

  /** A set of reachable commits that holds the start and all parents is exactly
      the reachable set. */
  lemma ClosedIsEverything(h: History, start: Id, s: set<Id>)
    requires start in s && ClosedUnderParents(h, s) && forall id | id in s :: Reachable(h, start, id)
    ensures forall id :: id in s <==> Reachable(h, start, id)
  {
  }

  /** These ids, and the chain from the one open commit, make up the chain from the
      start. */
  ghost predicate OnWay(h: History, rank: Id -> nat, start: Id, ids: seq<Id>, open: set<Id>)
    requires Acyclic(h, rank)
  {
    && start in h
    && if open == {} then ids == Chain(h, rank, start)
       else exists t | t in open && t in h :: open == {t} && ids + Chain(h, rank, t) == Chain(h, rank, start)
  }

  lemma OnlyOneOpen(h: History, rank: Id -> nat, start: Id, ids: seq<Id>, open: set<Id>) returns (t: Id)
    requires Acyclic(h, rank) && OnWay(h, rank, start, ids, open) && open != {}
    ensures t in h && start in h && open == {t} && ids + Chain(h, rank, t) == Chain(h, rank, start)
  {
    hide Acyclic, Chain;
    t :| t in open && t in h && open == {t} && ids + Chain(h, rank, t) == Chain(h, rank, start);
  }

  /** The open commit is listed and its first parent opened. */
  lemma TipMoves(h: History, rank: Id -> nat, start: Id, ids: seq<Id>, t: Id, nodes: set<Id>)
    requires Acyclic(h, rank) && start in h && t in h && ids + Chain(h, rank, t) == Chain(h, rank, start)
    requires multiset(ids) + multiset{t} == multiset(nodes)
    ensures h[t].parents != [] ==> h[t].parents[0] !in nodes
    ensures OnWay(h, rank, start, ids + [t], if h[t].parents == [] then {} else {h[t].parents[0]})
  {
    ChainStep(h, rank, start, ids, t, nodes);
    hide Acyclic, Chain;
  }

  lemma StartsOnWay(h: History, rank: Id -> nat, start: Id)
    requires Acyclic(h, rank) && start in h
    ensures OnWay(h, rank, start, [], {start}) && FrontierOf(h, start, {}, {start}, {})
  {
    hide Acyclic, Chain, Reachable;
    assert [] + Chain(h, rank, start) == Chain(h, rank, start);
    StartReachable(h, start);
  }

  // ------------------------------------------------------------ distance from the start

  function ParentsOf(h: History, s: set<Id>): set<Id> {
    set id, p | id in s && id in h && p in h[id].parents :: p
  }

  /** The commits fewer than k parent steps from the start. */
  ghost function Within(h: History, start: Id, k: nat): set<Id> {
    if k == 0 then {} else {start} + ParentsOf(h, Within(h, start, k - 1))
  }

  lemma {:induction false} WithinGrows(h: History, start: Id, k: nat)
    ensures Within(h, start, k) <= Within(h, start, k + 1)
    decreases k
  {
    if k > 0 {
      WithinGrows(h, start, k - 1);
      MoreParents(h, Within(h, start, k - 1), Within(h, start, k));
    }
  }

  lemma MoreParents(h: History, a: set<Id>, b: set<Id>)
    requires a <= b
    ensures ParentsOf(h, a) <= ParentsOf(h, b)
  {
  }

  lemma {:induction false} WithinMore(h: History, start: Id, j: nat, k: nat)
    requires j <= k
    ensures Within(h, start, j) <= Within(h, start, k)
    decreases k - j
  {
    if j < k {
      WithinGrows(h, start, j);
      WithinMore(h, start, j + 1, k);
    }
  }

  /** The traversed commits are those within k steps, and the open ones those one step
      further; so they are after a fetch. */
  lemma LevelFetched(h: History, start: Id, k: nat, nodes: set<Id>, open: set<Id>)
    requires nodes == Within(h, start, k) && open == Within(h, start, k + 1) - Within(h, start, k)
    ensures nodes + open == Within(h, start, k + 1)
    ensures ParentsOf(h, open) - (nodes + open) == Within(h, start, k + 2) - Within(h, start, k + 1)
  {
    hide ParentsOf;
    WithinGrows(h, start, k);
    WithinIs(h, start, k);
    WithinIs(h, start, k + 1);
    ParentsJoin(h, nodes, open);
  }

  lemma WithinIs(h: History, start: Id, k: nat)
    ensures Within(h, start, k + 1) == {start} + ParentsOf(h, Within(h, start, k))
    ensures start in Within(h, start, k + 1)
  {
  }

  lemma ParentsJoin(h: History, a: set<Id>, b: set<Id>)
    ensures ParentsOf(h, a + b) == ParentsOf(h, a) + ParentsOf(h, b)
  {
  }

  /** a is no further from the start than b, and if they are equally far, no older. */
  ghost predicate Precedes(h: History, start: Id, a: Id, b: Id) {
    && (forall k: nat :: b in Within(h, start, k) ==> a in Within(h, start, k))
    && (a in h && b in h && (forall k: nat :: a in Within(h, start, k) ==> b in Within(h, start, k)) ==>
          h[a].time >= h[b].time)
  }

  /** Nearest the start first, and newest first among those equally far. */
  ghost predicate InOrder(h: History, start: Id, ids: seq<Id>) {
    forall i, j | 0 <= i < j < |ids| :: Precedes(h, start, ids[i], ids[j])
  }

  lemma NearerPrecedes(h: History, start: Id, k: nat, a: Id, b: Id)
    requires a in Within(h, start, k) && b !in Within(h, start, k)
    ensures Precedes(h, start, a, b)
  {
    hide Within;
    forall j: nat | b in Within(h, start, j)
      ensures a in Within(h, start, j)
    {
      if j < k {
        WithinMore(h, start, j, k);
      } else {
        WithinMore(h, start, k, j);
      }
    }
  }

  lemma NewerPrecedes(h: History, start: Id, k: nat, a: Id, b: Id)
    requires a !in Within(h, start, k) && b !in Within(h, start, k)
    requires a in Within(h, start, k + 1) && b in Within(h, start, k + 1)
    requires a in h && b in h && h[a].time >= h[b].time
    ensures Precedes(h, start, a, b)
  {
    hide Within;
    forall j: nat | b in Within(h, start, j)
      ensures a in Within(h, start, j)
    {
      if j <= k {
        WithinMore(h, start, j, k);
      } else {
        WithinMore(h, start, k + 1, j);
      }
    }
  }

  /** Nodes with their commits' times. */
  ghost predicate Stamped(h: History, list: seq<Node>) {
    forall i | 0 <= i < |list| :: list[i].id in h && list[i].timestamp == h[list[i].id].time
  }

  lemma InsertKeepsStamps(h: History, list: seq<Node>, node: Node)
    requires Stamped(h, list) && SortedBehindHead(list) && node.id in h && node.timestamp == h[node.id].time
    ensures Stamped(h, Inserted(list, node))
  {
    hide Inserted;
    InsertKeepsOrder(list, node);
  }

  /** All the open commits listed at once, behind at most one node, keep the order. */
  lemma FetchKeepsOrder(h: History, start: Id, k: nat, out: seq<Id>, list: seq<Node>, list': seq<Node>, open: set<Id>)
    requires InOrder(h, start, out + Ids(list)) && forall id | id in out + Ids(list) :: id in Within(h, start, k)
    requires open == Within(h, start, k + 1) - Within(h, start, k)
    requires |list| <= 1 && (list == [] ==> |open| <= 1) && (list != [] ==> list' != [] && list'[0] == list[0])
    requires SortedBehindHead(list') && Stamped(h, list') && |list'| == |list| + |open|
    requires multiset(Ids(list')) == multiset(Ids(list)) + multiset(open)
    ensures InOrder(h, start, out + Ids(list'))
  {
    hide Within, Precedes;
    var e, e', n := out + Ids(list), out + Ids(list'), |out| + |list|;
    assert forall i | 0 <= i < n :: e'[i] == e[i];
    NewOnesAreOpen(list, list', open);
    forall i, j | 0 <= i < j < |e'|
      ensures Precedes(h, start, e'[i], e'[j])
    {
      if j < n {
        assert Precedes(h, start, e[i], e[j]);
      } else {
        assert e'[j] == list'[j - |out|].id;
        if i < n {
          assert e[i] in e;
          NearerPrecedes(h, start, k, e'[i], e'[j]);
        } else {
          assert e'[i] == list'[i - |out|].id;
          NewerPrecedes(h, start, k, e'[i], e'[j]);
        }
      }
    }
  }

  lemma NewOnesAreOpen(list: seq<Node>, list': seq<Node>, open: set<Id>)
    requires |list| <= 1 && (list != [] ==> list' != [] && list'[0] == list[0])
    requires multiset(Ids(list')) == multiset(Ids(list)) + multiset(open)
    ensures forall i | |list| <= i < |list'| :: list'[i].id in open
  {
    var rest := list'[|list|..];
    assert Ids(list') == Ids(list) + Ids(rest);
    assert multiset(Ids(rest)) == multiset(Ids(list')) - multiset(Ids(list)) == multiset(open);
    forall i | |list| <= i < |list'|
      ensures list'[i].id in open
    {
      assert Ids(rest)[i - |list|] in multiset(Ids(rest));
    }
  }

  /** A list of stored commits, each of higher rank than all that follow. */
  ghost predicate Descending(h: History, rank: Id -> nat, c: seq<Id>) {
    && (forall i | 0 <= i < |c| :: c[i] in h)
    && (forall i, j | 0 <= i < j < |c| :: rank(c[i]) > rank(c[j]))
  }

  lemma {:induction false} ChainDescends(h: History, rank: Id -> nat, id: Id)
    requires Acyclic(h, rank) && id in h
    ensures Descending(h, rank, Chain(h, rank, id))
    decreases rank(id)
  {
    if h[id].parents != [] {
      ChainDescends(h, rank, h[id].parents[0]);
      DescendingCons(h, rank, id, Chain(h, rank, h[id].parents[0]));
    }
  }

  lemma DescendingCons(h: History, rank: Id -> nat, id: Id, c: seq<Id>)
    requires id in h && Descending(h, rank, c) && (c != [] ==> rank(id) > rank(c[0]))
    ensures Descending(h, rank, [id] + c)
  {
  }

  // ------------------------------------------------------------ the graph

  class CommitGraph {
    const h: History
    const firstParentOnly: bool
    /** The set of all commits traversed. */
    var nodeIds: set<Id>
    /** Known parents not yet traversed, and how many elements the set counts. */
    var openBranches: set<Id>
    var numOpen: nat
    /** Nodes to be passed to the caller next. */
    var iterList: seq<Node>
    /** What the caller has been given so far. */
    ghost var emitted: seq<Id>
    /** How often the open branches have been fetched. */
    ghost var steps: nat

    constructor (h: History, firstParentOnly: bool)
      ensures this.h == h && this.firstParentOnly == firstParentOnly
      ensures nodeIds == {} && openBranches == {} && numOpen == 0 && iterList == [] && emitted == []
      ensures steps == 0
    {
      this.h, this.firstParentOnly := h, firstParentOnly;
      nodeIds, openBranches, numOpen, iterList, emitted, steps := {}, {}, 0, [], [], 0;
    }

    /** In the middle of a fetch, `pending` are the branch tips that were opened
        but not yet advanced: exactly they are both open and traversed. */
    ghost predicate SetsOk(pending: set<Id>)
      reads `nodeIds, `openBranches, `numOpen
    {
      && numOpen == |openBranches|
      && openBranches * nodeIds == pending
      && nodeIds <= h.Keys && openBranches <= h.Keys
    }

    /** The pending list is sorted behind its head, and each traversed commit,
        but for the unlisted ones, is either still in it or was handed out,
        exactly once. */
    ghost predicate Listed(unlisted: set<Id>)
      reads `nodeIds, `iterList, `emitted
    {
      && SortedBehindHead(iterList) && Stamped(h, iterList)
      && multiset(Ids(iterList)) + multiset(emitted) == multiset(nodeIds - unlisted)
    }

    /** Between fetches the open set and the traversed set are disjoint. */
    ghost predicate Valid()
      reads `nodeIds, `openBranches, `numOpen, `iterList, `emitted
    {
      SetsOk({}) && Listed({})
    }

    ghost predicate Frontier(start: Id, pending: set<Id>)
      reads `nodeIds, `openBranches
    {
      FrontierOf(h, start, nodeIds, openBranches, pending)
    }

    /** All that is fewer than `steps` parent steps from the start has been traversed and
        the rest of what is one step further is open; and what was handed out and what is
        pending are in order. */
    ghost predicate Leveled(start: Id)
      reads this
    {
      LeveledAt(start, steps)
    }

    ghost predicate LeveledAt(start: Id, k: nat)
      reads `nodeIds, `openBranches, `emitted, `iterList
    {
      && nodeIds == Within(h, start, k) && openBranches == Within(h, start, k + 1) - Within(h, start, k)
      && InOrder(h, start, emitted + Ids(iterList))
    }

    /** add_node_to_iter_list() */
    method AddNodeToIterList(node: Node)
      modifies this`iterList
      ensures iterList == Inserted(old(iterList), node)
    {
      hide Inserted;
      var n := 0;
      InsertedEnds(iterList, node);
      while n < |iterList|
        invariant 0 <= n <= |iterList| && iterList == old(iterList)
        invariant iterList[..n] + Inserted(iterList[n..], node) == Inserted(iterList, node)
      {
        var next := n + 1;
        InsertedFrom(iterList, n, node);
        if next < |iterList| && node.timestamp >= iterList[next].timestamp {
          iterList := iterList[..next] + [node] + iterList[next..];
          return;
        }
        n := next;
      }
      iterList := iterList + [node];
    }

    /** got_object_idset_add() on the open set: the element count goes up even if
        the id is there already, so callers must look first. */
    method Open(id: Id)
      modifies this`openBranches, this`numOpen
      ensures openBranches == old(openBranches) + {id} && numOpen == old(numOpen) + 1
    {
      openBranches := openBranches + {id};
      numOpen := numOpen + 1;
    }

    /** close_branch() */
    method CloseBranch(id: Id)
      modifies this`openBranches, this`numOpen
      requires numOpen == |openBranches|
      ensures openBranches == old(openBranches) - {id} && numOpen == |openBranches|
    {
      if id in openBranches {
        openBranches := openBranches - {id};
        numOpen := numOpen - 1;
      }
    }

    /** advance_branch() when every parent is followed. */
    method AdvanceToAllParents(id: Id, ghost rank: Id -> nat, ghost pending: set<Id>, ghost start: Id)
      requires Acyclic(h, rank) && SetsOk(pending) && id in pending
      requires Frontier(start, pending)
      modifies this`openBranches, this`numOpen
      ensures SetsOk(pending - {id}) && Frontier(start, pending - {id})
      ensures openBranches == old(openBranches) - {id} + NewParents(h, id, nodeIds)
    {
      hide FrontierOf, NewParents, SortedBehindHead, Ids, Acyclic;
      ghost var before := openBranches;
      CloseBranch(id);
      OpenParents(id, rank);
      FrontierAdvances(h, rank, start, nodeIds, before, pending, id);
    }

    /** The loop over the parents: open those not open and not traversed. */
    method OpenParents(id: Id, ghost rank: Id -> nat)
      requires Acyclic(h, rank) && id in h && numOpen == |openBranches|
      modifies this`openBranches, this`numOpen
      ensures openBranches == old(openBranches) + NewParents(h, id, nodeIds) && numOpen == |openBranches|
    {
      var parents := h[id].parents;
      var i := 0;
      while i < |parents|
        invariant 0 <= i <= |parents| && numOpen == |openBranches|
        invariant old(openBranches) <= openBranches <= old(openBranches) + NewParents(h, id, nodeIds)
        invariant forall j | 0 <= j < i && parents[j] !in nodeIds :: parents[j] in openBranches
      {
        var p := parents[i];
        if p !in openBranches && p !in nodeIds {
          Open(p);
        }
        i := i + 1;
      }
    }

    /** advance_branch() in first-parent mode. The traversed set is not
        consulted, which is sound because ranks decrease along the chain. */
    method AdvanceToFirstParent(id: Id, ghost rank: Id -> nat)
      requires Acyclic(h, rank) && SetsOk({id}) && openBranches == {id}
      requires h[id].parents != [] ==> h[id].parents[0] !in nodeIds
      modifies this`openBranches, this`numOpen
      ensures openBranches == (if h[id].parents == [] then {} else {h[id].parents[0]})
      ensures SetsOk({})
    {
      CloseBranch(id);
      var parents := h[id].parents;
      if |parents| == 0 || parents[0] in openBranches {
        return;
      }
      Open(parents[0]);
    }

    /** First-parent mode: what was handed out and what is pending is on its way down the
        chain from the start. */
    ghost predicate OnChain(rank: Id -> nat, start: Id)
      reads `emitted, `iterList, `openBranches
      requires Acyclic(h, rank)
    {
      OnWay(h, rank, start, emitted + Ids(iterList), openBranches)
    }

    /** What each mode keeps true between fetches. */
    ghost predicate Walking(rank: Id -> nat, start: Id)
      reads this
      requires Acyclic(h, rank)
    {
      Valid() && if firstParentOnly then OnChain(rank, start) else Frontier(start, {}) && Leveled(start)
    }

    /** add_branch_tip() for each open branch, in whatever order the set has. */
    method AddBranchTips() returns (tips: seq<Id>)
      modifies this`nodeIds
      ensures nodeIds == old(nodeIds) + openBranches
      ensures |tips| == |openBranches| && forall id :: id in tips <==> id in openBranches
      ensures forall i, j | 0 <= i < j < |tips| :: tips[i] != tips[j]
    {
      hide *;
      tips := [];
      var rest := openBranches;
      while rest != {}
        invariant rest <= openBranches && |tips| + |rest| == |openBranches|
        invariant nodeIds == old(nodeIds) + (openBranches - rest)
        invariant forall id :: id in tips <==> id in openBranches - rest
        invariant forall i, j | 0 <= i < j < |tips| :: tips[i] != tips[j]
        decreases rest
      {
        var id :| id in rest;
        rest := rest - {id};
        nodeIds := nodeIds + {id};
        tips := tips + [id];
      }
    }

    method ListTip(id: Id, ghost unlisted: set<Id>)
      requires Listed(unlisted) && id in unlisted && unlisted <= nodeIds <= h.Keys
      modifies this`iterList
      ensures Listed(unlisted - {id}) && iterList == Inserted(old(iterList), Node(id, h[id].time))
      ensures |iterList| == old(|iterList|) + 1 && (old(iterList) != [] ==> iterList[0] == old(iterList[0]))
    {
      ghost var list := iterList;
      var node := Node(id, h[id].time);
      InsertKeepsOrder(list, node);
      InsertKeepsStamps(h, list, node);
      InsertAddsOne(list, node);
      OneMoreListed(nodeIds, unlisted, id);
      hide SortedBehindHead, Stamped, Ids, Inserted;
      AddNodeToIterList(node);
    }

    /** One tip: list its node, then advance its branch. */
    method ProcessTip(id: Id, ghost rank: Id -> nat, ghost pending: set<Id>, ghost start: Id)
      requires Acyclic(h, rank) && !firstParentOnly
      requires SetsOk(pending) && Listed(pending) && id in pending && Frontier(start, pending)
      modifies this`openBranches, this`numOpen, this`iterList
      ensures SetsOk(pending - {id}) && Listed(pending - {id}) && Frontier(start, pending - {id})
      ensures openBranches == old(openBranches) - {id} + NewParents(h, id, nodeIds)
      ensures |iterList| == old(|iterList|) + 1 && (old(iterList) != [] ==> iterList[0] == old(iterList[0]))
    {
      hide SortedBehindHead, Stamped, Ids, Inserted, FrontierOf, NewParents;
      ListTip(id, pending);
      AdvanceToAllParents(id, rank, pending, start);
    }

    /** First-parent mode has only one tip, and its node goes last. */
    method ProcessOnlyTip(id: Id, ghost rank: Id -> nat, ghost start: Id)
      requires Acyclic(h, rank) && firstParentOnly && |iterList| <= 1
      requires SetsOk({id}) && Listed({id}) && openBranches == {id} && start in h
      requires emitted + Ids(iterList) + Chain(h, rank, id) == Chain(h, rank, start)
      modifies this`openBranches, this`numOpen, this`iterList
      ensures Valid() && OnChain(rank, start)
      ensures |iterList| == old(|iterList|) + 1 && (old(iterList) != [] ==> iterList[0] == old(iterList[0]))
    {
      hide SortedBehindHead, Stamped, Chain, Acyclic, OnWay, Ids, Inserted;
      ghost var list := iterList;
      OnlyOneUnlisted(nodeIds, id, list, emitted);
      TipMoves(h, rank, start, emitted + Ids(list), id, nodeIds);
      ListTip(id, {id});
      ListedLast(emitted, list, Node(id, h[id].time));
      AdvanceToFirstParent(id, rank);
    }

    /** fetch_commits_from_open_branches() */
    method FetchCommitsFromOpenBranches(ghost rank: Id -> nat, ghost start: Id)
      requires Acyclic(h, rank) && Walking(rank, start)
      requires |iterList| <= 1 && (!firstParentOnly && iterList == [] ==> |openBranches| <= 1)
      modifies this`nodeIds, this`openBranches, this`numOpen, this`iterList, this`steps
      ensures Walking(rank, start)
      ensures old(openBranches) != {} ==> old(nodeIds) < nodeIds && |iterList| > old(|iterList|)
      ensures old(openBranches) == {} ==> nodeIds == old(nodeIds) && openBranches == {} && iterList == old(iterList)
      ensures old(iterList) != [] ==> iterList != [] && iterList[0] == old(iterList[0])
    {
      hide Walking, FrontierOf, Chain, Acyclic, Within, InOrder, Ids, SortedBehindHead, Stamped, OnWay, Valid, OnChain,
        Leveled;
      OpenCounted(rank, start);
      if numOpen == 0 {
        return;
      }
      TipsPending(rank, start);
      ghost var before := openBranches;
      var tips := AddBranchTips();
      if firstParentOnly {
        // there is one open branch
        ghost var t := OnlyOneOpen(h, rank, start, emitted + Ids(iterList), before);
        assert tips[0] in before;
        ProcessOnlyTip(tips[0], rank, start);
      } else {
        FetchAll(tips, rank, start, old(nodeIds));
      }
      NowWalking(rank, start);
    }

    lemma NowWalking(rank: Id -> nat, start: Id)
      requires Acyclic(h, rank) && Valid()
      requires if firstParentOnly then OnChain(rank, start) else Frontier(start, {}) && Leveled(start)
      ensures Walking(rank, start)
    {
    }

    /** What will hold once the open commits have been added to the traversed ones: exactly
        they are pending, and unlisted. */
    lemma TipsPending(rank: Id -> nat, start: Id)
      requires Acyclic(h, rank) && Walking(rank, start) && openBranches != {}
      ensures var nodes := nodeIds + openBranches;
              && nodeIds * openBranches == {} && nodeIds < nodes
              && openBranches * nodes == openBranches <= nodes <= h.Keys
              && numOpen == |openBranches| && SortedBehindHead(iterList) && Stamped(h, iterList)
              && multiset(Ids(iterList)) + multiset(emitted) == multiset(nodes - openBranches)
              && (!firstParentOnly ==> FrontierOf(h, start, nodes, openBranches, openBranches))
      ensures if firstParentOnly then OnWay(h, rank, start, emitted + Ids(iterList), openBranches)
              else
                && nodeIds == Within(h, start, steps)
                && openBranches == Within(h, start, steps + 1) - Within(h, start, steps)
                && InOrder(h, start, emitted + Ids(iterList))
    {
      hide FrontierOf, Chain, Acyclic, Within, InOrder, Ids, OnWay, Stamped, SortedBehindHead;
      assert openBranches * nodeIds == nodeIds * openBranches;
      Unmixed(nodeIds, openBranches);
      assert nodeIds - {} == nodeIds;
      if !firstParentOnly {
        FrontierTips(h, start, nodeIds, openBranches);
      }
    }

    /** Listing and advancing all the tips is one more step away from the start. */
    method FetchAll(tips: seq<Id>, ghost rank: Id -> nat, ghost start: Id, ghost nodes: set<Id>)
      requires Acyclic(h, rank) && !firstParentOnly
      requires |iterList| <= 1 && (iterList == [] ==> |openBranches| <= 1)
      requires forall i, j | 0 <= i < j < |tips| :: tips[i] != tips[j]
      requires |openBranches| == |tips| && forall i | 0 <= i < |tips| :: tips[i] in openBranches
      requires SetsOk(openBranches) && Listed(openBranches) && Frontier(start, openBranches)
      requires nodeIds == nodes + openBranches && nodes * openBranches == {}
      requires nodes == Within(h, start, steps)
      requires openBranches == Within(h, start, steps + 1) - Within(h, start, steps)
      requires InOrder(h, start, emitted + Ids(iterList))
      modifies this`openBranches, this`numOpen, this`iterList, this`steps
      ensures Valid() && Frontier(start, {}) && Leveled(start)
      ensures |iterList| == old(|iterList|) + |tips| && (old(iterList) != [] ==> iterList[0] == old(iterList[0]))
    {
      hide Acyclic, Listed, SetsOk, Valid, Frontier, Within, ParentsOf, InOrder, Ids, LeveledAt;
      ghost var before, list := openBranches, iterList;
      ListedIs(before);
      ProcessTips(tips, rank, start);
      LevelMoves(start, nodes, before, list);
      steps := steps + 1;
    }

    lemma LevelMoves(start: Id, nodes: set<Id>, open: set<Id>, list: seq<Node>)
      requires nodeIds == nodes + open && nodes * open == {} && openBranches == ParentsOf(h, open) - nodeIds
      requires nodes == Within(h, start, steps) && open == Within(h, start, steps + 1) - Within(h, start, steps)
      requires InOrder(h, start, emitted + Ids(list))
      requires multiset(Ids(list)) + multiset(emitted) == multiset(nodes + open - open) && Valid()
      requires |list| <= 1 && (list == [] ==> |open| <= 1) && (list != [] ==> iterList != [] && iterList[0] == list[0])
      requires |iterList| == |list| + |open|
      ensures LeveledAt(start, steps + 1)
    {
      hide Within, ParentsOf, InOrder, Ids, SortedBehindHead, Stamped;
      LevelFetched(h, start, steps, nodes, open);
      FetchedIds(nodes, open, emitted, list, iterList);
      FetchKeepsOrder(h, start, steps, emitted, list, iterList, open);
    }

    lemma ListedIs(unlisted: set<Id>)
      requires Listed(unlisted)
      ensures SortedBehindHead(iterList) && Stamped(h, iterList)
      ensures multiset(Ids(iterList)) + multiset(emitted) == multiset(nodeIds - unlisted)
    {
    }

    /** The loop over the tips. */
    method ProcessTips(tips: seq<Id>, ghost rank: Id -> nat, ghost start: Id)
      requires Acyclic(h, rank) && !firstParentOnly
      requires forall i, j | 0 <= i < j < |tips| :: tips[i] != tips[j]
      requires |openBranches| == |tips| && forall i | 0 <= i < |tips| :: tips[i] in openBranches
      requires SetsOk(openBranches) && Listed(openBranches) && Frontier(start, openBranches)
      modifies this`openBranches, this`numOpen, this`iterList
      ensures Valid() && Frontier(start, {})
      ensures openBranches == ParentsOf(h, old(openBranches)) - nodeIds
      ensures |iterList| == old(|iterList|) + |tips| && (old(iterList) != [] ==> iterList[0] == old(iterList[0]))
    {
      hide Listed, FrontierOf, Acyclic, NewParents, ParentsOf, HalfOpened;
      ghost var pending := openBranches;
      NothingAdvanced(h, pending, nodeIds);
      var i := 0;
      while i < |tips|
        invariant 0 <= i <= |tips| && |pending| == |tips| - i
        invariant forall j | i <= j < |tips| :: tips[j] in pending
        invariant SetsOk(pending) && Listed(pending) && Frontier(start, pending) && pending <= old(openBranches)
        invariant openBranches == HalfOpened(h, old(openBranches), pending, nodeIds)
        invariant |iterList| == old(|iterList|) + i && (old(iterList) != [] ==> iterList[0] == old(iterList[0]))
      {
        MoreOpened(h, old(openBranches), pending, tips[i], nodeIds);
        ProcessTip(tips[i], rank, pending, start);
        pending := pending - {tips[i]};
        i := i + 1;
      }
      AllAdvanced(h, old(openBranches), nodeIds);
    }

    /** Between calls of the iterator functions, nothing pending means that
        nothing is open either. */
    ghost predicate Iterating(rank: Id -> nat, start: Id)
      reads this
      requires Acyclic(h, rank)
    {
      Walking(rank, start) && (iterList == [] ==> openBranches == {})
    }

    /** got_commit_graph_iter_start() */
    method IterStart(start: Id, ghost rank: Id -> nat) returns (r: Result<()>)
      requires Acyclic(h, rank)
      requires iterList == [] ==> nodeIds == {} && openBranches == {} && numOpen == 0 && emitted == [] && steps == 0
      modifies this
      ensures old(iterList) != [] ==> r == Err(IterBusy) && iterList == old(iterList) && emitted == old(emitted)
      ensures old(iterList) == [] ==> r == if start in h then Ok(()) else Err(NoObj)
      ensures r.Ok? ==> Iterating(rank, start) && iterList != [] && emitted == []
    {
      hide Acyclic, Chain, Reachable, Walking;
      if |iterList| > 0 {
        return Err(IterBusy);
      }
      Open(start);
      if start !in h {
        return Err(NoObj);
      }
      Starts(rank, start);
      while |iterList| == 0 && numOpen > 0
        invariant Walking(rank, start) && numOpen == |openBranches|
        invariant iterList == [] ==> openBranches != {}
        invariant emitted == [] && (iterList == [] ==> |openBranches| <= 1)
        decreases |iterList| == 0
      {
        FetchCommitsFromOpenBranches(rank, start);
        OpenCounted(rank, start);
      }
      r := Ok(());
    }

    lemma Starts(rank: Id -> nat, start: Id)
      requires Acyclic(h, rank) && start in h && nodeIds == {} && openBranches == {start} && numOpen == 1
      requires iterList == [] && emitted == [] && steps == 0
      ensures Walking(rank, start)
    {
      hide Acyclic, FrontierOf, OnWay, Within, InOrder;
      StartsOnWay(h, rank, start);
      StartLevel(h, start);
      assert emitted + Ids(iterList) == [];
    }

    lemma OpenCounted(rank: Id -> nat, start: Id)
      requires Acyclic(h, rank) && Walking(rank, start)
      ensures numOpen == |openBranches| && nodeIds <= h.Keys
    {
    }

    /** got_commit_graph_iter_next() */
    method IterNext(ghost rank: Id -> nat, ghost start: Id) returns (r: Result<Id>)
      requires Acyclic(h, rank) && Iterating(rank, start)
      modifies this
      ensures Iterating(rank, start)
      ensures old(iterList) == [] <==> r == Err(IterCompleted)
      ensures r.Err? ==> r.error == IterCompleted && emitted == old(emitted) && iterList == [] && openBranches == {}
      ensures r.Ok? ==> emitted == old(emitted) + [r.value] && r.value == old(iterList[0].id)
    {
      if |iterList| == 0 {
        return Err(IterCompleted);
      }
      FetchBeyondHead(rank, start);
      var id := HandOutHead(rank, start);
      r := Ok(id);
    }

    /** Fetch until the head has a successor or nothing is open. */
    method FetchBeyondHead(ghost rank: Id -> nat, ghost start: Id)
      requires Acyclic(h, rank) && Walking(rank, start) && iterList != []
      modifies this`nodeIds, this`openBranches, this`numOpen, this`iterList, this`steps
      ensures Walking(rank, start) && iterList != [] && iterList[0] == old(iterList[0])
      ensures |iterList| >= 2 || openBranches == {}
    {
      hide Walking, Acyclic, Chain, FrontierOf, Listed, Within, InOrder;
      OpenCounted(rank, start);
      while |iterList| == 1 && numOpen > 0
        invariant Walking(rank, start) && numOpen == |openBranches| && nodeIds <= h.Keys
        invariant iterList != [] && iterList[0] == old(iterList[0])
        decreases |h.Keys - nodeIds|
      {
        ghost var nodes := nodeIds;
        FetchCommitsFromOpenBranches(rank, start);
        OpenCounted(rank, start);
        FewerLeft(h.Keys, nodes, nodeIds);
      }
    }

    method HandOutHead(ghost rank: Id -> nat, ghost start: Id) returns (id: Id)
      requires Acyclic(h, rank) && Walking(rank, start) && iterList != []
      requires |iterList| >= 2 || openBranches == {}
      modifies this`iterList, this`emitted
      ensures Iterating(rank, start) && emitted == old(emitted) + [id] && id == old(iterList[0].id)
    {
      hide SortedBehindHead, Stamped, Ids, FrontierOf, Acyclic, Within, InOrder, OnWay;
      HeadMoves(emitted, iterList);
      HeadGoneSorted(h, iterList);
      id := iterList[0].id;
      iterList := iterList[1..];
      emitted := emitted + [id];
    }
  }

  lemma StartLevel(h: History, start: Id)
    ensures Within(h, start, 0) == {} && Within(h, start, 1) == {start}
    ensures {start} == Within(h, start, 1) - Within(h, start, 0) && InOrder(h, start, [])
  {
  }

  lemma Unmixed(nodes: set<Id>, open: set<Id>)
    requires nodes * open == {}
    ensures nodes + open - open == nodes && nodes + open - {} == nodes + open
    ensures multiset(nodes + open) == multiset(nodes) + multiset(open)
  {
    assert forall id | id in nodes && id in open :: id in nodes * open;
  }

  lemma Cancelled(a: multiset<Id>, b: multiset<Id>, out: multiset<Id>, nodes: multiset<Id>, open: multiset<Id>)
    requires a + out == nodes && b + out == nodes + open
    ensures b == a + open
  {
    assert b == b + out - out && a == a + out - out;
  }

  /** The ids listed by a fetch are the ones that were open. */
  lemma FetchedIds(nodes: set<Id>, open: set<Id>, out: seq<Id>, list: seq<Node>, list': seq<Node>)
    requires nodes * open == {}
    requires multiset(Ids(list)) + multiset(out) == multiset(nodes + open - open)
    requires multiset(Ids(list')) + multiset(out) == multiset(nodes + open - {})
    ensures multiset(Ids(list')) == multiset(Ids(list)) + multiset(open)
    ensures forall id | id in out + Ids(list) :: id in nodes
  {
    hide Ids;
    Unmixed(nodes, open);
    var ids, ids' := Ids(list), Ids(list');
    Cancelled(multiset(ids), multiset(ids'), multiset(out), multiset(nodes), multiset(open));
    forall id | id in out + ids
      ensures id in nodes
    {
      assert id in multiset(ids) + multiset(out);
    }
  }

  /** What is open when all tips but the pending ones have been advanced. */
  function HalfOpened(h: History, all: set<Id>, pending: set<Id>, nodes: set<Id>): set<Id> {
    pending + (ParentsOf(h, all - pending) - nodes)
  }

  lemma NothingAdvanced(h: History, open: set<Id>, nodes: set<Id>)
    ensures open == HalfOpened(h, open, open, nodes)
  {
    assert open - open == {};
  }

  lemma AllAdvanced(h: History, open: set<Id>, nodes: set<Id>)
    ensures HalfOpened(h, open, {}, nodes) == ParentsOf(h, open) - nodes
  {
    assert open - {} == open;
  }

  /** One more tip closed and its parents opened. */
  lemma MoreOpened(h: History, all: set<Id>, pending: set<Id>, id: Id, nodes: set<Id>)
    requires id in pending && pending <= all && id in h && pending <= nodes
    ensures HalfOpened(h, all, pending, nodes) - {id} + NewParents(h, id, nodes)
            == HalfOpened(h, all, pending - {id}, nodes)
  {
    var rest := all - pending;
    assert all - (pending - {id}) == rest + {id};
    ParentsJoin(h, rest, {id});
    assert ParentsOf(h, {id}) - nodes == NewParents(h, id, nodes);
  }

  lemma OnlyOneUnlisted(nodes: set<Id>, id: Id, list: seq<Node>, out: seq<Id>)
    requires id in nodes && multiset(Ids(list)) + multiset(out) == multiset(nodes - {id})
    ensures multiset(out + Ids(list)) + multiset{id} == multiset(nodes) && {id} - {id} == {}
  {
    hide Ids;
    assert nodes == nodes - {id} + {id};
    assert multiset(nodes - {id} + {id}) == multiset(nodes - {id}) + multiset{id};
  }

  /** In a list of at most one node a new node goes last. */
  lemma ListedLast(out: seq<Id>, list: seq<Node>, node: Node)
    requires |list| <= 1
    ensures out + Ids(Inserted(list, node)) == out + Ids(list) + [node.id]
  {
    assert Ids(list + [node]) == Ids(list) + [node.id];
  }

  lemma FewerLeft(all: set<Id>, a: set<Id>, b: set<Id>)
    requires a < b <= all
    ensures |all - b| < |all - a|
  {
    var x :| x in b && x !in a;
    assert all - b <= (all - a) - {x};
    SubsetSize(all - b, (all - a) - {x});
  }

  lemma {:induction false} SubsetSize(a: set<Id>, b: set<Id>)
    requires a <= b
    ensures |a| <= |b|
    decreases a
  {
    if a != {} {
      var x :| x in a;
      SubsetSize(a - {x}, b - {x});
    }
  }

  lemma HeadMoves(out: seq<Id>, list: seq<Node>)
    requires list != []
    ensures out + [list[0].id] + Ids(list[1..]) == out + Ids(list)
    ensures multiset(Ids(list[1..])) + multiset(out + [list[0].id]) == multiset(Ids(list)) + multiset(out)
  {
    assert Ids(list) == [list[0].id] + Ids(list[1..]);
  }

  lemma HeadGoneSorted(h: History, list: seq<Node>)
    requires list != [] && SortedBehindHead(list) && Stamped(h, list)
    ensures SortedBehindHead(list[1..]) && Stamped(h, list[1..])
  {
  }

  /** The next commit of a chain is not among those before it. */
  lemma ChainStep(h: History, rank: Id -> nat, start: Id, prefix: seq<Id>, t: Id, nodes: set<Id>)
    requires Acyclic(h, rank) && start in h && t in h
    requires prefix + Chain(h, rank, t) == Chain(h, rank, start)
    requires multiset(prefix) + multiset{t} == multiset(nodes)
    ensures h[t].parents == [] ==> prefix + [t] == Chain(h, rank, start)
    ensures h[t].parents != [] ==>
              var p := h[t].parents[0];
              p in h && p !in nodes && prefix + [t] + Chain(h, rank, p) == Chain(h, rank, start)
  {
    ChainUnfolds(h, rank, t);
    hide Chain;
    if h[t].parents != [] {
      var p := h[t].parents[0];
      var whole, c := Chain(h, rank, start), Chain(h, rank, p);
      assert prefix + ([t] + c) == prefix + [t] + c;
      ChainDescends(h, rank, start);
      hide *;
      NotBefore(h, rank, prefix + [t], c);
      assert multiset(prefix + [t]) == multiset(nodes);
      assert p in nodes ==> p in multiset(nodes);
      assert p in multiset(prefix + [t]) ==> p in prefix + [t];
    }
  }

  lemma ChainUnfolds(h: History, rank: Id -> nat, t: Id)
    requires Acyclic(h, rank) && t in h
    ensures h[t].parents == [] ==> Chain(h, rank, t) == [t]
    ensures h[t].parents != [] ==> h[t].parents[0] in h && Chain(h, rank, t) == [t] + Chain(h, rank, h[t].parents[0])
  {
  }

  lemma NotBefore(h: History, rank: Id -> nat, a: seq<Id>, c: seq<Id>)
    requires Descending(h, rank, a + c) && c != []
    ensures c[0] !in a
  {
    forall i | 0 <= i < |a|
      ensures a[i] != c[0]
    {
      assert (a + c)[i] == a[i] && (a + c)[|a|] == c[0];
    }
  }

  lemma OneMoreListed(nodes: set<Id>, unlisted: set<Id>, id: Id)
    requires id in unlisted && unlisted <= nodes
    ensures multiset(nodes - (unlisted - {id})) == multiset(nodes - unlisted) + multiset{id}
  {
    assert nodes - (unlisted - {id}) == (nodes - unlisted) + {id};
  }
}