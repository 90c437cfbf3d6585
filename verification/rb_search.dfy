/** Searching a red-black tree by value (compat/tree.h). */
module RbSearch {
  import opened RbShape
  import opened RbLinks
  import opened RbColors

  /** All nodes outside the hole are on the right side of key k. */
  ghost predicate Around(ctx: Ctx, k: int) {
    && (forall n | n in Before(ctx) :: n.key < k)
    && (forall n | n in After(ctx) :: k < n.key)
  }

  lemma OrderedMiddle(b: seq<Node>, i: seq<Node>, a: seq<Node>)
    requires Ordered(b + i + a)
    ensures Ordered(i)
  {
    forall x, y | 0 <= x < y < |i|
      ensures i[x].key < i[y].key
    {
      assert (b + i + a)[|b| + x] == i[x] && (b + i + a)[|b| + y] == i[y];
    }
  }

  lemma OrderedSplit(b: seq<Node>, a: seq<Node>)
    requires Ordered(b + a)
    ensures Ordered(b) && Ordered(a) && forall x, y | x in b && y in a :: x.key < y.key
  {
    forall i, j | 0 <= i < j < |a|
      ensures a[i].key < a[j].key
    {
      assert (b + a)[|b| + i] == a[i] && (b + a)[|b| + j] == a[j];
    }
    forall i, j | 0 <= i < |b| && 0 <= j < |a|
      ensures b[i].key < a[j].key
    {
      assert (b + a)[i] == b[i] && (b + a)[|b| + j] == a[j];
    }
    assert forall i, j | 0 <= i < j < |b| :: (b + a)[i] == b[i] && (b + a)[j] == b[j];
  }

  /** Going to a child of the node where the search is. */
  lemma StepDown(ctx: Ctx, s: Tree, k: int)
    requires s.T? && Ordered(Inorder(Plug(ctx, s))) && Around(ctx, k)
    ensures k < s.n.key ==> Around(In(Left, s.n, s.c, s.r, ctx), k)
    ensures k > s.n.key ==> Around(In(Right, s.n, s.c, s.l, ctx), k)
    ensures Plug(In(Left, s.n, s.c, s.r, ctx), s.l) == Plug(ctx, s) == Plug(In(Right, s.n, s.c, s.l, ctx), s.r)
  {
    hide Ordered;
    InorderPlug(ctx, s);
    OrderedMiddle(Before(ctx), Inorder(s), After(ctx));
    OrderedParts(Inorder(s.l), s.n, Inorder(s.r));
    hide Inorder;
  }

  /** The search has ended: no node has the key, and one may be put here. */
  lemma SearchEnd(ctx: Ctx, k: int)
    requires Around(ctx, k)
    ensures forall n | n in Nodes(Plug(ctx, Leaf)) :: n.key != k
  {
    InorderPlug(ctx, Leaf);
    NodesInorder(Plug(ctx, Leaf));
    hide Nodes, Before, After;
    forall n | n in Nodes(Plug(ctx, Leaf))
      ensures n.key != k
    {
      assert n in Inorder(Plug(ctx, Leaf));
      assert Inorder(Leaf) == [];
      assert n in Before(ctx) || n in After(ctx);
    }
  }

  /** Putting a node with the searched key where the search ended keeps the order. */
  lemma InsertOrdered(ctx: Ctx, n: Node)
    requires Ordered(Inorder(Plug(ctx, Leaf))) && Around(ctx, n.key)
    ensures var t := Plug(ctx, T(Leaf, n, Red, Leaf));
            && Ordered(Inorder(t)) && Inorder(t) == Before(ctx) + [n] + After(ctx)
            && Inorder(Plug(ctx, Leaf)) == Before(ctx) + After(ctx)
            && Nodes(t) == Nodes(Plug(ctx, Leaf)) + {n} && n !in CtxNodes(ctx)
  {
    hide Ordered;
    InorderPlug(ctx, Leaf);
    InorderPlug(ctx, T(Leaf, n, Red, Leaf));
    NodesPlug(ctx, Leaf);
    NodesPlug(ctx, T(Leaf, n, Red, Leaf));
    SearchEnd(ctx, n.key);
    var b, a := Before(ctx), After(ctx);
    assert Inorder(Leaf) == [] && Inorder(T(Leaf, n, Red, Leaf)) == [n];
    hide Inorder, Plug, Before, After, Nodes, CtxNodes;
    assert b + [] + a == b + a;
    OrderedSplit(b, a);
    OrderedParts(b, n, a);
  }

  // ------------------------------------------------------------ neighbours

  /** Where a node of the tree stands. */
  lemma {:induction false} Locate(t: Tree, n: Node) returns (ctx: Ctx, s: Tree)
    requires n in Nodes(t)
    ensures t == Plug(ctx, s) && s.T? && s.n == n
  {
    if t.n == n {
      return Top, t;
    }
    var sub;
    if n in Nodes(t.l) {
      ctx, sub := Locate(t.l, n);
      s := sub;
      PlugWithin(ctx, In(Left, t.n, t.c, t.r, Top), s);
      ctx := Within(ctx, In(Left, t.n, t.c, t.r, Top));
    } else {
      ctx, sub := Locate(t.r, n);
      s := sub;
      PlugWithin(ctx, In(Right, t.n, t.c, t.l, Top), s);
      ctx := Within(ctx, In(Right, t.n, t.c, t.l, Top));
    }
  }

  function FirstOf(s: seq<Node>): Node? {
    if s == [] then null else s[0]
  }

  /** The first node of a tree, one level down. */
  lemma FirstInorder(t: Tree, rest: seq<Node>)
    requires t.T?
    ensures Inorder(t) != [] && FirstOf(Inorder(t) + rest) == FirstOf(Inorder(t))
    ensures t.l.T? ==> Inorder(t.l) != [] && FirstOf(Inorder(t)) == FirstOf(Inorder(t.l))
    ensures t.l.Leaf? ==> FirstOf(Inorder(t)) == t.n
  {
    if t.l.T? {
      assert Inorder(t.l) == Inorder(t.l.l) + [t.l.n] + Inorder(t.l.r);
    }
  }

  function LastOf(s: seq<Node>): Node? {
    if s == [] then null else s[|s| - 1]
  }

  /** All steps to the hole went to one side. */
  ghost predicate OneSided(ctx: Ctx, left: bool) {
    ctx.In? ==> (ctx.side == Left <==> left) && OneSided(ctx.up, left)
  }

  /** Where a walk to one side ends. */
  lemma {:induction false} EndOf(ctx: Ctx, left: bool)
    requires OneSided(ctx, left)
    ensures ParentOf(ctx) == if left then FirstOf(Inorder(Plug(ctx, Leaf))) else LastOf(Inorder(Plug(ctx, Leaf)))
  {
    InorderPlug(ctx, Leaf);
    NothingOutside(ctx, left);
  }

  lemma {:induction false} NothingOutside(ctx: Ctx, left: bool)
    requires OneSided(ctx, left)
    ensures if left then Before(ctx) == [] else After(ctx) == []
    decreases ctx
  {
    if ctx.In? {
      NothingOutside(ctx.up, left);
    }
  }

  /** The same tree seen from both children. */
  lemma PlugBoth(ctx: Ctx, s: Tree)
    requires s.T?
    ensures Plug(In(Left, s.n, s.c, s.r, ctx), s.l) == Plug(ctx, s) == Plug(In(Right, s.n, s.c, s.l, ctx), s.r)
  {
  }

  lemma AfterStep(ctx: Ctx, s: Tree)
    requires s.T? && Ordered(Inorder(Plug(ctx, s)))
    ensures FirstOf(After(In(Left, s.n, s.c, s.r, ctx))) == s.n
    ensures After(In(Right, s.n, s.c, s.l, ctx)) == After(ctx)
  {
  }

  lemma AfterRight(ctx: Ctx)
    requires ctx.In? && ctx.side == Right
    ensures After(ctx) == After(ctx.up)
  {
  }

  /** The node after a subtree. */
  lemma FirstAfter(ctx: Ctx)
    ensures ctx.Top? ==> FirstOf(After(ctx)) == null
    ensures ctx.In? ==> FirstOf(After(ctx)) == if ctx.side == Left then ctx.n else FirstOf(After(ctx.up))
  {
  }

  lemma NoRight(s: Tree, a: seq<Node>)
    requires s.T? && s.r.Leaf?
    ensures Inorder(s.r) + a == a
  {
  }

  /** When a search ends, the first node after the hole is the least one above. */
  lemma FirstAbove(ctx: Ctx, k: int)
    requires Ordered(Inorder(Plug(ctx, Leaf))) && Around(ctx, k)
    ensures var r := FirstOf(After(ctx));
            if r == null then forall n | n in Nodes(Plug(ctx, Leaf)) :: n.key < k
            else r in Nodes(Plug(ctx, Leaf)) && r.key >= k && forall n | n in Nodes(Plug(ctx, Leaf)) && n.key >= k ::
              r.key <= n.key
  {
    hide Inorder, Nodes, Before, After, Plug, Ordered;
    var b, a := Before(ctx), After(ctx);
    InorderPlug(ctx, Leaf);
    NodesInorder(Plug(ctx, Leaf));
    NoneInLeaf();
    assert b + [] + a == b + a;
    FirstIsLeast(b, a, k);
  }

  lemma NoneInLeaf()
    ensures Inorder(Leaf) == []
  {
  }

  lemma FirstIsLeast(b: seq<Node>, a: seq<Node>, k: int)
    requires Ordered(b + a) && (forall n | n in b :: n.key < k) && (forall n | n in a :: k < n.key)
    ensures if a == [] then forall n | n in b + a :: n.key < k
            else a[0] in b + a && a[0].key >= k && forall n | n in b + a && n.key >= k :: a[0].key <= n.key
  {
    OrderedSplit(b, a);
  }

  lemma SplitNext(out: seq<Node>, rest: seq<Node>)
    requires Ordered(out + rest) && rest != []
    ensures out + rest == out + [rest[0]] + rest[1..] && NextIn(out + rest, rest[0]) == FirstOf(rest[1..])
  {
    hide Ordered, NextIn;
    assert rest == [rest[0]] + rest[1..];
    assert out + rest == out + [rest[0]] + rest[1..];
    OrderedParts(out, rest[0], rest[1..]);
    NextIs(out, rest[0], rest[1..]);
  }

  /** The node after n in a sequence. */
  function NextIn(s: seq<Node>, n: Node): Node? {
    if s == [] then null else if s[0] == n then FirstOf(s[1..]) else NextIn(s[1..], n)
  }

  lemma {:induction false} NextIs(b: seq<Node>, n: Node, a: seq<Node>)
    requires n !in b
    ensures NextIn(b + [n] + a, n) == FirstOf(a)
  {
    if b == [] {
      assert ([] + [n] + a)[1..] == a;
    } else {
      NextIs(b[1..], n, a);
      assert (b + [n] + a)[1..] == b[1..] + [n] + a;
    }
  }

  /** The node after the root of a subtree. */
  lemma NextOfRoot(ctx: Ctx, s: Tree)
    requires s.T? && Ordered(Inorder(Plug(ctx, s)))
    ensures NextIn(Inorder(Plug(ctx, s)), s.n) == FirstOf(Inorder(s.r) + After(ctx))
  {
    var b, l, n, r, a := Before(ctx), Inorder(s.l), s.n, Inorder(s.r), After(ctx);
    InorderPlug(ctx, s);
    assert Inorder(s) == l + [n] + r;
    hide *;
    AroundRoot(b, l, n, r, a);
  }

  lemma AroundRoot(b: seq<Node>, l: seq<Node>, n: Node, r: seq<Node>, a: seq<Node>)
    requires Ordered(b + (l + [n] + r) + a)
    ensures NextIn(b + (l + [n] + r) + a, n) == FirstOf(r + a)
  {
    hide *;
    assert b + (l + [n] + r) + a == (b + l) + [n] + (r + a);
    OrderedParts(b + l, n, r + a);
    assert n !in b + l;
    NextIs(b + l, n, r + a);
  }

  // ------------------------------------------------------------ taking a node out

  /** A subtree's root is taken out of the order when its only child takes its place. */
  lemma SpliceOrder(ctx: Ctx, s: Tree, child: Tree)
    requires s.T? && Ordered(Inorder(Plug(ctx, s))) && ((s.l == Leaf && child == s.r) || (s.r == Leaf && child == s.l))
    ensures Ordered(Inorder(Plug(ctx, child))) && Nodes(Plug(ctx, child)) == Nodes(Plug(ctx, s)) - {s.n}
  {
    hide After, Before, CtxNodes, CtxUnique, Inorder, Nodes, Ordered, Plug;
    OnlyChild(s, child);
    InorderPlug(ctx, s);
    InorderPlug(ctx, child);
    if s.l == Leaf {
      TakenFirst(Before(ctx), s.n, Inorder(child), After(ctx));
    } else {
      TakenLast(Before(ctx), s.n, Inorder(child), After(ctx));
    }
    NodesPlug(ctx, s);
    NodesPlug(ctx, child);
    OrderedUnique(Plug(ctx, s));
    UniquePlug(ctx, s);
    assert s.n !in Nodes(child);
  }

  lemma OnlyChild(s: Tree, child: Tree)
    requires s.T? && ((s.l == Leaf && child == s.r) || (s.r == Leaf && child == s.l))
    ensures Inorder(s) == (if s.l == Leaf then [s.n] + Inorder(child) else Inorder(child) + [s.n])
    ensures Nodes(s) == Nodes(child) + {s.n}
  {
    assert Inorder(Leaf) == [];
    JoinInorder(Left, s.l, s.n, s.c, s.r);
    assert s == Join(Left, s.l, s.n, s.c, s.r);
  }

  lemma TakenFirst(b: seq<Node>, n: Node, i: seq<Node>, a: seq<Node>)
    requires Ordered(b + ([n] + i) + a)
    ensures Ordered(b + i + a)
  {
    hide *;
    assert b + ([n] + i) + a == b + [n] + (i + a);
    TakenOut(b, n, i + a);
    assert b + (i + a) == b + i + a;
  }

  lemma TakenLast(b: seq<Node>, n: Node, i: seq<Node>, a: seq<Node>)
    requires Ordered(b + (i + [n]) + a)
    ensures Ordered(b + i + a)
  {
    hide *;
    assert b + (i + [n]) + a == (b + i) + [n] + a;
    TakenOut(b + i, n, a);
  }

  lemma TakenOut(b: seq<Node>, n: Node, a: seq<Node>)
    requires Ordered(b + [n] + a)
    ensures Ordered(b + a)
  {
    hide Ordered;
    OrderedParts(b, n, a);
    OrderedJoin(b, a);
  }

  lemma OrderedJoin(b: seq<Node>, a: seq<Node>)
    requires Ordered(b) && Ordered(a) && forall x, y | x in b && y in a :: x.key < y.key
    ensures Ordered(b + a)
  {
  }

  /** The way from a node to its successor leads left only. */
  ghost predicate LeftOnly(inner: Ctx) {
    inner.In? ==> inner.side == Left && LeftOnly(inner.up)
  }

  lemma {:induction false} NothingBefore(inner: Ctx)
    requires LeftOnly(inner)
    ensures Before(inner) == []
    decreases inner
  {
    if inner.In? {
      NothingBefore(inner.up);
    }
  }

  /** The successor takes the place of the node taken out. */
  lemma SuccessorOrder(ctx: Ctx, l: Tree, old_: Node, c: Color, inner: Ctx, elm: Node, ce: Color, cr: Tree)
    requires LeftOnly(inner)
    requires Ordered(Inorder(Plug(ctx, T(l, old_, c, Plug(inner, T(Leaf, elm, ce, cr))))))
    ensures Ordered(Inorder(Plug(ctx, T(l, elm, c, Plug(inner, cr)))))
    ensures Nodes(Plug(ctx, T(l, elm, c, Plug(inner, cr))))
            == Nodes(Plug(ctx, T(l, old_, c, Plug(inner, T(Leaf, elm, ce, cr))))) - {old_}
    ensures elm !in Nodes(Plug(ctx, T(l, old_, c, Plug(inner, cr))))
  {
    var s, s1, s2 := T(l, old_, c, Plug(inner, T(Leaf, elm, ce, cr))), T(l, old_, c, Plug(inner, cr)),
      T(l, elm, c, Plug(inner, cr));
    SuccessorInorder(ctx, l, old_, c, inner, elm, ce, cr);
    SuccessorNodes(ctx, l, old_, c, inner, elm, ce, cr);
    var b, i := Before(ctx) + Inorder(l), Inorder(cr) + After(inner) + After(ctx);
    TakenOut(b, old_, [elm] + i);
    assert b + ([elm] + i) == b + [elm] + i;
  }

  lemma SuccessorInorder(ctx: Ctx, l: Tree, old_: Node, c: Color, inner: Ctx, elm: Node, ce: Color, cr: Tree)
    requires LeftOnly(inner)
    ensures var b, i := Before(ctx) + Inorder(l), Inorder(cr) + After(inner) + After(ctx);
            && Inorder(Plug(ctx, T(l, old_, c, Plug(inner, T(Leaf, elm, ce, cr))))) == b + [old_] + ([elm] + i)
            && Inorder(Plug(ctx, T(l, elm, c, Plug(inner, cr)))) == b + [elm] + i
  {
    hide Plug, Before, After;
    NothingBefore(inner);
    InorderPlug(ctx, T(l, old_, c, Plug(inner, T(Leaf, elm, ce, cr))));
    InorderPlug(ctx, T(l, elm, c, Plug(inner, cr)));
    InorderPlug(inner, T(Leaf, elm, ce, cr));
    InorderPlug(inner, cr);
    JoinInorder(Left, l, old_, c, Plug(inner, T(Leaf, elm, ce, cr)));
    JoinInorder(Left, l, elm, c, Plug(inner, cr));
    JoinInorder(Left, Leaf, elm, ce, cr);
    assert Inorder(Leaf) == [];
    Regroup2(Before(ctx), Inorder(l), [old_], [elm], Inorder(cr), After(inner), After(ctx));
  }

  lemma Regroup2(b0: seq<Node>, b1: seq<Node>, o: seq<Node>, e: seq<Node>, r: seq<Node>, a0: seq<Node>, a1: seq<Node>)
    ensures b0 + (b1 + o + ([] + ([] + e + r) + a0)) + a1 == b0 + b1 + o + (e + (r + a0 + a1))
    ensures b0 + (b1 + e + ([] + r + a0)) + a1 == b0 + b1 + e + (r + a0 + a1)
  {
    assert [] + ([] + e + r) + a0 == e + r + a0 && [] + r + a0 == r + a0;
  }

  lemma SuccessorNodes(ctx: Ctx, l: Tree, old_: Node, c: Color, inner: Ctx, elm: Node, ce: Color, cr: Tree)
    requires Ordered(Inorder(Plug(ctx, T(l, old_, c, Plug(inner, T(Leaf, elm, ce, cr))))))
    ensures Nodes(Plug(ctx, T(l, elm, c, Plug(inner, cr))))
            == Nodes(Plug(ctx, T(l, old_, c, Plug(inner, T(Leaf, elm, ce, cr))))) - {old_}
    ensures elm !in Nodes(Plug(ctx, T(l, old_, c, Plug(inner, cr))))
  {
    hide Inorder, Ordered, Plug, Nodes, CtxNodes, Unique, CtxUnique;
    var e := T(Leaf, elm, ce, cr);
    var r, r1 := Plug(inner, e), Plug(inner, cr);
    OrderedUnique(Plug(ctx, T(l, old_, c, r)));
    UniquePlug(ctx, T(l, old_, c, r));
    UniqueAt(l, old_, c, r);
    UniquePlug(inner, e);
    UniqueAt(Leaf, elm, ce, cr);
    NodesPlug(ctx, T(l, old_, c, r));
    NodesPlug(ctx, T(l, elm, c, r1));
    NodesPlug(ctx, T(l, old_, c, r1));
    NodesPlug(inner, e);
    NodesPlug(inner, cr);
    NodesAt(l, old_, c, r);
    NodesAt(l, elm, c, r1);
    NodesAt(l, old_, c, r1);
    NodesAt(Leaf, elm, ce, cr);
  }

  lemma UniqueAt(l: Tree, n: Node, c: Color, r: Tree)
    requires Unique(T(l, n, c, r))
    ensures Unique(l) && Unique(r) && n !in Nodes(l) && n !in Nodes(r) && Nodes(l) !! Nodes(r)
  {
  }

  lemma NodesAt(l: Tree, n: Node, c: Color, r: Tree)
    ensures Nodes(T(l, n, c, r)) == Nodes(l) + {n} + Nodes(r) && Nodes(Leaf) == {}
  {
  }
}
