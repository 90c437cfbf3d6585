/** How the pointer assignments of compat/tree.h change the links, step by step. */
module RbLinks {
  import opened RbShape

  // ------------------------------------------------------------ rotation

  /** The assignments of RB_ROTATE_LEFT (side Left) and RB_ROTATE_RIGHT: x is
      rotated to the given side, its child y on the other side takes its place,
      and y's inner child moves over to x. */
  function Rotated(m: Links, side: Side, ctx: Ctx, x: Node, y: Node, inner: Node?): Links
    requires x in m && y in m && (inner != null ==> inner in m) && (ctx.In? ==> ctx.n in m)
  {
    var m1 := SetChild(m, x, Other(side), inner);
    var m2 := Reparented(m1, inner, x);
    var m3 := SetParent(m2, y, ParentOf(ctx));
    var m4 := Rehung(m3, ctx, y);
    var m5 := SetChild(m4, y, side, x);
    SetParent(m5, x, y)
  }

  function BeforeRotation(side: Side, a: Tree, x: Node, cx: Color, b: Tree, y: Node, cy: Color, c: Tree): Tree {
    Join(side, a, x, cx, Join(side, b, y, cy, c))
  }

  function AfterRotation(side: Side, a: Tree, x: Node, cx: Color, b: Tree, y: Node, cy: Color, c: Tree): Tree {
    Join(side, Join(side, a, x, cx, b), y, cy, c)
  }

  /** A rotation keeps the order. */
  lemma RotationInorder(side: Side, a: Tree, x: Node, cx: Color, b: Tree, y: Node, cy: Color, c: Tree)
    ensures Inorder(BeforeRotation(side, a, x, cx, b, y, cy, c)) == Inorder(AfterRotation(side, a, x, cx, b, y, cy, c))
    ensures Nodes(BeforeRotation(side, a, x, cx, b, y, cy, c)) == Nodes(AfterRotation(side, a, x, cx, b, y, cy, c))
  {
    hide Inorder, Nodes;
    JoinInorder(side, b, y, cy, c);
    JoinInorder(side, a, x, cx, Join(side, b, y, cy, c));
    JoinInorder(side, a, x, cx, b);
    JoinInorder(side, Join(side, a, x, cx, b), y, cy, c);
    var i, j, k := Inorder(a), Inorder(b), Inorder(c);
    if side == Left {
      assert i + [x] + (j + [y] + k) == (i + [x] + j) + [y] + k;
    } else {
      assert (k + [y] + j) + [x] + i == k + [y] + (j + [x] + i);
    }
  }

  lemma JoinInorder(side: Side, near: Tree, n: Node, c: Color, far: Tree)
    ensures Inorder(Join(side, near, n, c, far)) ==
            if side == Left then Inorder(near) + [n] + Inorder(far) else Inorder(far) + [n] + Inorder(near)
    ensures Nodes(Join(side, near, n, c, far)) == Nodes(near) + {n} + Nodes(far)
  {
  }

  /** The same tree seen from x, from y and from y's inner child. */
  lemma PlugTwice(side: Side, ctx: Ctx, a: Tree, x: Node, cx: Color, b: Tree, y: Node, cy: Color, c: Tree)
    ensures Plug(ctx, BeforeRotation(side, a, x, cx, b, y, cy, c))
            == Plug(In(Other(side), x, cx, a, ctx), Join(side, b, y, cy, c))
    ensures Plug(In(Other(side), x, cx, a, ctx), Join(side, b, y, cy, c)) ==
            Plug(In(side, y, cy, c, In(Other(side), x, cx, a, ctx)), b)
  {
  }

  /** A rotation anywhere keeps the order, and the root unless it was there. */
  lemma RotatedTree(side: Side, ctx: Ctx, a: Tree, x: Node, cx: Color, b: Tree, y: Node, cy: Color, c: Tree)
    ensures var t, t' := Plug(ctx, BeforeRotation(side, a, x, cx, b, y, cy, c)),
            Plug(ctx, AfterRotation(side, a, x, cx, b, y, cy, c));
            && Inorder(t') == Inorder(t) && Nodes(t') == Nodes(t)
            && Root(t') == if ctx.Top? then y else Root(t)
  {
    var s, s' := BeforeRotation(side, a, x, cx, b, y, cy, c), AfterRotation(side, a, x, cx, b, y, cy, c);
    RotationInorder(side, a, x, cx, b, y, cy, c);
    InorderPlug(ctx, s);
    InorderPlug(ctx, s');
    NodesPlug(ctx, s);
    NodesPlug(ctx, s');
    RootPlug(ctx, s);
    RootPlug(ctx, s');
  }

  /** The links after a rotation stand for the rotated tree. */
  lemma RotationFits(side: Side, ctx: Ctx, a: Tree, x: Node, cx: Color, b: Tree, y: Node, cy: Color, c: Tree, m: Links)
    requires Fits(Plug(ctx, BeforeRotation(side, a, x, cx, b, y, cy, c)), null, m)
    requires Unique(Plug(ctx, BeforeRotation(side, a, x, cx, b, y, cy, c)))
    ensures x in m && y in m && (b.T? ==> b.n in m) && (ctx.In? ==> ctx.n in m)
    ensures Fits(Plug(ctx, AfterRotation(side, a, x, cx, b, y, cy, c)), null, Rotated(m, side, ctx, x, y, Root(b)))
  {
    var s, s' := BeforeRotation(side, a, x, cx, b, y, cy, c), AfterRotation(side, a, x, cx, b, y, cy, c);
    PlugFits(ctx, s, m);
    UniquePlug(ctx, s);
    Domains(side, ctx, a, x, cx, b, y, cy, c, m);
    var m' := Rotated(m, side, ctx, x, y, Root(b));
    RotatedContext(side, ctx, a, x, cx, b, y, cy, c, m);
    RotatedSubtree(side, ctx, a, x, cx, b, y, cy, c, m);
    PlugFits(ctx, s', m');
  }

  lemma Domains(side: Side, ctx: Ctx, a: Tree, x: Node, cx: Color, b: Tree, y: Node, cy: Color, c: Tree, m: Links)
    requires CtxFits(ctx, x, m) && Fits(BeforeRotation(side, a, x, cx, b, y, cy, c), ParentOf(ctx), m)
    ensures x in m && y in m && (b.T? ==> b.n in m) && (ctx.In? ==> ctx.n in m)
    ensures forall n | n in Nodes(a) + Nodes(b) + Nodes(c) + CtxNodes(ctx) :: n in m
  {
    FitsDomain(BeforeRotation(side, a, x, cx, b, y, cy, c), ParentOf(ctx), m);
    CtxFitsDomain(ctx, x, m);
    JoinInorder(side, b, y, cy, c);
    JoinInorder(side, a, x, cx, Join(side, b, y, cy, c));
    assert b.T? ==> b.n in Nodes(b);
    assert ctx.In? ==> ctx.n in CtxNodes(ctx);
  }

  /** Four different nodes, of which the last two may be missing. */
  ghost predicate Different(x: Node, y: Node, inner: Node?, parent: Node?) {
    x != y && x != inner && y != inner && x != parent && y != parent && (inner != null ==> inner != parent)
  }

  /** The links after a rotation, node by node. */
  lemma RotatedIs(m: Links, side: Side, ctx: Ctx, x: Node, y: Node, inner: Node?)
    requires x in m && y in m && (inner != null ==> inner in m) && (ctx.In? ==> ctx.n in m)
    requires Different(x, y, inner, ParentOf(ctx))
    ensures var m' := Rotated(m, side, ctx, x, y, inner);
            && m'.Keys == m.Keys
            && m'[x] == (if side == Left then m[x].(right := inner, parent := y) else m[x].(left := inner, parent := y))
            && m'[y] == (if side == Left then m[y].(left := x, parent := ParentOf(ctx))
                         else m[y].(right := x, parent := ParentOf(ctx)))
            && (inner != null ==> m'[inner] == m[inner].(parent := x))
            && (ctx.In? ==> m'[ctx.n] == if ctx.side == Left then m[ctx.n].(left := y) else m[ctx.n].(right := y))
            && SameOn(m.Keys - {x, y, inner, ParentOf(ctx)}, m, m')
  {
  }

  lemma RotationDifferent(side: Side, ctx: Ctx, a: Tree, x: Node, cx: Color, b: Tree, y: Node, cy: Color, c: Tree)
    requires Unique(BeforeRotation(side, a, x, cx, b, y, cy, c))
    requires Nodes(BeforeRotation(side, a, x, cx, b, y, cy, c)) !! CtxNodes(ctx)
    ensures Different(x, y, Root(b), ParentOf(ctx)) && Unique(b)
    ensures var gone := {x, y, Root(b), ParentOf(ctx)};
            Nodes(a) !! gone && Nodes(c) !! gone && Nodes(b) - {Root(b)} !! gone
              && CtxNodes(ctx) - {ParentOf(ctx)} !! gone
  {
    JoinInorder(side, b, y, cy, c);
    JoinInorder(side, a, x, cx, Join(side, b, y, cy, c));
    assert b.T? ==> b.n in Nodes(b);
    assert ctx.In? ==> ctx.n in CtxNodes(ctx);
    hide Nodes, CtxNodes;
  }

  lemma RotatedContext(side: Side, ctx: Ctx, a: Tree, x: Node, cx: Color, b: Tree, y: Node, cy: Color, c: Tree,
                       m: Links)
    requires CtxFits(ctx, x, m) && CtxUnique(ctx)
    requires x in m && y in m && (b.T? ==> b.n in m) && forall n | n in CtxNodes(ctx) :: n in m
    requires Unique(BeforeRotation(side, a, x, cx, b, y, cy, c))
    requires Nodes(BeforeRotation(side, a, x, cx, b, y, cy, c)) !! CtxNodes(ctx)
    ensures CtxFits(ctx, y, Rotated(m, side, ctx, x, y, Root(b)))
  {
    var m' := Rotated(m, side, ctx, x, y, Root(b));
    RotationDifferent(side, ctx, a, x, cx, b, y, cy, c);
    RotatedIs(m, side, ctx, x, y, Root(b));
    hide CtxFits, CtxNodes, CtxUnique, Nodes, Unique;
    CtxFitsRehung(ctx, x, y, m, m');
  }

  lemma RotatedSubtree(side: Side, ctx: Ctx, a: Tree, x: Node, cx: Color, b: Tree, y: Node, cy: Color, c: Tree,
                       m: Links)
    requires Fits(BeforeRotation(side, a, x, cx, b, y, cy, c), ParentOf(ctx), m)
    requires Unique(BeforeRotation(side, a, x, cx, b, y, cy, c))
    requires Nodes(BeforeRotation(side, a, x, cx, b, y, cy, c)) !! CtxNodes(ctx)
    requires x in m && y in m && (b.T? ==> b.n in m) && (ctx.In? ==> ctx.n in m)
    requires forall n | n in Nodes(a) + Nodes(b) + Nodes(c) :: n in m
    ensures Fits(AfterRotation(side, a, x, cx, b, y, cy, c), ParentOf(ctx), Rotated(m, side, ctx, x, y, Root(b)))
  {
    hide Nodes, CtxNodes, Rotated;
    var m' := Rotated(m, side, ctx, x, y, Root(b));
    RotationDifferent(side, ctx, a, x, cx, b, y, cy, c);
    RotatedIs(m, side, ctx, x, y, Root(b));
    BeforeFits(side, ParentOf(ctx), a, x, cx, b, y, cy, c, m);
    AfterFits(side, ParentOf(ctx), a, x, cx, b, y, cy, c, m, m');
  }

  lemma BeforeFits(side: Side, p: Node?, a: Tree, x: Node, cx: Color, b: Tree, y: Node, cy: Color, c: Tree, m: Links)
    requires Fits(BeforeRotation(side, a, x, cx, b, y, cy, c), p, m)
    ensures x in m && m[x] == MakeInfo(side, Root(a), y, p, cx) && y in m
            && m[y] == MakeInfo(side, Root(b), Root(c), x, cy)
    ensures Fits(a, x, m) && Fits(b, y, m) && Fits(c, y, m)
  {
  }

  lemma AfterFits(side: Side, p: Node?, a: Tree, x: Node, cx: Color, b: Tree, y: Node, cy: Color, c: Tree, m: Links,
                  m': Links)
    requires x in m && m[x] == MakeInfo(side, Root(a), y, p, cx) && y in m
             && m[y] == MakeInfo(side, Root(b), Root(c), x, cy)
    requires Fits(a, x, m) && Fits(b, y, m) && Fits(c, y, m) && Unique(b)
    requires x in m' && m'[x] == if side == Left then m[x].(right := Root(b), parent := y)
             else m[x].(left := Root(b), parent := y)
    requires y in m' && m'[y] == if side == Left then m[y].(left := x, parent := p) else m[y].(right := x, parent := p)
    requires b.T? ==> b.n in m && b.n in m' && m'[b.n] == m[b.n].(parent := x)
    requires SameOn(Nodes(a), m, m') && SameOn(Nodes(c), m, m') && SameOn(Nodes(b) - {Root(b)}, m, m')
    ensures Fits(AfterRotation(side, a, x, cx, b, y, cy, c), p, m')
  {
    hide Nodes, SameOn;
    FitsStays(a, x, m, m');
    FitsStays(c, y, m, m');
    FitsReparented(b, y, x, m, m');
  }

  // ------------------------------------------------------------ colours, leaves, replacing

  /** Recolouring the root of a subtree. */
  lemma RecolorFits(ctx: Ctx, s: Tree, c: Color, m: Links)
    requires s.T? && Fits(Plug(ctx, s), null, m) && Unique(Plug(ctx, s))
    ensures s.n in m && Fits(Plug(ctx, s.(c := c)), null, SetColor(m, s.n, c))
  {
    PlugFits(ctx, s, m);
    UniquePlug(ctx, s);
    var m' := SetColor(m, s.n, c);
    CtxFitsDomain(ctx, s.n, m);
    FitsDomain(s, ParentOf(ctx), m);
    CtxFitsStays(ctx, s.n, m, m');
    FitsStays(s.l, s.n, m, m');
    FitsStays(s.r, s.n, m, m');
    PlugFits(ctx, s.(c := c), m');
  }

  lemma RecolorInorder(ctx: Ctx, s: Tree, c: Color)
    requires s.T?
    ensures Inorder(Plug(ctx, s.(c := c))) == Inorder(Plug(ctx, s))
            && Nodes(Plug(ctx, s.(c := c))) == Nodes(Plug(ctx, s))
  {
    InorderPlug(ctx, s);
    InorderPlug(ctx, s.(c := c));
    NodesPlug(ctx, s);
    NodesPlug(ctx, s.(c := c));
  }

  /** The links after hanging a new node, node by node. */
  lemma AttachedIs(m: Links, ctx: Ctx, n: Node)
    requires n !in m && (ctx.In? ==> ctx.n in m)
    ensures var m' := Rehung(m[n := Info(null, null, ParentOf(ctx), Red)], ctx, n);
            && m'.Keys == m.Keys + {n} && m'[n] == Info(null, null, ParentOf(ctx), Red)
            && (ctx.In? ==> m'[ctx.n] == if ctx.side == Left then m[ctx.n].(left := n) else m[ctx.n].(right := n))
            && forall x | x in m && x != ParentOf(ctx) :: m'[x] == m[x]
  {
  }

  /** Hanging a new red node where a search ended. */
  lemma InsertFits(ctx: Ctx, n: Node, m: Links)
    requires Fits(Plug(ctx, Leaf), null, m) && CtxUnique(ctx) && n !in CtxNodes(ctx)
    ensures ctx.In? ==> ctx.n in m
    ensures Fits(Plug(ctx, T(Leaf, n, Red, Leaf)), null, Rehung(m[n := Info(null, null, ParentOf(ctx), Red)], ctx, n))
  {
    PlugFits(ctx, Leaf, m);
    CtxFitsDomain(ctx, null, m);
    var m' := Rehung(m[n := Info(null, null, ParentOf(ctx), Red)], ctx, n);
    CtxFitsRehung(ctx, null, n, m, m');
    PlugFits(ctx, T(Leaf, n, Red, Leaf), m');
  }

  /** The assignments that put a node's only child in its place. */
  function Spliced(m: Links, ctx: Ctx, child: Node?): Links
    requires (child != null ==> child in m) && (ctx.In? ==> ctx.n in m)
  {
    Rehung(Reparented(m, child, ParentOf(ctx)), ctx, child)
  }

  /** Putting the only child of a node in its place. */
  lemma SpliceFits(ctx: Ctx, s: Tree, child: Tree, m: Links)
    requires s.T? && Fits(Plug(ctx, s), null, m) && Unique(Plug(ctx, s))
    requires (s.l == Leaf && child == s.r) || (s.r == Leaf && child == s.l)
    ensures (child.T? ==> child.n in m) && (ctx.In? ==> ctx.n in m)
    ensures Fits(Plug(ctx, child), null, Spliced(m, ctx, Root(child)))
  {
    PlugFits(ctx, s, m);
    UniquePlug(ctx, s);
    CtxFitsDomain(ctx, s.n, m);
    FitsDomain(s, ParentOf(ctx), m);
    var m' := Spliced(m, ctx, Root(child));
    CtxFitsRehung(ctx, s.n, Root(child), m, m');
    FitsReparented(child, s.n, ParentOf(ctx), m, m');
    PlugFits(ctx, child, m');
  }

  /** The assignments that put node `to` in the place of `from`. */
  function Replaced(m: Links, ctx: Ctx, from: Node, to: Node, l: Node?, r: Node?): Links
    requires from in m && (ctx.In? ==> ctx.n in m) && (l != null ==> l in m) && (r != null ==> r in m)
  {
    var m1 := m[to := m[from]];
    var m2 := Rehung(m1, ctx, to);
    Reparented(Reparented(m2, l, to), r, to)
  }

  /** The links after replacing a node, node by node. */
  lemma ReplacedIs(m: Links, ctx: Ctx, from: Node, to: Node, l: Node?, r: Node?)
    requires from in m && to !in m && (ctx.In? ==> ctx.n in m) && (l != null ==> l in m) && (r != null ==> r in m)
    requires ctx.In? ==> ctx.n != l && ctx.n != r
    requires l != null ==> l != r
    ensures var m' := Replaced(m, ctx, from, to, l, r);
            && m'.Keys == m.Keys + {to} && m'[to] == m[from]
            && (ctx.In? ==> m'[ctx.n] == if ctx.side == Left then m[ctx.n].(left := to) else m[ctx.n].(right := to))
            && (l != null ==> m'[l] == m[l].(parent := to)) && (r != null ==> m'[r] == m[r].(parent := to))
            && forall n | n in m && n != ParentOf(ctx) && n != l && n != r :: m'[n] == m[n]
  {
  }

  /** The links after taking a node out, node by node. */
  lemma SplicedIs(m: Links, ctx: Ctx, child: Node?)
    requires (ctx.In? ==> ctx.n in m) && (child != null ==> child in m) && (child != null ==> child != ParentOf(ctx))
    ensures var m' := Spliced(m, ctx, child);
            && m'.Keys == m.Keys
            && (ctx.In? ==> m'[ctx.n] == if ctx.side == Left then m[ctx.n].(left := child)
                else m[ctx.n].(right := child))
            && (child != null ==> m'[child] == m[child].(parent := ParentOf(ctx)))
            && forall n | n in m && n != ParentOf(ctx) && n != child :: m'[n] == m[n]
  {
  }

  lemma ReplaceFits(ctx: Ctx, s: Tree, to: Node, m: Links)
    requires s.T? && Fits(Plug(ctx, s), null, m) && Unique(Plug(ctx, s)) && to !in Nodes(Plug(ctx, s))
    ensures s.n in m && (ctx.In? ==> ctx.n in m) && (s.l.T? ==> s.l.n in m) && (s.r.T? ==> s.r.n in m)
    ensures Fits(Plug(ctx, s.(n := to)), null, Replaced(m, ctx, s.n, to, Root(s.l), Root(s.r)))
  {
    hide Plug, Unique, CtxUnique, CtxFits;
    PlugFits(ctx, s, m);
    UniquePlug(ctx, s);
    NodesPlug(ctx, s);
    CtxFitsDomain(ctx, s.n, m);
    FitsDomain(s, ParentOf(ctx), m);
    PlugFits(ctx, s.(n := to), Replaced(m, ctx, s.n, to, Root(s.l), Root(s.r)));
    ReplaceParts(ctx, s, to, m);
  }

  lemma ReplaceParts(ctx: Ctx, s: Tree, to: Node, m: Links)
    requires s.T? && CtxFits(ctx, s.n, m) && Fits(s, ParentOf(ctx), m) && CtxUnique(ctx) && Unique(s)
    requires CtxNodes(ctx) !! Nodes(s) && to !in CtxNodes(ctx) + Nodes(s)
    requires s.n in m && (ctx.In? ==> ctx.n in m) && (s.l.T? ==> s.l.n in m) && (s.r.T? ==> s.r.n in m)
    requires CtxNodes(ctx) <= m.Keys && Nodes(s) <= m.Keys
    ensures var m' := Replaced(m, ctx, s.n, to, Root(s.l), Root(s.r));
            CtxFits(ctx, to, m') && Fits(s.(n := to), ParentOf(ctx), m')
  {
    var m' := Replaced(m, ctx, s.n, to, Root(s.l), Root(s.r));
    CtxFitsRehung(ctx, s.n, to, m, m');
    FitsReparented(s.l, s.n, to, m, m');
    FitsReparented(s.r, s.n, to, m, m');
  }

  // ------------------------------------------------------------ reading

  /** The fields of the subtree's root, and of its parent, as the code reads them. */
  lemma ReadNode(ctx: Ctx, s: Tree, m: Links)
    requires Fits(Plug(ctx, s), null, m) && Unique(Plug(ctx, s))
    ensures s.T? ==> s.n in m && m[s.n] == Info(Root(s.l), Root(s.r), ParentOf(ctx), s.c)
    ensures ctx.In? ==>
              ctx.n in m && m[ctx.n] == MakeInfo(ctx.side, Root(s), Root(ctx.sibling), ParentOf(ctx.up), ctx.c)
    ensures ctx.In? ==> (m[ctx.n].left == Root(s) <==> ctx.side == Left || (s.Leaf? && ctx.sibling.Leaf?))
    ensures ctx.In? ==> (m[ctx.n].right == Root(s) <==> ctx.side == Right || (s.Leaf? && ctx.sibling.Leaf?))
  {
    PlugFits(ctx, s, m);
    UniquePlug(ctx, s);
  }
}
