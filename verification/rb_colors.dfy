/** How recolouring and rotating repair a red-black tree: what each case of
  RB_INSERT_COLOR and RB_REMOVE_COLOR in compat/tree.h keeps.
*/
module RbColors {
  import opened RbShape
  import opened RbLinks

  /** Balanced, no red under red, black root. */
  predicate Sound(t: Tree) {
    Balanced(t) && NoRedRed(t) && !IsRed(t)
  }

  /** One level of a tree, and of a context. */
  lemma JoinIs(d: Side, near: Tree, n: Node, c: Color, far: Tree)
    ensures var t := Join(d, near, n, c, far);
            && t.T? && IsRed(t) == (c == Red)
            && (Balanced(t) <==> Balanced(near) && Balanced(far) && BlackHeight(near) == BlackHeight(far))
            && (Balanced(t) ==> BlackHeight(t) == BlackHeight(near) + Weight(c))
            && (NoRedRed(t) <==> NoRedRed(near) && NoRedRed(far) && (c == Red ==> !IsRed(near) && !IsRed(far)))
  {
  }

  lemma InIs(side: Side, n: Node, c: Color, sib: Tree, up: Ctx, h: nat, red: bool)
    ensures CtxBalanced(In(side, n, c, sib, up), h) <==>
            Balanced(sib) && BlackHeight(sib) == h && CtxBalanced(up, h + Weight(c))
    ensures CtxNoRedRed(In(side, n, c, sib, up), red) <==>
            NoRedRed(sib) && (c == Red ==> !red && !IsRed(sib)) && CtxNoRedRed(up, c == Red)
    ensures CtxRootBlack(In(side, n, c, sib, up)) <==> if up.Top? then c == Black else CtxRootBlack(up)
  {
  }

  /** A node painted black or red. */
  lemma PaintedIs(t: Tree, c: Color)
    requires t.T?
    ensures var p := t.(c := c);
            && IsRed(p) == (c == Red) && (Balanced(p) <==> Balanced(t))
            && BlackHeight(p) + Weight(t.c) == BlackHeight(t) + Weight(c)
            && (NoRedRed(t) ==> c == Black ==> NoRedRed(p))
            && (NoRedRed(p) <==> NoRedRed(t.l) && NoRedRed(t.r) && (c == Red ==> !IsRed(t.l) && !IsRed(t.r)))
  {
  }

  // ------------------------------------------------------------ insertion

  /** A red node that may stand under a red parent; all else is sound. */
  ghost predicate Inserting(ctx: Ctx, s: Tree) {
    && IsRed(s) && Balanced(s) && NoRedRed(s)
    && CtxBalanced(ctx, BlackHeight(s)) && CtxNoRedRed(ctx, false) && (ctx.In? ==> CtxRootBlack(ctx))
  }

  /** A new leaf. */
  lemma InsertStart(ctx: Ctx, n: Node)
    requires Sound(Plug(ctx, Leaf))
    ensures Inserting(ctx, T(Leaf, n, Red, Leaf))
  {
    PlugBalanced(ctx, Leaf);
    PlugNoRedRed(ctx, Leaf);
    if ctx.In? {
      PlugRootBlack(ctx, Leaf);
    }
  }

  /** A red parent has a black parent. */
  lemma InsertParent(ctx: Ctx, s: Tree)
    requires Inserting(ctx, s) && ctx.In? && ctx.c == Red
    ensures ctx.up.In? && ctx.up.c == Black
  {
    InIs(ctx.side, ctx.n, ctx.c, ctx.sibling, ctx.up, BlackHeight(s), false);
    if ctx.up.In? {
      InIs(ctx.up.side, ctx.up.n, ctx.up.c, ctx.up.sibling, ctx.up.up, BlackHeight(s), true);
    }
  }

  /** Red uncle: recolour, and go on from the grandparent. */
  lemma InsertRecolor(d: Side, side: Side, s: Tree, p: Node, sib: Tree, g: Node, u: Tree, up: Ctx)
    requires Inserting(In(side, p, Red, sib, In(d, g, Black, u, up)), s) && IsRed(u)
    ensures Inserting(up, Join(d, Join(side, s, p, Black, sib), g, Red, u.(c := Black)))
  {
    hide Balanced, NoRedRed, BlackHeight, CtxBalanced, CtxNoRedRed, CtxRootBlack, Join;
    var h := BlackHeight(s);
    InIs(side, p, Red, sib, In(d, g, Black, u, up), h, false);
    InIs(d, g, Black, u, up, h, true);
    JoinIs(side, s, p, Black, sib);
    JoinIs(d, Join(side, s, p, Black, sib), g, Red, u.(c := Black));
    PaintedIs(u, Black);
  }

  /** The new node is an inner grandchild: a rotation makes its parent an outer one. */
  lemma InsertTurn(d: Side, a: Tree, p: Node, b: Tree, e: Node, c: Tree, up: Ctx)
    requires Inserting(In(Other(d), p, Red, a, up), Join(d, b, e, Red, c))
    ensures Inserting(In(d, e, Red, c, up), Join(d, a, p, Red, b))
  {
    hide Balanced, NoRedRed, BlackHeight, CtxBalanced, CtxNoRedRed, CtxRootBlack, Join;
    var h := BlackHeight(Join(d, b, e, Red, c));
    InIs(Other(d), p, Red, a, up, h, false);
    InIs(d, e, Red, c, up, h, false);
    JoinIs(d, b, e, Red, c);
    JoinIs(d, a, p, Red, b);
  }

  /** Black uncle, outer grandchild: recolour and rotate the grandparent. */
  lemma InsertFinish(d: Side, s: Tree, p: Node, sib: Tree, g: Node, u: Tree, up: Ctx)
    requires Inserting(In(d, p, Red, sib, In(d, g, Black, u, up)), s) && !IsRed(u)
    ensures Inserting(In(d, p, Black, Join(d, sib, g, Red, u), up), s)
  {
    hide Balanced, NoRedRed, BlackHeight, CtxBalanced, CtxNoRedRed, CtxRootBlack, Join;
    var h := BlackHeight(s);
    InIs(d, p, Red, sib, In(d, g, Black, u, up), h, false);
    InIs(d, g, Black, u, up, h, true);
    JoinIs(d, sib, g, Red, u);
    InIs(d, p, Black, Join(d, sib, g, Red, u), up, h, false);
  }

  /** Black parent, or no parent: only the root may still be red. */
  lemma InsertDone(ctx: Ctx, s: Tree)
    requires Inserting(ctx, s) && (ctx.In? ==> ctx.c == Black)
    ensures Plug(ctx, s).T? && Sound(Plug(ctx, s).(c := Black))
  {
    PlugBalanced(ctx, s);
    assert CtxNoRedRed(ctx, true);
    PlugNoRedRed(ctx, s);
    if ctx.In? {
      PlugRootBlack(ctx, s);
    }
  }

  // ------------------------------------------------------------ removal

  /** A subtree that is one black node short; its root counts as black. */
  ghost predicate Removing(ctx: Ctx, s: Tree) {
    && Balanced(s) && NoRedRed(Blackened(s))
    && CtxBalanced(ctx, BlackHeight(s) + 1) && CtxNoRedRed(ctx, false) && (ctx.In? ==> CtxRootBlack(ctx))
  }

  function Blackened(s: Tree): Tree {
    if s.T? then s.(c := Black) else Leaf
  }

  /** Splicing out a node with at most one child: a black one leaves its place one
      short, a red one leaves a sound tree. */
  lemma SpliceStart(ctx: Ctx, s: Tree, child: Tree)
    requires Sound(Plug(ctx, s)) && s.T? && ((s.l == Leaf && child == s.r) || (s.r == Leaf && child == s.l))
    ensures s.c == Black ==> Removing(ctx, child)
    ensures s.c == Red ==> Sound(Plug(ctx, child))
  {
    hide Balanced, BlackHeight, NoRedRed, CtxBalanced, CtxNoRedRed, CtxRootBlack, Join, Plug;
    PlugBalanced(ctx, s);
    PlugNoRedRed(ctx, s);
    PlugRoot(ctx, s);
    PlugRoot(ctx, child);
    OneChild(s, child);
    CtxNoRedRedBlack(ctx, IsRed(s));
    PlugBalanced(ctx, child);
    PlugNoRedRed(ctx, child);
  }

  lemma PlugRoot(ctx: Ctx, s: Tree)
    ensures if ctx.In? then !IsRed(Plug(ctx, s)) <==> CtxRootBlack(ctx) else Plug(ctx, s) == s
  {
    if ctx.In? {
      PlugRootBlack(ctx, s);
    }
  }

  lemma OneChild(s: Tree, child: Tree)
    requires s.T? && Balanced(s) && NoRedRed(s) && ((s.l == Leaf && child == s.r) || (s.r == Leaf && child == s.l))
    ensures BlackHeight(child) + Weight(s.c) == BlackHeight(s) && Balanced(child) && NoRedRed(child)
            && NoRedRed(Blackened(child))
    ensures s.c == Red ==> !IsRed(child)
  {
  }

  /** The sibling of a short subtree is not empty; a red one has a black parent and
      black children. */
  lemma RemoveSibling(ctx: Ctx, s: Tree)
    requires Removing(ctx, s) && ctx.In?
    ensures ctx.sibling.T?
    ensures IsRed(ctx.sibling) ==>
              ctx.c == Black && ctx.sibling.l.T? && ctx.sibling.r.T? && !IsRed(ctx.sibling.l) && !IsRed(ctx.sibling.r)
  {
    InIs(ctx.side, ctx.n, ctx.c, ctx.sibling, ctx.up, BlackHeight(s) + 1, false);
  }

  /** Red sibling y with children b (the inner one) and c. */
  lemma RemoveRedSibling(d: Side, s: Tree, x: Node, b: Tree, y: Node, c: Tree, up: Ctx)
    requires Removing(In(d, x, Black, Join(d, b, y, Red, c), up), s)
    ensures Removing(In(d, x, Red, b, In(d, y, Black, c, up)), s)
  {
    hide Balanced, NoRedRed, BlackHeight, CtxBalanced, CtxNoRedRed, CtxRootBlack, Join;
    var h := BlackHeight(s) + 1;
    InIs(d, x, Black, Join(d, b, y, Red, c), up, h, false);
    JoinIs(d, b, y, Red, c);
    InIs(d, x, Red, b, In(d, y, Black, c, up), h, false);
    InIs(d, y, Black, c, up, h, true);
  }

  /** Black sibling with black children: make it red, and the whole is short. */
  lemma RemoveRecolor(d: Side, s: Tree, x: Node, cx: Color, sib: Tree, up: Ctx)
    requires Removing(In(d, x, cx, sib, up), s) && !IsRed(s) && sib.T? && sib.c == Black && !IsRed(sib.l)
             && !IsRed(sib.r)
    ensures Removing(up, Join(d, s, x, cx, sib.(c := Red)))
  {
    hide Balanced, BlackHeight, CtxBalanced, CtxNoRedRed, CtxRootBlack;
    var red := sib.(c := Red);
    assert NoRedRed(s) by { if s.T? { PaintedIs(s, Black); } else { } }
    InIs(d, x, cx, sib, up, BlackHeight(s) + 1, false);
    PaintedIs(sib, Red);
    PaintedIs(sib, Black);
    JoinIs(d, s, x, cx, red);
    JoinIs(d, s, x, Black, red);
    assert Blackened(Join(d, s, x, cx, red)) == Join(d, s, x, Black, red);
    CtxNoRedRedBlack(up, cx == Red);
  }

  /** Black sibling y whose outer child is black and inner child z is red: rotated
      and recoloured, the outer child is red. */
  lemma RemoveTurn(d: Side, s: Tree, x: Node, cx: Color, i: Tree, z: Node, j: Tree, y: Node, c: Tree, up: Ctx)
    requires Removing(In(d, x, cx, Join(d, Join(d, i, z, Red, j), y, Black, c), up), s) && !IsRed(c)
    ensures Removing(In(d, x, cx, Join(d, i, z, Black, Join(d, j, y, Red, c)), up), s)
  {
    hide Balanced, NoRedRed, BlackHeight, CtxBalanced, CtxNoRedRed, CtxRootBlack, Join;
    var h := BlackHeight(s) + 1;
    JoinIs(d, i, z, Red, j);
    JoinIs(d, Join(d, i, z, Red, j), y, Black, c);
    JoinIs(d, j, y, Red, c);
    JoinIs(d, i, z, Black, Join(d, j, y, Red, c));
    InIs(d, x, cx, Join(d, Join(d, i, z, Red, j), y, Black, c), up, h, false);
    InIs(d, x, cx, Join(d, i, z, Black, Join(d, j, y, Red, c)), up, h, false);
  }

  /** Black sibling y with a red outer child c: rotate x down beside s, and nothing
      is short any more. */
  lemma RemoveFinish(d: Side, s: Tree, x: Node, cx: Color, b: Tree, y: Node, c: Tree, up: Ctx)
    requires Removing(In(d, x, cx, Join(d, b, y, Black, c), up), s) && !IsRed(s) && IsRed(c)
    ensures Sound(Plug(up, Join(d, Join(d, s, x, Black, b), y, cx, c.(c := Black))))
  {
    hide Balanced, BlackHeight, CtxBalanced, CtxNoRedRed, CtxRootBlack, Join;
    var t := Join(d, Join(d, s, x, Black, b), y, cx, c.(c := Black));
    assert NoRedRed(s) by { if s.T? { PaintedIs(s, Black); } else { } }
    JoinIs(d, b, y, Black, c);
    InIs(d, x, cx, Join(d, b, y, Black, c), up, BlackHeight(s) + 1, false);
    JoinIs(d, s, x, Black, b);
    PaintedIs(c, Black);
    JoinIs(d, Join(d, s, x, Black, b), y, cx, c.(c := Black));
    PlugBalanced(up, t);
    PlugNoRedRed(up, t);
    if up.In? {
      PlugRootBlack(up, t);
    }
  }

  /** A red root of the short subtree, or the whole tree: blackening it is enough. */
  lemma RemoveDone(ctx: Ctx, s: Tree)
    requires Removing(ctx, s) && (IsRed(s) || ctx.Top?)
    ensures Sound(Plug(ctx, Blackened(s)))
  {
    var t := Blackened(s);
    PlugBalanced(ctx, t);
    PlugNoRedRed(ctx, t);
    if ctx.In? {
      PlugRootBlack(ctx, t);
    }
  }

  // ------------------------------------------------------------ replacing a node in a context

  /** The context `inner` inside the context `outer`. */
  function Within(inner: Ctx, outer: Ctx): Ctx {
    if inner.Top? then outer else In(inner.side, inner.n, inner.c, inner.sibling, Within(inner.up, outer))
  }

  lemma {:induction false} PlugWithin(inner: Ctx, outer: Ctx, s: Tree)
    ensures Plug(Within(inner, outer), s) == Plug(outer, Plug(inner, s))
    decreases inner
  {
    if inner.In? {
      PlugWithin(inner.up, outer, Join(inner.side, s, inner.n, inner.c, inner.sibling));
    }
  }

  /** Colours do not depend on which node stands where. */
  lemma {:induction false} RenamedBalanced(inner: Ctx, outer: Ctx, n: Node, h: nat)
    requires outer.In?
    ensures CtxBalanced(Within(inner, outer.(n := n)), h) == CtxBalanced(Within(inner, outer), h)
    decreases inner
  {
    if inner.In? {
      RenamedBalanced(inner.up, outer, n, h + Weight(inner.c));
    }
  }

  lemma {:induction false} RenamedNoRedRed(inner: Ctx, outer: Ctx, n: Node, red: bool)
    requires outer.In?
    ensures CtxNoRedRed(Within(inner, outer.(n := n)), red) == CtxNoRedRed(Within(inner, outer), red)
    decreases inner
  {
    if inner.In? {
      RenamedNoRedRed(inner.up, outer, n, inner.c == Red);
    }
  }

  lemma {:induction false} RenamedRootBlack(inner: Ctx, outer: Ctx, n: Node)
    requires outer.In?
    ensures CtxRootBlack(Within(inner, outer.(n := n))) == CtxRootBlack(Within(inner, outer))
    decreases inner
  {
    if inner.In? {
      RenamedRootBlack(inner.up, outer, n);
    }
  }

  /** Putting node n where outer's node was. */
  lemma RenamedRemoving(inner: Ctx, outer: Ctx, n: Node, s: Tree)
    requires outer.In?
    ensures Removing(Within(inner, outer), s) ==> Removing(Within(inner, outer.(n := n)), s)
    ensures Sound(Plug(Within(inner, outer), s)) ==> Sound(Plug(Within(inner, outer.(n := n)), s))
  {
    var ctx, ctx' := Within(inner, outer), Within(inner, outer.(n := n));
    RenamedBalanced(inner, outer, n, BlackHeight(s) + 1);
    RenamedBalanced(inner, outer, n, BlackHeight(s));
    RenamedNoRedRed(inner, outer, n, false);
    RenamedNoRedRed(inner, outer, n, IsRed(s));
    RenamedRootBlack(inner, outer, n);
    PlugBalanced(ctx, s);
    PlugBalanced(ctx', s);
    PlugNoRedRed(ctx, s);
    PlugNoRedRed(ctx', s);
    PlugRootBlack(ctx, s);
    PlugRootBlack(ctx', s);
  }
}
