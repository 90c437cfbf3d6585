/** Red-black trees with parent pointers (compat/tree.h). Keys are integers,
  compared as the cmp argument of RB_GENERATE compares elements.

  The ghost field `tree` is the value the linked nodes stand for; the fix-up
  loops carry the context of the node they are at as ghost state.
*/
module RedBlack {
  import opened RbShape
  import opened RbLinks
  import opened RbColors
  import opened RbSearch

  class Head {
    var root: Node?
    ghost var tree: Tree

    /** RB_INIT() */
    constructor ()
      ensures Valid() && tree == Leaf
    {
      root, tree := null, Leaf;
    }

    /** The nodes are linked as the tree says, parents included, and ordered. */
    ghost predicate Linked()
      reads this, Nodes(tree)
    {
      root == Root(tree) && Fits(tree, null, Snap(Nodes(tree))) && Ordered(Inorder(tree))
    }

    ghost predicate Valid()
      reads this, Nodes(tree)
    {
      Linked() && Balanced(tree) && NoRedRed(tree) && !IsRed(tree)
    }

    static ghost function Snap(nodes: set<Node>): Links
      reads nodes
    {
      map n | n in nodes :: Info(n.left, n.right, n.parent, n.color)
    }

    // ---------------------------------------------------------- pointer steps

    lemma LinkedUnique()
      requires Linked()
      ensures Unique(tree)
    {
      OrderedUnique(tree);
    }

    /** What the fields of a node, and of its parent, say. */
    lemma At(ctx: Ctx, s: Tree)
      requires Linked() && tree == Plug(ctx, s)
      ensures s.T? ==>
                && s.n in Nodes(tree) && s.n.left == Root(s.l) && s.n.right == Root(s.r)
                && s.n.parent == ParentOf(ctx) && s.n.color == s.c
      ensures ctx.In? ==>
                && ctx.n in Nodes(tree) && ctx.n.color == ctx.c && ctx.n.parent == ParentOf(ctx.up)
                && (if ctx.side == Left then ctx.n.left == Root(s) && ctx.n.right == Root(ctx.sibling)
                    else ctx.n.right == Root(s) && ctx.n.left == Root(ctx.sibling))
                && (s.T? ==> (ctx.n.left == s.n <==> ctx.side == Left) && (ctx.n.right == s.n <==> ctx.side == Right))
      ensures ctx.Top? ==> root == Root(s)
    {
      LinkedUnique();
      ReadNode(ctx, s, Snap(Nodes(tree)));
      NodesPlug(ctx, s);
    }

    /** Setting a colour. */
    method Paint(n: Node, c: Color, ghost ctx: Ctx, ghost s: Tree)
      requires Linked() && tree == Plug(ctx, s) && s.T? && s.n == n
      modifies this`tree, n`color
      ensures Linked() && tree == Plug(ctx, s.(c := c)) && Nodes(tree) == old(Nodes(tree))
              && Inorder(tree) == old(Inorder(tree))
    {
      hide Fits, Inorder, Nodes, Ordered, Plug, TopNode, Unique;
      At(ctx, s);
      LinkedUnique();
      ghost var nodes := Nodes(tree);
      ghost var m := Snap(nodes);
      RecolorFits(ctx, s, c, m);
      RecolorInorder(ctx, s, c);
      n.color := c;
      tree := Plug(ctx, s.(c := c));
      RootPlug(ctx, s);
      RootPlug(ctx, s.(c := c));
      assert Snap(nodes) == SetColor(m, n, c);
    }

    /** What RB_ROTATE_LEFT and RB_ROTATE_RIGHT read. */
    lemma RotationAt(side: Side, ctx: Ctx, a: Tree, x: Node, cx: Color, b: Tree, y: Node, cy: Color, c: Tree)
      requires Linked() && tree == Plug(ctx, BeforeRotation(side, a, x, cx, b, y, cy, c))
      ensures x in Nodes(tree) && y in Nodes(tree) && Root(b) in Nodes(tree) + {null}
              && ParentOf(ctx) in Nodes(tree) + {null}
      ensures x.parent == ParentOf(ctx) && Different(x, y, Root(b), ParentOf(ctx))
      ensures if side == Left then x.right == y && y.left == Root(b) else x.left == y && y.right == Root(b)
      ensures ctx.In? ==> (ctx.n.left == x <==> ctx.side == Left)
      ensures Unique(tree) && Fits(tree, null, Snap(Nodes(tree))) && Ordered(Inorder(tree)) && root == Root(tree)
      ensures Snap(Nodes(tree)).Keys == Nodes(tree) && forall n | n in Nodes(tree) :: Snap(Nodes(tree))[n] == Fields(n)
    {
      hide CtxNodes, CtxUnique, Fits, Inorder, Nodes, Ordered, Plug, Snap, Unique;
      assert Fits(tree, null, Snap(Nodes(tree))) && Ordered(Inorder(tree)) && root == Root(tree);
      SnapOf(Nodes(tree));
      ghost var s := BeforeRotation(side, a, x, cx, b, y, cy, c);
      PlugTwice(side, ctx, a, x, cx, b, y, cy, c);
      At(ctx, s);
      At(In(Other(side), x, cx, a, ctx), Join(side, b, y, cy, c));
      At(In(side, y, cy, c, In(Other(side), x, cx, a, ctx)), b);
      LinkedUnique();
      UniquePlug(ctx, s);
      RotationDifferent(side, ctx, a, x, cx, b, y, cy, c);
    }

    /** What the assignments of a rotation change; m holds the former fields. */
    static ghost predicate RotatedNow(side: Side, nodes: set<Node>, m: Links, x: Node, y: Node, inner: Node?, ctx: Ctx)
      requires m.Keys == nodes && x in nodes && y in nodes
      reads nodes
    {
      && x.parent == y && x.color == m[x].color && y.parent == ParentOf(ctx) && y.color == m[y].color
      && (if side == Left then x.right == inner && x.left == m[x].left && y.left == x && y.right == m[y].right
          else x.left == inner && x.right == m[x].right && y.right == x && y.left == m[y].left)
      && (inner != null && inner in nodes ==>
            inner.parent == x && inner.left == m[inner].left && inner.right == m[inner].right
              && inner.color == m[inner].color)
      && (ctx.In? && ctx.n in nodes ==>
            && ctx.n.parent == m[ctx.n].parent && ctx.n.color == m[ctx.n].color
            && ctx.n.left == (if ctx.side == Left then y else m[ctx.n].left)
            && ctx.n.right == (if ctx.side == Right then y else m[ctx.n].right))
      && forall n | n in nodes && n != x && n != y && n != inner && n != ParentOf(ctx) :: Fields(n) == m[n]
    }

    /** After the assignments of a rotation. */
    lemma RotationDone(side: Side, ctx: Ctx, a: Tree, x: Node, cx: Color, b: Tree, y: Node, cy: Color, c: Tree,
                       t: Tree, m: Links)
      requires t == Plug(ctx, BeforeRotation(side, a, x, cx, b, y, cy, c)) && Unique(t) && Fits(t, null, m)
               && Ordered(Inorder(t))
      requires tree == Plug(ctx, AfterRotation(side, a, x, cx, b, y, cy, c)) && m.Keys == Nodes(t)
      requires x in Nodes(t) && y in Nodes(t) && RotatedNow(side, Nodes(t), m, x, y, Root(b), ctx)
      requires root == if ctx.Top? then y else Root(t)
      ensures Linked() && Nodes(tree) == Nodes(t) && Inorder(tree) == Inorder(t)
    {
      hide Fits, Inorder, Nodes, Ordered, Plug, Unique;
      LinksBefore(side, ctx, a, x, cx, b, y, cy, c, t, m);
      ghost var m' := Rotated(m, side, ctx, x, y, Root(b));
      assert Snap(Nodes(t)) == m';
      RotatedTree(side, ctx, a, x, cx, b, y, cy, c);
    }

    static lemma LinksBefore(side: Side, ctx: Ctx, a: Tree, x: Node, cx: Color, b: Tree, y: Node, cy: Color, c: Tree,
                             t: Tree, m: Links)
      requires t == Plug(ctx, BeforeRotation(side, a, x, cx, b, y, cy, c)) && Unique(t) && Fits(t, null, m)
      ensures x in m && y in m && (b.T? ==> b.n in m) && (ctx.In? ==> ctx.n in m)
      ensures var m' := Rotated(m, side, ctx, x, y, Root(b));
              && m'.Keys == m.Keys && Different(x, y, Root(b), ParentOf(ctx))
              && m'[x] == (if side == Left then m[x].(right := Root(b), parent := y)
                           else m[x].(left := Root(b), parent := y))
              && m'[y] == (if side == Left then m[y].(left := x, parent := ParentOf(ctx))
                           else m[y].(right := x, parent := ParentOf(ctx)))
              && (b.T? ==> m'[b.n] == m[b.n].(parent := x))
              && (ctx.In? ==> m'[ctx.n] == if ctx.side == Left then m[ctx.n].(left := y) else m[ctx.n].(right := y))
              && SameOn(m.Keys - {x, y, Root(b), ParentOf(ctx)}, m, m')
              && Fits(Plug(ctx, AfterRotation(side, a, x, cx, b, y, cy, c)), null, m')
    {
      hide CtxNodes, CtxUnique, Fits, Nodes, Plug, SameOn, Unique;
      UniquePlug(ctx, BeforeRotation(side, a, x, cx, b, y, cy, c));
      RotationFits(side, ctx, a, x, cx, b, y, cy, c, m);
      RotationDifferent(side, ctx, a, x, cx, b, y, cy, c);
      RotatedIs(m, side, ctx, x, y, Root(b));
    }

    static ghost function Fields(n: Node): Info
      reads n
    {
      Info(n.left, n.right, n.parent, n.color)
    }

    static lemma SnapOf(nodes: set<Node>)
      ensures Snap(nodes).Keys == nodes && forall n | n in nodes :: Snap(nodes)[n] == Fields(n)
    {
    }

    /** The statement that puts `to` where its parent, or the head, has `elm`. */
    method Rehang(elm: Node, to: Node?, parent: Node?, ghost ctx: Ctx)
      requires parent == ParentOf(ctx) && (ctx.In? ==> (ctx.n.left == elm <==> ctx.side == Left))
      modifies this`root, if parent == null then {} else {parent}
      ensures ctx.Top? ==> root == to
      ensures ctx.In? ==>
                && root == old(root) && ctx.n.parent == old(ctx.n.parent) && ctx.n.color == old(ctx.n.color)
                && ctx.n.left == (if ctx.side == Left then to else old(ctx.n.left))
                && ctx.n.right == (if ctx.side == Right then to else old(ctx.n.right))
    {
      if parent != null {
        if elm == parent.left {
          parent.left := to;
        } else {
          parent.right := to;
        }
      } else {
        root := to;
      }
    }

    /** RB_ROTATE_LEFT(): the assignments, with `inner` the child that moves over. */
    method RelinkLeft(elm: Node, ghost ctx: Ctx, ghost y: Node, ghost inner: Node?, ghost nodes: set<Node>,
                      ghost m: Links)
      requires m.Keys == nodes && forall n | n in nodes :: m[n] == Fields(n)
      requires elm in nodes && y in nodes && (inner != null ==> inner in nodes) && (ctx.In? ==> ctx.n in nodes)
      requires Different(elm, y, inner, ParentOf(ctx)) && elm.right == y && y.left == inner
               && elm.parent == ParentOf(ctx)
      requires ctx.In? ==> (ctx.n.left == elm <==> ctx.side == Left)
      modifies this`root, nodes
      ensures RotatedNow(Left, nodes, m, elm, y, inner, ctx)
      ensures root == if ctx.Top? then y else old(root)
    {
      var tmp := elm.right;
      elm.right := tmp.left;
      if elm.right != null {
        tmp.left.parent := elm;
      }
      tmp.parent := elm.parent;
      Rehang(elm, tmp, tmp.parent, ctx);
      tmp.left := elm;
      elm.parent := tmp;
    }

    /** A rotation to the left in the tree. */
    method RotateLeft(elm: Node, ghost ctx: Ctx, ghost a: Tree, ghost cx: Color, ghost b: Tree, ghost y: Node,
                      ghost cy: Color, ghost c: Tree)
      requires Linked() && tree == Plug(ctx, BeforeRotation(Left, a, elm, cx, b, y, cy, c))
      modifies this, Nodes(tree)
      ensures Linked() && tree == Plug(ctx, AfterRotation(Left, a, elm, cx, b, y, cy, c))
      ensures Nodes(tree) == old(Nodes(tree)) && Inorder(tree) == old(Inorder(tree))
    {
      hide Fits, Inorder, Nodes, Ordered, Plug, RotatedNow, Snap, Unique;
      RotationAt(Left, ctx, a, elm, cx, b, y, cy, c);
      ghost var t, nodes, m := tree, Nodes(tree), Snap(Nodes(tree));
      RelinkLeft(elm, ctx, y, Root(b), nodes, m);
      tree := Plug(ctx, AfterRotation(Left, a, elm, cx, b, y, cy, c));
      RotationDone(Left, ctx, a, elm, cx, b, y, cy, c, t, m);
    }

    /** RB_ROTATE_RIGHT(): the assignments, with `inner` the child that moves over. */
    method RelinkRight(elm: Node, ghost ctx: Ctx, ghost y: Node, ghost inner: Node?, ghost nodes: set<Node>,
                       ghost m: Links)
      requires m.Keys == nodes && forall n | n in nodes :: m[n] == Fields(n)
      requires elm in nodes && y in nodes && (inner != null ==> inner in nodes) && (ctx.In? ==> ctx.n in nodes)
      requires Different(elm, y, inner, ParentOf(ctx)) && elm.left == y && y.right == inner
               && elm.parent == ParentOf(ctx)
      requires ctx.In? ==> (ctx.n.left == elm <==> ctx.side == Left)
      modifies this`root, nodes
      ensures RotatedNow(Right, nodes, m, elm, y, inner, ctx)
      ensures root == if ctx.Top? then y else old(root)
    {
      var tmp := elm.left;
      elm.left := tmp.right;
      if elm.left != null {
        tmp.right.parent := elm;
      }
      tmp.parent := elm.parent;
      Rehang(elm, tmp, tmp.parent, ctx);
      tmp.right := elm;
      elm.parent := tmp;
    }

    /** A rotation to the right in the tree. */
    method RotateRight(elm: Node, ghost ctx: Ctx, ghost a: Tree, ghost cx: Color, ghost b: Tree, ghost y: Node,
                       ghost cy: Color, ghost c: Tree)
      requires Linked() && tree == Plug(ctx, BeforeRotation(Right, a, elm, cx, b, y, cy, c))
      modifies this, Nodes(tree)
      ensures Linked() && tree == Plug(ctx, AfterRotation(Right, a, elm, cx, b, y, cy, c))
      ensures Nodes(tree) == old(Nodes(tree)) && Inorder(tree) == old(Inorder(tree))
    {
      hide Fits, Inorder, Nodes, Ordered, Plug, RotatedNow, Snap, Unique;
      RotationAt(Right, ctx, a, elm, cx, b, y, cy, c);
      ghost var t, nodes, m := tree, Nodes(tree), Snap(Nodes(tree));
      RelinkRight(elm, ctx, y, Root(b), nodes, m);
      tree := Plug(ctx, AfterRotation(Right, a, elm, cx, b, y, cy, c));
      RotationDone(Right, ctx, a, elm, cx, b, y, cy, c, t, m);
    }

    // ---------------------------------------------------------- insertion

    /** Setting the colour of the parent, in terms of the context. */
    method PaintParent(n: Node, c: Color, ghost ctx: Ctx, ghost s: Tree)
      requires Linked() && tree == Plug(ctx, s) && ctx.In? && ctx.n == n
      modifies this`tree, n`color
      ensures Linked() && tree == Plug(ctx.(c := c), s) && Nodes(tree) == old(Nodes(tree))
              && Inorder(tree) == old(Inorder(tree))
    {
      hide Linked, Nodes, Inorder;
      Paint(n, c, ctx.up, Join(ctx.side, s, n, ctx.c, ctx.sibling));
    }

    /** Setting the colour of the sibling. */
    method PaintSibling(n: Node, c: Color, ghost ctx: Ctx, ghost s: Tree)
      requires Linked() && tree == Plug(ctx, s) && ctx.In? && ctx.sibling.T? && ctx.sibling.n == n
      modifies this`tree, n`color
      ensures Linked() && tree == Plug(ctx.(sibling := ctx.sibling.(c := c)), s)
      ensures Nodes(tree) == old(Nodes(tree)) && Inorder(tree) == old(Inorder(tree))
    {
      hide Linked, Nodes, Inorder;
      Paint(n, c, In(Other(ctx.side), ctx.n, ctx.c, s, ctx.up), ctx.sibling);
    }

    /** RB_SET_BLACKRED() of the parent and the grandparent. */
    method SetBlackRed(parent: Node, gparent: Node, ghost ctx: Ctx, ghost s: Tree)
      requires Linked() && tree == Plug(ctx, s) && ctx.In? && ctx.n == parent && ctx.up.In? && ctx.up.n == gparent
      modifies this`tree, parent`color, gparent`color
      ensures Linked() && tree == Plug(ctx.(c := Black, up := ctx.up.(c := Red)), s)
      ensures Nodes(tree) == old(Nodes(tree)) && Inorder(tree) == old(Inorder(tree))
    {
      hide Linked, Nodes, Inorder;
      PaintParent(parent, Black, ctx, s);
      PaintParent(gparent, Red, ctx.up, Join(ctx.side, s, parent, Black, ctx.sibling));
    }

    /** The subtree at the grandparent after recolouring it, its child and the uncle. */
    static ghost function Recolored(ctx: Ctx, s: Tree): Tree
      requires ctx.In? && ctx.up.In? && ctx.up.sibling.T?
    {
      Join(ctx.up.side, Join(ctx.side, s, ctx.n, Black, ctx.sibling), ctx.up.n, Red, ctx.up.sibling.(c := Black))
    }

    method RecolorFamily(tmp: Node, parent: Node, gparent: Node, ghost ctx: Ctx, ghost s: Tree)
      requires Linked() && tree == Plug(ctx, s) && ctx.In? && ctx.n == parent && ctx.up.In? && ctx.up.n == gparent
      requires ctx.up.sibling.T? && ctx.up.sibling.n == tmp
      modifies this`tree, tmp`color, parent`color, gparent`color
      ensures Linked() && tree == Plug(ctx.up.up, Recolored(ctx, s))
      ensures Nodes(tree) == old(Nodes(tree)) && Inorder(tree) == old(Inorder(tree))
    {
      hide Linked, Nodes, Inorder;
      PaintSibling(tmp, Black, ctx.up, Join(ctx.side, s, parent, ctx.c, ctx.sibling));
      SetBlackRed(parent, gparent, ctx.(up := ctx.up.(sibling := ctx.up.sibling.(c := Black))), s);
    }

    /** What the loop reads at the parent, the grandparent and the uncle. */
    lemma ReadFamily(ctx: Ctx, s: Tree)
      requires Linked() && tree == Plug(ctx, s) && s.T? && ctx.In? && ctx.up.In?
      ensures s.n.parent == ctx.n && ctx.n.parent == ctx.up.n && ctx.n.color == ctx.c
      ensures {s.n, ctx.n, ctx.up.n} <= Nodes(tree)
      ensures ctx.up.n.left == ctx.n <==> ctx.up.side == Left
      ensures (if ctx.up.side == Left then ctx.up.n.right else ctx.up.n.left) == Root(ctx.up.sibling)
      ensures ctx.up.sibling.T? ==> ctx.up.sibling.n in Nodes(tree) && ctx.up.sibling.n.color == ctx.up.sibling.c
      ensures (ctx.n.left == s.n <==> ctx.side == Left) && (ctx.n.right == s.n <==> ctx.side == Right)
    {
      hide Linked;
      var p := Join(ctx.side, s, ctx.n, ctx.c, ctx.sibling);
      At(ctx, s);
      At(ctx.up, p);
      At(In(Other(ctx.up.side), ctx.up.n, ctx.up.c, p, ctx.up.up), ctx.up.sibling);
      LinkedUnique();
      UniquePlug(ctx, s);
    }

    /** The branch of RB_INSERT_COLOR for a parent that is a left child. */
    method InsertLeft(elm: Node, parent0: Node, gparent: Node, ghost ctx: Ctx, ghost s: Tree)
      returns (next: Node, ghost ctx': Ctx, ghost s': Tree)
      requires Linked() && tree == Plug(ctx, s) && Inserting(ctx, s) && s.n == elm
      requires ctx.In? && ctx.c == Red && ctx.n == parent0 && ctx.up.In? && ctx.up.c == Black && ctx.up.n == gparent
               && ctx.up.side == Left
      modifies this, Nodes(tree)
      ensures Linked() && tree == Plug(ctx', s') && Inserting(ctx', s') && s'.T? && s'.n == next
              && Depth(ctx') < Depth(ctx)
      ensures Nodes(tree) == old(Nodes(tree)) && Inorder(tree) == old(Inorder(tree))
    {
      hide Linked, Nodes, Inorder, Plug, Fits, Balanced, NoRedRed, CtxBalanced, CtxNoRedRed, CtxRootBlack, BlackHeight;
      ReadFamily(ctx, s);
      var parent := parent0;
      var tmp := gparent.right;
      if tmp != null && tmp.color == Red {
        RecolorFamily(tmp, parent, gparent, ctx, s);
        InsertRecolor(Left, ctx.side, s, parent, ctx.sibling, gparent, ctx.up.sibling, ctx.up.up);
        return gparent, ctx.up.up, Recolored(ctx, s);
      }
      ctx', s', next := ctx, s, elm;
      if parent.right == elm {
        ghost var a, b, c, up := ctx.sibling, s.l, s.r, ctx.up;
        InsertTurn(Left, a, parent, b, elm, c, up);
        PlugIn(ctx, s);
        RotateLeft(parent, up, a, Red, b, elm, Red, c);
        ctx', s' := In(Left, elm, Red, c, up), Join(Left, a, parent, Red, b);
        PlugIn(ctx', s');
        tmp := parent;
        parent := elm;
        next := tmp;
      }
      InsertFinish(Left, s', parent, ctx'.sibling, gparent, ctx'.up.sibling, ctx'.up.up);
      SetBlackRed(parent, gparent, ctx', s');
      ghost var sib, u, up := ctx'.sibling, ctx'.up.sibling, ctx'.up.up;
      PlugIn(ctx'.(c := Black, up := ctx'.up.(c := Red)), s');
      PlugIn(ctx'.up.(c := Red), Join(Left, s', parent, Black, sib));
      RotateRight(gparent, up, u, Red, sib, parent, Black, s');
      ctx' := In(Left, parent, Black, Join(Left, sib, gparent, Red, u), up);
      PlugIn(ctx', s');
    }

    /** The branch of RB_INSERT_COLOR for a parent that is a right child. */
    method InsertRight(elm: Node, parent0: Node, gparent: Node, ghost ctx: Ctx, ghost s: Tree)
      returns (next: Node, ghost ctx': Ctx, ghost s': Tree)
      requires Linked() && tree == Plug(ctx, s) && Inserting(ctx, s) && s.n == elm
      requires ctx.In? && ctx.c == Red && ctx.n == parent0 && ctx.up.In? && ctx.up.c == Black && ctx.up.n == gparent
               && ctx.up.side == Right
      modifies this, Nodes(tree)
      ensures Linked() && tree == Plug(ctx', s') && Inserting(ctx', s') && s'.T? && s'.n == next
              && Depth(ctx') < Depth(ctx)
      ensures Nodes(tree) == old(Nodes(tree)) && Inorder(tree) == old(Inorder(tree))
    {
      hide Linked, Nodes, Inorder, Plug, Fits, Balanced, NoRedRed, CtxBalanced, CtxNoRedRed, CtxRootBlack, BlackHeight;
      ReadFamily(ctx, s);
      var parent := parent0;
      var tmp := gparent.left;
      if tmp != null && tmp.color == Red {
        RecolorFamily(tmp, parent, gparent, ctx, s);
        InsertRecolor(Right, ctx.side, s, parent, ctx.sibling, gparent, ctx.up.sibling, ctx.up.up);
        return gparent, ctx.up.up, Recolored(ctx, s);
      }
      ctx', s', next := ctx, s, elm;
      if parent.left == elm {
        ghost var a, b, c, up := ctx.sibling, s.r, s.l, ctx.up;
        InsertTurn(Right, a, parent, b, elm, c, up);
        PlugIn(ctx, s);
        RotateRight(parent, up, a, Red, b, elm, Red, c);
        ctx', s' := In(Right, elm, Red, c, up), Join(Right, a, parent, Red, b);
        PlugIn(ctx', s');
        tmp := parent;
        parent := elm;
        next := tmp;
      }
      InsertFinish(Right, s', parent, ctx'.sibling, gparent, ctx'.up.sibling, ctx'.up.up);
      SetBlackRed(parent, gparent, ctx', s');
      ghost var sib, u, up := ctx'.sibling, ctx'.up.sibling, ctx'.up.up;
      PlugIn(ctx'.(c := Black, up := ctx'.up.(c := Red)), s');
      PlugIn(ctx'.up.(c := Red), Join(Right, s', parent, Black, sib));
      RotateLeft(gparent, up, u, Red, sib, parent, Black, s');
      ctx' := In(Right, parent, Black, Join(Right, sib, gparent, Red, u), up);
      PlugIn(ctx', s');
    }

    /** RB_INSERT_COLOR() */
    method InsertColor(elm: Node, ghost ctx0: Ctx, ghost s0: Tree)
      requires Linked() && tree == Plug(ctx0, s0) && Inserting(ctx0, s0) && s0.n == elm
      modifies this, Nodes(tree)
      ensures Valid() && Nodes(tree) == old(Nodes(tree)) && Inorder(tree) == old(Inorder(tree))
    {
      hide Balanced, BlackHeight, CtxBalanced, CtxNoRedRed, CtxRootBlack, Depth, Fits, Inorder, NoRedRed, Nodes,
        Ordered, Snap;
      var e := elm;
      ghost var ctx, s := ctx0, s0;
      InsertingIsRed(ctx, s);
      At(ctx, s);
      var parent := e.parent;
      while parent != null && parent.color == Red
        invariant Linked() && tree == Plug(ctx, s) && Inserting(ctx, s) && s.T? && s.n == e
        invariant e in Nodes(tree) && parent == e.parent == ParentOf(ctx)
        invariant Nodes(tree) == old(Nodes(tree)) && Inorder(tree) == old(Inorder(tree))
        decreases Depth(ctx)
      {
        At(ctx, s);
        InsertParent(ctx, s);
        ReadFamily(ctx, s);
        var gparent := parent.parent;
        if parent == gparent.left {
          e, ctx, s := InsertLeft(e, parent, gparent, ctx, s);
        } else {
          e, ctx, s := InsertRight(e, parent, gparent, ctx, s);
        }
        At(ctx, s);
        parent := e.parent;
      }
      At(ctx, s);
      InsertDone(ctx, s);
      At(Top, tree);
      Paint(root, Black, Top, tree);
    }

    static lemma InsertingIsRed(ctx: Ctx, s: Tree)
      requires Inserting(ctx, s)
      ensures s.T?
    {
    }

    /** The subtree one level up. */
    static lemma PlugIn(ctx: Ctx, s: Tree)
      requires ctx.In?
      ensures Plug(ctx, s) == Plug(ctx.up, Join(ctx.side, s, ctx.n, ctx.c, ctx.sibling))
    {
    }

    // ---------------------------------------------------------- removal

    /** A child of a tree. */
    static function Near(t: Tree, side: Side): Tree
      requires t.T?
    {
      if side == Left then t.l else t.r
    }

    /** The context after turning the red inner child of the sibling up. */
    static ghost function Turned(ctx: Ctx): Ctx
      requires ctx.In? && ctx.sibling.T? && Near(ctx.sibling, ctx.side).T?
    {
      var d := ctx.side;
      var inner, outer := Near(ctx.sibling, d), Near(ctx.sibling, Other(d));
      ctx.(sibling := Join(d, Near(inner, d), inner.n, Black,
                           Join(d, Near(inner, Other(d)), ctx.sibling.n, Red, outer)))
    }

    /** What the code reads at a short subtree, its parent and its sibling. */
    lemma ReadSibling(ctx: Ctx, s: Tree)
      requires Linked() && tree == Plug(ctx, s) && ctx.In? && ctx.sibling.T?
      ensures {ctx.n, ctx.sibling.n} <= Nodes(tree) && ctx.n.color == ctx.c
      ensures ctx.sibling.n.color == ctx.sibling.c && ctx.n.parent == ParentOf(ctx.up)
      ensures if ctx.side == Left then ctx.n.left == Root(s) && ctx.n.right == ctx.sibling.n
              else ctx.n.right == Root(s) && ctx.n.left == ctx.sibling.n
      ensures ctx.n.left == Root(s) <==> ctx.side == Left
      ensures ctx.sibling.n.left == Root(ctx.sibling.l) && ctx.sibling.n.right == Root(ctx.sibling.r)
      ensures root != null && root != Root(s)
    {
      At(ctx, s);
      FlipSibling(ctx, s);
      At(In(Other(ctx.side), ctx.n, ctx.c, s, ctx.up), ctx.sibling);
      LinkedUnique();
      UniquePlug(ctx, s);
      RootPlug(ctx, s);
      TopNodeInside(ctx);
      assert root == Root(tree);
    }

    static lemma FlipSibling(ctx: Ctx, s: Tree)
      requires ctx.In?
      ensures Plug(In(Other(ctx.side), ctx.n, ctx.c, s, ctx.up), ctx.sibling) == Plug(ctx, s)
    {
    }

    static lemma {:induction false} TopNodeInside(ctx: Ctx)
      requires ctx.In?
      ensures TopNode(ctx) != null && TopNode(ctx) in CtxNodes(ctx)
      decreases ctx
    {
      if ctx.up.In? {
        TopNodeInside(ctx.up);
      }
    }

    /** The colours of the sibling's children. */
    lemma ReadNephews(ctx: Ctx, s: Tree)
      requires Linked() && tree == Plug(ctx, s) && ctx.In? && ctx.sibling.T?
      ensures ctx.sibling.l.T? ==> ctx.sibling.l.n in Nodes(tree) && ctx.sibling.l.n.color == ctx.sibling.l.c
      ensures ctx.sibling.r.T? ==> ctx.sibling.r.n in Nodes(tree) && ctx.sibling.r.n.color == ctx.sibling.r.c
    {
      hide Linked, Nodes;
      FlipSibling(ctx, s);
      var up := In(Other(ctx.side), ctx.n, ctx.c, s, ctx.up);
      var t := ctx.sibling;
      PlugIn(In(Left, t.n, t.c, t.r, up), t.l);
      PlugIn(In(Right, t.n, t.c, t.l, up), t.r);
      At(In(Left, t.n, t.c, t.r, up), t.l);
      At(In(Right, t.n, t.c, t.l, up), t.r);
    }

    /** Setting the colour of a child of the sibling. */
    method PaintNephew(n: Node, c: Color, ghost ctx: Ctx, ghost s: Tree, ghost side: Side)
      requires Linked() && tree == Plug(ctx, s) && ctx.In? && ctx.sibling.T? && Near(ctx.sibling, side).T?
               && Near(ctx.sibling, side).n == n
      modifies this`tree, n`color
      ensures Linked() && Nodes(tree) == old(Nodes(tree)) && Inorder(tree) == old(Inorder(tree))
      ensures var t := ctx.sibling;
              tree == Plug(ctx.(sibling := Join(side, Near(t, side).(c := c), t.n, t.c, Near(t, Other(side)))), s)
    {
      hide Linked, Nodes, Inorder, Plug;
      ghost var t := ctx.sibling;
      ghost var up := In(Other(ctx.side), ctx.n, ctx.c, s, ctx.up);
      ghost var hole := In(side, t.n, t.c, Near(t, Other(side)), up);
      FlipSibling(ctx, s);
      PlugIn(hole, Near(t, side));
      Paint(n, c, hole, Near(t, side));
      ghost var t' := Join(side, Near(t, side).(c := c), t.n, t.c, Near(t, Other(side)));
      PlugIn(hole, Near(t, side).(c := c));
      FlipSibling(ctx.(sibling := t'), s);
    }

    /** Under a red parent the sibling is black. */
    static lemma RedUnderBlack(ctx: Ctx, s: Tree)
      requires Removing(ctx, s) && ctx.In? && ctx.sibling.T? && ctx.c == Red
      ensures ctx.sibling.c == Black
    {
    }

    /** The branch of RB_REMOVE_COLOR for a left child: a red sibling is rotated
        away. */
    method ReddenLeft(parent: Node, ghost ctx: Ctx, ghost s: Tree) returns (tmp: Node, ghost ctx': Ctx)
      requires Linked() && tree == Plug(ctx, s) && Removing(ctx, s) && ctx.In? && ctx.side == Left && ctx.n == parent
      modifies this, Nodes(tree)
      ensures Linked() && tree == Plug(ctx', s) && Removing(ctx', s) && Nodes(tree) == old(Nodes(tree))
              && Inorder(tree) == old(Inorder(tree))
      ensures ctx'.In? && ctx'.side == Left && ctx'.n == parent && ctx'.sibling.T? && ctx'.sibling.n == tmp
              && ctx'.sibling.c == Black
      ensures if IsRed(ctx.sibling) then ctx'.c == Red && Depth(ctx') == Depth(ctx) + 1 else ctx' == ctx
    {
      hide Balanced, BlackHeight, CtxBalanced, CtxNoRedRed, CtxRootBlack, Fits, Inorder, NoRedRed, Nodes, Ordered,
        Plug, Snap;
      RemoveSibling(ctx, s);
      ReadSibling(ctx, s);
      tmp := parent.right;
      ctx' := ctx;
      if tmp.color == Red {
        ghost var b, y, c, up := Near(ctx.sibling, Left), ctx.sibling.n, Near(ctx.sibling, Right), ctx.up;
        RemoveRedSibling(Left, s, parent, b, y, c, up);
        PaintSibling(tmp, Black, ctx, s);
        PaintParent(parent, Red, ctx.(sibling := ctx.sibling.(c := Black)), s);
        PlugIn(In(Left, parent, Red, Join(Left, b, y, Black, c), up), s);
        RotateLeft(parent, up, s, Red, b, y, Black, c);
        ctx' := In(Left, parent, Red, b, In(Left, y, Black, c, up));
        PlugIn(ctx', s);
        PlugIn(ctx'.up, Join(Left, s, parent, Red, b));
        RemoveSibling(ctx', s);
        ReadSibling(ctx', s);
        RedUnderBlack(ctx', s);
        tmp := parent.right;
      }
    }

    /** The same branch, when the sibling has a red child: rotations and recolouring
        end the repair. */
    method SettleLeft(parent: Node, tmp0: Node, ghost ctx0: Ctx, ghost s: Tree)
      requires Linked() && tree == Plug(ctx0, s) && Removing(ctx0, s) && !IsRed(s)
      requires ctx0.In? && ctx0.side == Left && ctx0.n == parent && ctx0.sibling.T? && ctx0.sibling.n == tmp0
               && ctx0.sibling.c == Black
      requires IsRed(ctx0.sibling.l) || IsRed(ctx0.sibling.r)
      modifies this, Nodes(tree)
      ensures Linked() && Sound(tree) && Nodes(tree) == old(Nodes(tree)) && Inorder(tree) == old(Inorder(tree))
    {
      hide Balanced, BlackHeight, CtxBalanced, CtxNoRedRed, CtxRootBlack, Fits, Inorder, NoRedRed, Nodes, Ordered,
        Plug, Snap;
      var tmp := tmp0;
      ghost var x, cx, up, ctx := parent, ctx0.c, ctx0.up, ctx0;
      ReadSibling(ctx, s);
      ReadNephews(ctx, s);
      if tmp.right == null || tmp.right.color == Black {
        tmp := TurnLeft(parent, tmp, ctx, s);
        ctx := Turned(ctx);
        ReadSibling(ctx, s);
        ReadNephews(ctx, s);
      }
      ghost var b, y, c := Near(ctx.sibling, Left), ctx.sibling.n, Near(ctx.sibling, Right);
      RemoveFinish(Left, s, x, cx, b, y, c, up);
      PaintSibling(tmp, parent.color, ctx, s);
      ghost var sib1 := Join(Left, b, y, cx, c);
      PaintParent(parent, Black, In(Left, x, cx, sib1, up), s);
      ghost var ctx1 := In(Left, x, Black, sib1, up);
      ReadSibling(ctx1, s);
      ReadNephews(ctx1, s);
      if tmp.right != null {
        PaintNephew(tmp.right, Black, ctx1, s, Right);
      }
      PlugIn(In(Left, x, Black, Join(Left, b, y, cx, c.(c := Black)), up), s);
      RotateLeft(parent, up, s, Black, b, y, cx, c.(c := Black));
    }

    /** The sibling's inner child is red, its outer one is not. */
    method TurnLeft(parent: Node, tmp: Node, ghost ctx: Ctx, ghost s: Tree) returns (tmp': Node)
      requires Linked() && tree == Plug(ctx, s) && Removing(ctx, s)
      requires ctx.In? && ctx.side == Left && ctx.n == parent && ctx.sibling.T? && ctx.sibling.n == tmp
               && ctx.sibling.c == Black
      requires IsRed(Near(ctx.sibling, Left)) && !IsRed(Near(ctx.sibling, Right))
      modifies this, Nodes(tree)
      ensures Linked() && tree == Plug(Turned(ctx), s) && Removing(Turned(ctx), s)
      ensures Nodes(tree) == old(Nodes(tree)) && Inorder(tree) == old(Inorder(tree))
      ensures tmp' == Turned(ctx).sibling.n
    {
      hide Balanced, BlackHeight, CtxBalanced, CtxNoRedRed, CtxRootBlack, Fits, Inorder, NoRedRed, Nodes, Ordered,
        Plug, Snap;
      ghost var inner, outer, up := Near(ctx.sibling, Left), Near(ctx.sibling, Right), ctx.up;
      ghost var i, z, j := Near(inner, Left), inner.n, Near(inner, Right);
      RemoveTurn(Left, s, parent, ctx.c, i, z, j, tmp, outer, up);
      ReadSibling(ctx, s);
      ReadNephews(ctx, s);
      var oleft := tmp.left;
      if oleft != null {
        PaintNephew(oleft, Black, ctx, s, Left);
      }
      ghost var sib1 := Join(Left, inner.(c := Black), tmp, Black, outer);
      PaintSibling(tmp, Red, ctx.(sibling := sib1), s);
      ghost var sib2 := Join(Left, inner.(c := Black), tmp, Red, outer);
      FlipSibling(ctx.(sibling := sib2), s);
      ghost var up' := In(Right, parent, ctx.c, s, up);
      RotateRight(tmp, up', outer, Red, j, z, Black, i);
      FlipSibling(Turned(ctx), s);
      ReadSibling(Turned(ctx), s);
      tmp' := parent.right;
    }

    /** The branch of RB_REMOVE_COLOR for a right child: a red sibling is rotated
        away. */
    method ReddenRight(parent: Node, ghost ctx: Ctx, ghost s: Tree) returns (tmp: Node, ghost ctx': Ctx)
      requires Linked() && tree == Plug(ctx, s) && Removing(ctx, s) && ctx.In? && ctx.side == Right && ctx.n == parent
      modifies this, Nodes(tree)
      ensures Linked() && tree == Plug(ctx', s) && Removing(ctx', s) && Nodes(tree) == old(Nodes(tree))
              && Inorder(tree) == old(Inorder(tree))
      ensures ctx'.In? && ctx'.side == Right && ctx'.n == parent && ctx'.sibling.T? && ctx'.sibling.n == tmp
              && ctx'.sibling.c == Black
      ensures if IsRed(ctx.sibling) then ctx'.c == Red && Depth(ctx') == Depth(ctx) + 1 else ctx' == ctx
    {
      hide Balanced, BlackHeight, CtxBalanced, CtxNoRedRed, CtxRootBlack, Fits, Inorder, NoRedRed, Nodes, Ordered,
        Plug, Snap;
      RemoveSibling(ctx, s);
      ReadSibling(ctx, s);
      tmp := parent.left;
      ctx' := ctx;
      if tmp.color == Red {
        ghost var b, y, c, up := Near(ctx.sibling, Right), ctx.sibling.n, Near(ctx.sibling, Left), ctx.up;
        RemoveRedSibling(Right, s, parent, b, y, c, up);
        PaintSibling(tmp, Black, ctx, s);
        PaintParent(parent, Red, ctx.(sibling := ctx.sibling.(c := Black)), s);
        PlugIn(In(Right, parent, Red, Join(Right, b, y, Black, c), up), s);
        RotateRight(parent, up, s, Red, b, y, Black, c);
        ctx' := In(Right, parent, Red, b, In(Right, y, Black, c, up));
        PlugIn(ctx', s);
        PlugIn(ctx'.up, Join(Right, s, parent, Red, b));
        RemoveSibling(ctx', s);
        ReadSibling(ctx', s);
        RedUnderBlack(ctx', s);
        tmp := parent.left;
      }
    }

    /** The same branch, when the sibling has a red child: rotations and recolouring
        end the repair. */
    method SettleRight(parent: Node, tmp0: Node, ghost ctx0: Ctx, ghost s: Tree)
      requires Linked() && tree == Plug(ctx0, s) && Removing(ctx0, s) && !IsRed(s)
      requires ctx0.In? && ctx0.side == Right && ctx0.n == parent && ctx0.sibling.T? && ctx0.sibling.n == tmp0
               && ctx0.sibling.c == Black
      requires IsRed(ctx0.sibling.l) || IsRed(ctx0.sibling.r)
      modifies this, Nodes(tree)
      ensures Linked() && Sound(tree) && Nodes(tree) == old(Nodes(tree)) && Inorder(tree) == old(Inorder(tree))
    {
      hide Balanced, BlackHeight, CtxBalanced, CtxNoRedRed, CtxRootBlack, Fits, Inorder, NoRedRed, Nodes, Ordered,
        Plug, Snap;
      var tmp := tmp0;
      ghost var x, cx, up, ctx := parent, ctx0.c, ctx0.up, ctx0;
      ReadSibling(ctx, s);
      ReadNephews(ctx, s);
      if tmp.left == null || tmp.left.color == Black {
        tmp := TurnRight(parent, tmp, ctx, s);
        ctx := Turned(ctx);
        ReadSibling(ctx, s);
        ReadNephews(ctx, s);
      }
      ghost var b, y, c := Near(ctx.sibling, Right), ctx.sibling.n, Near(ctx.sibling, Left);
      RemoveFinish(Right, s, x, cx, b, y, c, up);
      PaintSibling(tmp, parent.color, ctx, s);
      ghost var sib1 := Join(Right, b, y, cx, c);
      PaintParent(parent, Black, In(Right, x, cx, sib1, up), s);
      ghost var ctx1 := In(Right, x, Black, sib1, up);
      ReadSibling(ctx1, s);
      ReadNephews(ctx1, s);
      if tmp.left != null {
        PaintNephew(tmp.left, Black, ctx1, s, Left);
      }
      PlugIn(In(Right, x, Black, Join(Right, b, y, cx, c.(c := Black)), up), s);
      RotateRight(parent, up, s, Black, b, y, cx, c.(c := Black));
    }

    /** The sibling's inner child is red, its outer one is not. */
    method TurnRight(parent: Node, tmp: Node, ghost ctx: Ctx, ghost s: Tree) returns (tmp': Node)
      requires Linked() && tree == Plug(ctx, s) && Removing(ctx, s)
      requires ctx.In? && ctx.side == Right && ctx.n == parent && ctx.sibling.T? && ctx.sibling.n == tmp
               && ctx.sibling.c == Black
      requires IsRed(Near(ctx.sibling, Right)) && !IsRed(Near(ctx.sibling, Left))
      modifies this, Nodes(tree)
      ensures Linked() && tree == Plug(Turned(ctx), s) && Removing(Turned(ctx), s)
      ensures Nodes(tree) == old(Nodes(tree)) && Inorder(tree) == old(Inorder(tree))
      ensures tmp' == Turned(ctx).sibling.n
    {
      hide Balanced, BlackHeight, CtxBalanced, CtxNoRedRed, CtxRootBlack, Fits, Inorder, NoRedRed, Nodes, Ordered,
        Plug, Snap;
      ghost var inner, outer, up := Near(ctx.sibling, Right), Near(ctx.sibling, Left), ctx.up;
      ghost var i, z, j := Near(inner, Right), inner.n, Near(inner, Left);
      RemoveTurn(Right, s, parent, ctx.c, i, z, j, tmp, outer, up);
      ReadSibling(ctx, s);
      ReadNephews(ctx, s);
      var oright := tmp.right;
      if oright != null {
        PaintNephew(oright, Black, ctx, s, Right);
      }
      ghost var sib1 := Join(Right, inner.(c := Black), tmp, Black, outer);
      PaintSibling(tmp, Red, ctx.(sibling := sib1), s);
      ghost var sib2 := Join(Right, inner.(c := Black), tmp, Red, outer);
      FlipSibling(ctx.(sibling := sib2), s);
      ghost var up' := In(Left, parent, ctx.c, s, up);
      RotateLeft(tmp, up', outer, Red, j, z, Black, i);
      FlipSibling(Turned(ctx), s);
      ReadSibling(Turned(ctx), s);
      tmp' := parent.left;
    }

    /** A black sibling with black children: it becomes red, and the parent is the
        root of a short subtree. */
    method MoveUp(parent: Node, tmp: Node, ghost ctx: Ctx, ghost s: Tree) returns (ghost ctx': Ctx, ghost s': Tree)
      requires Linked() && tree == Plug(ctx, s) && Removing(ctx, s) && !IsRed(s)
      requires ctx.In? && ctx.n == parent && ctx.sibling.T? && ctx.sibling.n == tmp && ctx.sibling.c == Black
      requires !IsRed(ctx.sibling.l) && !IsRed(ctx.sibling.r)
      modifies this`tree, tmp`color
      ensures Linked() && Nodes(tree) == old(Nodes(tree)) && Inorder(tree) == old(Inorder(tree))
      ensures tree == Plug(ctx', s') && Removing(ctx', s') && ctx' == ctx.up && Root(s') == parent
              && (IsRed(s') <==> ctx.c == Red)
      ensures parent in Nodes(tree) && parent.parent == ParentOf(ctx') && parent.color == ctx.c
    {
      hide Balanced, BlackHeight, CtxBalanced, CtxNoRedRed, CtxRootBlack, Fits, Inorder, NoRedRed, Nodes, Ordered,
        Plug, Snap;
      RemoveRecolor(ctx.side, s, parent, ctx.c, ctx.sibling, ctx.up);
      PaintSibling(tmp, Red, ctx, s);
      PlugIn(ctx.(sibling := ctx.sibling.(c := Red)), s);
      ctx', s' := ctx.up, Join(ctx.side, s, parent, ctx.c, ctx.sibling.(c := Red));
      At(ctx', s');
    }

    /** One round of the loop of RB_REMOVE_COLOR: the short subtree moves up, or
        nothing is short any more. */
    method RemoveRound(parent: Node, elm: Node?, ghost ctx0: Ctx, ghost s: Tree)
      returns (elm': Node?, parent': Node?, done: bool, ghost ctx': Ctx, ghost s': Tree)
      requires Linked() && tree == Plug(ctx0, s) && Removing(ctx0, s) && !IsRed(s) && ctx0.In?
      requires elm == Root(s) && parent == ctx0.n
      modifies this, Nodes(tree)
      ensures Linked() && Nodes(tree) == old(Nodes(tree)) && Inorder(tree) == old(Inorder(tree))
      ensures done ==> Sound(tree)
      ensures !done ==>
                && tree == Plug(ctx', s') && Removing(ctx', s') && elm' == Root(s') && parent' == ParentOf(ctx')
                && (elm' != null ==> elm' in Nodes(tree) && (elm'.color == Red <==> IsRed(s')))
                && (Depth(ctx') < Depth(ctx0) || (Depth(ctx') == Depth(ctx0) && IsRed(s')))
    {
      hide Balanced, BlackHeight, CtxBalanced, CtxNoRedRed, CtxRootBlack, Fits, Inorder, NoRedRed, Nodes, Ordered,
        Plug, Snap;
      ghost var ctx := ctx0;
      RemoveSibling(ctx, s);
      ReadSibling(ctx, s);
      var tmp: Node, onLeft := parent, parent.left == elm;
      if onLeft {
        tmp, ctx := ReddenLeft(parent, ctx, s);
      } else {
        tmp, ctx := ReddenRight(parent, ctx, s);
      }
      ReadSibling(ctx, s);
      ReadNephews(ctx, s);
      if (tmp.left == null || tmp.left.color == Black) && (tmp.right == null || tmp.right.color == Black) {
        ctx', s' := MoveUp(parent, tmp, ctx, s);
        elm', parent', done := parent, parent.parent, false;
      } else {
        if onLeft {
          SettleLeft(parent, tmp, ctx, s);
        } else {
          SettleRight(parent, tmp, ctx, s);
        }
        elm', parent', done := root, null, true;
        ctx', s' := ctx, s;
      }
    }

    /** RB_REMOVE_COLOR() */
    method RemoveColor(parent0: Node?, elm0: Node?, ghost ctx0: Ctx, ghost s0: Tree)
      requires Linked() && tree == Plug(ctx0, s0) && Removing(ctx0, s0) && elm0 == Root(s0) && parent0 == ParentOf(ctx0)
      modifies this, Nodes(tree)
      ensures Valid() && Nodes(tree) == old(Nodes(tree)) && Inorder(tree) == old(Inorder(tree))
    {
      hide Balanced, BlackHeight, CtxBalanced, CtxNoRedRed, CtxRootBlack, Depth, Fits, Inorder, NoRedRed, Nodes,
        Ordered, Snap;
      var parent, elm := parent0, elm0;
      var done := false;
      ghost var ctx, s := ctx0, s0;
      At(ctx, s);
      while (elm == null || elm.color == Black) && elm != root
        invariant Linked() && Nodes(tree) == old(Nodes(tree)) && Inorder(tree) == old(Inorder(tree))
        invariant tree == Plug(ctx, s) && Removing(ctx, s) && elm == Root(s) && parent == ParentOf(ctx) && !done
        decreases Depth(ctx), if IsRed(s) then 0 else 1
      {
        LoopContext(ctx, s);
        elm, parent, done, ctx, s := RemoveRound(parent, elm, ctx, s);
        if done {
          elm := root;
          break;
        }
      }
      if done {
        ctx, s := Top, tree;
        At(ctx, s);
      } else {
        LoopEnd(ctx, s);
        RemoveDone(ctx, s);
      }
      if elm != null {
        Paint(elm, Black, ctx, s);
      }
    }

    /** While the loop goes on it is not at the root. */
    lemma LoopContext(ctx: Ctx, s: Tree)
      requires Linked() && tree == Plug(ctx, s) && Root(s) != root
      ensures ctx.In?
      ensures s.T? ==> s.n in Nodes(tree) && s.n.color == s.c
    {
      At(ctx, s);
    }

    lemma LoopEnd(ctx: Ctx, s: Tree)
      requires Linked() && tree == Plug(ctx, s) && Removing(ctx, s)
      requires Root(s) == root || (s.T? && s.n.color != Black)
      ensures s.T? ==> s.n in Nodes(tree)
      ensures IsRed(s) || ctx.Top?
    {
      hide Linked, Removing;
      At(ctx, s);
      if ctx.In? {
        RemoveSibling(ctx, s);
        ReadSibling(ctx, s);
      }
    }

    // ---------------------------------------------------------- searching

    /** cmp(a, b) */
    static function Cmp(a: Node, b: Node): int {
      if a.key < b.key then -1 else if a.key > b.key then 1 else 0
    }

    /** One step of a search, from the node tmp. */
    lemma SearchStep(ctx: Ctx, s: Tree, k: int)
      requires Linked() && tree == Plug(ctx, s) && Around(ctx, k) && s.T?
      ensures s.n in Nodes(tree) && s.n.left == Root(s.l) && s.n.right == Root(s.r)
      ensures k < s.n.key ==> tree == Plug(In(Left, s.n, s.c, s.r, ctx), s.l) && Around(In(Left, s.n, s.c, s.r, ctx), k)
      ensures k > s.n.key ==>
                tree == Plug(In(Right, s.n, s.c, s.l, ctx), s.r) && Around(In(Right, s.n, s.c, s.l, ctx), k)
    {
      At(ctx, s);
      assert Ordered(Inorder(tree));
      StepDown(ctx, s, k);
    }

    /** RB_INSERT(): the node already there with the same key, or null after putting
        elm into the tree. */
    method Insert(elm: Node) returns (r: Node?)
      requires Valid()
      modifies this, elm, Nodes(tree)
      ensures Valid()
      ensures r == null <==> forall n | n in old(Nodes(tree)) :: n.key != elm.key
      ensures r != null ==> r in Nodes(tree) && r.key == elm.key && tree == old(tree)
      ensures r == null ==> Nodes(tree) == old(Nodes(tree)) + {elm}
    {
      hide Around, Balanced, BlackHeight, CtxBalanced, CtxNoRedRed, CtxRootBlack, Fits, Inorder, NoRedRed, Nodes,
        Ordered, Plug, Snap;
      assert Linked() && Sound(tree);
      assert root == Root(tree);
      var tmp: Node? := root;
      var parent: Node? := null;
      var comp := 0;
      ghost var ctx, s := Top, tree;
      StartSearch(tree, elm.key);
      while tmp != null
        invariant Linked() && Sound(tree) && tree == old(tree)
        invariant tree == Plug(ctx, s) && tmp == Root(s) && parent == ParentOf(ctx) && Around(ctx, elm.key)
        invariant ctx.In? ==> (comp < 0 <==> ctx.side == Left)
        decreases s
      {
        parent := tmp;
        comp := Cmp(elm, parent);
        SearchStep(ctx, s, elm.key);
        if comp < 0 {
          ctx, s := In(Left, s.n, s.c, s.r, ctx), s.l;
          tmp := tmp.left;
        } else if comp > 0 {
          ctx, s := In(Right, s.n, s.c, s.l, ctx), s.r;
          tmp := tmp.right;
        } else {
          return tmp;
        }
      }
      SearchEnd(ctx, elm.key);
      InsertStart(ctx, elm);
      Attach(elm, parent, comp, ctx);
      InsertColor(elm, ctx, T(Leaf, elm, Red, Leaf));
      return null;
    }

    static lemma StartSearch(t: Tree, k: int)
      ensures Plug(Top, t) == t && Around(Top, k)
    {
    }

    /** RB_SET() and hanging the new node below its parent: the assignments. */
    method Hang(elm: Node, parent: Node?, comp: int, ghost ctx: Ctx, ghost nodes: set<Node>, ghost m: Links)
      requires m.Keys == nodes && elm !in nodes && parent == ParentOf(ctx) && (ctx.In? ==> ctx.n in nodes)
      requires forall n | n in nodes :: m[n] == Fields(n)
      requires ctx.In? ==> (comp < 0 <==> ctx.side == Left)
      modifies this`root, elm, nodes
      ensures Fields(elm) == Info(null, null, parent, Red) && root == if ctx.Top? then elm else old(root)
      ensures ctx.In? ==> Fields(ctx.n) == if ctx.side == Left then m[ctx.n].(left := elm) else m[ctx.n].(right := elm)
      ensures forall n | n in nodes && n != parent :: Fields(n) == m[n]
    {
      elm.parent, elm.left, elm.right, elm.color := parent, null, null, Red;
      if parent != null {
        if comp < 0 {
          parent.left := elm;
        } else {
          parent.right := elm;
        }
      } else {
        root := elm;
      }
    }

    /** The new node is in the tree, below the place where the search ended. */
    method Attach(elm: Node, parent: Node?, comp: int, ghost ctx: Ctx)
      requires Linked() && tree == Plug(ctx, Leaf) && Around(ctx, elm.key) && parent == ParentOf(ctx)
      requires ctx.In? ==> (comp < 0 <==> ctx.side == Left)
      modifies this, elm, Nodes(tree)
      ensures Linked() && tree == Plug(ctx, T(Leaf, elm, Red, Leaf)) && Nodes(tree) == old(Nodes(tree)) + {elm}
    {
      hide Rehung, After, Around, Before, CtxNodes, CtxUnique, Fits, Inorder, Ordered, Plug, SameOn, Snap, TopNode,
        Unique;
      ghost var nodes, m := Nodes(tree), Snap(Nodes(tree));
      SnapOf(nodes);
      assert Fits(tree, null, m) && Ordered(Inorder(tree)) && root == Root(tree);
      LinkedUnique();
      UniquePlug(ctx, Leaf);
      InsertOrdered(ctx, elm);
      InsertFits(ctx, elm, m);
      NodesPlug(ctx, Leaf);
      ParentInside(ctx);
      assert elm !in m && m.Keys == CtxNodes(ctx);
      Hang(elm, parent, comp, ctx, nodes, m);
      ghost var t, now := Plug(ctx, T(Leaf, elm, Red, Leaf)), nodes + {elm};
      ghost var m' := Rehung(m[elm := Info(null, null, ParentOf(ctx), Red)], ctx, elm);
      AttachedIs(m, ctx, elm);
      SameFields(now, m');
      FitsStays(t, null, m', Snap(now));
      RootPlug(ctx, Leaf);
      RootPlug(ctx, T(Leaf, elm, Red, Leaf));
      tree := t;
    }

    static lemma ParentInside(ctx: Ctx)
      ensures ctx.In? ==> ctx.n in CtxNodes(ctx)
    {
    }

    /** RB_FIND() */
    method Find(elm: Node) returns (r: Node?)
      requires Valid()
      ensures r == null <==> forall n | n in Nodes(tree) :: n.key != elm.key
      ensures r != null ==> r in Nodes(tree) && r.key == elm.key
    {
      hide Around, Balanced, Fits, Inorder, NoRedRed, Nodes, Ordered, Plug, Snap;
      assert Linked();
      assert root == Root(tree);
      var tmp: Node? := root;
      ghost var ctx, s := Top, tree;
      StartSearch(tree, elm.key);
      while tmp != null
        invariant Linked() && tree == Plug(ctx, s) && tmp == Root(s) && Around(ctx, elm.key)
        decreases s
      {
        var comp := Cmp(elm, tmp);
        SearchStep(ctx, s, elm.key);
        if comp < 0 {
          ctx, s := In(Left, s.n, s.c, s.r, ctx), s.l;
          tmp := tmp.left;
        } else if comp > 0 {
          ctx, s := In(Right, s.n, s.c, s.l, ctx), s.r;
          tmp := tmp.right;
        } else {
          return tmp;
        }
      }
      SearchEnd(ctx, elm.key);
      return null;
    }

    /** RB_NFIND(): the first node whose key is not below that of elm. */
    method NFind(elm: Node) returns (r: Node?)
      requires Valid()
      ensures r == null ==> forall n | n in Nodes(tree) :: n.key < elm.key
      ensures r != null ==> r in Nodes(tree) && r.key >= elm.key && forall n | n in Nodes(tree) && n.key >= elm.key ::
              r.key <= n.key
    {
      hide Around, Balanced, Fits, Inorder, NoRedRed, Nodes, Ordered, Plug, Snap;
      assert Linked();
      assert root == Root(tree) && Ordered(Inorder(tree));
      var tmp: Node?, res: Node? := root, null;
      ghost var ctx, s := Top, tree;
      StartSearch(tree, elm.key);
      assert res == FirstOf(After(ctx));
      while tmp != null
        invariant Linked() && tree == Plug(ctx, s) && tmp == Root(s) && Around(ctx, elm.key)
                  && res == FirstOf(After(ctx))
        decreases s
      {
        var comp := Cmp(elm, tmp);
        SearchStep(ctx, s, elm.key);
        AfterStep(ctx, s);
        if comp < 0 {
          ctx, s := In(Left, s.n, s.c, s.r, ctx), s.l;
          res := tmp;
          tmp := tmp.left;
        } else if comp > 0 {
          ctx, s := In(Right, s.n, s.c, s.l, ctx), s.r;
          tmp := tmp.right;
        } else {
          return tmp;
        }
      }
      FirstAbove(ctx, elm.key);
      return res;
    }

    // ---------------------------------------------------------- in order

    /** RB_MINMAX() */
    method MinMax(val: int) returns (r: Node?)
      requires Linked()
      ensures Linked()
      ensures val < 0 ==> r == FirstOf(Inorder(tree))
      ensures val >= 0 ==> r == LastOf(Inorder(tree))
    {
      hide Around, Fits, Inorder, Nodes, Ordered, Plug, Snap;
      assert root == Root(tree);
      var tmp: Node?, parent: Node? := root, null;
      ghost var ctx, s := Top, tree;
      StartSearch(tree, 0);
      assert OneSided(ctx, val < 0);
      while tmp != null
        invariant Linked() && tree == Plug(ctx, s) && tmp == Root(s) && parent == ParentOf(ctx)
                  && OneSided(ctx, val < 0)
        decreases s
      {
        At(ctx, s);
        parent := tmp;
        PlugBoth(ctx, s);
        if val < 0 {
          ctx, s := In(Left, s.n, s.c, s.r, ctx), s.l;
          tmp := tmp.left;
        } else {
          ctx, s := In(Right, s.n, s.c, s.l, ctx), s.r;
          tmp := tmp.right;
        }
      }
      EndOf(ctx, val < 0);
      return parent;
    }

    /** RB_NEXT() */
    method Next(elm: Node) returns (r: Node?)
      requires Linked() && elm in Nodes(tree)
      ensures Linked() && r == NextIn(Inorder(tree), elm)
    {
      hide After, Fits, Inorder, NextIn, Nodes, Ordered, Plug, Snap;
      ghost var ctx, s := Locate(tree, elm);
      assert Ordered(Inorder(tree));
      NextOfRoot(ctx, s);
      At(ctx, s);
      ghost var goal := NextIn(Inorder(tree), elm);
      if elm.right != null {
        PlugBoth(ctx, s);
        ctx, s := In(Right, s.n, s.c, s.l, ctx), s.r;
        AfterRight(ctx);
        At(ctx, s);
        FirstInorder(s, After(ctx));
        var e: Node := elm.right;
        while e.left != null
          invariant Linked() && tree == Plug(ctx, s) && s.T? && s.n == e && e in Nodes(tree) && e.left == Root(s.l)
          invariant FirstOf(Inorder(s)) == goal
          decreases s
        {
          FirstInorder(s, []);
          PlugBoth(ctx, s);
          ctx, s := In(Left, s.n, s.c, s.r, ctx), s.l;
          At(ctx, s);
          e := e.left;
        }
        FirstInorder(s, []);
        return e;
      }
      NoRight(s, After(ctx));
      FirstAfter(ctx);
      if elm.parent != null && elm == elm.parent.left {
        return elm.parent;
      }
      var e := elm;
      while e.parent != null && e == e.parent.right
        invariant Linked() && tree == Plug(ctx, s) && s.T? && s.n == e && e in Nodes(tree) && e.parent == ParentOf(ctx)
        invariant ctx.In? ==> ctx.n in Nodes(tree) && (ctx.n.right == e <==> ctx.side == Right)
        invariant FirstOf(After(ctx)) == goal
        decreases Depth(ctx)
      {
        FirstAfter(ctx);
        PlugIn(ctx, s);
        e := e.parent;
        ctx, s := ctx.up, Join(ctx.side, s, ctx.n, ctx.c, ctx.sibling);
        At(ctx, s);
      }
      FirstAfter(ctx);
      return e.parent;
    }

    /** RB_FOREACH(): every node once, in order. */
    method Foreach() returns (out: seq<Node>)
      requires Valid()
      ensures out == Inorder(tree) && Ordered(out)
    {
      hide Balanced, Fits, Inorder, NextIn, NoRedRed, Nodes, Ordered, Snap;
      assert Linked();
      assert Ordered(Inorder(tree));
      out := [];
      var x := MinMax(-1);
      ghost var rest := Inorder(tree);
      assert out + rest == rest;
      while x != null
        invariant Linked() && Inorder(tree) == out + rest && x == FirstOf(rest)
        decreases |rest|
      {
        NodesInorder(tree);
        assert x in out + rest;
        assert x in Nodes(tree);
        SplitNext(out, rest);
        var y := Next(x);
        out, rest := out + [x], rest[1..];
        x := y;
      }
      assert out + rest == out;
    }

    // ---------------------------------------------------------- taking nodes out

    static lemma SameFields(nodes: set<Node>, m: Links)
      requires forall n | n in nodes :: n in m && Fields(n) == m[n]
      ensures SameOn(nodes, m, Snap(nodes))
    {
    }

    /** What is read where a node with at most one child is taken out. */
    lemma SpliceAt(ctx: Ctx, s: Tree, child: Tree)
      requires Linked() && tree == Plug(ctx, s) && s.T?
      requires (s.l == Leaf && child == s.r) || (s.r == Leaf && child == s.l)
      ensures s.n in Nodes(tree) && s.n.parent == ParentOf(ctx) && s.n.color == s.c
      ensures ctx.In? ==> ctx.n in Nodes(tree) && (ctx.n.left == s.n <==> ctx.side == Left)
      ensures child.T? ==> child.n in Nodes(tree) && child.n != s.n && child.n != ParentOf(ctx)
      ensures ParentOf(ctx) != s.n
    {
      hide Linked, Fits;
      At(ctx, s);
      LinkedUnique();
      UniquePlug(ctx, s);
      NodesPlug(ctx, s);
      ParentInside(ctx);
    }

    /** A node with at most one child is taken out: its child takes its place. */
    method Splice(elm: Node, child: Node?, parent: Node?, ghost ctx: Ctx, ghost s: Tree, ghost sub: Tree)
      requires Linked() && tree == Plug(ctx, s) && s.T? && s.n == elm && child == Root(sub) && parent == ParentOf(ctx)
      requires (s.l == Leaf && sub == s.r) || (s.r == Leaf && sub == s.l)
      modifies this, Nodes(tree) - {elm}
      ensures Linked() && tree == Plug(ctx, sub) && Nodes(tree) == old(Nodes(tree)) - {elm}
    {
      hide Fits, Inorder, Nodes, Ordered, Plug, SameOn, Snap, TopNode, Unique;
      ghost var nodes, m := Nodes(tree), Snap(Nodes(tree));
      SnapOf(nodes);
      assert Fits(tree, null, m) && Ordered(Inorder(tree)) && root == Root(tree);
      LinkedUnique();
      SpliceAt(ctx, s, sub);
      SpliceFits(ctx, s, sub, m);
      SpliceOrder(ctx, s, sub);
      if child != null {
        child.parent := parent;
      }
      Rehang(elm, child, parent, ctx);
      ghost var t := Plug(ctx, sub);
      ghost var m' := Spliced(m, ctx, child);
      SplicedIs(m, ctx, child);
      SameFields(nodes - {elm}, m');
      FitsStays(t, null, m', Snap(nodes - {elm}));
      RootPlug(ctx, s);
      RootPlug(ctx, sub);
      tree := t;
    }

    /** What is read where a node is replaced. */
    lemma ReplaceAt(ctx: Ctx, s: Tree, to: Node)
      requires Linked() && tree == Plug(ctx, s) && s.T? && to !in Nodes(tree)
      ensures s.n in Nodes(tree) && s.n.parent == ParentOf(ctx) && s.n.left == Root(s.l) && s.n.right == Root(s.r)
      ensures ctx.In? ==> ctx.n in Nodes(tree) && (ctx.n.left == s.n <==> ctx.side == Left) && ctx.n != s.n
      ensures s.l.T? ==> s.l.n in Nodes(tree) && s.l.n != s.n && s.l.n != ParentOf(ctx) && s.l.n != Root(s.r)
      ensures s.r.T? ==> s.r.n in Nodes(tree) && s.r.n != s.n && s.r.n != ParentOf(ctx)
    {
      hide Linked, Fits;
      At(ctx, s);
      LinkedUnique();
      UniquePlug(ctx, s);
      NodesPlug(ctx, s);
      ParentInside(ctx);
    }

    /** elm gets the fields of `from`, and those that pointed at `from` point at elm. */
    method TakeOver(from: Node, elm: Node, ghost ctx: Ctx, ghost rest: set<Node>)
      requires from.parent == ParentOf(ctx) && (ctx.In? ==> (ctx.n.left == from <==> ctx.side == Left))
      requires from.left != null && from.left in rest && (from.right != null ==> from.right in rest)
               && (ctx.In? ==> ctx.n in rest)
      requires from !in rest && elm !in rest && elm != from && from.left != from.right
      requires from.left != from.parent && (from.right != null ==> from.right != from.parent)
      modifies this`root, elm, rest
      ensures ctx.Top? ==> root == elm
      ensures ctx.In? ==>
                && root == old(root) && ctx.n.parent == old(ctx.n.parent) && ctx.n.color == old(ctx.n.color)
                && ctx.n.left == (if ctx.side == Left then elm else old(ctx.n.left))
                && ctx.n.right == (if ctx.side == Right then elm else old(ctx.n.right))
      ensures Fields(elm) == old(Fields(from))
      ensures Fields(old(from.left)) == old(Fields(from.left)).(parent := elm)
      ensures old(from.right) != null ==> Fields(old(from.right)) == old(Fields(from.right)).(parent := elm)
      ensures forall n | n in rest && n != ParentOf(ctx) && n != old(from.left) && n != old(from.right) ::
              Fields(n) == old(Fields(n))
    {
      elm.left, elm.right, elm.parent, elm.color := from.left, from.right, from.parent, from.color;
      Rehang(from, elm, from.parent, ctx);
      from.left.parent := elm;
      if from.right != null {
        from.right.parent := elm;
      }
    }

    /** elm gets the fields of `from` and takes its place. */
    method Replace(from: Node, elm: Node, ghost ctx: Ctx, ghost s: Tree)
      requires Linked() && tree == Plug(ctx, s) && s.T? && s.n == from && s.l.T? && elm !in Nodes(tree)
      requires Ordered(Inorder(Plug(ctx, s.(n := elm))))
               && Nodes(Plug(ctx, s.(n := elm))) == Nodes(tree) - {from} + {elm}
      modifies this, elm, Nodes(tree) - {from}
      ensures Linked() && tree == Plug(ctx, s.(n := elm)) && Nodes(tree) == old(Nodes(tree)) - {from} + {elm}
    {
      hide Replaced, Fits, Inorder, Nodes, Ordered, Plug, SameOn, Snap, TopNode, Unique;
      ghost var nodes, m := Nodes(tree), Snap(Nodes(tree));
      SnapOf(nodes);
      assert Fits(tree, null, m) && root == Root(tree);
      LinkedUnique();
      ReplaceAt(ctx, s, elm);
      ReplaceFits(ctx, s, elm, m);
      TakeOver(from, elm, ctx, nodes - {from});
      ghost var t, now := Plug(ctx, s.(n := elm)), nodes - {from} + {elm};
      ghost var m' := Replaced(m, ctx, from, elm, Root(s.l), Root(s.r));
      ReplacedIs(m, ctx, from, elm, Root(s.l), Root(s.r));
      SnapOf(now);
      SameFields(now, m');
      FitsStays(t, null, m', Snap(now));
      RootPlug(ctx, s);
      RootPlug(ctx, s.(n := elm));
      tree := t;
    }

    /** A node with two children: its successor is taken out of its own place and
        put in the node's. The answer is the place that is one node short, if the
        colour taken out was black. */
    method TakeSuccessor(old_: Node, ghost ctx: Ctx, ghost s: Tree)
      returns (child: Node?, parent: Node?, color: Color, ghost ctx': Ctx, ghost sub: Tree)
      requires Linked() && Sound(tree) && tree == Plug(ctx, s) && s.T? && s.n == old_ && s.l.T? && s.r.T?
      modifies this, Nodes(tree)
      ensures Linked() && tree == Plug(ctx', sub) && child == Root(sub) && parent == ParentOf(ctx')
      ensures Nodes(tree) == old(Nodes(tree)) - {old_}
      ensures if color == Black then Removing(ctx', sub) else Sound(tree)
    {
      hide Balanced, BlackHeight, CtxBalanced, CtxNoRedRed, CtxRootBlack, Fits, Inorder, LeftOnly, NoRedRed, Nodes,
        Ordered, Plug, Snap, Within;
      At(ctx, s);
      ghost var t0, nodes, outer := tree, Nodes(tree), In(Right, old_, s.c, s.l, ctx);
      ghost var inner, e := Top, s.r;
      SuccessorStart(ctx, s);
      At(outer, e);
      var elm: Node := old_.right;
      while elm.left != null
        invariant Linked() && tree == t0 && Nodes(tree) == nodes && elm in nodes && e.T? && e.n == elm
                  && elm.left == Root(e.l)
        invariant s.r == Plug(inner, e) && tree == Plug(Within(inner, outer), e) && LeftOnly(inner)
        decreases e
      {
        SuccessorStep(inner, outer, e);
        inner, e := In(Left, e.n, e.c, e.r, inner), e.l;
        At(Within(inner, outer), e);
        elm := elm.left;
      }
      ghost var hole, cr := Within(inner, outer), e.r;
      At(hole, e);
      child := elm.right;
      parent := elm.parent;
      color := elm.color;
      SuccessorShapes(ctx, s, inner, e);
      SuccessorApart(ctx, s, inner, e);
      assert Ordered(Inorder(tree));
      SuccessorOrder(ctx, s.l, old_, s.c, inner, elm, e.c, cr);
      SpliceStart(hole, e, cr);
      RenamedRemoving(inner, outer, elm, cr);
      Splice(elm, child, parent, hole, e, cr);
      if elm.parent == old_ {
        parent := elm;
      }
      ghost var s1 := T(s.l, old_, s.c, Plug(inner, cr));
      Replace(old_, elm, ctx, s1);
      ctx', sub := Within(inner, outer.(n := elm)), cr;
    }

    static lemma SuccessorStart(ctx: Ctx, s: Tree)
      requires s.T?
      ensures s.r == Plug(Top, s.r) && LeftOnly(Top)
              && Within(Top, In(Right, s.n, s.c, s.l, ctx)) == In(Right, s.n, s.c, s.l, ctx)
      ensures Plug(ctx, s) == Plug(In(Right, s.n, s.c, s.l, ctx), s.r)
    {
    }

    static lemma SuccessorStep(inner: Ctx, outer: Ctx, e: Tree)
      requires e.T? && LeftOnly(inner)
      ensures var inner' := In(Left, e.n, e.c, e.r, inner);
              && LeftOnly(inner') && Plug(inner', e.l) == Plug(inner, e)
              && Plug(Within(inner', outer), e.l) == Plug(Within(inner, outer), e)
    {
    }

    /** The trees on the way: whole, without the successor, and with it in its new
        place. */
    static lemma SuccessorShapes(ctx: Ctx, s: Tree, inner: Ctx, e: Tree)
      requires s.T? && s.r == Plug(inner, e) && e.T? && e.l == Leaf
      ensures var outer := In(Right, s.n, s.c, s.l, ctx); var outer' := outer.(n := e.n);
              && s == T(s.l, s.n, s.c, Plug(inner, T(Leaf, e.n, e.c, e.r)))
              && Plug(Within(inner, outer), e.r) == Plug(ctx, T(s.l, s.n, s.c, Plug(inner, e.r)))
              && Plug(Within(inner, outer'), e.r) == Plug(ctx, T(s.l, e.n, s.c, Plug(inner, e.r)))
              && ParentOf(Within(inner, outer)) == (if inner.Top? then s.n else inner.n)
              && ParentOf(Within(inner, outer')) == (if inner.Top? then e.n else inner.n)
    {
      hide Plug, Within;
      var outer := In(Right, s.n, s.c, s.l, ctx);
      var outer' := outer.(n := e.n);
      PlugWithin(inner, outer, e.r);
      PlugWithin(inner, outer', e.r);
      PlugIn(outer, Plug(inner, e.r));
      PlugIn(outer', Plug(inner, e.r));
      ParentWithin(inner, outer);
      ParentWithin(inner, outer');
    }

    static lemma ParentWithin(inner: Ctx, outer: Ctx)
      ensures ParentOf(Within(inner, outer)) == if inner.Top? then ParentOf(outer) else inner.n
    {
    }

    lemma SuccessorApart(ctx: Ctx, s: Tree, inner: Ctx, e: Tree)
      requires Linked() && tree == Plug(ctx, s) && s.T? && s.r == Plug(inner, e) && e.T?
      ensures e.n in Nodes(tree) && s.n in Nodes(tree) && e.n != s.n && (inner.In? ==> inner.n != s.n)
    {
      hide Linked, Plug, Fits;
      LinkedUnique();
      UniquePlug(ctx, s);
      NodesPlug(ctx, s);
      NodesPlug(inner, e);
      ParentInside(inner);
      assert e.n in Nodes(e);
      hide CtxNodes;
    }

    /** RB_REMOVE() */
    method Remove(elm: Node) returns (r: Node)
      requires Valid() && elm in Nodes(tree)
      modifies this, Nodes(tree)
      ensures Valid() && r == elm && Nodes(tree) == old(Nodes(tree)) - {elm}
    {
      hide Balanced, BlackHeight, CtxBalanced, CtxNoRedRed, CtxRootBlack, Fits, Inorder, NoRedRed, Nodes, Ordered,
        Plug, Snap;
      assert Linked() && Sound(tree);
      ghost var ctx, s := Locate(tree, elm);
      At(ctx, s);
      var child: Node?, parent: Node?, color: Color;
      ghost var hole: Ctx, sub: Tree;
      if elm.left != null && elm.right != null {
        child, parent, color, hole, sub := TakeSuccessor(elm, ctx, s);
      } else {
        child := if elm.left == null then elm.right else elm.left;
        parent := elm.parent;
        color := elm.color;
        hole, sub := ctx, if s.l.Leaf? then s.r else s.l;
        SpliceStart(ctx, s, sub);
        Splice(elm, child, parent, ctx, s, sub);
      }
      if color == Black {
        RemoveColor(parent, child, hole, sub);
      } else {
      }
      return elm;
    }

    /** "The maximum height of a red-black tree is 2lg (n+1)." */
    lemma HeightIsLogarithmic()
      requires Valid()
      ensures Pow2(Height(tree)) <= (|Nodes(tree)| + 1) * (|Nodes(tree)| + 1)
    {
      HeightBound(tree);
      CountNodes(tree);
    }
  }

  lemma {:induction false} CountNodes(t: Tree)
    requires Ordered(Inorder(t))
    ensures |Inorder(t)| == |Nodes(t)|
  {
    if t.T? {
      OrderedUnique(t);
      OrderedParts(Inorder(t.l), t.n, Inorder(t.r));
      hide Ordered;
      CountNodes(t.l);
      CountNodes(t.r);
      assert Nodes(t) == (Nodes(t.l) + {t.n}) + Nodes(t.r);
      assert Inorder(t) == Inorder(t.l) + [t.n] + Inorder(t.r);
    }
  }
}
