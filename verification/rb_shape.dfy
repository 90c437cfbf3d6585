/** Red-black trees as values (compat/tree.h): shape, colours, order, and when a
  set of linked nodes stands for one.

  A tree being repaired is seen as a subtree in a context, the way back to the
  root. Sides are a parameter, so that each fact is stated once for both.
*/
module RbShape {

  datatype Color = Red | Black

  datatype Side = Left | Right

  class Node {
    const key: int
    var left: Node?
    var right: Node?
    var parent: Node?
    var color: Color

    constructor (key: int)
      ensures this.key == key
    {
      this.key := key;
      left, right, parent, color := null, null, null, Black;
    }
  }

  datatype Tree = Leaf | T(l: Tree, n: Node, c: Color, r: Tree)

  /** Where a subtree hangs: on side `side` of n, beside `sibling`. */
  datatype Ctx = Top | In(side: Side, n: Node, c: Color, sibling: Tree, up: Ctx)

  function Other(side: Side): Side {
    if side == Left then Right else Left
  }

  /** A node with `near` on the given side. */
  function Join(side: Side, near: Tree, n: Node, c: Color, far: Tree): Tree {
    if side == Left then T(near, n, c, far) else T(far, n, c, near)
  }

  function Plug(ctx: Ctx, s: Tree): Tree {
    match ctx
    case Top => s
    case In(side, n, c, sibling, up) => Plug(up, Join(side, s, n, c, sibling))
  }

  function Root(t: Tree): Node? {
    if t.Leaf? then null else t.n
  }

  /** The root of a tree, when it is in the context. */
  function TopNode(ctx: Ctx): Node?
  {
    if ctx.Top? then null else if ctx.up.Top? then ctx.n else TopNode(ctx.up)
  }

  lemma {:induction false} RootPlug(ctx: Ctx, s: Tree)
    ensures Root(Plug(ctx, s)) == if ctx.Top? then Root(s) else TopNode(ctx)
    decreases ctx
  {
    if ctx.In? {
      RootPlug(ctx.up, Join(ctx.side, s, ctx.n, ctx.c, ctx.sibling));
    }
  }

  function ParentOf(ctx: Ctx): Node? {
    if ctx.Top? then null else ctx.n
  }

  function Depth(ctx: Ctx): nat {
    if ctx.Top? then 0 else 1 + Depth(ctx.up)
  }

  // ------------------------------------------------------------ order

  function Inorder(t: Tree): seq<Node> {
    match t
    case Leaf => []
    case T(l, n, _, r) => Inorder(l) + [n] + Inorder(r)
  }

  /** The nodes before and after the hole of a context. */
  function Before(ctx: Ctx): seq<Node> {
    match ctx
    case Top => []
    case In(side, n, _, sibling, up) => if side == Left then Before(up) else Before(up) + Inorder(sibling) + [n]
  }

  function After(ctx: Ctx): seq<Node> {
    match ctx
    case Top => []
    case In(side, n, _, sibling, up) => if side == Left then [n] + Inorder(sibling) + After(up) else After(up)
  }

  ghost predicate Ordered(s: seq<Node>) {
    forall i, j | 0 <= i < j < |s| :: s[i].key < s[j].key
  }

  lemma {:induction false} InorderPlug(ctx: Ctx, s: Tree)
    ensures Inorder(Plug(ctx, s)) == Before(ctx) + Inorder(s) + After(ctx)
    decreases ctx
  {
    if ctx.In? {
      InorderPlug(ctx.up, Join(ctx.side, s, ctx.n, ctx.c, ctx.sibling));
      var b, i, n, w, a := Before(ctx.up), Inorder(s), [ctx.n], Inorder(ctx.sibling), After(ctx.up);
      if ctx.side == Left {
        Regroup(b, i, n, w, a);
      } else {
        Regroup(b, w, n, i, a);
      }
    } else {
      assert [] + Inorder(s) + [] == Inorder(s);
    }
  }

  lemma Regroup(a: seq<Node>, b: seq<Node>, c: seq<Node>, d: seq<Node>, e: seq<Node>)
    ensures a + (b + c + d) + e == a + b + (c + d + e)
    ensures a + (b + c + d) + e == (a + b + c) + d + e
  {
  }

  // ------------------------------------------------------------ separation

  function Nodes(t: Tree): set<Node> {
    if t.Leaf? then {} else Nodes(t.l) + {t.n} + Nodes(t.r)
  }

  function CtxNodes(ctx: Ctx): set<Node> {
    if ctx.Top? then {} else {ctx.n} + Nodes(ctx.sibling) + CtxNodes(ctx.up)
  }

  /** No node occurs twice. */
  ghost predicate Unique(t: Tree) {
    t.T? ==> t.n !in Nodes(t.l) && t.n !in Nodes(t.r) && Nodes(t.l) !! Nodes(t.r) && Unique(t.l) && Unique(t.r)
  }

  ghost predicate CtxUnique(ctx: Ctx) {
    ctx.In? ==>
      && ctx.n !in Nodes(ctx.sibling) && ctx.n !in CtxNodes(ctx.up) && Nodes(ctx.sibling) !! CtxNodes(ctx.up)
      && Unique(ctx.sibling) && CtxUnique(ctx.up)
  }

  function Elements(s: seq<Node>): set<Node> {
    set n | n in s
  }

  lemma {:induction false} NodesInorder(t: Tree)
    ensures Nodes(t) == Elements(Inorder(t))
  {
    if t.T? {
      NodesInorder(t.l);
      NodesInorder(t.r);
    }
  }

  lemma {:induction false} NodesPlug(ctx: Ctx, s: Tree)
    ensures Nodes(Plug(ctx, s)) == CtxNodes(ctx) + Nodes(s)
    decreases ctx
  {
    if ctx.In? {
      NodesPlug(ctx.up, Join(ctx.side, s, ctx.n, ctx.c, ctx.sibling));
    }
  }

  lemma {:induction false} OrderedUnique(t: Tree)
    requires Ordered(Inorder(t))
    ensures Unique(t)
  {
    hide Ordered, Nodes;
    if t.T? {
      OrderedParts(Inorder(t.l), t.n, Inorder(t.r));
      OrderedUnique(t.l);
      OrderedUnique(t.r);
      NodesInorder(t.l);
      NodesInorder(t.r);
      hide Inorder;
      forall x: Node | x in Nodes(t.l)
        ensures x != t.n && x !in Nodes(t.r)
      {
        assert x in Inorder(t.l);
        assert x.key < t.n.key;
      }
      forall x: Node | x in Nodes(t.r)
        ensures x != t.n
      {
        assert x in Inorder(t.r);
        assert t.n.key < x.key;
      }
    }
  }

  lemma OrderedParts(a: seq<Node>, n: Node, b: seq<Node>)
    ensures Ordered(a + [n] + b) <==>
            && Ordered(a) && Ordered(b)
            && (forall x | x in a :: x.key < n.key) && (forall x | x in b :: n.key < x.key)
            && (forall x, y | x in a && y in b :: x.key < y.key)
  {
    var s := a + [n] + b;
    if Ordered(s) {
      forall i | 0 <= i < |a|
        ensures a[i].key < n.key
      {
        assert s[i] == a[i] && s[|a|] == n;
      }
      forall j | 0 <= j < |b|
        ensures n.key < b[j].key
      {
        assert s[|a| + 1 + j] == b[j] && s[|a|] == n;
      }
      assert forall i, j | 0 <= i < j < |a| :: s[i] == a[i] && s[j] == a[j];
      forall i, j | 0 <= i < j < |b|
        ensures b[i].key < b[j].key
      {
        assert s[|a| + 1 + i] == b[i] && s[|a| + 1 + j] == b[j];
      }
    }
  }

  lemma {:induction false} UniquePlug(ctx: Ctx, s: Tree)
    requires Unique(Plug(ctx, s))
    ensures Unique(s) && CtxUnique(ctx) && Nodes(s) !! CtxNodes(ctx)
    decreases ctx
  {
    if ctx.In? {
      UniquePlug(ctx.up, Join(ctx.side, s, ctx.n, ctx.c, ctx.sibling));
    }
  }

  // ------------------------------------------------------------ colours

  predicate IsRed(t: Tree) {
    t.T? && t.c == Red
  }

  function Weight(c: Color): nat {
    if c == Black then 1 else 0
  }

  /** Black nodes on the leftmost path. */
  function BlackHeight(t: Tree): nat {
    if t.Leaf? then 0 else BlackHeight(t.l) + Weight(t.c)
  }

  /** Every path has the same number of black nodes. */
  predicate Balanced(t: Tree) {
    t.T? ==> Balanced(t.l) && Balanced(t.r) && BlackHeight(t.l) == BlackHeight(t.r)
  }

  /** No red node under a red node. */
  predicate NoRedRed(t: Tree) {
    t.T? ==> NoRedRed(t.l) && NoRedRed(t.r) && (t.c == Red ==> !IsRed(t.l) && !IsRed(t.r))
  }

  /** The context is balanced around a subtree of black height h. */
  predicate CtxBalanced(ctx: Ctx, h: nat) {
    ctx.In? ==> Balanced(ctx.sibling) && BlackHeight(ctx.sibling) == h && CtxBalanced(ctx.up, h + Weight(ctx.c))
  }

  /** No red under red in the context, with a subtree of the given colour in it. */
  predicate CtxNoRedRed(ctx: Ctx, red: bool) {
    ctx.In? ==>
      && NoRedRed(ctx.sibling) && (ctx.c == Red ==> !red && !IsRed(ctx.sibling))
      && CtxNoRedRed(ctx.up, ctx.c == Red)
  }

  /** The root, when it is in the context, is black. */
  predicate CtxRootBlack(ctx: Ctx) {
    ctx.In? ==> if ctx.up.Top? then ctx.c == Black else CtxRootBlack(ctx.up)
  }

  lemma {:induction false} PlugBalanced(ctx: Ctx, s: Tree)
    ensures Balanced(Plug(ctx, s)) <==> Balanced(s) && CtxBalanced(ctx, BlackHeight(s))
    decreases ctx
  {
    if ctx.In? {
      PlugBalanced(ctx.up, Join(ctx.side, s, ctx.n, ctx.c, ctx.sibling));
    }
  }

  lemma {:induction false} PlugNoRedRed(ctx: Ctx, s: Tree)
    ensures NoRedRed(Plug(ctx, s)) <==> NoRedRed(s) && CtxNoRedRed(ctx, IsRed(s))
    decreases ctx
  {
    if ctx.In? {
      PlugNoRedRed(ctx.up, Join(ctx.side, s, ctx.n, ctx.c, ctx.sibling));
    }
  }

  lemma {:induction false} PlugRootBlack(ctx: Ctx, s: Tree)
    requires ctx.In?
    ensures Plug(ctx, s).T? && (!IsRed(Plug(ctx, s)) <==> CtxRootBlack(ctx))
    decreases ctx
  {
    if ctx.up.In? {
      PlugRootBlack(ctx.up, Join(ctx.side, s, ctx.n, ctx.c, ctx.sibling));
    }
  }

  lemma {:induction false} CtxNoRedRedBlack(ctx: Ctx, red: bool)
    requires CtxNoRedRed(ctx, red)
    ensures CtxNoRedRed(ctx, false)
  {
  }

  // ------------------------------------------------------------ height

  function Pow2(k: nat): nat {
    if k == 0 then 1 else 2 * Pow2(k - 1)
  }

  function Height(t: Tree): nat {
    if t.Leaf? then 0 else 1 + if Height(t.l) > Height(t.r) then Height(t.l) else Height(t.r)
  }

  lemma {:induction false} HeightByBlack(t: Tree)
    requires Balanced(t) && NoRedRed(t)
    ensures Height(t) <= 2 * BlackHeight(t) + if IsRed(t) then 1 else 0
    ensures Pow2(BlackHeight(t)) <= |Inorder(t)| + 1
  {
    if t.T? {
      HeightByBlack(t.l);
      HeightByBlack(t.r);
    }
  }

  lemma {:induction false} Pow2Grows(a: nat, b: nat)
    requires a <= b
    ensures Pow2(a) <= Pow2(b)
  {
    if a < b {
      Pow2Grows(a, b - 1);
    }
  }

  lemma {:induction false} Pow2Doubles(k: nat)
    ensures Pow2(2 * k) == Pow2(k) * Pow2(k)
  {
    if k > 0 {
      Pow2Doubles(k - 1);
      assert Pow2(2 * k) == 2 * Pow2(2 * k - 1) == 4 * Pow2(2 * (k - 1));
      assert Pow2(k) * Pow2(k) == 2 * Pow2(k - 1) * (2 * Pow2(k - 1));
    }
  }

  lemma SquareGrows(a: nat, b: nat)
    requires a <= b
    ensures a * a <= b * b
  {
    assert b * b == a * a + (b - a) * (b + a);
  }

  /** The height is at most twice the logarithm of the number of nodes plus one. */
  lemma HeightBound(t: Tree)
    requires Balanced(t) && NoRedRed(t) && !IsRed(t)
    ensures Pow2(Height(t)) <= (|Inorder(t)| + 1) * (|Inorder(t)| + 1)
  {
    HeightByBlack(t);
    Pow2Grows(Height(t), 2 * BlackHeight(t));
    Pow2Doubles(BlackHeight(t));
    SquareGrows(Pow2(BlackHeight(t)), |Inorder(t)| + 1);
  }

  // ------------------------------------------------------------ links

  /** The fields of one node. */
  datatype Info = Info(left: Node?, right: Node?, parent: Node?, color: Color)

  type Links = map<Node, Info>

  function MakeInfo(side: Side, near: Node?, far: Node?, parent: Node?, c: Color): Info {
    if side == Left then Info(near, far, parent, c) else Info(far, near, parent, c)
  }

  function SetChild(m: Links, n: Node, side: Side, child: Node?): Links
    requires n in m
  {
    m[n := if side == Left then m[n].(left := child) else m[n].(right := child)]
  }

  function SetParent(m: Links, n: Node, parent: Node?): Links
    requires n in m
  {
    m[n := m[n].(parent := parent)]
  }

  function SetColor(m: Links, n: Node, c: Color): Links
    requires n in m
  {
    m[n := m[n].(color := c)]
  }

  /** The links stand for the tree, whose root has the given parent. */
  ghost predicate Fits(t: Tree, parent: Node?, m: Links) {
    t.T? ==>
      && t.n in m && m[t.n] == Info(Root(t.l), Root(t.r), parent, t.c)
      && Fits(t.l, t.n, m) && Fits(t.r, t.n, m)
  }

  /** The links stand for the context, with `hole` as its subtree. */
  ghost predicate CtxFits(ctx: Ctx, hole: Node?, m: Links) {
    ctx.In? ==>
      && ctx.n in m && m[ctx.n] == MakeInfo(ctx.side, hole, Root(ctx.sibling), ParentOf(ctx.up), ctx.c)
      && Fits(ctx.sibling, ctx.n, m) && CtxFits(ctx.up, ctx.n, m)
  }

  lemma {:induction false} PlugFits(ctx: Ctx, s: Tree, m: Links)
    ensures Fits(Plug(ctx, s), null, m) <==> CtxFits(ctx, Root(s), m) && Fits(s, ParentOf(ctx), m)
    decreases ctx
  {
    if ctx.In? {
      PlugFits(ctx.up, Join(ctx.side, s, ctx.n, ctx.c, ctx.sibling), m);
    }
  }

  ghost predicate SameOn(nodes: set<Node>, m: Links, m': Links) {
    forall n | n in nodes :: n in m && n in m' && m'[n] == m[n]
  }

  lemma {:induction false} FitsDomain(t: Tree, parent: Node?, m: Links)
    requires Fits(t, parent, m)
    ensures forall n | n in Nodes(t) :: n in m
  {
    if t.T? {
      FitsDomain(t.l, t.n, m);
      FitsDomain(t.r, t.n, m);
    }
  }

  lemma {:induction false} FitsStays(t: Tree, parent: Node?, m: Links, m': Links)
    requires Fits(t, parent, m) && SameOn(Nodes(t), m, m')
    ensures Fits(t, parent, m')
  {
    if t.T? {
      FitsStays(t.l, t.n, m, m');
      FitsStays(t.r, t.n, m, m');
    }
  }

  lemma {:induction false} CtxFitsStays(ctx: Ctx, hole: Node?, m: Links, m': Links)
    requires CtxFits(ctx, hole, m) && SameOn(CtxNodes(ctx), m, m')
    ensures CtxFits(ctx, hole, m')
    decreases ctx
  {
    if ctx.In? {
      FitsStays(ctx.sibling, ctx.n, m, m');
      CtxFitsStays(ctx.up, ctx.n, m, m');
    }
  }

  lemma {:induction false} CtxFitsDomain(ctx: Ctx, hole: Node?, m: Links)
    requires CtxFits(ctx, hole, m)
    ensures forall n | n in CtxNodes(ctx) :: n in m
    decreases ctx
  {
    if ctx.In? {
      FitsDomain(ctx.sibling, ctx.n, m);
      CtxFitsDomain(ctx.up, ctx.n, m);
    }
  }

  /** The links after hanging the tree with root r below p. */
  function Reparented(m: Links, r: Node?, p: Node?): Links
    requires r != null ==> r in m
  {
    if r == null then m else SetParent(m, r, p)
  }

  /** The links after putting another root in the hole of a context. */
  function Rehung(m: Links, ctx: Ctx, r: Node?): Links
    requires ctx.In? ==> ctx.n in m
  {
    if ctx.Top? then m else SetChild(m, ctx.n, ctx.side, r)
  }

  lemma FitsReparented(t: Tree, parent: Node?, parent': Node?, m: Links, m': Links)
    requires Fits(t, parent, m) && Unique(t)
    requires t.T? ==> t.n in m' && m'[t.n] == m[t.n].(parent := parent')
    requires SameOn(Nodes(t) - {Root(t)}, m, m')
    ensures Fits(t, parent', m')
  {
    if t.T? {
      FitsStays(t.l, t.n, m, m');
      FitsStays(t.r, t.n, m, m');
    }
  }

  lemma CtxFitsRehung(ctx: Ctx, hole: Node?, hole': Node?, m: Links, m': Links)
    requires CtxFits(ctx, hole, m) && CtxUnique(ctx)
    requires ctx.In? ==> ctx.n in m' && m'[ctx.n] == if ctx.side == Left then m[ctx.n].(left := hole')
             else m[ctx.n].(right := hole')
    requires SameOn(CtxNodes(ctx) - {ParentOf(ctx)}, m, m')
    ensures CtxFits(ctx, hole', m')
  {
    if ctx.In? {
      FitsStays(ctx.sibling, ctx.n, m, m');
      CtxFitsStays(ctx.up, ctx.n, m, m');
    }
  }
}
