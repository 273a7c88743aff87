/** Red-black trees of process nodes as values, and the zippers that name a position in one. */
module RbTree {
  import opened Words

  const WORD: int := 0x1_0000_0000

  type Word = w: int | 0 <= w < WORD

  datatype Color = Red | Black

  /** The part of `struct process` that the registry uses. A fresh node is zero-filled. */
  class Process {
    const pid: Word
    var color: Color
    var parent: Process?
    var left: Process?
    var right: Process?

    constructor (pid: Word)
      ensures this.pid == pid && color == Black && parent == null && left == null && right == null
    {
      this.pid := pid;
      color, parent, left, right := Black, null, null, null;
    }
  }

  datatype Tree = Leaf | Node(left: Tree, proc: Process, color: Color, right: Tree)

  datatype Side = L | R

  /** A tree with one subtree missing: the path from the hole up to the root. */
  datatype Ctx = Top | Hole(side: Side, proc: Process, color: Color, sibling: Tree, up: Ctx)

  function Other(side: Side): Side { if side == L then R else L }

  // ----- Positions -----

  ghost function Wrap(side: Side, t: Tree, n: Process, c: Color, s: Tree): Tree {
    if side == L then Node(t, n, c, s) else Node(s, n, c, t)
  }

  /** The subtree of a node on the given side, and the one across from it. */
  ghost function Near(side: Side, t: Tree): Tree requires t.Node? { if side == L then t.left else t.right }
  ghost function Far(side: Side, t: Tree): Tree requires t.Node? { if side == L then t.right else t.left }

  ghost function Plug(ctx: Ctx, t: Tree): Tree
    decreases ctx
  {
    match ctx
    case Top => t
    case Hole(side, n, c, s, up) => Plug(up, Wrap(side, t, n, c, s))
  }

  /** The path of `inner` continued by the path of `outer`. */
  ghost function Append(inner: Ctx, outer: Ctx): Ctx {
    match inner
    case Top => outer
    case Hole(side, n, c, s, up) => Hole(side, n, c, s, Append(up, outer))
  }

  ghost function Depth(ctx: Ctx): nat {
    match ctx
    case Top => 0
    case Hole(_, _, _, _, up) => 1 + Depth(up)
  }

  ghost function Parent(ctx: Ctx): Process? {
    match ctx
    case Top => null
    case Hole(_, n, _, _, _) => n
  }

  ghost function RootOf(ctx: Ctx, x: Process): Process {
    match ctx
    case Top => x
    case Hole(_, n, _, _, up) => RootOf(up, n)
  }

  lemma {:induction false} PlugAppend(inner: Ctx, outer: Ctx, t: Tree)
    ensures Plug(Append(inner, outer), t) == Plug(outer, Plug(inner, t))
    decreases inner
  {
    match inner
    case Top =>
    case Hole(side, n, c, s, up) => PlugAppend(up, outer, Wrap(side, t, n, c, s));
  }

  // ----- Contents -----

  ghost function Nodes(t: Tree): (s: set<Process>)
    ensures t.Node? ==> t.proc in s
  {
    match t
    case Leaf => {}
    case Node(l, n, _, r) => Nodes(l) + {n} + Nodes(r)
  }

  ghost function CtxNodes(ctx: Ctx): (s: set<Process>)
    ensures ctx.Hole? ==> ctx.proc in s
  {
    match ctx
    case Top => {}
    case Hole(_, n, _, s, up) => Nodes(s) + {n} + CtxNodes(up)
  }

  lemma {:induction false} PlugNodes(ctx: Ctx, t: Tree)
    ensures Nodes(Plug(ctx, t)) == Nodes(t) + CtxNodes(ctx)
    decreases ctx
  {
    match ctx
    case Top =>
    case Hole(side, n, c, s, up) => PlugNodes(up, Wrap(side, t, n, c, s));
  }

  lemma {:induction false} AppendNodes(inner: Ctx, outer: Ctx)
    ensures CtxNodes(Append(inner, outer)) == CtxNodes(inner) + CtxNodes(outer)
    decreases inner
  {
    if inner.Hole? { AppendNodes(inner.up, outer); }
  }

  /** No process sits at two places of the tree. */
  ghost predicate Distinct(t: Tree) {
    match t
    case Leaf => true
    case Node(l, n, _, r) =>
      n !in Nodes(l) && n !in Nodes(r) && Nodes(l) !! Nodes(r) && Distinct(l) && Distinct(r)
  }

  ghost predicate CtxDistinct(ctx: Ctx) {
    match ctx
    case Top => true
    case Hole(_, n, _, s, up) =>
      n !in Nodes(s) && n !in CtxNodes(up) && Nodes(s) !! CtxNodes(up) && Distinct(s) && CtxDistinct(up)
  }

  /** The processes in the order in which `inOrderTraversal` visits them. */
  ghost function Inorder(t: Tree): seq<Process> {
    match t
    case Leaf => []
    case Node(l, n, _, r) => Inorder(l) + [n] + Inorder(r)
  }

  /** The processes before the hole. */
  ghost function Before(ctx: Ctx): seq<Process> {
    match ctx
    case Top => []
    case Hole(side, n, _, s, up) => if side == L then Before(up) else Before(up) + Inorder(s) + [n]
  }

  /** The processes after the hole. */
  ghost function After(ctx: Ctx): seq<Process> {
    match ctx
    case Top => []
    case Hole(side, n, _, s, up) => if side == L then [n] + Inorder(s) + After(up) else After(up)
  }

  ghost function Order(ctx: Ctx, t: Tree): seq<Process> { Before(ctx) + Inorder(t) + After(ctx) }

  lemma Regroup<T>(a: seq<T>, b: seq<T>, c: seq<T>, d: seq<T>, e: seq<T>)
    ensures a + b + (c + d + e) == a + (b + c + d) + e == a + b + c + d + e
  {
  }

  lemma Associate<T>(a: seq<T>, b: seq<T>, c: seq<T>)
    ensures a + b + c == a + (b + c)
  {
  }

  lemma EmptyLeft<T>(a: seq<T>, b: seq<T>)
    ensures [] + [] + a + b == a + b
  {
    assert [] + [] + a == a;
  }

  lemma Reassociate<T>(a: seq<T>, b: seq<T>, c: seq<T>, d: seq<T>, e: seq<T>)
    ensures a + b + [] + c + (d + e) == a + (b + (c + d) + e)
  {
    assert a + b + [] == a + b;
  }

  /** Moving the focus up keeps the order, whatever the colours become. */
  lemma OrderUp(ctx: Ctx, t: Tree, c: Color, s: Tree)
    requires ctx.Hole? && Inorder(s) == Inorder(ctx.sibling)
    ensures Order(ctx, t) == Order(ctx.up, Wrap(ctx.side, t, ctx.proc, c, s))
  {
    if ctx.side == L {
      Regroup(Before(ctx.up), Inorder(t), [ctx.proc], Inorder(s), After(ctx.up));
    } else {
      Regroup(Before(ctx.up), Inorder(s), [ctx.proc], Inorder(t), After(ctx.up));
    }
  }

  lemma {:induction false} InorderPlug(ctx: Ctx, t: Tree)
    ensures Inorder(Plug(ctx, t)) == Order(ctx, t)
    decreases ctx
  {
    match ctx
    case Top =>
    case Hole(side, n, c, s, up) =>
      OrderUp(ctx, t, c, s);
      InorderPlug(up, Wrap(side, t, n, c, s));
  }

  lemma {:induction false} InorderNodes(t: Tree)
    ensures Nodes(t) == set n | n in Inorder(t)
  {
    match t
    case Leaf =>
    case Node(l, _, _, r) => InorderNodes(l); InorderNodes(r);
  }

  /** The search-tree order. Equal pids may be neighbours, as `rbInsert` allows. */
  ghost predicate Sorted(s: seq<Process>) {
    forall i, j :: 0 <= i < j < |s| ==> s[i].pid <= s[j].pid
  }

  ghost predicate StrictlySorted(s: seq<Process>) {
    forall i, j :: 0 <= i < j < |s| ==> s[i].pid < s[j].pid
  }

  /** Rotations keep the in-order sequence, whatever the colours become. */
  lemma RotationOrder(s: Side, a: Tree, x: Process, cx: Color, b: Tree, y: Process, cy: Color, c: Tree,
                      dx: Color, dy: Color)
    ensures Inorder(Wrap(s, a, x, cx, Wrap(s, b, y, cy, c))) == Inorder(Wrap(s, Wrap(s, a, x, dx, b), y, dy, c))
  {
    if s == L {
      Regroup(Inorder(a), [x], Inorder(b), [y], Inorder(c));
    } else {
      Regroup(Inorder(c), [y], Inorder(b), [x], Inorder(a));
    }
  }

  lemma SortedMiddle(a: seq<Process>, b: seq<Process>, c: seq<Process>)
    requires Sorted(a + b + c)
    ensures Sorted(b)
  {
    forall i, j | 0 <= i < j < |b| ensures b[i].pid <= b[j].pid {
      assert b[i] == (a + b + c)[|a| + i] && b[j] == (a + b + c)[|a| + j];
    }
  }

  lemma SortedAround(a: seq<Process>, n: Process, b: seq<Process>)
    requires Sorted(a + [n] + b)
    ensures forall m <- a :: m.pid <= n.pid
    ensures forall m <- b :: n.pid <= m.pid
  {
    var s := a + [n] + b;
    assert s[|a|] == n;
    forall i | 0 <= i < |a| ensures a[i].pid <= n.pid { assert s[i] == a[i]; }
    forall i | 0 <= i < |b| ensures n.pid <= b[i].pid { assert s[|a| + 1 + i] == b[i]; }
  }

  /** Stepping down keeps what lies before the hole below lo and what lies after it above hi. */
  lemma DescendOrder(c: Ctx, f: Tree, s: Side, lo: int, hi: int)
    requires f.Node? && Sorted(Order(c, f)) && (if s == L then hi <= f.proc.pid else f.proc.pid <= lo)
    requires forall n <- Before(c) :: n.pid <= lo
    requires forall n <- After(c) :: hi <= n.pid
    ensures var c' := Hole(s, f.proc, f.color, Far(s, f), c);
      && Order(c', Near(s, f)) == Order(c, f) && Plug(c', Near(s, f)) == Plug(c, f)
      && (forall n <- Before(c') :: n.pid <= lo) && (forall n <- After(c') :: hi <= n.pid)
  {
    var c' := Hole(s, f.proc, f.color, Far(s, f), c);
    OrderUp(c', Near(s, f), f.color, Far(s, f));
    SortedMiddle(Before(c), Inorder(f), After(c));
    SortedAround(Inorder(f.left), f.proc, Inorder(f.right));
  }

  // ----- Colours and black heights -----

  ghost predicate IsBlack(t: Tree) { t.Leaf? || t.color == Black }

  ghost function Weight(c: Color): nat { if c == Black then 1 else 0 }

  ghost function BlackHeight(t: Tree): nat {
    match t
    case Leaf => 0
    case Node(l, _, c, _) => BlackHeight(l) + Weight(c)
  }

  /** Equal black heights everywhere and no red node with a red child. */
  ghost predicate Ok(t: Tree) {
    match t
    case Leaf => true
    case Node(l, _, c, r) =>
      Ok(l) && Ok(r) && BlackHeight(l) == BlackHeight(r) && (c == Red ==> IsBlack(l) && IsBlack(r))
  }

  ghost predicate RedBlack(t: Tree) { Ok(t) && IsBlack(t) }

  ghost function Blackened(t: Tree): Tree { if t.Leaf? then t else t.(color := Black) }

  ghost predicate BlackParent(ctx: Ctx) { ctx.Hole? && ctx.color == Black }

  /** Filling the hole with a black tree of black height h would give a red-black tree. */
  ghost predicate Fits(ctx: Ctx, h: nat)
    decreases ctx
  {
    match ctx
    case Top => true
    case Hole(_, _, c, s, up) =>
      Ok(s) && BlackHeight(s) == h && (c == Red ==> IsBlack(s) && BlackParent(up)) && Fits(up, h + Weight(c))
  }

  lemma {:induction false} PlugRedBlack(ctx: Ctx, t: Tree)
    ensures RedBlack(Plug(ctx, t)) <==>
            Ok(t) && Fits(ctx, BlackHeight(t)) && (IsBlack(t) || BlackParent(ctx))
    decreases ctx
  {
    match ctx
    case Top =>
    case Hole(side, n, c, s, up) => PlugRedBlack(up, Wrap(side, t, n, c, s));
  }

  /** The grandparent's subtree after `fixupInsert` recolours parent, uncle and grandparent. */
  ghost function Recolored(c: Ctx, f: Tree): Tree
    requires c.Hole? && c.up.Hole? && c.up.sibling.Node?
  {
    Wrap(c.up.side, Wrap(c.side, f, c.proc, Black, c.sibling), c.up.proc, Red, c.up.sibling.(color := Black))
  }

  /** The state of `fixupInsert`: all is well but for a red node that may have a red parent. */
  ghost predicate Inserting(c: Ctx, f: Tree) {
    f.Node? && f.color == Red && Ok(f) && Fits(c, BlackHeight(f))
  }

  lemma RecolorStep(c: Ctx, f: Tree)
    requires Inserting(c, f) && c.Hole? && c.color == Red && c.up.Hole? && !IsBlack(c.up.sibling)
    ensures Inserting(c.up.up, Recolored(c, f)) && Order(c.up.up, Recolored(c, f)) == Order(c, f)
  {
    var h, p, u := BlackHeight(f), Wrap(c.side, f, c.proc, Black, c.sibling), c.up.sibling.(color := Black);
    assert Fits(c.up, h) && Fits(c.up.up, h + 1);
    assert Ok(p) && BlackHeight(p) == h + 1 && Ok(c.up.sibling);
    assert Ok(u) && BlackHeight(u) == h + 1 && Inorder(u) == Inorder(c.up.sibling);
    OrderUp(c, f, Black, c.sibling);
    OrderUp(c.up, p, Red, u);
  }

  /** Case 2: an inner grandchild changes places with its parent. */
  lemma InnerStep(c: Ctx, f: Tree)
    requires Inserting(c, f) && c.Hole? && c.color == Red
    ensures var s := Other(c.side);
      var c', f' := Hole(s, f.proc, Red, Far(s, f), c.up), Wrap(c.side, Near(s, f), c.proc, Red, c.sibling);
      Inserting(c', f') && Order(c', f') == Order(c, f)
  {
    var s := Other(c.side);
    var c', f' := Hole(s, f.proc, Red, Far(s, f), c.up), Wrap(c.side, Near(s, f), c.proc, Red, c.sibling);
    OrderUp(c, f, Red, c.sibling);
    OrderUp(c', f', Red, c'.sibling);
    RotationOrder(s, c.sibling, c.proc, Red, Near(s, f), f.proc, Red, Far(s, f), Red, Red);
  }

  /** Case 3: the parent takes the grandparent's place and colour. */
  lemma OuterStep(c: Ctx, f: Tree)
    requires Inserting(c, f) && c.Hole? && c.color == Red && c.up.Hole? && IsBlack(c.up.sibling) && c.side == c.up.side
    ensures var c' := Hole(c.side, c.proc, Black, Wrap(c.side, c.sibling, c.up.proc, Red, c.up.sibling), c.up.up);
      Inserting(c', f) && Order(c', f) == Order(c, f)
  {
    var s := c.side;
    var s' := Wrap(s, c.sibling, c.up.proc, Red, c.up.sibling);
    assert Fits(c.up, BlackHeight(f));
    assert Ok(s') && BlackHeight(s') == BlackHeight(f);
    OrderUp(c, f, Red, c.sibling);
    OrderUp(c.up, Wrap(s, f, c.proc, Red, c.sibling), c.up.color, c.up.sibling);
    OrderUp(Hole(s, c.proc, Black, s', c.up.up), f, Black, s');
    RotationOrder(s, f, c.proc, Black, c.sibling, c.up.proc, Red, c.up.sibling, Red, c.up.color);
  }

  /** s is old with n put in front of position k, where its pid belongs. */
  ghost predicate InsertedAt(before: seq<Process>, s: seq<Process>, k: nat, n: Process) {
    && k <= |before| && s == before[..k] + [n] + before[k..]
    && (forall m <- before[..k] :: m.pid <= n.pid) && (forall m <- before[k..] :: n.pid < m.pid)
  }

  /** Putting n where its pid belongs keeps a sorted sequence sorted. */
  lemma SortedInsert(a: seq<Process>, n: Process, b: seq<Process>)
    requires Sorted(a + b) && (forall m <- a :: m.pid <= n.pid) && (forall m <- b :: n.pid < m.pid)
    ensures Sorted(a + [n] + b)
  {
    var s := a + [n] + b;
    forall i, j | 0 <= i < j < |s| ensures s[i].pid <= s[j].pid {
      assert i < |a| ==> s[i] == (a + b)[i];
      assert i > |a| ==> s[i] == (a + b)[i - 1];
      assert j < |a| ==> s[j] == (a + b)[j];
      assert j > |a| ==> s[j] == (a + b)[j - 1];
    }
  }

  /** A red leaf in place of the empty subtree where the search ended starts the repair. */
  lemma NewLeaf(c: Ctx, n: Process)
    requires RedBlack(Plug(c, Leaf)) && Sorted(Before(c) + After(c))
    requires (forall m <- Before(c) :: m.pid <= n.pid) && (forall m <- After(c) :: n.pid < m.pid)
    ensures var f := Node(Leaf, n, Red, Leaf);
      && Inserting(c, f) && Sorted(Order(c, f)) && (c.Hole? ==> (c.side == L <==> n.pid < c.proc.pid))
      && InsertedAt(Before(c) + After(c), Order(c, f), |Before(c)|, n)
  {
    PlugRedBlack(c, Leaf);
    SortedInsert(Before(c), n, After(c));
    assert Inorder(Node(Leaf, n, Red, Leaf)) == [n];
  }

  lemma InsertedNodes(before: seq<Process>, s: seq<Process>, k: nat, n: Process)
    requires InsertedAt(before, s, k, n)
    ensures (set m | m in s) == (set m | m in before) + {n}
  {
    assert before == before[..k] + before[k..];
  }

  /** Where the fixup loop stops, blackening the root finishes the repair. */
  lemma InsertedRedBlack(c: Ctx, f: Tree)
    requires Inserting(c, f) && (c.Top? || c.color == Black)
    ensures var t := Blackened(Plug(c, f)); RedBlack(t) && Inorder(t) == Order(c, f)
  {
    PlugRedBlack(c, f);
    InorderPlug(c, f);
  }

  // ----- Deletion -----

  /** s is before without the process n at position k. */
  ghost predicate RemovedAt(before: seq<Process>, s: seq<Process>, k: nat, n: Process) {
    k < |before| && before[k] == n && s == before[..k] + before[k + 1..]
  }

  lemma RemovedMiddle(a: seq<Process>, n: Process, b: seq<Process>)
    ensures RemovedAt(a + [n] + b, a + b, |a|, n)
  {
  }

  lemma OrderAround(c: Ctx, f: Tree)
    requires f.Node?
    ensures Order(c, f) == Before(c) + Inorder(f.left) + [f.proc] + (Inorder(f.right) + After(c))
    ensures RemovedAt(Order(c, f), Before(c) + Inorder(f.left) + (Inorder(f.right) + After(c)),
                      |Before(c) + Inorder(f.left)|, f.proc)
  {
    var a, b := Before(c) + Inorder(f.left), Inorder(f.right) + After(c);
    Regroup(Before(c), Inorder(f.left), [f.proc], Inorder(f.right), After(c));
    Associate(a + [f.proc], Inorder(f.right), After(c));
    RemovedMiddle(a, f.proc, b);
  }

  lemma RemovedSorted(before: seq<Process>, s: seq<Process>, k: nat, n: Process)
    requires RemovedAt(before, s, k, n) && Sorted(before)
    ensures Sorted(s)
  {
    forall i, j | 0 <= i < j < |s| ensures s[i].pid <= s[j].pid {
      assert s[i] == before[if i < k then i else i + 1] && s[j] == before[if j < k then j else j + 1];
    }
  }

  lemma {:induction false} DistinctInorder(t: Tree, i: nat, j: nat)
    requires Distinct(t) && i < j < |Inorder(t)|
    ensures Inorder(t)[i] != Inorder(t)[j]
  {
    var l, r := Inorder(t.left), Inorder(t.right);
    InorderNodes(t.left);
    InorderNodes(t.right);
    if j < |l| {
      DistinctInorder(t.left, i, j);
    } else if |l| < i {
      DistinctInorder(t.right, i - |l| - 1, j - |l| - 1);
    } else {
      assert i < |l| ==> Inorder(t)[i] == l[i] && l[i] in Nodes(t.left);
      assert |l| < j ==> Inorder(t)[j] == r[j - |l| - 1] && r[j - |l| - 1] in Nodes(t.right);
    }
  }

  lemma RemovedNodes(before: seq<Process>, s: seq<Process>, k: nat, n: Process)
    requires RemovedAt(before, s, k, n)
    requires forall i, j :: 0 <= i < j < |before| ==> before[i] != before[j]
    ensures (set m | m in s) == (set m | m in before) - {n}
  {
    assert before == before[..k] + [n] + before[k + 1..];
  }

  /** A tree that lists all processes but n also consists of them, and is sorted still. */
  lemma RemovedTree(t: Tree, t': Tree, k: nat, n: Process)
    requires Distinct(t) && Sorted(Inorder(t)) && RemovedAt(Inorder(t), Inorder(t'), k, n)
    ensures Sorted(Inorder(t')) && Nodes(t') == Nodes(t) - {n}
  {
    var before := Inorder(t);
    RemovedSorted(before, Inorder(t'), k, n);
    forall i, j | 0 <= i < j < |before| ensures before[i] != before[j] { DistinctInorder(t, i, j); }
    RemovedNodes(before, Inorder(t'), k, n);
    InorderNodes(t);
    InorderNodes(t');
  }

  /** The state of `rbDeleteFixup`: the focus lacks one black node, unless blackening it suffices. */
  ghost predicate Deleting(c: Ctx, f: Tree) {
    Ok(Blackened(f)) && Fits(c, BlackHeight(f) + 1)
  }

  ghost function FixupMeasure(c: Ctx, f: Tree): nat {
    if c.Top? || !IsBlack(f) then 0 else 1 + Depth(c)
  }

  /** Replacing a node by its only child loses the node's own black, if it was black. */
  lemma RemoveStep(c: Ctx, f: Tree, g: Tree)
    requires f.Node? && RedBlack(Plug(c, f)) && ((f.left.Leaf? && g == f.right) || (f.right.Leaf? && g == f.left))
    ensures if f.color == Black then Deleting(c, g) else RedBlack(Plug(c, g))
  {
    PlugRedBlack(c, f);
    PlugRedBlack(c, g);
  }

  lemma RemoveOrder(c: Ctx, f: Tree, g: Tree)
    requires f.Node? && ((f.left.Leaf? && g == f.right) || (f.right.Leaf? && g == f.left))
    ensures Order(c, g) == Before(c) + Inorder(f.left) + (Inorder(f.right) + After(c))
  {
    if f.left.Leaf? {
      assert Before(c) + [] == Before(c);
      Associate(Before(c), Inorder(g), After(c));
    } else {
      assert [] + After(c) == After(c);
    }
  }

  /** The successor m, the first below the right subtree of f, takes the place and colour of f's own node. */
  lemma SuccessorColors(c: Ctx, f: Tree, inner: Ctx, m: Tree)
    requires f.Node? && RedBlack(Plug(c, f)) && f.right == Plug(inner, m) && m.Node? && m.left.Leaf?
    ensures var c' := Append(inner, Hole(R, m.proc, f.color, f.left, c));
      if m.color == Black then Deleting(c', m.right) else RedBlack(Plug(c', m.right))
  {
    var outer, outer' := Hole(R, f.proc, f.color, f.left, c), Hole(R, m.proc, f.color, f.left, c);
    var c1, c' := Append(inner, outer), Append(inner, outer');
    PlugAppend(inner, outer, m);
    RemoveStep(c1, m, m.right);
    PlugRedBlack(c1, m.right);
    PlugRedBlack(c', m.right);
    FitsAppend(inner, outer, outer', BlackHeight(m.right));
    FitsAppend(inner, outer, outer', BlackHeight(m.right) + 1);
  }

  lemma SuccessorOrder(c: Ctx, f: Tree, inner: Ctx, m: Tree)
    requires f.Node? && f.right == Plug(inner, m) && Before(inner) == [] && m.Node? && m.left.Leaf?
    ensures Order(Append(inner, Hole(R, m.proc, f.color, f.left, c)), m.right)
         == Before(c) + Inorder(f.left) + (Inorder(f.right) + After(c))
  {
    AppendOrder(inner, Hole(R, m.proc, f.color, f.left, c));
    InorderPlug(inner, m);
    OrderAround(inner, m);
    Reassociate(Before(c) + Inorder(f.left), [m.proc], Inorder(m.right), After(inner), After(c));
    EmptyLeft([m.proc], Inorder(m.right) + After(inner));
  }

  lemma {:induction false} AppendOrder(inner: Ctx, outer: Ctx)
    ensures Before(Append(inner, outer)) == Before(outer) + Before(inner)
    ensures After(Append(inner, outer)) == After(inner) + After(outer)
    decreases inner
  {
    if inner.Hole? { AppendOrder(inner.up, outer); }
  }

  /** Where the fixup loop stops, blackening the focus finishes the repair. */
  lemma DeletedRedBlack(c: Ctx, f: Tree)
    requires Deleting(c, f) && (c.Top? || !IsBlack(f))
    ensures var t := Plug(c, Blackened(f)); RedBlack(t) && Inorder(t) == Order(c, f)
  {
    PlugRedBlack(c, Blackened(f));
    InorderPlug(c, Blackened(f));
  }

  /** With the whole tree in focus, nothing is missing. */
  lemma WholeTree(t: Tree)
    requires RedBlack(t)
    ensures Deleting(Top, t) && Order(Top, t) == Inorder(t)
  {
  }

  lemma SiblingExists(c: Ctx, f: Tree)
    requires Deleting(c, f) && c.Hole?
    ensures c.sibling.Node?
  {
  }

  /** Case 1: a red sibling rises above the parent, which turns red. */
  lemma RedSiblingStep(c: Ctx, f: Tree)
    requires Deleting(c, f) && c.Hole? && !IsBlack(c.sibling)
    ensures var w := c.sibling;
      var c' := Hole(c.side, c.proc, Red, Near(c.side, w), Hole(c.side, w.proc, Black, Far(c.side, w), c.up));
      Deleting(c', f) && Order(c', f) == Order(c, f) && IsBlack(c'.sibling)
  {
    var s, w := c.side, c.sibling;
    var c'' := Hole(s, w.proc, Black, Far(s, w), c.up);
    OrderUp(c, f, Red, w);
    OrderUp(Hole(s, c.proc, Red, Near(s, w), c''), f, Red, Near(s, w));
    OrderUp(c'', Wrap(s, f, c.proc, Red, Near(s, w)), Black, Far(s, w));
    RotationOrder(s, f, c.proc, Red, Near(s, w), w.proc, Red, Far(s, w), Red, Black);
  }

  /** Case 2: a black sibling with black children turns red, and the focus moves up. */
  lemma BlackSiblingStep(c: Ctx, f: Tree)
    requires Deleting(c, f) && IsBlack(f) && c.Hole? && c.sibling.Node? && IsBlack(c.sibling)
    requires IsBlack(c.sibling.left) && IsBlack(c.sibling.right)
    ensures var f' := Wrap(c.side, f, c.proc, c.color, c.sibling.(color := Red));
      Deleting(c.up, f') && Order(c.up, f') == Order(c, f)
  {
    OrderUp(c, f, c.color, c.sibling.(color := Red));
  }

  /** Case 3: the sibling's red near child rises above it. */
  lemma NearRedStep(c: Ctx, f: Tree)
    requires Deleting(c, f) && c.Hole? && c.sibling.Node? && IsBlack(c.sibling)
    requires !IsBlack(Near(c.side, c.sibling)) && IsBlack(Far(c.side, c.sibling))
    ensures var s, w, n := c.side, c.sibling, Near(c.side, c.sibling);
      var c' := c.(sibling := Wrap(s, Near(s, n), n.proc, Black, Wrap(s, Far(s, n), w.proc, Red, Far(s, w))));
      Deleting(c', f) && Order(c', f) == Order(c, f)
  {
    var s, w, n := c.side, c.sibling, Near(c.side, c.sibling);
    assert Ok(n) && Ok(w);
    RotationOrder(s, Near(s, n), n.proc, Black, Far(s, n), w.proc, Red, Far(s, w), Red, Black);
    assert Inorder(w) == Inorder(w.(color := Red));
  }

  /** Case 4: the sibling takes the parent's place and colour, and all is well. */
  lemma FarRedStep(c: Ctx, f: Tree)
    requires Deleting(c, f) && IsBlack(f) && c.Hole? && c.sibling.Node? && IsBlack(c.sibling)
    requires !IsBlack(Far(c.side, c.sibling))
    ensures var s, w := c.side, c.sibling;
      var t := Wrap(s, Wrap(s, f, c.proc, Black, Near(s, w)), w.proc, c.color, Far(s, w).(color := Black));
      RedBlack(Plug(c.up, t)) && Order(c.up, t) == Order(c, f)
  {
    var s, w := c.side, c.sibling;
    var far := Far(s, w).(color := Black);
    var t := Wrap(s, Wrap(s, f, c.proc, Black, Near(s, w)), w.proc, c.color, far);
    assert Ok(Far(s, w)) && Ok(far) && Inorder(far) == Inorder(Far(s, w));
    assert Ok(Wrap(s, f, c.proc, Black, Near(s, w)));
    PlugRedBlack(c.up, t);
    OrderUp(c, f, c.color, w);
    RotationOrder(s, f, c.proc, c.color, Near(s, w), w.proc, Black, Far(s, w), Black, c.color);
  }

  /** Which process a path goes through does not matter to the colours. */
  lemma {:induction false} FitsAppend(inner: Ctx, outer: Ctx, outer': Ctx, h: nat)
    requires outer.Hole? && outer'.Hole? && outer' == outer.(proc := outer'.proc)
    ensures Fits(Append(inner, outer), h) <==> Fits(Append(inner, outer'), h)
    decreases inner
  {
    match inner
    case Top =>
    case Hole(_, _, c, _, up) => FitsAppend(up, outer, outer', h + Weight(c));
  }

  // ----- Height -----

  ghost function Max(a: nat, b: nat): nat { if a < b then b else a }

  ghost function Height(t: Tree): nat {
    match t
    case Leaf => 0
    case Node(l, _, _, r) => 1 + Max(Height(l), Height(r))
  }

  lemma {:induction false} SizeBound(t: Tree)
    requires Ok(t)
    ensures Pow2(BlackHeight(t)) <= |Inorder(t)| + 1
    ensures Height(t) <= 2 * BlackHeight(t) + (if IsBlack(t) then 0 else 1)
  {
    match t
    case Leaf =>
    case Node(l, _, _, r) => SizeBound(l); SizeBound(r);
  }

  /** h <= 2 * log2(n + 1). */
  ghost predicate WithinLog(h: nat, n: nat) { Pow2(h) <= (n + 1) * (n + 1) }

  /** A red-black tree of n processes has height at most 2 * log2(n + 1). */
  lemma HeightBound(t: Tree)
    requires RedBlack(t)
    ensures WithinLog(Height(t), |Inorder(t)|)
  {
    var b, n := BlackHeight(t), |Inorder(t)| + 1;
    SizeBound(t);
    Pow2Monotone(Height(t), b + b);
    Pow2Add(b, b);
    MulLe(Pow2(b), n, Pow2(b));
    MulLe(Pow2(b), n, n);
  }

  lemma SearchBound(t: Tree, steps: nat)
    requires RedBlack(t) && steps <= Height(t)
    ensures WithinLog(steps, |Inorder(t)|)
  {
    HeightBound(t);
    Pow2Monotone(steps, Height(t));
  }

  lemma InInorder(t: Tree, n: Process)
    ensures n in Nodes(t) <==> n in Inorder(t)
  {
    InorderNodes(t);
    assert n in Inorder(t) <==> n in (set m | m in Inorder(t));
  }

  lemma SamePid(s: seq<Process>, m: Process, n: Process)
    requires StrictlySorted(s) && m in s && n in s && m.pid == n.pid
    ensures m == n
  {
  }
}
