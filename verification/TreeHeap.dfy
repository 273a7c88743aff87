/** The pointer fields of the registry's nodes as a map, and what it means for them to hold a tree. */
module TreeHeap {
  import opened RbTree

  datatype Cell = Cell(left: Process?, right: Process?, parent: Process?, color: Color) {
    ghost function At(s: Side): Process? { if s == L then left else right }
    ghost function With(s: Side, v: Process?): Cell { if s == L then this.(left := v) else this.(right := v) }
  }

  type Heap = map<Process, Cell>

  /** A pointer to a subtree: every empty subtree is the shared sentinel. */
  ghost function Ref(nil: Process, t: Tree): Process {
    match t
    case Leaf => nil
    case Node(_, n, _, _) => n
  }

  ghost predicate TreeIn(h: Heap, nil: Process, t: Tree, p: Process?) {
    match t
    case Leaf => true
    case Node(l, n, c, r) =>
      && n in h && h[n] == Cell(Ref(nil, l), Ref(nil, r), p, c)
      && TreeIn(h, nil, l, n) && TreeIn(h, nil, r, n)
  }

  /** The cell of the hole's parent when the hole is filled by x. */
  ghost function HoleCell(nil: Process, ctx: Ctx, x: Process): Cell
    requires ctx.Hole?
  {
    if ctx.side == L then Cell(x, Ref(nil, ctx.sibling), Parent(ctx.up), ctx.color)
    else Cell(Ref(nil, ctx.sibling), x, Parent(ctx.up), ctx.color)
  }

  ghost predicate CtxIn(h: Heap, nil: Process, ctx: Ctx, x: Process) {
    match ctx
    case Top => true
    case Hole(_, n, _, s, up) =>
      && n in h && h[n] == HoleCell(nil, ctx, x)
      && TreeIn(h, nil, s, n) && CtxIn(h, nil, up, n)
  }

  /** The heap holds Plug(ctx, t), reached from root: child, parent and colour fields all agree. */
  ghost predicate Located(h: Heap, nil: Process, root: Process, ctx: Ctx, t: Tree) {
    && nil !in h && Distinct(t) && CtxDistinct(ctx) && Nodes(t) !! CtxNodes(ctx)
    && TreeIn(h, nil, t, Parent(ctx)) && CtxIn(h, nil, ctx, Ref(nil, t))
    && root == RootOf(ctx, Ref(nil, t))
  }

  // ----- Moving the focus -----

  lemma MoveUp(h: Heap, nil: Process, root: Process, ctx: Ctx, t: Tree)
    requires ctx.Hole?
    ensures Located(h, nil, root, ctx, t) <==>
            Located(h, nil, root, ctx.up, Wrap(ctx.side, t, ctx.proc, ctx.color, ctx.sibling))
  {
  }

  lemma {:induction false} MoveTo(h: Heap, nil: Process, root: Process, inner: Ctx, outer: Ctx, t: Tree)
    ensures Located(h, nil, root, Append(inner, outer), t) <==> Located(h, nil, root, outer, Plug(inner, t))
    decreases inner
  {
    match inner
    case Top =>
    case Hole(side, n, c, s, up) =>
      MoveUp(h, nil, root, Append(inner, outer), t);
      MoveTo(h, nil, root, up, outer, Wrap(side, t, n, c, s));
  }

  lemma {:induction false} MoveTop(h: Heap, nil: Process, root: Process, ctx: Ctx, t: Tree)
    ensures Located(h, nil, root, ctx, t) <==> Located(h, nil, root, Top, Plug(ctx, t))
    ensures ctx.Hole? || t.Node? ==> Plug(ctx, t).Node?
    decreases ctx
  {
    match ctx
    case Top =>
    case Hole(side, n, c, s, up) =>
      MoveUp(h, nil, root, ctx, t);
      MoveTop(h, nil, root, up, Wrap(side, t, n, c, s));
  }

  lemma {:induction false} TreeNodesIn(h: Heap, nil: Process, t: Tree, p: Process?)
    requires TreeIn(h, nil, t, p)
    ensures Nodes(t) <= h.Keys
  {
    match t
    case Leaf =>
    case Node(l, n, _, r) => TreeNodesIn(h, nil, l, n); TreeNodesIn(h, nil, r, n);
  }

  lemma {:induction false} CtxNodesIn(h: Heap, nil: Process, ctx: Ctx, x: Process)
    requires CtxIn(h, nil, ctx, x)
    ensures CtxNodes(ctx) <= h.Keys
  {
    match ctx
    case Top =>
    case Hole(_, n, _, s, up) => TreeNodesIn(h, nil, s, n); CtxNodesIn(h, nil, up, n);
  }

  // ----- What a write leaves alone -----

  ghost predicate SameBut(h: Heap, h': Heap, u: Process?, v: Process?, w: Process?, p: Process?) {
    forall n <- h :: n != u && n != v && n != w && n != p ==> n in h' && h'[n] == h[n]
  }

  ghost predicate Agree(h: Heap, h': Heap, s: set<Process>) {
    forall n <- s :: n in h ==> n in h' && h'[n] == h[n]
  }

  lemma AgreeOff(h: Heap, h': Heap, u: Process?, v: Process?, w: Process?, p: Process?, s: set<Process>)
    requires SameBut(h, h', u, v, w, p) && u !in s && v !in s && p !in s && (w !in s || w !in h)
    ensures Agree(h, h', s)
  {
  }

  lemma {:induction false} TreeFrame(h: Heap, h': Heap, nil: Process, t: Tree, p: Process?)
    requires TreeIn(h, nil, t, p) && Agree(h, h', Nodes(t))
    ensures TreeIn(h', nil, t, p)
  {
    match t
    case Leaf =>
    case Node(l, n, _, r) =>
      TreeFrame(h, h', nil, l, n);
      TreeFrame(h, h', nil, r, n);
  }

  lemma {:induction false} CtxFrame(h: Heap, h': Heap, nil: Process, ctx: Ctx, x: Process)
    requires CtxIn(h, nil, ctx, x) && Agree(h, h', CtxNodes(ctx))
    ensures CtxIn(h', nil, ctx, x)
  {
    match ctx
    case Top =>
    case Hole(_, n, _, s, up) =>
      TreeFrame(h, h', nil, s, n);
      CtxFrame(h, h', nil, up, n);
  }

  /** A subtree whose root alone changed, to the given parent and colour. */
  lemma Reparented(h: Heap, h': Heap, nil: Process, t: Tree, p: Process?, q: Process?, c: Color)
    requires t.Node? && TreeIn(h, nil, t, p) && Distinct(t)
    requires t.proc in h' && h'[t.proc] == h[t.proc].(parent := q, color := c)
    requires Agree(h, h', Nodes(t) - {t.proc})
    ensures TreeIn(h', nil, t.(color := c), q)
  {
    TreeFrame(h, h', nil, t.left, t.proc);
    TreeFrame(h, h', nil, t.right, t.proc);
  }

  /** The pointer that led to u, from u's parent p or from the root variable, now leads to v. */
  ghost predicate Redirected(h: Heap, h': Heap, root: Process, root': Process, p: Process?, u: Process, v: Process) {
    if p == null then root' == v
    else
      && root' == root && p in h && p in h'
      && h'[p] == if h[p].left == u then h[p].(left := v) else h[p].(right := v)
  }

  lemma Refilled(h: Heap, h': Heap, nil: Process, root: Process, root': Process, ctx: Ctx, u: Process, v: Process)
    requires CtxIn(h, nil, ctx, u) && CtxDistinct(ctx) && root == RootOf(ctx, u)
    requires u != nil && u !in CtxNodes(ctx)
    requires Redirected(h, h', root, root', Parent(ctx), u, v)
    requires Agree(h, h', CtxNodes(ctx) - (if ctx.Hole? then {ctx.proc} else {}))
    ensures CtxIn(h', nil, ctx, v) && root' == RootOf(ctx, v)
  {
    match ctx
    case Top =>
    case Hole(_, n, _, s, up) =>
      TreeFrame(h, h', nil, s, n);
      CtxFrame(h, h', nil, up, n);
  }

  // ----- Rotations -----

  /** What `leftRotate` (s == L) and `rightRotate` (s == R) do to the fields around x. */
  ghost predicate Rotation(s: Side, h: Heap, h': Heap, nil: Process, root: Process, root': Process, x: Process) {
    && x in h && x in h' && nil !in h' && var y := h[x].At(Other(s));
    && y in h && y in h' && var b, p := h[y].At(s), h[x].parent;
    && h'[x] == h[x].With(Other(s), b).(parent := y) && h'[y] == h[y].With(s, x).(parent := p)
    && (b != nil ==> b in h && b in h' && h'[b] == h[b].(parent := x))
    && Redirected(h, h', root, root', p, x, y)
    && SameBut(h, h', x, y, b, p)
  }

  /** A rotation towards side s, away from which x has the child y. */
  ghost function Low(s: Side, a: Tree, x: Process, cx: Color, b: Tree, y: Process, cy: Color, c: Tree): Tree {
    Wrap(s, Wrap(s, a, x, cx, b), y, cy, c)
  }
  ghost function High(s: Side, a: Tree, x: Process, cx: Color, b: Tree, y: Process, cy: Color, c: Tree): Tree {
    Wrap(s, a, x, cx, Wrap(s, b, y, cy, c))
  }

  lemma RotationNodes(s: Side, a: Tree, x: Process, cx: Color, b: Tree, y: Process, cy: Color, c: Tree)
    requires Distinct(High(s, a, x, cx, b, y, cy, c))
    ensures Nodes(High(s, a, x, cx, b, y, cy, c)) == Nodes(a) + {x, y} + Nodes(b) + Nodes(c)
    ensures Nodes(Low(s, a, x, cx, b, y, cy, c)) == Nodes(a) + {x, y} + Nodes(b) + Nodes(c)
    ensures Distinct(Low(s, a, x, cx, b, y, cy, c))
    ensures x != y && Distinct(b) && x !in Nodes(a) && x !in Nodes(b) && x !in Nodes(c)
    ensures y !in Nodes(a) && y !in Nodes(b) && y !in Nodes(c) && Nodes(a) !! Nodes(b) !! Nodes(c)
  {
    assert Distinct(Wrap(s, b, y, cy, c));
    assert Distinct(Wrap(s, a, x, cx, b));
  }

  ghost function Sided(s: Side, near: Process?, far: Process?, p: Process?, c: Color): Cell {
    if s == L then Cell(near, far, p, c) else Cell(far, near, p, c)
  }

  lemma TreeInSided(h: Heap, nil: Process, p: Process?, s: Side, a: Tree, x: Process, c: Color, b: Tree)
    ensures TreeIn(h, nil, Wrap(s, a, x, c, b), p) <==>
            && x in h && h[x] == Sided(s, Ref(nil, a), Ref(nil, b), p, c)
            && TreeIn(h, nil, a, x) && TreeIn(h, nil, b, x)
  {
  }

  lemma RotationCells(h: Heap, h': Heap, nil: Process, root: Process, root': Process, p: Process?,
                      s: Side, a: Tree, x: Process, cx: Color, b: Tree, y: Process, cy: Color, c: Tree)
    requires nil !in h && TreeIn(h, nil, High(s, a, x, cx, b, y, cy, c), p)
    requires Rotation(s, h, h', nil, root, root', x)
    ensures TreeIn(h, nil, a, x) && TreeIn(h, nil, b, y) && TreeIn(h, nil, c, y)
    ensures x in h' && h'[x] == Sided(s, Ref(nil, a), Ref(nil, b), y, cx)
    ensures y in h' && h'[y] == Sided(s, x, Ref(nil, c), p, cy)
    ensures b.Node? ==> b.proc in h && b.proc in h' && h'[b.proc] == h[b.proc].(parent := x)
    ensures SameBut(h, h', x, y, Ref(nil, b), p) && Redirected(h, h', root, root', p, x, y)
  {
    TreeInSided(h, nil, x, s, b, y, cy, c);
    TreeInSided(h, nil, p, s, a, x, cx, Wrap(s, b, y, cy, c));
  }

  lemma RotationTree(h: Heap, h': Heap, nil: Process, root: Process, root': Process, p: Process?,
                     s: Side, a: Tree, x: Process, cx: Color, b: Tree, y: Process, cy: Color, c: Tree)
    requires var t := High(s, a, x, cx, b, y, cy, c);
      nil !in h && Distinct(t) && TreeIn(h, nil, t, p) && p !in Nodes(t)
    requires Rotation(s, h, h', nil, root, root', x)
    ensures TreeIn(h', nil, Low(s, a, x, cx, b, y, cy, c), p)
  {
    RotationNodes(s, a, x, cx, b, y, cy, c);
    RotationCells(h, h', nil, root, root', p, s, a, x, cx, b, y, cy, c);
    AgreeOff(h, h', x, y, Ref(nil, b), p, Nodes(a));
    TreeFrame(h, h', nil, a, x);
    AgreeOff(h, h', x, y, Ref(nil, b), p, Nodes(c));
    TreeFrame(h, h', nil, c, y);
    if b.Node? {
      AgreeOff(h, h', x, y, Ref(nil, b), p, Nodes(b) - {b.proc});
      Reparented(h, h', nil, b, y, x, b.color);
    }
    TreeInSided(h', nil, y, s, a, x, cx, b);
    TreeInSided(h', nil, p, s, Wrap(s, a, x, cx, b), y, cy, c);
  }

  /** The nodes a rotation touches are all different, and reached by the pointers it follows. */
  lemma RotationApart(h: Heap, nil: Process, root: Process, ctx: Ctx,
                      s: Side, a: Tree, x: Process, cx: Color, b: Tree, y: Process, cy: Color, c: Tree)
    requires Located(h, nil, root, ctx, High(s, a, x, cx, b, y, cy, c))
    ensures x in h && y in h && x != y && h[x].At(Other(s)) == y && h[y].At(s) == Ref(nil, b)
    ensures Ref(nil, b) != x && Ref(nil, b) != y && (Ref(nil, b) == nil || Ref(nil, b) in h)
    ensures h[x].parent == Parent(ctx)
    ensures ctx.Hole? ==> ctx.proc in h && ctx.proc != x && ctx.proc != y && ctx.proc != Ref(nil, b)
  {
    RotationNodes(s, a, x, cx, b, y, cy, c);
    TreeInSided(h, nil, x, s, b, y, cy, c);
    TreeInSided(h, nil, Parent(ctx), s, a, x, cx, Wrap(s, b, y, cy, c));
  }

  lemma RotationLocated(h: Heap, h': Heap, nil: Process, root: Process, root': Process, ctx: Ctx,
                        s: Side, a: Tree, x: Process, cx: Color, b: Tree, y: Process, cy: Color, c: Tree)
    requires Located(h, nil, root, ctx, High(s, a, x, cx, b, y, cy, c))
    requires Rotation(s, h, h', nil, root, root', x)
    ensures Located(h', nil, root', ctx, Low(s, a, x, cx, b, y, cy, c))
  {
    RotationNodes(s, a, x, cx, b, y, cy, c);
    RotationCells(h, h', nil, root, root', Parent(ctx), s, a, x, cx, b, y, cy, c);
    RotationTree(h, h', nil, root, root', Parent(ctx), s, a, x, cx, b, y, cy, c);
    AgreeOff(h, h', x, y, Ref(nil, b), Parent(ctx), CtxNodes(ctx) - (if ctx.Hole? then {ctx.proc} else {}));
    Refilled(h, h', nil, root, root', ctx, x, y);
  }

  // ----- Insertion -----

  lemma LeafLinked(h: Heap, h': Heap, nil: Process, root: Process, root': Process, ctx: Ctx, n: Process)
    requires Located(h, nil, root, ctx, Leaf) && nil !in h' && n !in h
    requires n in h' && h'[n] == Cell(nil, nil, Parent(ctx), Red)
    requires if ctx.Top? then root' == n else root' == root && ctx.proc in h' && h'[ctx.proc] == HoleCell(nil, ctx, n)
    requires SameBut(h, h', Parent(ctx), null, null, null)
    ensures Located(h', nil, root', ctx, Node(Leaf, n, Red, Leaf))
  {
    CtxNodesIn(h, nil, ctx, nil);
    if ctx.Hole? {
      TreeFrame(h, h', nil, ctx.sibling, ctx.proc);
      CtxFrame(h, h', nil, ctx.up, ctx.proc);
    }
  }

  // ----- Deletion -----

  /** What `rbTransplant(u, v)` does to the fields of the nodes. */
  ghost predicate Transplanted(h: Heap, h': Heap, nil: Process, root: Process, root': Process, u: Process, v: Process) {
    && u in h && nil !in h' && Redirected(h, h', root, root', h[u].parent, u, v)
    && (v != nil ==> v in h && v in h' && h'[v] == h[v].(parent := h[u].parent))
    && SameBut(h, h', v, h[u].parent, null, null)
  }

  lemma TransplantLocated(h: Heap, h': Heap, nil: Process, root: Process, root': Process, ctx: Ctx, t: Tree, s: Tree)
    requires t.Node? && (s == t.left || s == t.right) && Located(h, nil, root, ctx, t)
    requires Transplanted(h, h', nil, root, root', t.proc, Ref(nil, s))
    ensures Located(h', nil, root', ctx, s)
  {
    var p := Parent(ctx);
    CtxNodesIn(h, nil, ctx, t.proc);
    if s.Node? {
      AgreeOff(h, h', s.proc, p, null, null, Nodes(s) - {s.proc});
      Reparented(h, h', nil, s, t.proc, p, s.color);
    }
    Refilled(h, h', nil, root, root', ctx, t.proc, Ref(nil, s));
  }

  /** Nodes of the subtrees l and r, of the context, and the nodes z and y are all different. */
  ghost predicate Disjoint(ctx: Ctx, l: Tree, r: Tree, z: Process, y: Process) {
    && Distinct(l) && Distinct(r) && CtxDistinct(ctx)
    && Nodes(l) !! Nodes(r) && Nodes(l) !! CtxNodes(ctx) && Nodes(r) !! CtxNodes(ctx)
    && z != y && z !in Nodes(l) && z !in Nodes(r) && z !in CtxNodes(ctx)
    && y !in Nodes(l) && y !in Nodes(r) && y !in CtxNodes(ctx)
  }

  /** z is still in place above l, but r already hangs below y, which is about to take z's place. */
  ghost predicate HalfSpliced(h: Heap, nil: Process, root: Process, ctx: Ctx, l: Tree, z: Process, c: Color,
                              y: Process, r: Tree)
  {
    && nil !in h && Disjoint(ctx, l, r, z, y)
    && z in h && h[z].left == Ref(nil, l) && h[z].parent == Parent(ctx) && h[z].color == c
    && y in h && h[y].right == Ref(nil, r)
    && TreeIn(h, nil, l, z) && TreeIn(h, nil, r, y) && CtxIn(h, nil, ctx, z)
    && root == RootOf(ctx, z)
  }

  /** The successor y is z's right child: its own right subtree already hangs where it should. */
  lemma NearSuccessor(h: Heap, nil: Process, root: Process, ctx: Ctx, f: Tree, m: Tree)
    requires f.Node? && f.right == m && m.Node? && m.left.Leaf? && Located(h, nil, root, ctx, f)
    ensures HalfSpliced(h, nil, root, ctx, f.left, f.proc, f.color, m.proc, m.right)
  {
    assert TreeIn(h, nil, m, f.proc) && Distinct(m) && Nodes(m) == {m.proc} + Nodes(m.right);
  }

  /** Further down, the successor has been cut out and then given z's right subtree r. */
  lemma FarSuccessor(h: Heap, h': Heap, nil: Process, root: Process, ctx: Ctx, l: Tree, z: Process, c: Color,
                     y: Process, r: Tree)
    requires r.Node? && Located(h, nil, root, ctx, Node(l, z, c, r)) && nil !in h'
    requires y in h && y !in Nodes(Node(l, z, c, r)) && y !in CtxNodes(ctx)
    requires y in h' && h'[y] == h[y].(right := r.proc)
    requires r.proc in h && r.proc in h' && h'[r.proc] == h[r.proc].(parent := y)
    requires SameBut(h, h', y, r.proc, null, null)
    ensures HalfSpliced(h', nil, root, ctx, l, z, c, y, r)
  {
    AgreeOff(h, h', y, r.proc, null, null, Nodes(l));
    TreeFrame(h, h', nil, l, z);
    AgreeOff(h, h', y, r.proc, null, null, Nodes(r) - {r.proc});
    Reparented(h, h', nil, r, z, y, r.color);
    AgreeOff(h, h', y, r.proc, null, null, CtxNodes(ctx));
    CtxFrame(h, h', nil, ctx, z);
  }

  lemma Spliced(h: Heap, h': Heap, nil: Process, root: Process, root': Process, ctx: Ctx, l: Tree, z: Process,
                c: Color, y: Process, r: Tree)
    requires l.Node? && HalfSpliced(h, nil, root, ctx, l, z, c, y, r)
    requires nil !in h' && Redirected(h, h', root, root', Parent(ctx), z, y)
    requires y in h' && h'[y] == Cell(l.proc, Ref(nil, r), Parent(ctx), c)
    requires l.proc in h' && h'[l.proc] == h[l.proc].(parent := y)
    requires SameBut(h, h', y, l.proc, Parent(ctx), null)
    ensures Located(h', nil, root', ctx, Node(l, y, c, r))
  {
    var p := Parent(ctx);
    AgreeOff(h, h', y, l.proc, null, p, Nodes(r));
    TreeFrame(h, h', nil, r, y);
    AgreeOff(h, h', y, l.proc, null, p, Nodes(l) - {l.proc});
    Reparented(h, h', nil, l, z, y, l.color);
    Refilled(h, h', nil, root, root', ctx, z, y);
  }

  lemma ChildRefs(h: Heap, nil: Process, t: Tree, p: Process?)
    requires nil !in h && t.Node? && TreeIn(h, nil, t, p)
    ensures t.proc in h && h[t.proc] == Cell(Ref(nil, t.left), Ref(nil, t.right), p, t.color)
    ensures (Ref(nil, t.left) == nil <==> t.left.Leaf?) && (Ref(nil, t.right) == nil <==> t.right.Leaf?)
  {
    assert TreeIn(h, nil, t.left, t.proc) && TreeIn(h, nil, t.right, t.proc);
  }

  lemma Forgotten(h: Heap, h': Heap, nil: Process, root: Process, t: Tree)
    requires Located(h, nil, root, Top, t) && nil !in h' && Agree(h, h', Nodes(t))
    ensures Located(h', nil, root, Top, t)
  {
    TreeFrame(h, h', nil, t, null);
  }

  // ----- What the fields around the focus say -----

  lemma {:induction false} RootInCtx(ctx: Ctx, x: Process)
    requires ctx.Hole?
    ensures RootOf(ctx, x) in CtxNodes(ctx)
    decreases ctx
  {
    if ctx.up.Hole? { RootInCtx(ctx.up, ctx.proc); }
  }

  lemma FocusCell(h: Heap, nil: Process, root: Process, ctx: Ctx, t: Tree)
    requires Located(h, nil, root, ctx, t)
    ensures root == Ref(nil, t) <==> ctx.Top?
    ensures t.Node? ==> t.proc in h && h[t.proc].parent == Parent(ctx) && h[t.proc].color == t.color
  {
    if ctx.Hole? {
      RootInCtx(ctx, Ref(nil, t));
      CtxNodesIn(h, nil, ctx, Ref(nil, t));
    }
  }

  lemma SiblingCells(h: Heap, nil: Process, root: Process, ctx: Ctx, t: Tree)
    requires Located(h, nil, root, ctx, t) && ctx.Hole? && ctx.sibling.Node?
    ensures var w := ctx.sibling;
      && ctx.proc in h && h[ctx.proc].At(ctx.side) == Ref(nil, t) && h[ctx.proc].At(Other(ctx.side)) == w.proc
      && w.proc in h && w.proc != Ref(nil, t) && h[w.proc].color == w.color
      && h[w.proc].left == Ref(nil, w.left) && h[w.proc].right == Ref(nil, w.right)
      && (w.left.Node? ==> w.left.proc in h && h[w.left.proc].color == w.left.color)
      && (w.right.Node? ==> w.right.proc in h && h[w.right.proc].color == w.right.color)
  {
    var w := ctx.sibling;
    assert TreeIn(h, nil, w, ctx.proc) && TreeIn(h, nil, w.left, w.proc) && TreeIn(h, nil, w.right, w.proc);
  }
}
