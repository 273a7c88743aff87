/** The process registry: a parent-linked red-black tree updated in place. */
module ProcessRegistry {
  import opened Words
  import opened RbTree
  import opened TreeHeap
  import opened ProcessIds

  class Registry {
    const nil: Process
    var root: Process
    var UProcessID: Word
    var KProcessID: Word
    ghost var tree: Tree
    ghost var procs: set<Process>
    ghost var created: nat

    constructor ()
      ensures Valid() && tree == Leaf
      ensures Counted() && UProcessID == 100 && KProcessID == 20
    {
      var sentinel := new Process(0);
      nil, root, tree, procs := sentinel, sentinel, Leaf, {};
      UProcessID, KProcessID, created := 100, 20, 0;
      new;
      nil.left, nil.right := nil, nil;
      assert Inorder(tree) == [];
    }

    /** Every process in the tree got its pid from the kernel counter. */
    ghost predicate Counted()
      reads this
    {
      KProcessID == PidAt(created) && HandedOut(Inorder(tree), created)
    }

    /** Between calls: a sorted red-black tree of exactly the registered processes. */
    ghost predicate Valid()
      reads this, nil, procs
    {
      Holds(Top, tree) && RedBlack(tree) && Sorted(Inorder(tree)) && procs == Nodes(tree)
    }

    ghost function Cells(): Heap
      reads this, procs
    {
      map n | n in procs :: Cell(n.left, n.right, n.parent, n.color)
    }

    ghost predicate Holds(ctx: Ctx, t: Tree)
      reads this, nil, procs
    {
      nil.color == Black && Located(Cells(), nil, root, ctx, t)
    }

    static function Child(n: Process, s: Side): Process?
      reads n
    {
      if s == L then n.left else n.right
    }

    // ----- Rotations -----

    /** u, its child v, v's inner child b and u's parent are different nodes. */
    ghost predicate Apart(u: Process, v: Process?, b: Process?)
      reads this, procs
    {
      && nil !in procs && u in procs && v in procs && u != v
      && (b == nil || b in procs) && b != u && b != v
      && (u.parent != null ==> u.parent in procs && u.parent != u && u.parent != v && u.parent != b)
    }

    method LeftRotate(x: Process)
      requires x.right != null && Apart(x, x.right, x.right.left)
      modifies this`root, procs
      ensures Rotation(L, old(Cells()), Cells(), nil, old(root), root, x)
    {
      var y := x.right;
      x.right := y.left;
      if y.left != nil {
        y.left.parent := x;
      }
      y.parent := x.parent;
      if x.parent == null {
        root := y;
      } else if x == x.parent.left {
        x.parent.left := y;
      } else {
        x.parent.right := y;
      }
      y.left := x;
      x.parent := y;
    }

    method RightRotate(y: Process)
      requires y.left != null && Apart(y, y.left, y.left.right)
      modifies this`root, procs
      ensures Rotation(R, old(Cells()), Cells(), nil, old(root), root, y)
    {
      var x := y.left;
      y.left := x.right;
      if x.right != nil {
        x.right.parent := y;
      }
      x.parent := y.parent;
      if y.parent == null {
        root := x;
      } else if y == y.parent.left {
        y.parent.left := x;
      } else {
        y.parent.right := x;
      }
      x.right := y;
      y.parent := x;
    }

    /** Rotates the focused subtree towards s: x sinks and its other child y rises. */
    method Rotate(s: Side, x: Process, ghost ctx: Ctx,
                  ghost a: Tree, ghost cx: Color, ghost b: Tree, ghost y: Process, ghost cy: Color, ghost c: Tree)
      requires Holds(ctx, High(s, a, x, cx, b, y, cy, c))
      modifies this`root, procs
      ensures Holds(ctx, Low(s, a, x, cx, b, y, cy, c))
    {
      ghost var h := Cells();
      RotationApart(h, nil, root, ctx, s, a, x, cx, b, y, cy, c);
      if s == L {
        LeftRotate(x);
      } else {
        RightRotate(x);
      }
      RotationLocated(h, Cells(), nil, old(root), root, ctx, s, a, x, cx, b, y, cy, c);
    }

    /** Recolours the node at the focus. */
    method Paint(n: Process, c: Color, ghost ctx: Ctx, ghost t: Tree)
      requires t.Node? && t.proc == n && Holds(ctx, t)
      modifies n`color
      ensures Holds(ctx, t.(color := c))
    {
      ghost var h := Cells();
      n.color := c;
      Reparented(h, Cells(), nil, t, Parent(ctx), Parent(ctx), c);
      CtxFrame(h, Cells(), nil, ctx, n);
    }

    // ----- Insertion -----
    // The source writes each branch of the fixup loops out twice, once per side. Here a branch takes its side.

    /** Case 1: parent and uncle turn black, the grandparent red, and the focus moves to it. */
    method Recolor(p: Process, u: Process, g: Process, ghost c: Ctx, ghost f: Tree)
      requires Holds(c, f) && Inserting(c, f) && c.Hole? && c.color == Red && c.up.Hole? && !IsBlack(c.up.sibling)
      requires p == c.proc && u == c.up.sibling.proc && g == c.up.proc
      modifies p`color, u`color, g`color
      ensures Holds(c.up.up, Recolored(c, f)) && Inserting(c.up.up, Recolored(c, f))
      ensures Order(c.up.up, Recolored(c, f)) == Order(c, f)
    {
      RecolorStep(c, f);
      ghost var pt := Wrap(c.side, f, p, Red, c.sibling);
      MoveUp(Cells(), nil, root, c, f);
      Paint(p, Black, c.up, pt);
      ghost var pt' := pt.(color := Black);
      MoveUp(Cells(), nil, root, c.up, pt');
      ghost var cu := Hole(Other(c.up.side), g, c.up.color, pt', c.up.up);
      MoveUp(Cells(), nil, root, cu, c.up.sibling);
      Paint(u, Black, cu, c.up.sibling);
      MoveUp(Cells(), nil, root, cu, c.up.sibling.(color := Black));
      Paint(g, Red, c.up.up, Wrap(c.up.side, pt', g, c.up.color, c.up.sibling.(color := Black)));
    }

    /** Case 2: the focus, an inner grandchild, changes places with its parent. */
    method Inner(s: Side, p: Process, ghost c: Ctx, ghost f: Tree) returns (ghost c': Ctx, ghost f': Tree)
      requires Holds(c, f) && Inserting(c, f) && c.Hole? && c.color == Red && c.side == Other(s) && p == c.proc
      modifies this`root, procs
      ensures Holds(c', f') && Inserting(c', f') && Order(c', f') == Order(c, f)
      ensures c'.Hole? && c'.side == s && c'.color == Red && c'.up == c.up && f'.proc == p
    {
      InnerStep(c, f);
      c', f' := Hole(s, f.proc, Red, Far(s, f), c.up), Wrap(c.side, Near(s, f), c.proc, Red, c.sibling);
      MoveUp(Cells(), nil, root, c, f);
      Rotate(s, p, c.up, c.sibling, Red, Near(s, f), f.proc, Red, Far(s, f));
      MoveUp(Cells(), nil, root, c', f');
    }

    /** Case 3: the parent turns black, the grandparent red, and the parent takes its place. */
    method Outer(s: Side, p: Process, g: Process, ghost c: Ctx, ghost f: Tree) returns (ghost c': Ctx)
      requires Holds(c, f) && Inserting(c, f) && c.Hole? && c.color == Red && c.up.Hole? && IsBlack(c.up.sibling)
      requires c.side == s && c.up.side == s && p == c.proc && g == c.up.proc
      modifies this`root, procs
      ensures Holds(c', f) && Inserting(c', f) && Order(c', f) == Order(c, f) && Depth(c') < Depth(c)
    {
      OuterStep(c, f);
      ghost var pt := Wrap(s, f, p, Red, c.sibling);
      MoveUp(Cells(), nil, root, c, f);
      Paint(p, Black, c.up, pt);
      MoveUp(Cells(), nil, root, c.up, pt.(color := Black));
      Paint(g, Red, c.up.up, Wrap(s, pt.(color := Black), g, c.up.color, c.up.sibling));
      Rotate(Other(s), g, c.up.up, c.up.sibling, Red, c.sibling, p, Black, f);
      c' := Hole(s, p, Black, Wrap(s, c.sibling, g, Red, c.up.sibling), c.up.up);
      MoveUp(Cells(), nil, root, c', f);
    }

    /** Cases 2 and 3. */
    method RotateCase(s: Side, newNode: Process, ghost c: Ctx, ghost f: Tree)
      returns (next: Process, ghost c': Ctx, ghost f': Tree)
      requires Holds(c, f) && Inserting(c, f) && f.proc == newNode
      requires c.Hole? && c.color == Red && c.up.Hole? && c.up.side == s && IsBlack(c.up.sibling)
      modifies this`root, procs
      ensures Holds(c', f') && Inserting(c', f') && f'.proc == next
      ensures Order(c', f') == Order(c, f) && Depth(c') < Depth(c)
    {
      next, c', f' := newNode, c, f;
      if newNode == Child(newNode.parent, Other(s)) {
        next := newNode.parent;
        c', f' := Inner(s, next, c, f);
      }
      assert CtxIn(Cells(), nil, c'.up, c'.proc);
      c' := Outer(s, next.parent, next.parent.parent, c', f');
    }

    /** The loop body when the parent is the grandparent's child on side s. */
    method FixupInsertStep(s: Side, newNode: Process, ghost c: Ctx, ghost f: Tree)
      returns (next: Process, ghost c': Ctx, ghost f': Tree)
      requires Holds(c, f) && Inserting(c, f) && f.proc == newNode
      requires c.Hole? && c.color == Red && c.up.Hole? && c.up.side == s
      modifies this`root, procs
      ensures Holds(c', f') && Inserting(c', f') && f'.proc == next
      ensures Order(c', f') == Order(c, f) && Depth(c') < Depth(c)
    {
      assert TreeIn(Cells(), nil, f, c.proc) && CtxIn(Cells(), nil, c.up, c.proc);
      var y := Child(newNode.parent.parent, Other(s));
      if (s == R || y != nil) && y.color == Red {
        next, c', f' := newNode.parent.parent, c.up.up, Recolored(c, f);
        Recolor(newNode.parent, y, next, c, f);
      } else {
        next, c', f' := RotateCase(s, newNode, c, f);
      }
    }

    method FixupInsert(z: Process, ghost c0: Ctx, ghost f0: Tree) returns (ghost t: Tree)
      requires Holds(c0, f0) && Inserting(c0, f0) && f0.proc == z
      modifies this`root, procs
      ensures Holds(Top, t) && RedBlack(t) && Inorder(t) == Order(c0, f0)
    {
      var newNode := z;
      ghost var c, f := c0, f0;
      while newNode.parent != null && newNode.parent.color == Red
        invariant Holds(c, f) && Inserting(c, f) && f.proc == newNode && Order(c, f) == Order(c0, f0)
        decreases Depth(c)
      {
        assert CtxIn(Cells(), nil, c.up, c.proc);
        if newNode.parent == null || newNode.parent.parent == null {
          break;
        }
        var s := if newNode.parent == newNode.parent.parent.left then L else R;
        newNode, c, f := FixupInsertStep(s, newNode, c, f);
      }
      t := Plug(c, f);
      MoveTop(Cells(), nil, root, c, f);
      InsertedRedBlack(c, f);
      Paint(root, Black, Top, t);
      t := Blackened(t);
    }

    /** On a way down the tree: the processes passed on the left have pids up to lo, those on the right from hi on. */
    ghost predicate Descending(c: Ctx, f: Tree, lo: int, hi: int)
      reads this, nil, procs
    {
      && Holds(c, f) && Plug(c, f) == tree && Order(c, f) == Inorder(tree) && Sorted(Inorder(tree))
      && (forall n <- Before(c) :: n.pid <= lo) && (forall n <- After(c) :: hi <= n.pid)
    }

    /** One step down. */
    lemma Descend(c: Ctx, f: Tree, s: Side, lo: int, hi: int)
      requires Descending(c, f, lo, hi) && f.Node? && (if s == L then hi <= f.proc.pid else f.proc.pid <= lo)
      ensures Descending(Hole(s, f.proc, f.color, Far(s, f), c), Near(s, f), lo, hi)
      ensures Child(f.proc, s) == Ref(nil, Near(s, f)) && Height(Near(s, f)) < Height(f)
    {
      DescendOrder(c, f, s, lo, hi);
      MoveUp(Cells(), nil, root, Hole(s, f.proc, f.color, Far(s, f), c), Near(s, f));
    }

    lemma DescendFromRoot(lo: int, hi: int)
      requires Valid()
      ensures Descending(Top, tree, lo, hi) && root == Ref(nil, tree)
    {
    }

    lemma DescendedToLeaf(c: Ctx, f: Tree, lo: int, hi: int)
      requires Descending(c, f, lo, hi) && Ref(nil, f) == nil
      ensures f == Leaf && Before(c) + After(c) == Inorder(tree)
    {
      assert Before(c) + [] == Before(c);
    }

    /** Walks down to the empty subtree where a new process with this pid belongs. */
    method FindLeaf(pid: Word) returns (y: Process?, ghost c: Ctx)
      requires Valid()
      ensures Holds(c, Leaf) && y == Parent(c) && Plug(c, Leaf) == tree && Before(c) + After(c) == Inorder(tree)
      ensures forall n <- Before(c) :: n.pid <= pid
      ensures forall n <- After(c) :: pid < n.pid
    {
      y := null;
      var x := root;
      ghost var f := tree;
      c := Top;
      DescendFromRoot(pid, pid + 1);
      while x != nil
        invariant Descending(c, f, pid, pid + 1) && x == Ref(nil, f) && y == Parent(c)
        decreases f
      {
        y := x;
        ghost var s := if pid < x.pid then L else R;
        Descend(c, f, s, pid, pid + 1);
        if pid < x.pid {
          x := x.left;
        } else {
          x := x.right;
        }
        c, f := Hole(s, f.proc, f.color, Far(s, f), c), Near(s, f);
      }
      DescendedToLeaf(c, f, pid, pid + 1);
    }

    /** Hangs the new node, coloured red, below the node where the search fell off the tree. */
    method LinkLeaf(n: Process, y: Process?, ghost c: Ctx)
      requires Holds(c, Leaf) && y == Parent(c) && n !in procs && n != nil
      requires c.Hole? ==> (c.side == L <==> n.pid < c.proc.pid)
      modifies this`root, this`procs, procs, n
      ensures Holds(c, Node(Leaf, n, Red, Leaf)) && procs == old(procs) + {n}
    {
      ghost var h := Cells();
      n.parent := y;
      if y == null {
        root := n;
      } else if n.pid < y.pid {
        y.left := n;
      } else {
        y.right := n;
      }
      n.left := nil;
      n.right := nil;
      n.color := Red;
      procs := procs + {n};
      LeafLinked(h, Cells(), nil, old(root), root, c, n);
    }

    ghost method SetTree(t: Tree)
      requires Holds(Top, t) && RedBlack(t) && Sorted(Inorder(t)) && procs == Nodes(t)
      modifies this`tree
      ensures Valid() && tree == t
    {
      ghost var h := Cells();
      tree := t;
      assert Cells() == h;
    }

    /** The new process goes after every process with a pid up to its own, and before the rest. */
    method RbInsert(newProcess: Process) returns (ghost k: nat)
      requires Valid() && newProcess !in procs && newProcess != nil
      modifies this`root, this`tree, this`procs, procs, newProcess
      ensures Valid() && procs == old(procs) + {newProcess}
      ensures InsertedAt(old(Inorder(tree)), Inorder(tree), k, newProcess)
    {
      ghost var before := Inorder(tree);
      InorderNodes(tree);
      var y, c := FindLeaf(newProcess.pid);
      k := |Before(c)|;
      NewLeaf(c, newProcess);
      ghost var f := Node(Leaf, newProcess, Red, Leaf);
      LinkLeaf(newProcess, y, c);
      ghost var t := FixupInsert(newProcess, c, f);
      assert InsertedAt(before, Inorder(t), k, newProcess);
      InsertedNodes(before, Inorder(t), k, newProcess);
      InorderNodes(t);
      SetTree(t);
    }

    // ----- Deletion: the fixup loop -----

    /** x is the focus, and its parent pointer is right even when x is the sentinel. */
    ghost predicate Focused(x: Process, c: Ctx, f: Tree)
      reads this, nil, procs
    {
      Holds(c, f) && x == Ref(nil, f) && (x == nil ==> nil.parent == Parent(c))
    }

    /** Case 1. */
    method RedSibling(s: Side, x: Process, w: Process, ghost c: Ctx, ghost f: Tree) returns (ghost c': Ctx)
      requires Focused(x, c, f) && Deleting(c, f) && c.Hole? && c.side == s && x.parent == c.proc
      requires !IsBlack(c.sibling) && w == c.sibling.proc
      modifies this`root, procs
      ensures Focused(x, c', f) && Deleting(c', f) && Order(c', f) == Order(c, f)
      ensures c'.Hole? && c'.side == s && c'.proc == c.proc && IsBlack(c'.sibling)
      ensures c'.color == Red && Depth(c') == Depth(c) + 1
    {
      RedSiblingStep(c, f);
      ghost var p, b, d := c.proc, Near(s, c.sibling), Far(s, c.sibling);
      ghost var cw := Hole(Other(s), p, c.color, f, c.up);
      MoveUp(Cells(), nil, root, c, f);
      MoveUp(Cells(), nil, root, cw, c.sibling);
      Paint(w, Black, cw, c.sibling);
      MoveUp(Cells(), nil, root, cw, c.sibling.(color := Black));
      var xp := x.parent;
      Paint(xp, Red, c.up, Wrap(s, f, p, c.color, c.sibling.(color := Black)));
      Rotate(s, xp, c.up, f, Red, b, w, Black, d);
      ghost var c1 := Hole(s, w, Black, d, c.up);
      c' := Hole(s, p, Red, b, c1);
      MoveUp(Cells(), nil, root, c1, Wrap(s, f, p, Red, b));
      MoveUp(Cells(), nil, root, c', f);
    }

    /** Case 2. */
    method BlackSibling(x: Process, w: Process, ghost c: Ctx, ghost f: Tree) returns (next: Process, ghost f': Tree)
      requires Focused(x, c, f) && Deleting(c, f) && IsBlack(f) && c.Hole? && x.parent == c.proc
      requires c.sibling.Node? && IsBlack(c.sibling) && IsBlack(c.sibling.left) && IsBlack(c.sibling.right)
      requires w == c.sibling.proc
      modifies w`color
      ensures Focused(next, c.up, f') && Deleting(c.up, f') && Order(c.up, f') == Order(c, f)
      ensures c.color == Red ==> !IsBlack(f')
    {
      BlackSiblingStep(c, f);
      ghost var cw := Hole(Other(c.side), c.proc, c.color, f, c.up);
      MoveUp(Cells(), nil, root, c, f);
      MoveUp(Cells(), nil, root, cw, c.sibling);
      Paint(w, Red, cw, c.sibling);
      MoveUp(Cells(), nil, root, cw, c.sibling.(color := Red));
      next := x.parent;
      f' := Wrap(c.side, f, c.proc, c.color, c.sibling.(color := Red));
    }

    /** Case 3: the colours. */
    method NearRedColors(s: Side, w: Process, ghost c: Ctx, ghost t: Tree)
      requires Holds(c, t) && t.Node? && t.proc == w && Near(s, t).Node?
      modifies procs
      ensures Holds(c, Wrap(s, Near(s, t).(color := Black), w, Red, Far(s, t)))
    {
      ghost var n := Near(s, t);
      ghost var cn, n' := Hole(s, w, t.color, Far(s, t), c), n.(color := Black);
      MoveUp(Cells(), nil, root, cn, n);
      assert CtxIn(Cells(), nil, cn, n.proc);
      Paint(Child(w, s), Black, cn, n);
      MoveUp(Cells(), nil, root, cn, n');
      Paint(w, Red, c, Wrap(s, n', w, t.color, Far(s, t)));
    }

    /** Case 3. */
    method NearRed(s: Side, x: Process, w: Process, ghost c: Ctx, ghost f: Tree) returns (ghost c': Ctx)
      requires Focused(x, c, f) && Deleting(c, f) && c.Hole? && c.side == s
      requires c.sibling.Node? && w == c.sibling.proc && IsBlack(c.sibling)
      requires !IsBlack(Near(s, c.sibling)) && IsBlack(Far(s, c.sibling))
      modifies this`root, procs
      ensures Focused(x, c', f) && Deleting(c', f) && Order(c', f) == Order(c, f)
      ensures c'.Hole? && c' == c.(sibling := c'.sibling) && c'.sibling.Node? && IsBlack(c'.sibling)
      ensures !IsBlack(Far(s, c'.sibling))
    {
      NearRedStep(c, f);
      var o := Other(s);
      ghost var wt, n, d := c.sibling, Near(s, c.sibling), Far(s, c.sibling);
      ghost var cw := Hole(o, c.proc, c.color, f, c.up);
      MoveUp(Cells(), nil, root, c, f);
      MoveUp(Cells(), nil, root, cw, wt);
      NearRedColors(s, w, cw, wt);
      Rotate(o, w, cw, d, Red, Far(s, n), n.proc, Black, Near(s, n));
      c' := c.(sibling := Wrap(s, Near(s, n), n.proc, Black, Wrap(s, Far(s, n), w, Red, d)));
      MoveUp(Cells(), nil, root, cw, c'.sibling);
      MoveUp(Cells(), nil, root, c', f);
    }

    /** Case 4: the colours. */
    method FarRedColors(s: Side, xp: Process, w: Process, ghost c: Ctx, ghost f: Tree)
      requires Holds(c, f) && c.Hole? && c.side == s && xp == c.proc
      requires c.sibling.Node? && w == c.sibling.proc && Far(s, c.sibling).Node?
      modifies this`root, procs
      ensures var b, d := Near(s, c.sibling), Far(s, c.sibling);
        Holds(c.up, Wrap(s, f, xp, Black, Wrap(s, b, w, c.color, d.(color := Black))))
    {
      var o := Other(s);
      ghost var wt, b, d := c.sibling, Near(s, c.sibling), Far(s, c.sibling);
      ghost var cw := Hole(o, xp, c.color, f, c.up);
      MoveUp(Cells(), nil, root, c, f);
      MoveUp(Cells(), nil, root, cw, wt);
      assert CtxIn(Cells(), nil, cw, w);
      Paint(w, xp.color, cw, wt);
      ghost var wt' := wt.(color := c.color);
      MoveUp(Cells(), nil, root, cw, wt');
      Paint(xp, Black, c.up, Wrap(s, f, xp, c.color, wt'));
      ghost var cw' := cw.(color := Black);
      MoveUp(Cells(), nil, root, cw', wt');
      ghost var cd := Hole(o, w, c.color, b, cw');
      MoveUp(Cells(), nil, root, cd, d);
      assert CtxIn(Cells(), nil, cd, d.proc);
      Paint(Child(w, o), Black, cd, d);
      ghost var d' := d.(color := Black);
      MoveUp(Cells(), nil, root, cd, d');
      MoveUp(Cells(), nil, root, cw', Wrap(s, b, w, c.color, d'));
    }

    /** Case 4. */
    method FarRed(s: Side, x: Process, w: Process, ghost c: Ctx, ghost f: Tree) returns (ghost t: Tree)
      requires Focused(x, c, f) && Deleting(c, f) && IsBlack(f) && c.Hole? && c.side == s && x.parent == c.proc
      requires c.sibling.Node? && w == c.sibling.proc && IsBlack(c.sibling) && !IsBlack(Far(s, c.sibling))
      modifies this`root, procs
      ensures Holds(Top, t) && t.Node? && RedBlack(t) && Inorder(t) == Order(c, f)
    {
      FarRedStep(c, f);
      ghost var b, d' := Near(s, c.sibling), Far(s, c.sibling).(color := Black);
      var xp := x.parent;
      FarRedColors(s, xp, w, c, f);
      Rotate(s, xp, c.up, f, Black, b, w, c.color, d');
      ghost var g := Wrap(s, Wrap(s, f, xp, Black, b), w, c.color, d');
      MoveTop(Cells(), nil, root, c.up, g);
      InorderPlug(c.up, g);
      t := Plug(c.up, g);
    }

    /** Cases 3 and 4: the sibling is black and has a red child. */
    method RedNephew(s: Side, x: Process, sibling: Process, ghost c: Ctx, ghost f: Tree) returns (ghost t: Tree)
      requires Focused(x, c, f) && Deleting(c, f) && IsBlack(f) && c.Hole? && c.side == s && x.parent == c.proc
      requires c.sibling.Node? && sibling == c.sibling.proc && IsBlack(c.sibling)
      requires !IsBlack(c.sibling.left) || !IsBlack(c.sibling.right)
      modifies this`root, procs
      ensures Holds(Top, t) && t.Node? && RedBlack(t) && Inorder(t) == Order(c, f)
    {
      var w := sibling;
      ghost var c' := c;
      SiblingCells(Cells(), nil, root, c, f);
      if Child(w, Other(s)).color == Black {
        c' := NearRed(s, x, w, c, f);
        SiblingCells(Cells(), nil, root, c', f);
        FocusCell(Cells(), nil, root, c', f);
        w := Child(x.parent, Other(s));
      }
      t := FarRed(s, x, w, c', f);
    }

    /** Cases 2 to 4: the sibling is black. */
    method BlackSiblingCases(s: Side, x: Process, w: Process, ghost c: Ctx, ghost f: Tree)
      returns (next: Process, ghost c': Ctx, ghost f': Tree)
      requires Focused(x, c, f) && Deleting(c, f) && IsBlack(f) && c.Hole? && c.side == s && x.parent == c.proc
      requires c.sibling.Node? && w == c.sibling.proc && IsBlack(c.sibling)
      modifies this`root, procs
      ensures Focused(next, c', f') && Deleting(c', f') && Order(c', f') == Order(c, f)
      ensures (c' == c.up && (c.color == Red ==> !IsBlack(f'))) || c' == Top
    {
      SiblingCells(Cells(), nil, root, c, f);
      if Child(w, s).color == Black && Child(w, Other(s)).color == Black {
        next, f' := BlackSibling(x, w, c, f);
        c' := c.up;
      } else {
        f' := RedNephew(s, x, w, c, f);
        c', next := Top, root;
        WholeTree(f');
      }
    }

    /** The loop body when x is its parent's child on side s. */
    method DeleteFixupStep(s: Side, x: Process, ghost c: Ctx, ghost f: Tree)
      returns (next: Process, ghost c': Ctx, ghost f': Tree)
      requires Focused(x, c, f) && Deleting(c, f) && IsBlack(f) && c.Hole? && c.side == s && x.parent == c.proc
      modifies this`root, procs
      ensures Focused(next, c', f') && Deleting(c', f') && Order(c', f') == Order(c, f)
      ensures FixupMeasure(c', f') < FixupMeasure(c, f)
    {
      SiblingExists(c, f);
      SiblingCells(Cells(), nil, root, c, f);
      ghost var c1 := c;
      var w := Child(x.parent, Other(s));
      if w.color == Red {
        c1 := RedSibling(s, x, w, c, f);
        SiblingExists(c1, f);
        SiblingCells(Cells(), nil, root, c1, f);
        w := Child(x.parent, Other(s));
      }
      next, c', f' := BlackSiblingCases(s, x, w, c1, f);
    }

    /** Blackens the focus, which may be the sentinel. */
    method Blacken(x: Process, ghost c: Ctx, ghost f: Tree)
      requires Holds(c, f) && x == Ref(nil, f)
      modifies x`color
      ensures Holds(c, Blackened(f))
    {
      ghost var h := Cells();
      x.color := Black;
      if f.Node? {
        Reparented(h, Cells(), nil, f, Parent(c), Parent(c), Black);
        CtxFrame(h, Cells(), nil, c, x);
      } else {
        assert Cells() == h;
      }
    }

    method DeleteFixup(start: Process, ghost c0: Ctx, ghost f0: Tree) returns (ghost t: Tree)
      requires Focused(start, c0, f0) && Deleting(c0, f0)
      modifies this`root, procs, nil`color
      ensures Holds(Top, t) && RedBlack(t) && Inorder(t) == Order(c0, f0)
    {
      var x := start;
      ghost var c, f := c0, f0;
      FocusCell(Cells(), nil, root, c, f);
      while x != root && x.color == Black
        invariant Focused(x, c, f) && Deleting(c, f) && Order(c, f) == Order(c0, f0)
        invariant (x == root <==> c.Top?) && (x.color == Black <==> IsBlack(f))
        decreases FixupMeasure(c, f)
      {
        SiblingExists(c, f);
        SiblingCells(Cells(), nil, root, c, f);
        var s := if x == x.parent.left then L else R;
        x, c, f := DeleteFixupStep(s, x, c, f);
        FocusCell(Cells(), nil, root, c, f);
      }
      DeletedRedBlack(c, f);
      Blacken(x, c, f);
      t := Plug(c, Blackened(f));
      MoveTop(Cells(), nil, root, c, Blackened(f));
    }

    // ----- Search and traversal -----

    method RbSearch(pid: Word) returns (current: Process, ghost c: Ctx, ghost f: Tree, ghost steps: nat)
      requires Valid()
      ensures current == Ref(nil, f) && Holds(c, f) && Plug(c, f) == tree && Order(c, f) == Inorder(tree)
      ensures current == nil ==> forall n <- Inorder(tree) :: n.pid != pid
      ensures current != nil ==> current in procs && current.pid == pid
      ensures WithinLog(steps, |Inorder(tree)|)
    {
      current := root;
      c, f, steps := Top, tree, 0;
      DescendFromRoot(pid - 1, pid + 1);
      while current != nil && current.pid != pid
        invariant Descending(c, f, pid - 1, pid + 1) && current == Ref(nil, f) && steps + Height(f) <= Height(tree)
        decreases f
      {
        ghost var s := if pid < current.pid then L else R;
        Descend(c, f, s, pid - 1, pid + 1);
        if pid < current.pid {
          current := current.left;
        } else {
          current := current.right;
        }
        c, f, steps := Hole(s, f.proc, f.color, Far(s, f), c), Near(s, f), steps + 1;
      }
      SearchBound(tree, steps);
    }

    method TreeMinimum(start: Process, ghost c: Ctx, ghost f: Tree)
      returns (x: Process, ghost inner: Ctx, ghost m: Tree)
      requires Holds(c, f) && f.Node? && f.proc == start
      ensures Holds(Append(inner, c), m) && Plug(inner, m) == f && Before(inner) == []
      ensures m.Node? && m.left.Leaf? && m.proc == x
    {
      x := start;
      inner, m := Top, f;
      while x.left != nil
        invariant Holds(Append(inner, c), m) && Plug(inner, m) == f && Before(inner) == []
        invariant m.Node? && m.proc == x
        decreases m
      {
        ghost var inner' := Hole(L, m.proc, m.color, m.right, inner);
        MoveUp(Cells(), nil, root, Append(inner', c), m.left);
        x := x.left;
        inner, m := inner', m.left;
      }
      assert TreeIn(Cells(), nil, m.left, x);
    }

    // ----- Deletion -----

    method RbTransplant(u: Process, v: Process)
      requires nil !in procs && u in procs && (v == nil || v in procs)
      requires u.parent != null ==> u.parent in procs && u.parent != v
      modifies this`root, procs, nil`parent
      ensures Transplanted(old(Cells()), Cells(), nil, old(root), root, u, v)
      ensures nil.parent == if v == nil then old(u.parent) else old(nil.parent)
    {
      if u.parent == null {
        root := v;
      } else if u == u.parent.left {
        u.parent.left := v;
      } else {
        u.parent.right := v;
      }
      v.parent := u.parent;
    }

    /** Replaces the focused node by one of its subtrees. */
    method TransplantAt(u: Process, v: Process, ghost c: Ctx, ghost f: Tree, ghost g: Tree)
      requires Holds(c, f) && f.Node? && f.proc == u && (g == f.left || g == f.right) && v == Ref(nil, g)
      modifies this`root, procs, nil`parent
      ensures Focused(v, c, g)
      ensures u.left == old(u.left) && u.right == old(u.right) && u.parent == old(u.parent) && u.color == old(u.color)
    {
      ghost var h := Cells();
      CtxNodesIn(h, nil, c, u);
      TreeNodesIn(h, nil, f, Parent(c));
      RbTransplant(u, v);
      TransplantLocated(h, Cells(), nil, old(root), root, c, f, g);
    }

    /** Cuts the successor y out of the right subtree of z. */
    method CutSuccessor(z: Process, y: Process, ghost c: Ctx, ghost f: Tree, ghost inner: Ctx, ghost m: Tree)
      requires f.Node? && f.proc == z && m.Node? && m.left.Leaf? && m.proc == y && inner.Hole?
      requires Holds(Append(inner, Hole(R, z, f.color, f.left, c)), m)
      modifies this`root, procs, nil`parent
      ensures var r := Plug(inner, m.right);
        && r.Node? && Holds(c, Node(f.left, z, f.color, r))
        && y in procs && y !in Nodes(Node(f.left, z, f.color, r)) && y !in CtxNodes(c)
      ensures m.right.Leaf? ==> nil.parent == inner.proc
    {
      ghost var outer := Hole(R, z, f.color, f.left, c);
      AppendNodes(inner, outer);
      PlugNodes(inner, m.right);
      TransplantAt(y, y.right, Append(inner, outer), m, m.right);
      MoveTo(Cells(), nil, root, inner, outer, m.right);
      MoveTop(Cells(), nil, root, inner, m.right);
      MoveUp(Cells(), nil, root, outer, Plug(inner, m.right));
    }

    /** Hangs z's right subtree below y. */
    method AdoptRight(z: Process, y: Process)
      requires nil !in procs && z in procs && y in procs && z.right in procs && y != z && z.right != y && z.right != z
      modifies procs
      ensures var h, h' := old(Cells()), Cells();
        && nil !in h' && y in h' && h'[y] == h[y].(right := h[z].right)
        && h[z].right in h' && h'[h[z].right] == h[h[z].right].(parent := y)
        && SameBut(h, h', y, h[z].right, null, null)
    {
      y.right := z.right;
      y.right.parent := y;
    }

    /** Cuts y out and hangs what remains of z's right subtree below it. */
    method DetachSuccessor(z: Process, y: Process, ghost c: Ctx, ghost f: Tree, ghost inner: Ctx, ghost m: Tree)
      requires f.Node? && f.proc == z && m.Node? && m.left.Leaf? && m.proc == y && inner.Hole?
      requires Holds(Append(inner, Hole(R, z, f.color, f.left, c)), m)
      modifies this`root, procs, nil`parent
      ensures nil.color == Black
      ensures HalfSpliced(Cells(), nil, root, c, f.left, z, f.color, y, Plug(inner, m.right))
      ensures m.right.Leaf? ==> nil.parent == inner.proc
    {
      CutSuccessor(z, y, c, f, inner, m);
      ghost var h, r := Cells(), Plug(inner, m.right);
      assert TreeIn(h, nil, r, z);
      AdoptRight(z, y);
      FarSuccessor(h, Cells(), nil, root, c, f.left, z, f.color, y, r);
    }

    /** y takes the place, left subtree and colour of z. */
    method TakePlace(z: Process, y: Process)
      requires nil !in procs && z in procs && y in procs && z.left in procs && y != z && z.left != y && z.left != z
      requires z.parent != null ==> z.parent in procs && z.parent != y && z.parent != z && z.parent != z.left
      modifies this`root, procs, nil`parent
      ensures nil.parent == old(nil.parent) && nil !in Cells()
      ensures var h, h' := old(Cells()), Cells();
        && Redirected(h, h', old(root), root, h[z].parent, z, y)
        && h'[y] == Cell(h[z].left, h[y].right, h[z].parent, h[z].color)
        && h[z].left in h' && h'[h[z].left] == h[h[z].left].(parent := y)
        && SameBut(h, h', y, h[z].left, h[z].parent, null)
    {
      RbTransplant(z, y);
      y.left := z.left;
      y.left.parent := y;
      y.color := z.color;
    }

    method TakePlaceAt(z: Process, y: Process, ghost c: Ctx, ghost l: Tree, ghost cz: Color, ghost r: Tree)
      requires nil.color == Black && l.Node? && HalfSpliced(Cells(), nil, root, c, l, z, cz, y, r)
      modifies this`root, procs, nil`parent
      ensures Holds(c, Node(l, y, cz, r)) && nil.parent == old(nil.parent)
    {
      ghost var h := Cells();
      CtxNodesIn(h, nil, c, z);
      TakePlace(z, y);
      Spliced(h, Cells(), nil, old(root), root, c, l, z, cz, y, r);
    }

    /** Where x is the sentinel, its parent is noted. Otherwise it is y already. */
    method SetParent(x: Process, y: Process)
      requires if x == nil then nil !in procs else x in procs && x.parent == y
      modifies x`parent
      ensures Cells() == old(Cells()) && x.parent == y
    {
      x.parent := y;
    }

    /** Removes a node with two children by moving its successor into its place. */
    method SpliceSuccessor(z: Process, y: Process, x: Process, ghost c: Ctx, ghost f: Tree, ghost inner: Ctx,
                           ghost m: Tree)
      requires Holds(c, f) && f.Node? && f.proc == z && f.left.Node? && f.right == Plug(inner, m)
      requires Holds(Append(inner, Hole(R, z, f.color, f.left, c)), m)
      requires m.Node? && m.left.Leaf? && m.proc == y && x == Ref(nil, m.right)
      modifies this`root, procs, nil`parent
      ensures Focused(x, Append(inner, Hole(R, y, f.color, f.left, c)), m.right)
    {
      ghost var r := Plug(inner, m.right);
      PlugNodes(inner, m);
      FocusCell(Cells(), nil, root, Append(inner, Hole(R, z, f.color, f.left, c)), m);
      if y.parent == z {
        NearSuccessor(Cells(), nil, root, c, f, m);
        SetParent(x, y);
      } else {
        DetachSuccessor(z, y, c, f, inner, m);
      }
      TakePlaceAt(z, y, c, f.left, f.color, r);
      MoveUp(Cells(), nil, root, Hole(R, y, f.color, f.left, c), r);
      MoveTo(Cells(), nil, root, inner, Hole(R, y, f.color, f.left, c), m.right);
    }

    /** The splice of `rbDelete`: z leaves the tree, x is the subtree that moved up, in the context c'. */
    method Unlink(z: Process, ghost c: Ctx, ghost f: Tree)
      returns (x: Process, yOriginalColor: Color, ghost c': Ctx, ghost g: Tree)
      requires Holds(c, f) && RedBlack(Plug(c, f)) && f.Node? && f.proc == z
      modifies this`root, procs, nil`parent
      ensures Focused(x, c', g) && (if yOriginalColor == Black then Deleting(c', g) else RedBlack(Plug(c', g)))
      ensures Order(c', g) == Before(c) + Inorder(f.left) + (Inorder(f.right) + After(c))
    {
      var y := z;
      yOriginalColor := y.color;
      ChildRefs(Cells(), nil, f, Parent(c));
      if z.left == nil {
        x := z.right;
        c', g := c, f.right;
        RemoveStep(c, f, g);
        RemoveOrder(c, f, g);
        TransplantAt(z, z.right, c, f, g);
      } else if z.right == nil {
        x := z.left;
        c', g := c, f.left;
        RemoveStep(c, f, g);
        RemoveOrder(c, f, g);
        TransplantAt(z, z.left, c, f, g);
      } else {
        ghost var outer, inner, m := Hole(R, z, f.color, f.left, c), Top, Leaf;
        MoveUp(Cells(), nil, root, outer, f.right);
        y, inner, m := TreeMinimum(z.right, outer, f.right);
        ChildRefs(Cells(), nil, m, Parent(Append(inner, outer)));
        yOriginalColor := y.color;
        x := y.right;
        SuccessorColors(c, f, inner, m);
        SuccessorOrder(c, f, inner, m);
        SpliceSuccessor(z, y, x, c, f, inner, m);
        c', g := Append(inner, Hole(R, y, f.color, f.left, c)), m.right;
      }
    }

    /** Takes the deleted process z out of the books. */
    ghost method Forget(z: Process, k: nat, t: Tree)
      requires Holds(Top, t) && RedBlack(t) && procs == Nodes(tree) && Distinct(tree)
      requires Sorted(Inorder(tree)) && RemovedAt(Inorder(tree), Inorder(t), k, z)
      modifies this`tree, this`procs
      ensures Valid() && tree == t && procs == old(procs) - {z}
      ensures old(Counted()) ==> Counted()
    {
      RemovedTree(tree, t, k, z);
      ghost var h := Cells();
      if Counted() { HandedOutDelete(Inorder(tree), Inorder(t), k, z.pid, created); }
      tree, procs := t, procs - {z};
      Forgotten(h, Cells(), nil, root, t);
    }

    /** Unlinks z and repairs the colours if a black node left its place. */
    method DeleteNode(z: Process, ghost c: Ctx, ghost f: Tree) returns (ghost t: Tree)
      requires Holds(c, f) && RedBlack(Plug(c, f)) && f.Node? && f.proc == z
      modifies this`root, procs, nil
      ensures Holds(Top, t) && RedBlack(t)
      ensures Inorder(t) == Before(c) + Inorder(f.left) + (Inorder(f.right) + After(c))
    {
      var x, yOriginalColor, c', g := Unlink(z, c, f);
      if yOriginalColor == Black {
        t := DeleteFixup(x, c', g);
      } else {
        t := Plug(c', g);
        MoveTop(Cells(), nil, root, c', g);
        InorderPlug(c', g);
      }
    }

    /** Deletes the process at the focus. */
    method RemoveFound(z: Process, ghost c: Ctx, ghost f: Tree) returns (ghost k: nat)
      requires Valid() && Holds(c, f) && Plug(c, f) == tree && f.Node? && f.proc == z
      modifies this`root, this`tree, this`procs, procs, nil
      ensures Valid() && procs == old(procs) - {z}
      ensures RemovedAt(old(Inorder(tree)), Inorder(tree), k, z)
      ensures old(Counted()) ==> Counted()
    {
      k := |Before(c) + Inorder(f.left)|;
      InorderPlug(c, f);
      OrderAround(c, f);
      ghost var t := DeleteNode(z, c, f);
      Forget(z, k, t);
    }

    /** Removes the process that `rbSearch` finds; an absent pid changes nothing. */
    method RbDelete(pid: Word) returns (ghost k: nat)
      requires Valid()
      modifies this`root, this`tree, this`procs, procs, nil
      ensures Valid() && Deleted(old(Inorder(tree)), Inorder(tree), k, pid)
      ensures old(Counted()) ==> Counted()
      ensures if exists n <- old(Inorder(tree)) :: n.pid == pid
        then procs == old(procs) - {old(Inorder(tree))[k]}
        else tree == old(tree) && root == old(root) && procs == old(procs) && Cells() == old(Cells())
    {
      var z, c, f, steps := RbSearch(pid);
      k := 0;
      if z == nil {
        return;
      }
      k := RemoveFound(z, c, f);
    }

    // ----- Creation and traversal -----

    method GetProcessID(isUserProc: bool) returns (pid: Word)
      modifies this`UProcessID, this`KProcessID
      ensures pid == (if isUserProc then (old(UProcessID) + 1) % WORD else (old(KProcessID) + 1) % WORD)
      ensures UProcessID == (if isUserProc then pid else old(UProcessID))
      ensures KProcessID == (if isUserProc then old(KProcessID) else pid)
    {
      if isUserProc {
        UProcessID := (UProcessID + 1) % WORD;
        pid := UProcessID;
      } else {
        KProcessID := (KProcessID + 1) % WORD;
        pid := KProcessID;
      }
    }

    /** Both creators zero the structure first, so `isUserProc` is 0 and the kernel counter is used. */
    method CreateProcess() returns (newProcess: Process, ghost k: nat)
      requires Valid() && Counted()
      modifies this, procs
      ensures Valid() && Counted() && created == old(created) + 1
      ensures fresh(newProcess) && newProcess.pid == PidAt(created) && procs == old(procs) + {newProcess}
      ensures InsertedAt(old(Inorder(tree)), Inorder(tree), k, newProcess)
      ensures created <= WORD ==> newProcess.pid !in old(Pids(Inorder(tree)))
    {
      ghost var h := Cells();
      NextPid(created);
      var pid := GetProcessID(false);
      created := created + 1;
      newProcess := new Process(pid);
      assert Cells() == h;
      k := RbInsert(newProcess);
      HandedOutInsert(old(Inorder(tree)), Inorder(tree), k, newProcess, old(created));
    }

    /** `rbSearch(initIdle())`: until the counter has wrapped, the search finds the process just made. */
    method IdleProcess() returns (idle: Process, newProcess: Process)
      requires Valid() && Counted()
      modifies this, procs
      ensures Valid() && Counted() && created == old(created) + 1
      ensures fresh(newProcess) && procs == old(procs) + {newProcess} && idle in procs
      ensures created <= WORD ==> idle == newProcess
    {
      ghost var k;
      newProcess, k := CreateProcess();
      ghost var c, f, steps;
      idle, c, f, steps := RbSearch(newProcess.pid);
      InInorder(tree, newProcess);
      InInorder(tree, idle);
      if created <= WORD { SamePid(Inorder(tree), idle, newProcess); }
    }

    /** The processes that the callback is given, in order. */
    method InOrderTraversal(x: Process, ghost t: Tree, ghost p: Process?) returns (visited: seq<Process>)
      requires nil !in procs && x == Ref(nil, t) && TreeIn(Cells(), nil, t, p)
      ensures visited == Inorder(t)
      decreases t
    {
      visited := [];
      if x != nil {
        visited := InOrderTraversal(x.left, t.left, x);
        visited := visited + [x];
        var rest := InOrderTraversal(x.right, t.right, x);
        visited := visited + rest;
      }
    }

    /** The traversal of the whole tree: every registered process once, in pid order; strictly so until the pid counter
        has wrapped. */
    method Traverse() returns (visited: seq<Process>)
      requires Valid()
      ensures visited == Inorder(tree) && Sorted(visited) && (set n | n in visited) == procs
      ensures forall i, j :: 0 <= i < j < |visited| ==> visited[i] != visited[j]
      ensures Counted() && created <= WORD ==> StrictlySorted(visited)
    {
      visited := InOrderTraversal(root, tree, null);
      InorderNodes(tree);
      forall i, j | 0 <= i < j < |visited| ensures visited[i] != visited[j] { DistinctInorder(tree, i, j); }
    }
  }
}
