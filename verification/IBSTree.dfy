/** The interval tree itself: heap objects updated in place. */
module IBSTrees {
  import opened IBSTypes
  import opened IBSShape
  import opened IBSMarks
  import opened IBSRotate
  import opened IBSColors
  import opened IBSInsert
  import opened IBSQuery

  class IBSTree {
    const nil: Node
    var root: Node
    var treeSize: nat
    ghost var nodes: set<Node>
    ghost var live: set<Interval>

    ghost function V(): View
      reads this, nodes
    {
      map n | n in nodes :: n.Fields()
    }

    ghost predicate NilOk()
      reads this, nil
    {
      nil.color == Black && nil !in nodes && treeSize == |nodes|
    }

    ghost predicate Valid()
      reads this, nodes, nil
    {
      && NilOk()
      && Core(V(), root, nil, live)
      && RB(V(), root, nil)
      && Complete(V(), live)
      && forall i | i in live :: Storable(i)
    }

    constructor ()
      ensures Valid() && live == {} && nodes == {} && fresh(nil)
    {
      var n := new Node.Nil();
      nil, root, treeSize, nodes, live := n, n, 0, {}, {};
      new;
      assert V() == map[];
    }

    // ----- rotations

    /** The loop of rightRotate: marks leave y's `greater` for p's `less`, or leave p. */
    method MoveGreater(y: Node, p: Node)
      requires y != p
      modifies y`greater, p`less, p`equal, p`greater
      ensures p.less == old(p.less) + (old(y.greater) - old(p.greater))
      ensures p.equal == old(p.equal) - old(y.greater) * old(p.greater)
      ensures p.greater == old(p.greater) - old(y.greater)
      ensures y.greater == old(y.greater) * old(p.greater)
    {
      var todo := y.greater;
      ghost var seen: set<Interval> := {};
      while todo != {}
        invariant seen + todo == old(y.greater) && seen !! todo
        invariant p.less == old(p.less) + (seen - old(p.greater))
        invariant p.equal == old(p.equal) - seen * old(p.greater)
        invariant p.greater == old(p.greater) - seen
        invariant y.greater == old(y.greater) - (seen - old(p.greater))
        decreases todo
      {
        var tmp :| tmp in todo;
        if tmp !in p.greater {
          p.less := p.less + {tmp};
          y.greater := y.greater - {tmp};
        } else {
          p.greater := p.greater - {tmp};
          p.equal := p.equal - {tmp};
        }
        todo, seen := todo - {tmp}, seen + {tmp};
      }
    }

    method MoveLess(y: Node, p: Node)
      requires y != p
      modifies y`less, p`less, p`equal, p`greater
      ensures p.greater == old(p.greater) + (old(y.less) - old(p.less))
      ensures p.equal == old(p.equal) - old(y.less) * old(p.less)
      ensures p.less == old(p.less) - old(y.less)
      ensures y.less == old(y.less) * old(p.less)
    {
      var todo := y.less;
      ghost var seen: set<Interval> := {};
      while todo != {}
        invariant seen + todo == old(y.less) && seen !! todo
        invariant p.greater == old(p.greater) + (seen - old(p.less))
        invariant p.equal == old(p.equal) - seen * old(p.less)
        invariant p.less == old(p.less) - seen
        invariant y.less == old(y.less) - (seen - old(p.less))
        decreases todo
      {
        var tmp :| tmp in todo;
        if tmp !in p.less {
          p.greater := p.greater + {tmp};
          y.less := y.less - {tmp};
        } else {
          p.less := p.less - {tmp};
          p.equal := p.equal - {tmp};
        }
        todo, seen := todo - {tmp}, seen + {tmp};
      }
    }

    // Swings y, the left child of pivot, above it; marks and ranges stay.
    method SwingRight(pivot: Node, y: Node)
      requires nil !in nodes && pivot in nodes && y in nodes && y == pivot.left && pivot != y
      requires y.right != null && (y.right == nil || y.right in nodes)
      requires pivot.parent == null || pivot.parent in nodes
      requires y.right !in {pivot, y, pivot.parent} && pivot.parent !in {pivot, y}
      requires pivot.parent != null ==> pivot.parent.left == pivot || pivot.parent.right == pivot
      modifies `root, nodes
      ensures root == if old(pivot.parent) == null then y else old(root)
      ensures pivot.Fields() == old(pivot.Fields()).(left := old(y.right), parent := y)
      ensures y.Fields() == old(y.Fields()).(right := pivot, parent := old(pivot.parent))
      ensures forall n | n in nodes - {pivot, y} ::
                n.Fields() == Swung(old(n.Fields()), n, old(y.right), old(pivot.parent), pivot, y)
    {
      pivot.left := y.right;
      if y.right != nil {
        y.right.parent := pivot;
      }
      y.parent := pivot.parent;
      if pivot.parent == null {
        root := y;
      } else if pivot == pivot.parent.left {
        pivot.parent.left := y;
      } else {
        pivot.parent.right := y;
      }
      y.right := pivot;
      pivot.parent := y;
    }

    // The marks, after the links.
    method RemarkRight(pivot: Node, y: Node)
      requires pivot != y
      modifies pivot, y
      ensures pivot.Fields() ==
        RightPivot(old(pivot.Fields()), y, old(y.Fields())).(left := old(pivot.left), parent := old(pivot.parent))
      ensures y.Fields() ==
        RightTop(old(y.Fields()), pivot, old(pivot.Fields())).(right := old(y.right), parent := old(y.parent))
    {
      pivot.lo, y.hi := y.val, pivot.hi;
      y.less := y.less + pivot.less;
      y.equal := y.equal + pivot.less;
      MoveGreater(y, pivot);
    }

    method RightRotateAt(pivot: Node, y: Node)
      requires nil !in nodes && pivot in nodes && y in nodes && y == pivot.left && pivot != y
      requires y.right != null && (y.right == nil || y.right in nodes)
      requires pivot.parent == null || pivot.parent in nodes
      requires y.right !in {pivot, y, pivot.parent} && pivot.parent !in {pivot, y}
      requires pivot.parent != null ==> pivot.parent.left == pivot || pivot.parent.right == pivot
      modifies `root, nodes
      ensures V() == RightRotated(old(V()), pivot)
      ensures root == if old(pivot.parent) == null then y else old(root)
    {
      hide RightRotated, Swung, Relink;
      ghost var v := V();
      SwingRight(pivot, y);
      RemarkRight(pivot, y);
      RightRotatedIs(v, pivot, V());
    }

    method RightRotate(pivot: Node)
      requires nil !in nodes && Shape(V(), root, nil) && (pivot == nil || pivot in nodes)
      modifies `root, nodes
      ensures pivot == nil || old(pivot.left) == nil ==> V() == old(V()) && root == old(root)
      ensures pivot != nil && old(pivot.left) != nil ==>
                && old(pivot.left) in old(V())
                && V() == RightRotated(old(V()), pivot)
                && root == RotateRoot(old(V()), old(root), pivot, old(pivot.left))
    {
      if pivot == nil { return; }
      assert NodeOk(V(), root, nil, pivot);
      var y := pivot.left;
      if y == nil { return; }
      assert NodeOk(V(), root, nil, y);
      if pivot.parent != null { assert NodeOk(V(), root, nil, pivot.parent); }
      RightRotateAt(pivot, y);
    }

    // Swings y, the right child of pivot, above it; marks and ranges stay.
    method SwingLeft(pivot: Node, y: Node)
      requires nil !in nodes && pivot in nodes && y in nodes && y == pivot.right && pivot != y
      requires y.left != null && (y.left == nil || y.left in nodes) && (pivot.parent == null || pivot.parent in nodes)
      requires y.left !in {pivot, y, pivot.parent} && pivot.parent !in {pivot, y}
      requires pivot.parent != null ==> pivot.parent.left == pivot || pivot.parent.right == pivot
      modifies `root, nodes
      ensures root == if old(pivot.parent) == null then y else old(root)
      ensures pivot.Fields() == old(pivot.Fields()).(right := old(y.left), parent := y)
      ensures y.Fields() == old(y.Fields()).(left := pivot, parent := old(pivot.parent))
      ensures forall n | n in nodes - {pivot, y} ::
                n.Fields() == Swung(old(n.Fields()), n, old(y.left), old(pivot.parent), pivot, y)
    {
      pivot.right := y.left;
      if y.left != nil {
        y.left.parent := pivot;
      }
      y.parent := pivot.parent;
      if pivot.parent == null {
        root := y;
      } else if pivot == pivot.parent.left {
        pivot.parent.left := y;
      } else {
        pivot.parent.right := y;
      }
      y.left := pivot;
      pivot.parent := y;
    }

    // The marks, after the links.
    method RemarkLeft(pivot: Node, y: Node)
      requires pivot != y
      modifies pivot, y
      ensures pivot.Fields() ==
        LeftPivot(old(pivot.Fields()), y, old(y.Fields())).(right := old(pivot.right), parent := old(pivot.parent))
      ensures y.Fields() ==
        LeftTop(old(y.Fields()), pivot, old(pivot.Fields())).(left := old(y.left), parent := old(y.parent))
    {
      pivot.hi, y.lo := y.val, pivot.lo;
      y.greater := y.greater + pivot.greater;
      y.equal := y.equal + pivot.greater;
      MoveLess(y, pivot);
    }

    method LeftRotateAt(pivot: Node, y: Node)
      requires nil !in nodes && pivot in nodes && y in nodes && y == pivot.right && pivot != y
      requires y.left != null && (y.left == nil || y.left in nodes) && (pivot.parent == null || pivot.parent in nodes)
      requires y.left !in {pivot, y, pivot.parent} && pivot.parent !in {pivot, y}
      requires pivot.parent != null ==> pivot.parent.left == pivot || pivot.parent.right == pivot
      modifies `root, nodes
      ensures V() == LeftRotated(old(V()), pivot)
      ensures root == if old(pivot.parent) == null then y else old(root)
    {
      hide LeftRotated, Swung, Relink;
      ghost var v := V();
      SwingLeft(pivot, y);
      RemarkLeft(pivot, y);
      LeftRotatedIs(v, pivot, V());
    }

    method LeftRotate(pivot: Node)
      requires nil !in nodes && Shape(V(), root, nil) && (pivot == nil || pivot in nodes)
      modifies `root, nodes
      ensures pivot == nil || old(pivot.right) == nil ==> V() == old(V()) && root == old(root)
      ensures pivot != nil && old(pivot.right) != nil ==>
                && old(pivot.right) in old(V())
                && V() == LeftRotated(old(V()), pivot)
                && root == RotateRoot(old(V()), old(root), pivot, old(pivot.right))
    {
      if pivot == nil { return; }
      assert NodeOk(V(), root, nil, pivot);
      var y := pivot.right;
      if y == nil { return; }
      assert NodeOk(V(), root, nil, y);
      if pivot.parent != null { assert NodeOk(V(), root, nil, pivot.parent); }
      LeftRotateAt(pivot, y);
    }

    // ----- rebalancing

    /** The state in which insertFixup looks at x: only x may break the color rule. */
    ghost predicate Fixing(x: Node, marks: set<Interval>)
      reads this, nodes, nil
    {
      NilOk() && Core(V(), root, nil, marks) && RBExcept(V(), root, nil, x) && x in nodes && x.color == Red
    }

    method Recolor(p: Node, u: Node, g: Node)
      requires p in nodes && u in nodes && g in nodes && p != u && p != g && u != g
      modifies nodes
      ensures V() == Recolored(old(V()), p, u, g)
    {
      p.color, u.color, g.color := Black, Black, Red;
      p.bh, u.bh := p.bh + 1, u.bh + 1;
    }

    method Lift(p: Node, g: Node)
      requires p in nodes && g in nodes && p != g && g.bh > 0
      modifies nodes
      ensures V() == Lifted(old(V()), p, g)
    {
      p.color, g.color := Black, Red;
      p.bh, g.bh := p.bh + 1, g.bh - 1;
    }

    /** Red uncle: push the conflict to the grandparent. */
    method FixUncle(x: Node, p: Node, u: Node, g: Node, ghost marks: set<Interval>, ghost key: int)
      requires Fixing(x, marks) && RedUncle(V(), root, nil, x, p, u, g)
      modifies nodes
      ensures Fixing(g, marks) && Kept(old(V()), V(), key)
      ensures g.lo == old(g.lo) && g.hi == old(g.hi)
    {
      hide Shape, Truthful, MarksFrom, RBExcept, Kept;
      ghost var v := V();
      assert v[g] == g.Fields();
      UncleStep(v, root, nil, x, p, u, g, marks, key);
      Recolor(p, u, g);
      assert V()[g] == g.Fields();
    }

    /** Black uncle, conflict on the outer side: lift p over g. */
    method FixRight(x: Node, p: Node, g: Node, ghost marks: set<Interval>, ghost key: int)
      requires Fixing(x, marks) && OuterRight(V(), root, nil, x, p, g) && key < g.val
      modifies `root, nodes
      ensures NilOk() && Core(V(), root, nil, marks) && RBExcept(V(), root, nil, x) && Settled(V(), x)
      ensures Kept(old(V()), V(), key)
    {
      hide Shape, Truthful, MarksFrom, RBExcept, RB, Kept, RightRotated, Settled;
      ghost var v := V();
      LiftRightStep(v, root, nil, x, p, g, marks, key);
      assert x.Fields() == V()[x] && p.Fields() == V()[p] && g.Fields() == V()[g];
      Lift(p, g);
      assert g.Fields() == V()[g];
      RightRotate(g);
    }

    /** Conflict on the inner side: turn it outwards. */
    method TurnLeftAt(x: Node, p: Node, ghost marks: set<Interval>, ghost key: int)
      requires Fixing(x, marks) && p in nodes && p.right == x && p.color == Red && p.parent != null && p.val < key
      requires x.val < MAX
      modifies `root, nodes
      ensures Fixing(p, marks) && Kept(old(V()), V(), key) && root == old(root)
      ensures V() == LeftRotated(old(V()), p)
    {
      hide Shape, Truthful, MarksFrom, RBExcept, Kept;
      ghost var v := V();
      assert v[x] == x.Fields() && v[p] == p.Fields() && x != nil;
      TurnLeftStep(v, root, nil, x, p, marks, key);
      LeftRotate(p);
      assert V()[p] == p.Fields();
    }

    /** Black uncle, conflict on the outer side: lift p over g. */
    method FixLeft(x: Node, p: Node, g: Node, ghost marks: set<Interval>, ghost key: int)
      requires Fixing(x, marks) && OuterLeft(V(), root, nil, x, p, g) && g.val < key
      modifies `root, nodes
      ensures NilOk() && Core(V(), root, nil, marks) && RBExcept(V(), root, nil, x) && Settled(V(), x)
      ensures Kept(old(V()), V(), key)
    {
      hide Shape, Truthful, MarksFrom, RBExcept, RB, Kept, LeftRotated, Settled;
      ghost var v := V();
      LiftLeftStep(v, root, nil, x, p, g, marks, key);
      assert x.Fields() == V()[x] && p.Fields() == V()[p] && g.Fields() == V()[g];
      Lift(p, g);
      assert g.Fields() == V()[g];
      LeftRotate(g);
    }

    /** Conflict on the inner side: turn it outwards. */
    method TurnRightAt(x: Node, p: Node, ghost marks: set<Interval>, ghost key: int)
      requires Fixing(x, marks) && p in nodes && p.left == x && p.color == Red && p.parent != null && key < p.val
      modifies `root, nodes
      ensures Fixing(p, marks) && Kept(old(V()), V(), key) && root == old(root)
      ensures V() == RightRotated(old(V()), p)
    {
      hide Shape, Truthful, MarksFrom, RBExcept, Kept;
      ghost var v := V();
      assert v[x] == x.Fields() && v[p] == p.Fields() && x != nil;
      TurnRightStep(v, root, nil, x, p, marks, key);
      RightRotate(p);
      assert V()[p] == p.Fields();
    }

    /** Black uncle, p the left child of g. */
    method FixBlackRight(x: Node, p: Node, g: Node, ghost marks: set<Interval>, ghost key: int) returns (x': Node)
      requires Fixing(x, marks) && x.lo < key < x.hi && p in nodes && g in nodes
      requires x.parent == p && p.parent == g && g.left == p && p.color == Red && g.color == Black
      requires NodeOk(V(), root, nil, x) && NodeOk(V(), root, nil, p) && NodeOk(V(), root, nil, g)
      requires g.right != null && g.right.color == Black
      modifies `root, nodes
      ensures NilOk() && Core(V(), root, nil, marks) && RBExcept(V(), root, nil, x') && Kept(old(V()), V(), key)
      ensures x' in nodes && Settled(V(), x')
    {
      hide Shape, Truthful, MarksFrom, RBExcept, RB, LeftRotated, Settled, Grows, HalfMarked;
      x' := x;
      ghost var v := V();
      assert v[x] == x.Fields() && v[p] == p.Fields() && v[g] == g.Fields();
      if x == p.right {
        x' := p;
        TurnLeftOuter(v, root, nil, x, p, g);
        TurnLeftAt(x, p, marks, key);
        ghost var w := V();
        assert w[x] == x.Fields() && w[p] == p.Fields() && w[g] == g.Fields();
        FixRight(p, x, g, marks, key);
        KeptTrans(v, w, V(), key);
      } else {
        FixRight(x, p, g, marks, key);
      }
    }

    /** Black uncle, p the right child of g. */
    method FixBlackLeft(x: Node, p: Node, g: Node, ghost marks: set<Interval>, ghost key: int) returns (x': Node)
      requires Fixing(x, marks) && x.lo < key < x.hi && p in nodes && g in nodes
      requires x.parent == p && p.parent == g && g.right == p && p.color == Red && g.color == Black
      requires NodeOk(V(), root, nil, x) && NodeOk(V(), root, nil, p) && NodeOk(V(), root, nil, g)
      requires g.left != null && g.left.color == Black
      modifies `root, nodes
      ensures NilOk() && Core(V(), root, nil, marks) && RBExcept(V(), root, nil, x') && Kept(old(V()), V(), key)
      ensures x' in nodes && Settled(V(), x')
    {
      hide Shape, Truthful, MarksFrom, RBExcept, RB, RightRotated, Settled, Grows, HalfMarked;
      x' := x;
      ghost var v := V();
      assert v[x] == x.Fields() && v[p] == p.Fields() && v[g] == g.Fields();
      if x == p.left {
        x' := p;
        TurnRightOuter(v, root, nil, x, p, g);
        TurnRightAt(x, p, marks, key);
        ghost var w := V();
        assert w[x] == x.Fields() && w[p] == p.Fields() && w[g] == g.Fields();
        FixLeft(p, x, g, marks, key);
        KeptTrans(v, w, V(), key);
      } else {
        FixLeft(x, p, g, marks, key);
      }
    }

    /** One round of the rebalancing loop. */
    method FixRound(x: Node, ghost marks: set<Interval>, ghost key: int) returns (x': Node)
      requires Fixing(x, marks) && x.lo < key < x.hi
      requires x != root && x.parent != null && x.parent in nodes && x.parent.color == Red
      modifies `root, nodes
      ensures NilOk() && Core(V(), root, nil, marks) && RBExcept(V(), root, nil, x') && Kept(old(V()), V(), key)
      ensures x' in nodes && x'.color == Red
      ensures Settled(V(), x') || (x'.lo < key < x'.hi && x'.hi - x'.lo > old(x.hi - x.lo))
    {
      hide Shape, Truthful, MarksFrom, RBExcept, RB, Kept;
      ghost var v := V();
      GrandparentFacts(v, root, nil, x);
      var p := x.parent;
      var g := p.parent;
      assert v[x] == x.Fields() && v[p] == p.Fields() && v[g] == g.Fields();
      var y := if p == g.left then g.right else g.left;
      if y != nil { assert v[y] == y.Fields(); }
      if y.color == Red {
        FixUncle(x, p, y, g, marks, key);
        x' := g;
      } else if p == g.left {
        x' := FixBlackRight(x, p, g, marks, key);
        assert V()[x'] == x'.Fields();
      } else {
        x' := FixBlackLeft(x, p, g, marks, key);
        assert V()[x'] == x'.Fields();
      }
    }

    method MakeRootBlack()
      requires root in nodes
      modifies nodes
      ensures V() == RootBlackened(old(V()), root)
    {
      if root.color == Red { root.bh := root.bh + 1; }
      root.color := Black;
    }

    method InsertFixup(x0: Node, ghost marks: set<Interval>, ghost key: int)
      requires Fixing(x0, marks) && x0.lo < key < x0.hi
      modifies `root, nodes
      ensures NilOk() && Core(V(), root, nil, marks) && RB(V(), root, nil) && Kept(old(V()), V(), key)
    {
      hide Shape, Truthful, MarksFrom, RBExcept, RB, Kept;
      var x := x0;
      x.color := Red;
      ghost var v := V();
      assert v == old(V());
      KeptRefl(v, key);
      ParentFacts(v, root, nil, x);
      assert v[x] == x.Fields();
      while x != root && x.parent.color == Red
        invariant Fixing(x, marks) && Kept(v, V(), key)
        invariant x != root ==> x.parent != null && x.parent in nodes
        invariant root in nodes && NodeOk(V(), root, nil, x)
        invariant Settled(V(), x) || x.lo < key < x.hi
        decreases if x != root && x.parent.color == Red then POS - NEG - (x.hi - x.lo) + 1 else 0
      {
        ghost var u := V();
        assert u[x] == x.Fields() && u[x.parent] == x.parent.Fields();
        x := FixRound(x, marks, key);
        KeptTrans(v, u, V(), key);
        ParentFacts(V(), root, nil, x);
        assert V()[x] == x.Fields();
        if x != root { assert V()[x.parent] == x.parent.Fields(); }
      }
      ghost var u := V();
      assert u[x] == x.Fields() && u[root] == root.Fields();
      if x != root { assert u[x.parent] == x.parent.Fields(); }
      FixupEnd(u, root, nil, x, marks, key);
      MakeRootBlack();
      KeptTrans(v, u, V(), key);
    }

    // ----- insertion

    method RightUp(r: Node) returns (u: int)
      requires Shape(V(), root, nil) && r in nodes
      ensures u == RightUpOf(r.hi)
    {
      var n := r;
      ParentFacts(V(), root, nil, n);
      while n.parent != null
        invariant n in nodes && n.hi == r.hi && NodeOk(V(), root, nil, n)
        decreases POS - NEG - (n.hi - n.lo)
      {
        ParentFacts(V(), root, nil, n.parent);
        if n.parent.left == n {
          return n.parent.val;
        }
        n := n.parent;
      }
      return MAX;
    }

    method LeftUp(r: Node) returns (u: int)
      requires Shape(V(), root, nil) && r in nodes
      ensures u == LeftUpOf(r.lo)
    {
      var n := r;
      ParentFacts(V(), root, nil, n);
      while n.parent != null
        invariant n in nodes && n.lo == r.lo && NodeOk(V(), root, nil, n)
        decreases POS - NEG - (n.hi - n.lo)
      {
        ParentFacts(V(), root, nil, n.parent);
        if n.parent.right == n {
          return n.parent.val;
        }
        n := n.parent;
      }
      return MIN;
    }

    method Mark(r: Node, i: Interval, l: bool, e: bool, g: bool)
      requires r in nodes
      modifies nodes
      ensures V() == old(V())[r := Marked(old(V())[r], i, l, e, g)]
    {
      if l { r.less := r.less + {i}; }
      if e { r.equal := r.equal + {i}; }
      if g { r.greater := r.greater + {i}; }
    }

    method NewLeaf(q: Node?, ghost left: bool, key: int) returns (m: Node)
      requires q == null || q in nodes
      ensures fresh(m) && m.Fields() == LeafRec(V(), nil, q, left, key)
    {
      m := new Node.Leaf(key, nil);
      m.lo, m.hi := SlotLo(V(), q, left), SlotHi(V(), q, left);
      m.parent := q;
    }

    method Attach(m: Node, q: Node?)
      requires (q == null || q in nodes) && m !in nodes
      modifies `root, q
      ensures root == if q == null then m else old(root)
      ensures V() == if q == null then old(V()) else old(V())[q := HungOff(old(V())[q], m, m.val < q.val)]
    {
      if q == null {
        root := m;
      } else if m.val < q.val {
        q.left := m;
      } else {
        q.right := m;
      }
    }

    method Enroll(m: Node)
      requires NilOk() && m !in nodes && m != nil
      modifies `treeSize, `nodes
      ensures NilOk() && nodes == old(nodes) + {m} && V() == old(V())[m := m.Fields()]
    {
      treeSize, nodes := treeSize + 1, nodes + {m};
    }

    /** Hangs a new node off q on the side the key belongs to. */
    method AddNode(q: Node?, key: int) returns (m: Node)
      requires NilOk() && (q == null || q in nodes) && FreeSlot(V(), nil, q, q != null && key < q.val, key)
      modifies `root, `treeSize, `nodes, nodes
      ensures NilOk() && fresh(m) && nodes == old(nodes) + {m}
      ensures V() == Linked(old(V()), nil, m, q, q != null && key < q.val, key)
      ensures root == if q == null then m else old(root)
    {
      hide Linked, FreeSlot, SlotLo, SlotHi, LeafRec, HungOff;
      ghost var v, left := V(), q != null && key < q.val;
      SlotIn(v, nil, q, left, key);
      m := NewLeaf(q, left, key);
      LeafSlot(v, nil, q, left, key);
      Attach(m, q);
      Enroll(m);
      LinkedIs(v, nil, m, q, left, key);
    }

    /** The marks AddLeft puts on a node at or above i.low. */
    method MarkLeft(r: Node, i: Interval)
      requires NilOk() && Core(V(), root, nil, live + {i}) && Storable(i) && r in nodes
      requires r.lo < i.low <= r.val && LeftDone(V(), i, r.hi)
      modifies nodes
      ensures Core(V(), root, nil, live + {i}) && NilOk() && Grows(old(V()), V()) && SameTree(old(V()), V())
      ensures LeftDone(V(), i, r.val) && (r.val == i.low ==> HalfMarked(V(), i))
    {
      hide Shape, Truthful, MarksFrom, LeftDone, Grows, SameTree, HalfMarked;
      ghost var v := V();
      assert v[r] == r.Fields();
      LeftVisit(v, root, nil, live + {i}, r, i);
      if r.val == i.low { LeftArrive(v, root, nil, live + {i}, r, i); }
      var u := RightUp(r);
      Mark(r, i, false, r.val == i.low || r.val < i.high, u <= i.high);
    }

    /** Walks towards i.low, marking; returns the node it created, if any.  Leaves i half marked. */
    method AddLeft(i: Interval) returns (x: Node?, ghost low: Node)
      requires NilOk() && Core(V(), root, nil, live + {i}) && RB(V(), root, nil) && Storable(i)
      modifies `root, `treeSize, `nodes, nodes
      ensures NilOk() && Core(V(), root, nil, live + {i}) && Grows(old(V()), V()) && HalfMarked(V(), i)
      ensures fresh(nodes - old(nodes)) && low in nodes && low.val == i.low && LeftDone(V(), i, i.low)
      ensures old(nodes) <= nodes && forall n | n in nodes - old(nodes) :: n.val == i.low
      ensures x == null ==> RB(V(), root, nil)
      ensures x != null ==> Fixing(x, live + {i}) && x.lo < i.low < x.hi
    {
      hide Shape, Truthful, MarksFrom, RB, RBExcept, Grows, HalfMarked, LeftDone, SameTree;
      var q: Node?, r: Node := null, root;
      ghost var left := false;
      GrowsRefl(V());
      LeftStart(V(), i);
      while r != nil && r.val != i.low
        invariant nodes == old(nodes)
        invariant NilOk() && Core(V(), root, nil, live + {i}) && RB(V(), root, nil) && Grows(old(V()), V())
        invariant (q == null || q in nodes) && At(V(), root, nil, q, left, r)
        invariant SlotLo(V(), q, left) < i.low < SlotHi(V(), q, left) && LeftDone(V(), i, SlotHi(V(), q, left))
        decreases SlotHi(V(), q, left) - SlotLo(V(), q, left)
      {
        ghost var v := V();
        AtNode(v, root, nil, q, left, r);
        assert v[r] == r.Fields();
        if r.val < i.low {
          AtStay(v, root, nil, r);
          q, r, left := r, r.right, false;
        } else {
          MarkLeft(r, i);
          AtChild(v, V(), root, nil, r, true);
          ColorsKeepRB(v, V(), root, nil, nil);
          GrowsTrans(old(V()), v, V());
          q, r, left := r, r.left, true;
        }
      }
      ghost var u := V();
      x, low := ArriveLow(q, left, r, i);
      GrowsTrans(old(V()), u, V());
    }

    /** The end of AddLeft's walk: the node of i.low is there, or is made, and gets its marks. */
    method ArriveLow(q: Node?, ghost left: bool, r: Node, i: Interval) returns (x: Node?, ghost low: Node)
      requires NilOk() && Core(V(), root, nil, live + {i}) && RB(V(), root, nil) && Storable(i)
      requires (q == null || q in nodes) && At(V(), root, nil, q, left, r) && (r == nil || r.val == i.low)
      requires SlotLo(V(), q, left) < i.low < SlotHi(V(), q, left) && LeftDone(V(), i, SlotHi(V(), q, left))
      modifies `root, `treeSize, `nodes, nodes
      ensures NilOk() && Core(V(), root, nil, live + {i}) && Grows(old(V()), V()) && HalfMarked(V(), i)
      ensures fresh(nodes - old(nodes)) && low in nodes && low.val == i.low && LeftDone(V(), i, i.low)
      ensures old(nodes) <= nodes && forall n | n in nodes - old(nodes) :: n.val == i.low
      ensures x == null ==> RB(V(), root, nil)
      ensures x != null ==> Fixing(x, live + {i}) && x.lo < i.low < x.hi
    {
      hide Shape, Truthful, MarksFrom, RB, RBExcept, Grows, HalfMarked, LeftDone, SameTree, Linked;
      x := null;
      var m := r;
      GrowsRefl(V());
      if r == nil {
        m := AddLeftNode(q, left, i);
        x := m;
      } else {
        AtNode(V(), root, nil, q, left, r);
      }
      low := m;
      ghost var v := V();
      assert v[m] == m.Fields();
      MarkLeft(m, i);
      assert V()[m] == m.Fields();
      ColorsKeepRB(v, V(), root, nil, m);
      GrowsTrans(old(V()), v, V());
      if x != null { TreeFields(v, V(), m); }
    }

    // The new node at the end of AddLeft's walk.
    method AddLeftNode(q: Node?, ghost left: bool, i: Interval) returns (m: Node)
      requires NilOk() && Core(V(), root, nil, live + {i}) && RB(V(), root, nil) && (q == null || q in nodes)
      requires At(V(), root, nil, q, left, nil) && SlotLo(V(), q, left) < i.low < SlotHi(V(), q, left)
      requires LeftDone(V(), i, SlotHi(V(), q, left))
      modifies `root, `treeSize, `nodes, nodes
      ensures nodes == old(nodes) + {m} && fresh(m) && Grows(old(V()), V()) && Fixing(m, live + {i})
      ensures m.val == i.low && m.lo < i.low < m.hi && LeftDone(V(), i, m.hi)
    {
      hide Shape, Truthful, MarksFrom, RB, RBExcept, Grows, LeftDone, Linked;
      ghost var v, r := V(), root;
      AtNil(v, root, nil, q, left, i.low);
      if q != null { assert v[q] == q.Fields(); }
      assert q == null ==> FreeSlot(v, nil, q, false, i.low);
      ghost var l := q != null && i.low < q.val;
      assert SlotLo(v, q, l) == SlotLo(v, q, left) && SlotHi(v, q, l) == SlotHi(v, q, left);
      m := AddNode(q, i.low);
      LinkStep(v, r, nil, m, q, l, i.low, live + {i});
      LeafSlot(v, nil, q, l, i.low);
      LeftDoneLink(v, nil, m, q, l, i);
      assert V()[m] == m.Fields();
    }

    /** The marks AddRight puts on a node at or below i.high. */
    method MarkRight(r: Node, i: Interval, ghost low: Node)
      requires NilOk() && Core(V(), root, nil, live + {i}) && Storable(i) && r in nodes && low in nodes
      requires low.val == i.low
      requires r.val <= i.high < r.hi && HalfMarked(V(), i) && RightDone(V(), i, r.lo)
      modifies nodes
      ensures Core(V(), root, nil, live + {i}) && NilOk() && Grows(old(V()), V()) && SameTree(old(V()), V())
      ensures r.val < i.high ==> HalfMarked(V(), i) && RightDone(V(), i, r.val)
      ensures r.val == i.high ==> forall x | Contains(i, x) :: Covered(V(), i, x)
    {
      hide Shape, Truthful, MarksFrom, RightDone, Grows, SameTree, HalfMarked, Covered;
      ghost var v := V();
      assert v[r] == r.Fields() && v[low] == low.Fields();
      if r.val < i.high {
        RightVisit(v, root, nil, live + {i}, r, i);
      } else {
        RightArrive(v, root, nil, live + {i}, r, i, low);
      }
      var u := LeftUp(r);
      Mark(r, i, u >= i.low, i.low < r.val < i.high, false);
    }

    /** Walks towards i.high, marking; returns the node it created, if any.  Leaves no gap in i. */
    method AddRight(i: Interval, ghost low: Node) returns (x: Node?)
      requires NilOk() && Core(V(), root, nil, live + {i}) && RB(V(), root, nil) && Storable(i)
      requires HalfMarked(V(), i) && low in nodes && low.val == i.low
      modifies `root, `treeSize, `nodes, nodes
      ensures NilOk() && Core(V(), root, nil, live + {i}) && Grows(old(V()), V())
      ensures fresh(nodes - old(nodes)) && forall n | n in nodes - old(nodes) :: n.val == i.high
      ensures forall x | Contains(i, x) :: Covered(V(), i, x)
      ensures x == null ==> RB(V(), root, nil)
      ensures x != null ==> Fixing(x, live + {i}) && x.lo < i.high < x.hi
    {
      hide Shape, Truthful, MarksFrom, RB, RBExcept, Grows, HalfMarked, RightDone, SameTree, Covered;
      var q: Node?, r: Node := null, root;
      ghost var left := false;
      GrowsRefl(V());
      RightStart(V(), i);
      while r != nil && r.val != i.high
        invariant nodes == old(nodes)
        invariant NilOk() && Core(V(), root, nil, live + {i}) && RB(V(), root, nil) && Grows(old(V()), V())
        invariant (q == null || q in nodes) && At(V(), root, nil, q, left, r) && HalfMarked(V(), i)
        invariant SlotLo(V(), q, left) < i.high < SlotHi(V(), q, left) && RightDone(V(), i, SlotLo(V(), q, left))
        decreases SlotHi(V(), q, left) - SlotLo(V(), q, left)
      {
        ghost var v := V();
        AtNode(v, root, nil, q, left, r);
        assert v[r] == r.Fields();
        if r.val < i.high {
          MarkRight(r, i, low);
          AtChild(v, V(), root, nil, r, false);
          ColorsKeepRB(v, V(), root, nil, nil);
          GrowsTrans(old(V()), v, V());
          q, r, left := r, r.right, false;
        } else {
          AtStay(v, root, nil, r);
          q, r, left := r, r.left, true;
        }
      }
      ghost var u := V();
      x := ArriveHigh(q, left, r, i, low);
      GrowsTrans(old(V()), u, V());
    }

    /** The end of AddRight's walk: the node of i.high is there, or is made, and gets its marks. */
    method ArriveHigh(q: Node?, ghost left: bool, r: Node, i: Interval, ghost low: Node) returns (x: Node?)
      requires NilOk() && Core(V(), root, nil, live + {i}) && RB(V(), root, nil) && Storable(i)
      requires (q == null || q in nodes) && At(V(), root, nil, q, left, r) && (r == nil || r.val == i.high)
      requires HalfMarked(V(), i) && low in nodes && low.val == i.low
      requires SlotLo(V(), q, left) < i.high < SlotHi(V(), q, left) && RightDone(V(), i, SlotLo(V(), q, left))
      modifies `root, `treeSize, `nodes, nodes
      ensures NilOk() && Core(V(), root, nil, live + {i}) && Grows(old(V()), V())
      ensures fresh(nodes - old(nodes)) && forall n | n in nodes - old(nodes) :: n.val == i.high
      ensures forall x | Contains(i, x) :: Covered(V(), i, x)
      ensures x == null ==> RB(V(), root, nil)
      ensures x != null ==> Fixing(x, live + {i}) && x.lo < i.high < x.hi
    {
      hide Shape, Truthful, MarksFrom, RB, RBExcept, Grows, HalfMarked, RightDone, SameTree, Linked, Covered;
      x := null;
      var m := r;
      GrowsRefl(V());
      if r == nil {
        m := AddRightNode(q, left, i);
        x := m;
      } else {
        AtNode(V(), root, nil, q, left, r);
      }
      ghost var v := V();
      assert v[m] == m.Fields();
      MarkRight(m, i, low);
      assert V()[m] == m.Fields();
      ColorsKeepRB(v, V(), root, nil, m);
      GrowsTrans(old(V()), v, V());
      if x != null { TreeFields(v, V(), m); }
    }

    // The new node at the end of AddRight's walk.
    method AddRightNode(q: Node?, ghost left: bool, i: Interval) returns (m: Node)
      requires NilOk() && Core(V(), root, nil, live + {i}) && RB(V(), root, nil) && (q == null || q in nodes)
      requires At(V(), root, nil, q, left, nil) && SlotLo(V(), q, left) < i.high < SlotHi(V(), q, left)
      requires HalfMarked(V(), i) && RightDone(V(), i, SlotLo(V(), q, left))
      modifies `root, `treeSize, `nodes, nodes
      ensures nodes == old(nodes) + {m} && fresh(m) && Grows(old(V()), V()) && Fixing(m, live + {i})
      ensures m.val == i.high && m.lo < i.high < m.hi && HalfMarked(V(), i) && RightDone(V(), i, m.lo)
    {
      hide Shape, Truthful, MarksFrom, RB, RBExcept, Linked, HalfMarked, Covered;
      ghost var v, r := V(), root;
      AtNil(v, root, nil, q, left, i.high);
      if q != null { assert v[q] == q.Fields(); }
      assert q == null ==> FreeSlot(v, nil, q, false, i.high);
      ghost var l := q != null && i.high < q.val;
      assert SlotLo(v, q, l) == SlotLo(v, q, left) && SlotHi(v, q, l) == SlotHi(v, q, left);
      m := AddNode(q, i.high);
      LinkStep(v, r, nil, m, q, l, i.high, live + {i});
      LeafSlot(v, nil, q, l, i.high);
      LinkKeepsHalf(v, nil, m, q, l, i);
      assert V()[m] == m.Fields();
    }

    /** The low endpoint and the rebalancing it needs: i is half marked afterwards. */
    method InsertLow(i: Interval) returns (ghost low: Node)
      requires NilOk() && Core(V(), root, nil, live + {i}) && RB(V(), root, nil) && Storable(i)
      modifies `root, `treeSize, `nodes, nodes
      ensures NilOk() && Core(V(), root, nil, live + {i}) && RB(V(), root, nil) && Grows(old(V()), V())
      ensures HalfMarked(V(), i)
      ensures fresh(nodes - old(nodes)) && old(nodes) <= nodes && low in nodes && low.val == i.low
      ensures forall n | n in nodes - old(nodes) :: n.val == i.low
      ensures ReachesTop(i) && NoTop(old(V())) ==> Covered(V(), i, MAX)
    {
      hide Shape, Truthful, MarksFrom, RB, RBExcept, HalfMarked, Covered, Grows, LeftDone, NoTop, TopSeen;
      ghost var v := V();
      var x: Node?;
      x, low := AddLeft(i);
      ghost var v1 := V();
      TopDone(v, v1, i);
      KeptRefl(v1, i.low);
      if x != null {
        InsertFixup(x, live + {i}, i.low);
      }
      GrowsTrans(v, v1, V());
      GrowsCovered(v1, V(), i, MAX);
    }

    /** The high endpoint and the rebalancing it needs: no point of i is left uncovered. */
    method InsertHigh(i: Interval, ghost low: Node)
      requires NilOk() && Core(V(), root, nil, live + {i}) && RB(V(), root, nil) && Storable(i)
      requires HalfMarked(V(), i) && low in nodes && low.val == i.low
      modifies `root, `treeSize, `nodes, nodes
      ensures NilOk() && Core(V(), root, nil, live + {i}) && RB(V(), root, nil) && Grows(old(V()), V())
      ensures fresh(nodes - old(nodes)) && forall n | n in nodes - old(nodes) :: n.val == i.high
      ensures forall x | Contains(i, x) :: Covered(V(), i, x)
    {
      hide Shape, Truthful, MarksFrom, RB, RBExcept, HalfMarked, Covered, Grows;
      ghost var v := V();
      var x := AddRight(i, low);
      ghost var v1 := V();
      KeptRefl(v1, i.high);
      if x != null {
        InsertFixup(x, live + {i}, i.high);
      }
      GrowsTrans(v, v1, V());
      forall x | Contains(i, x) ensures Covered(V(), i, x) { GrowsCovered(v1, V(), i, x); }
    }

    /** Adds i to the index; rebalances after each endpoint that needed a node. */
    method Insert(i: Interval)
      requires Valid() && Storable(i)
      modifies this, nodes
      ensures Valid() && live == old(live) + {i} && fresh(nodes - old(nodes)) && Grows(old(V()), V())
      ensures forall n | n in nodes - old(nodes) :: n.val == i.low || n.val == i.high
      ensures ReachesTop(i) && NoTop(old(V())) ==> Covered(V(), i, MAX)
    {
      hide Shape, Truthful, MarksFrom, RB, HalfMarked, Covered, Grows, Complete, NoTop;
      ghost var v := V();
      MarksWeaken(v, live, i);
      ghost var low;
      low := InsertLow(i);
      ghost var v1 := V();
      InsertHigh(i, low);
      ghost var v2 := V();
      GrowsTrans(v, v1, v2);
      GrowsCovered(v1, v2, i, MAX);
      CompleteNow(v, v2, v2, live, i);
      live := live + {i};
      assert V() == v2;
    }

    // ----- queries

    /** Adds to `out` exactly the live intervals containing x, and says how many were new.  At MAX it may
     *  add live intervals that end there, and does not if there are none. */
    method Find(x: int, out: set<Interval>) returns (res: set<Interval>, count: int)
      requires Valid() && MIN <= x <= MAX
      ensures out + Stab(live, x) <= res <= out + Findable(live, x)
      ensures x < MAX || NoneAtTop(live) ==> res == out + Stab(live, x)
      ensures forall i | Covered(V(), i, x) :: i in res
      ensures count == |res| - |out|
    {
      hide RB, Shape, Truthful, MarksFrom, Complete, Pending, Covered;
      ghost var v := V();
      res := out;
      var r := root;
      RootKnown(v, root, nil);
      PendingStart(v, root, nil, x, res);
      while r != nil
        invariant r != nil ==> r in nodes && r.lo < x < r.hi
        invariant out <= res && forall i | i in res && i !in out :: Covered(v, i, x)
        invariant Pending(v, root, nil, r, x, res)
        decreases if r == nil then 0 else r.hi - r.lo
      {
        PendingStep(v, root, nil, r, x, res);
        NodeHere(v, root, nil, r);
        assert v[r] == r.Fields();
        SlotCovered(v, r, x);
        if x == r.val {
          PendingStop(v, root, nil, r, x, res);
          res := res + r.equal;
          r := nil;
        } else if x < r.val {
          res := res + r.less;
          r := r.left;
        } else {
          res := res + r.greater;
          r := r.right;
        }
      }
      FindExact(v, root, nil, live, x, out, res);
      FindsCovered(v, root, nil, x, res);
      FoundAlone(live, x);
      count := |res| - |out|;
    }

    /** Adds to `out` exactly the live intervals that share a point with q; the empty query at MAX is as
     *  inexact as a stab there.  A query that runs backwards may leave some out. */
    method FindOverlapping(q: Interval, out: set<Interval>) returns (res: set<Interval>, count: int)
      requires Valid() && Storable(q)
      ensures out <= res <= out + Answering(live, q) && (Forward(q) ==> out + Met(live, q) <= res)
      ensures Forward(q) && (q.low < MAX || NoneAtTop(live)) ==> res == out + Met(live, q)
      ensures count == |res| - |out|
    {
      res := Gather(q, root, out);
      OverlapExact(V(), root, nil, live, q, out, res);
      AnswersAlone(live, q);
      count := |res| - |out|;
    }

    method Gather(q: Interval, r: Node, out: set<Interval>) returns (res: set<Interval>)
      requires Valid() && Storable(q) && (r == nil || (r in nodes && Entered(r.Fields(), q)))
      ensures out <= res && forall i | i in res && i !in out :: Answers(q, i) && i in live
      ensures Forward(q) ==> Gathered(V(), root, nil, r, q, res)
      decreases if r == nil then 0 else r.hi - r.lo
    {
      hide RB, Shape, Truthful, MarksFrom, Complete, Gathered, Answers, Entered;
      res := out;
      if r == nil {
        GatherNil(V(), root, nil, q, res);
        return;
      }
      ghost var v := V();
      NodeHere(v, root, nil, r);
      assert v[r] == r.Fields();
      TakenAll(v, root, nil, live, r, q);
      Descends(v, root, nil, r, q);
      if q.low < r.val {
        res := res + r.less;
        if r.left != nil { assert v[r.left] == r.left.Fields(); }
        res := Gather(q, r.left, res);
      }
      if q.low > r.val || q.high > r.val {
        ghost var before := res;
        res := res + r.greater;
        if r.right != nil { assert v[r.right] == r.right.Fields(); }
        res := Gather(q, r.right, res);
        if q.low < r.val && Forward(q) { GatherMore(v, root, nil, r.left, q, before, res); }
      }
      if (q.low <= r.val && q.high > r.val) || q.low == r.val == q.high {
        ghost var before := res;
        res := res + r.equal;
        if q.low < r.val && Forward(q) { GatherMore(v, root, nil, r.left, q, before, res); }
        if (q.low > r.val || q.high > r.val) && Forward(q) { GatherMore(v, root, nil, r.right, q, before, res); }
      }
      if Forward(q) { GatherNode(v, root, nil, r, q, res); }
    }

    /** Collects the live intervals with the least low endpoint above x.  A caller's non-empty set ends
     *  the search at the first endpoint node, whatever starts there. */
    method Successor(x: int, out: set<Interval>) returns (res: set<Interval>)
      requires Valid() && MIN <= x <= MAX
      ensures SuccessorOf(V(), live, x, out, res)
    {
      hide RB, Shape, Truthful, MarksFrom, Complete, Traversal, SuccessorOf, StartsAt;
      ghost var v, upto := V(), x;
      var n: Node, last: Node, stack: seq<Node> := root, nil, [];
      ghost var chain: seq<Node> := [];
      res := out;
      TraversalStart(v, root, nil, x);
      RootKnown(v, root, nil);
      while true
        invariant res == out && Traversal(v, root, nil, x, upto, n, chain) && x <= upto < POS
        invariant out != {} ==> upto == x
        invariant (n == nil || n in nodes) && chain == stack + (if last == nil then [] else [last])
        invariant (last == nil ==> stack == []) && forall k | 0 <= k < |chain| :: chain[k] in nodes
        decreases POS - upto, if n == nil then 0 else n.hi - n.lo
      {
        if n == nil {
          if last == nil {
            SuccessorNone(v, root, nil, live, x, upto, out);
            return;
          }
          assert chain[|chain| - 1] == last && v[last] == last.Fields();
          NodeHere(v, root, nil, last);
          StartsHere(v[last]);
          res := res + (set i | i in last.equal && i.low == last.val);
          if res != {} {
            SuccessorFound(v, root, nil, live, x, upto, chain, out);
            return;
          }
          TraversalPop(v, root, nil, x, upto, chain);
          upto := last.val;
          chain := chain[..|chain| - 1];
          assert chain == stack;
          assert stack != [] ==> stack == stack[..|stack| - 1] + [stack[|stack| - 1]];
          assert stack != [] ==> stack[|stack| - 1] == chain[|chain| - 1];
          n := last.right;
          if stack != [] {
            last, stack := stack[|stack| - 1], stack[..|stack| - 1];
          } else {
            last := nil;
          }
        } else {
          NodeHere(v, root, nil, n);
          assert v[n] == n.Fields();
          if x >= n.val {
            TraversalRight(v, root, nil, x, upto, n, chain);
            n := n.right;
          } else {
            TraversalLeft(v, root, nil, x, upto, n, chain);
            if last != nil { stack := stack + [last]; }
            last := n;
            chain := chain + [n];
            n := n.left;
          }
        }
      }
    }


    method Unmark(r: Node, i: Interval, l: bool, e: bool, g: bool)
      requires r in nodes && (e ==> Forward(i))
      modifies nodes
      ensures Erased(old(V()), V(), i)
      ensures (l ==> i !in r.less) && (e ==> i !in r.equal) && (g ==> i !in r.greater)
    {
      if l { r.less := r.less - {i}; }
      if e { r.equal := r.equal - {i}; }
      if g { r.greater := r.greater - {i}; }
    }

    /** Erases i in the parts of the subtree of r that may carry it; v is the view before the removal. */
    method RemoveInterval(r: Node, i: Interval, ghost v: View)
      requires nil !in nodes && Core(v, root, nil, live) && Erased(v, V(), i) && Storable(i) && (r == nil || r in nodes)
      modifies nodes
      ensures Erased(v, V(), i) && Erased(old(V()), V(), i) && Clean(v, V(), root, nil, r, i)
      decreases if r == nil || r !in v then 0 else v[r].hi - v[r].lo
    {
      hide Shape, Truthful, MarksFrom, Erased, Clean;
      ghost var v0 := V();
      ErasedRefl(v0, i);
      if r == nil {
        CleanNil(v, v0, root, nil, i);
        return;
      }
      ErasedAt(v, v0, i, r);
      NodeHere(v, root, nil, r);
      assert v0[r] == r.Fields();
      RemoveLeft(r, i, v);
      ghost var v1 := V();
      ErasedAt(v0, v1, i, r);
      assert v1[r] == r.Fields();
      RemoveRight(r, i, v);
      ghost var v2 := V();
      ErasedAt(v1, v2, i, r);
      assert v2[r] == r.Fields();
      Unmark(r, i, false, (i.low <= r.val && i.high > r.val) || i.low == r.val == i.high, false);
      ghost var w := V();
      ErasedAt(v2, w, i, r);
      assert w[r] == r.Fields();
      ErasedTrans(v0, v1, v2, i);
      ErasedTrans(v0, v2, w, i);
      ErasedTrans(v, v0, w, i);
      if i.low < r.val {
        CleanMore(v, v1, v2, root, nil, v[r].left, i);
        CleanMore(v, v2, w, root, nil, v[r].left, i);
      }
      if i.low > r.val || i.high > r.val { CleanMore(v, v2, w, root, nil, v[r].right, i); }
      CleanNode(v, w, root, nil, r, i);
    }

    method RemoveLeft(r: Node, i: Interval, ghost v: View)
      requires nil !in nodes && Core(v, root, nil, live) && Erased(v, V(), i) && Storable(i) && r in nodes && r in v
      requires r.left != null && r.left == v[r].left && NodeOk(v, root, nil, r)
      modifies nodes
      ensures Erased(v, V(), i) && Erased(old(V()), V(), i)
      ensures i.low < r.val ==> i !in r.less && Clean(v, V(), root, nil, v[r].left, i)
      decreases v[r].hi - v[r].lo, 0
    {
      hide Shape, Truthful, MarksFrom, Erased, Clean;
      ghost var v0 := V();
      ErasedRefl(v0, i);
      if i.low < r.val {
        ErasedAt(v, v0, i, r);
        assert v0[r] == r.Fields();
        Unmark(r, i, true, false, false);
        ghost var v1 := V();
        ErasedTrans(v, v0, v1, i);
        ErasedAt(v0, v1, i, r);
        assert v1[r] == r.Fields();
        RemoveInterval(r.left, i, v);
        ErasedTrans(v0, v1, V(), i);
        ErasedAt(v1, V(), i, r);
        assert V()[r] == r.Fields();
      }
    }

    method RemoveRight(r: Node, i: Interval, ghost v: View)
      requires nil !in nodes && Core(v, root, nil, live) && Erased(v, V(), i) && Storable(i) && r in nodes && r in v
      requires r.right != null && r.right == v[r].right && NodeOk(v, root, nil, r)
      modifies nodes
      ensures Erased(v, V(), i) && Erased(old(V()), V(), i)
      ensures i.low > r.val || i.high > r.val ==> i !in r.greater && Clean(v, V(), root, nil, v[r].right, i)
      decreases v[r].hi - v[r].lo, 0
    {
      hide Shape, Truthful, MarksFrom, Erased, Clean;
      ghost var v0 := V();
      ErasedRefl(v0, i);
      if i.low > r.val || i.high > r.val {
        ErasedAt(v, v0, i, r);
        assert v0[r] == r.Fields();
        Unmark(r, i, false, false, true);
        ghost var v1 := V();
        ErasedTrans(v, v0, v1, i);
        ErasedAt(v0, v1, i, r);
        assert v1[r] == r.Fields();
        RemoveInterval(r.right, i, v);
        ErasedTrans(v0, v1, V(), i);
        ErasedAt(v1, V(), i, r);
        assert V()[r] == r.Fields();
      }
    }

    /** Removes every consulted mark of i and no other mark; endpoint nodes stay.  An interval that runs
     *  backwards is not removed: the one mark it has is never looked for. */
    method Remove(i: Interval)
      requires Valid() && Storable(i)
      modifies this, nodes
      ensures Valid() && nodes == old(nodes) && Erased(old(V()), V(), i)
      ensures live == if Forward(i) then old(live) - {i} else old(live)
      ensures if Forward(i) then forall n | n in nodes :: CleanRec(n.Fields(), i) else V() == old(V())
    {
      hide Shape, Truthful, MarksFrom, Erased, Clean, RB, Complete;
      ghost var v := V();
      ErasedRefl(v, i);
      RootKnown(v, root, nil);
      RemoveInterval(root, i, v);
      ghost var w := V();
      if Forward(i) {
        RemovalKeeps(v, w, root, nil, live, i);
        RemovalColors(v, w, root, nil, i);
        RemovalClean(v, w, root, nil, i);
        live := live - {i};
        assert V() == w;
      } else {
        RemovalOfBackward(v, w, root, nil, i);
      }
      assert forall n | n in nodes :: n.Fields() == w[n];
    }
  }

  // ----- whole runs

  datatype Op = Ins(i: Interval) | Del(i: Interval)

  /** The intervals indexed after a run; one that runs backwards cannot be removed. */
  function LiveAfter(ops: seq<Op>): set<Interval> {
    if ops == [] then {} else LiveNext(LiveAfter(ops[..|ops| - 1]), ops[|ops| - 1])
  }

  function LiveNext(live: set<Interval>, op: Op): set<Interval> {
    match op
    case Ins(i) => live + {i}
    case Del(i) => if Forward(i) then live - {i} else live
  }

  /** No interval with an end at MAX was inserted before step k. */
  ghost predicate Clear(ops: seq<Op>, k: nat)
    requires k <= |ops|
  {
    forall j | 0 <= j < k && ops[j].Ins? :: ops[j].i.low < MAX && ops[j].i.high < MAX
  }

  /** Step m inserted the first interval with an end at MAX, a proper one, and no later step before k removed it. */
  ghost predicate Wedged(ops: seq<Op>, m: nat, k: nat)
    requires k <= |ops|
  {
    && m < k && ops[m].Ins? && ReachesTop(ops[m].i) && Clear(ops, m)
    && forall j | m < j < k :: ops[j] != Del(ops[m].i)
  }

  /** After any run of insertions and removals every query agrees with the set of live intervals.  The one
   *  exception is a stab at MAX, which may find live intervals that end there, and does find a wedged one. */
  method Run(ops: seq<Op>, x: int, q: Interval)
    returns (stabbed: set<Interval>, overlapping: set<Interval>, next: set<Interval>)
    requires forall k | 0 <= k < |ops| :: Storable(ops[k].i)
    requires MIN <= x <= MAX && Storable(q)
    ensures Stab(LiveAfter(ops), x) <= stabbed <= Findable(LiveAfter(ops), x)
    ensures x < MAX || NoneAtTop(LiveAfter(ops)) ==> stabbed == Stab(LiveAfter(ops), x)
    ensures x == MAX ==> forall m: nat | m < |ops| && Wedged(ops, m, |ops|) :: ops[m].i in stabbed
    ensures overlapping <= Answering(LiveAfter(ops), q) && (Forward(q) ==> Met(LiveAfter(ops), q) <= overlapping)
    ensures Forward(q) && (q.low < MAX || NoneAtTop(LiveAfter(ops))) ==> overlapping == Met(LiveAfter(ops), q)
    ensures forall i :: i in next <==> IsNext(LiveAfter(ops), x, i)
  {
    hide IBSTree.Valid, Stab, Met, Findable, Answering, NoneAtTop, IsNext, Covered, IBSTree.V, Wedged, LiveAfter;
    var t := Replay(ops);
    var n;
    stabbed, n := t.Find(x, {});
    overlapping, n := t.FindOverlapping(q, {});
    next := t.Successor(x, {});
  }

  method Replay(ops: seq<Op>) returns (t: IBSTree)
    requires forall k | 0 <= k < |ops| :: Storable(ops[k].i)
    ensures t.Valid() && t.live == LiveAfter(ops)
    ensures forall m: nat | m < |ops| && Wedged(ops, m, |ops|) :: Covered(t.V(), ops[m].i, MAX)
  {
    hide IBSTree.Valid, Covered, IBSTree.V, Wedged, Clear;
    t := new IBSTree();
    var k := 0;
    ClearNone(ops);
    while k < |ops|
      invariant 0 <= k <= |ops| && t.Valid() && t.live == LiveAfter(ops[..k]) && fresh(t) && fresh(t.nodes)
      invariant Clear(ops, k) ==> forall n | n in t.nodes :: n.val < MAX
      invariant forall m: nat | m < k && Wedged(ops, m, k) :: Covered(t.V(), ops[m].i, MAX)
    {
      assert ops[..k + 1][..k] == ops[..k];
      Perform(t, ops, k);
      k := k + 1;
    }
    assert ops[..k] == ops;
  }

  lemma ClearNone(ops: seq<Op>)
    ensures Clear(ops, 0) && forall m: nat :: !Wedged(ops, m, 0)
  {
  }

  lemma ClearStep(ops: seq<Op>, k: nat)
    requires k < |ops|
    ensures Clear(ops, k + 1) <==> Clear(ops, k) && (ops[k].Ins? ==> ops[k].i.low < MAX && ops[k].i.high < MAX)
  {
  }

  lemma WedgedStep(ops: seq<Op>, m: nat, k: nat)
    requires k < |ops| && Wedged(ops, m, k + 1)
    ensures m < |ops|
    ensures if m == k then ops[k].Ins? && ReachesTop(ops[k].i) && Clear(ops, k)
      else Wedged(ops, m, k) && ops[k] != Del(ops[m].i)
  {
  }

  /** Step k of a run. */
  method Perform(t: IBSTree, ops: seq<Op>, k: nat)
    requires t.Valid() && k < |ops| && Storable(ops[k].i)
    requires Clear(ops, k) ==> forall n | n in t.nodes :: n.val < MAX
    requires forall m: nat | m < k && Wedged(ops, m, k) :: Covered(t.V(), ops[m].i, MAX)
    modifies t, t.nodes
    ensures t.Valid() && fresh(t.nodes - old(t.nodes))
    ensures t.live == LiveNext(old(t.live), ops[k])
    ensures Clear(ops, k + 1) ==> forall n | n in t.nodes :: n.val < MAX
    ensures forall m: nat | m <= k && Wedged(ops, m, k + 1) :: Covered(t.V(), ops[m].i, MAX)
  {
    hide IBSTree.Valid, Covered, Wedged, Clear, Erased;
    ClearStep(ops, k);
    ghost var v := t.V();
    match ops[k] {
      case Ins(i) =>
        assert Clear(ops, k) ==> NoTop(v);
        t.Insert(i);
        forall m: nat | m <= k && Wedged(ops, m, k + 1)
          ensures Covered(t.V(), ops[m].i, MAX)
        {
          WedgedStep(ops, m, k);
        }
      case Del(i) =>
        t.Remove(i);
        forall m: nat | m <= k && Wedged(ops, m, k + 1)
          ensures Covered(t.V(), ops[m].i, MAX)
        {
          WedgedStep(ops, m, k);
          RemovalStabs(v, t.V(), i, ops[m].i, MAX);
        }
    }
  }

  ghost function Elements(s: seq<Interval>): set<Interval> {
    set i | i in s
  }

  function Inserts(s: seq<Interval>): (ops: seq<Op>)
    ensures |ops| == |s| && forall k | 0 <= k < |s| :: ops[k] == Ins(s[k])
  {
    seq(|s|, k requires 0 <= k < |s| => Ins(s[k]))
  }

  lemma {:induction false} InsertsLive(s: seq<Interval>)
    ensures LiveAfter(Inserts(s)) == Elements(s)
  {
    if s != [] {
      InsertsLive(s[..|s| - 1]);
      assert Inserts(s)[..|s| - 1] == Inserts(s[..|s| - 1]);
      assert s == s[..|s| - 1] + [s[|s| - 1]];
    }
  }

  /** Exactly which sets of intervals can be indexed without a wrong answer at MAX: inserted with a proper
   *  interval that ends there first, if there is one, they give the right answer if and only if there is none. */
  method WorstOrder(s: seq<Interval>) returns (order: seq<Interval>, stabbed: set<Interval>)
    requires forall k | 0 <= k < |s| :: Storable(s[k])
    ensures Elements(order) == Elements(s)
    ensures stabbed == Stab(Elements(s), MAX) <==> NoneAtTop(Elements(s))
  {
    order := s;
    var k := 0;
    while k < |s| && !ReachesTop(s[k])
      invariant 0 <= k <= |s| && forall j | 0 <= j < k :: !ReachesTop(s[j])
    {
      k := k + 1;
    }
    if k < |s| { order := [s[k]] + s; }
    var ops := Inserts(order);
    InsertsLive(order);
    var overlapping, next;
    stabbed, overlapping, next := Run(ops, MAX, Interval(MIN, MIN, 0));
    if k < |s| {
      assert Wedged(ops, 0, |ops|);
      assert s[k] in stabbed && !Contains(s[k], MAX) && s[k] in s;
    }
  }

  /** The smallest failing run: on an empty tree, insert [5, MAX) and look up MAX. */
  method FailsAtTop() returns (stabbed: set<Interval>)
    ensures stabbed == {Interval(5, MAX, 0)} && Stab({Interval(5, MAX, 0)}, MAX) == {}
  {
    var i := Interval(5, MAX, 0);
    var ops := [Ins(i)];
    var overlapping, next;
    stabbed, overlapping, next := Run(ops, MAX, i);
    assert LiveAfter(ops[..0]) == {} && LiveAfter(ops) == {i};
    assert Wedged(ops, 0, 1);
  }

  /** An interval that runs backwards is found at its low end for good: its removal does nothing. */
  method BackwardStays() returns (stabbed: set<Interval>)
    ensures stabbed == {Interval(7, 3, 0)}
  {
    var i := Interval(7, 3, 0);
    var ops := [Ins(i), Del(i)];
    var overlapping, next;
    stabbed, overlapping, next := Run(ops, 7, i);
    assert ops[..1] == [Ins(i)] && [Ins(i)][..0] == [];
    assert LiveAfter([Ins(i)]) == {i};
  }
}
