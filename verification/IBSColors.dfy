/** The red-black rules, as local facts about colors and black heights. */
module IBSColors {
  import opened IBSTypes
  import opened IBSShape
  import opened IBSMarks
  import opened IBSRotate

  ghost function BH(v: View, nil: Node, c: Node?): int {
    if c == null || c == nil || c !in v then 0 else v[c].bh
  }

  ghost predicate HeightOk(v: View, nil: Node, n: Node)
    requires n in v
  {
    && v[n].bh >= 0
    && BH(v, nil, v[n].left) == BH(v, nil, v[n].right)
    && v[n].bh == BH(v, nil, v[n].left) + (if v[n].color.Black? then 1 else 0)
  }

  /** A red node hangs off a black one. */
  ghost predicate RedOk(v: View, n: Node)
    requires n in v
  {
    v[n].color.Red? && v[n].parent != null && v[n].parent in v ==> v[v[n].parent].color.Black?
  }

  /** The rules hold, except that x may be a red child of a red node or a red root. */
  ghost predicate RBExcept(v: View, root: Node, nil: Node, x: Node) {
    && (forall n | n in v :: HeightOk(v, nil, n) && (n != x ==> RedOk(v, n)))
    && (root in v && root != x ==> v[root].color.Black?)
  }

  ghost predicate RB(v: View, root: Node, nil: Node) {
    && (forall n | n in v :: HeightOk(v, nil, n) && RedOk(v, n))
    && (root in v ==> v[root].color.Black?)
  }

  ghost predicate SameTreeRec(a: Rec, b: Rec) {
    SameLinksRec(a, b) && a.color == b.color && a.bh == b.bh
  }

  /** v and w differ at most in marks. */
  ghost predicate SameTree(v: View, w: View) {
    v.Keys == w.Keys && forall n | n in v :: SameTreeRec(v[n], w[n])
  }

  lemma ColorsKeepRB(v: View, w: View, root: Node, nil: Node, x: Node)
    requires SameTree(v, w)
    ensures RB(v, root, nil) ==> RB(w, root, nil)
    ensures RBExcept(v, root, nil, x) ==> RBExcept(w, root, nil, x)
  {
    forall n | n in w
      ensures HeightOk(w, nil, n) == HeightOk(v, nil, n) && RedOk(w, n) == RedOk(v, n)
    {
      ColorsKeepNode(v, w, nil, n);
    }
  }

  lemma ColorsKeepNode(v: View, w: View, nil: Node, n: Node)
    requires SameTree(v, w) && n in v
    ensures HeightOk(w, nil, n) == HeightOk(v, nil, n) && RedOk(w, n) == RedOk(v, n)
  {
  }

  /** v and w differ at most in colors and black heights. */
  ghost predicate SameSkeleton(v: View, w: View) {
    && v.Keys == w.Keys
    && forall n | n in v :: w[n] == v[n].(color := w[n].color, bh := w[n].bh)
  }

  lemma SkeletonKeeps(v: View, w: View, root: Node, nil: Node, live: set<Interval>)
    requires SameSkeleton(v, w)
    ensures Shape(v, root, nil) ==> Shape(w, root, nil)
    ensures Truthful(v) ==> Truthful(w)
    ensures MarksFrom(v, live) ==> MarksFrom(w, live)
  {
    if Shape(v, root, nil) {
      LinksKeepShape(v, w, root, nil);
    }
    if Truthful(v) {
      forall n | n in w
        ensures TruthfulRec(w[n])
      {
        assert TruthfulRec(v[n]);
      }
    }
  }

  lemma SkeletonStabs(v: View, w: View)
    requires SameSkeleton(v, w)
    ensures Grows(v, w)
    ensures forall i :: HalfMarked(v, i) ==> HalfMarked(w, i)
  {
    forall i, x | Covered(v, i, x)
      ensures Covered(w, i, x)
    {
      var n: Node :| n in v && MarksAt(v[n], x, i);
      assert MarksAt(w[n], x, i);
    }
    forall i | HalfMarked(v, i)
      ensures HalfMarked(w, i)
    {
      forall n, x | n in w && IsFork(w[n], i) && Contains(i, x) && (x <= w[n].val || w[n].hi <= i.high)
        ensures Covered(w, i, x)
      {
        assert IsFork(v[n], i);
      }
    }
  }

  ghost function Blacken(r: Rec): Rec { r.(color := Black, bh := r.bh + 1) }
  ghost function Redden(r: Rec, bh: int): Rec { r.(color := Red, bh := bh) }

  /** Parent p and uncle u turn black, grandparent g turns red. */
  ghost function Recolored(v: View, p: Node, u: Node, g: Node): View
    requires p in v && u in v && g in v
  {
    map n | n in v ::
      if n == p || n == u then Blacken(v[n]) else if n == g then Redden(v[n], v[n].bh) else v[n]
  }

  /** p is the red parent of x, u its red sibling, g their parent. */
  ghost predicate RedUncle(v: View, root: Node, nil: Node, x: Node, p: Node, u: Node, g: Node) {
    && x in v && p in v && u in v && g in v && p != u
    && v[x].parent == p && v[p].parent == g && v[u].parent == g
    && v[p].color.Red? && v[u].color.Red? && v[g].color.Black?
    && NodeOk(v, root, nil, x) && NodeOk(v, root, nil, p) && NodeOk(v, root, nil, u) && NodeOk(v, root, nil, g)
  }

  lemma RecolorBH(v: View, nil: Node, p: Node, u: Node, g: Node, c: Node?)
    requires p in v && u in v && g in v && p != u && p != g && u != g && nil !in v
    ensures BH(Recolored(v, p, u, g), nil, c) == BH(v, nil, c) + (if c == p || c == u then 1 else 0)
  {
  }

  lemma RecolorHeight(v: View, root: Node, nil: Node, x: Node, p: Node, u: Node, g: Node, n: Node)
    requires RedUncle(v, root, nil, x, p, u, g) && nil !in v
    requires n in v && NodeOk(v, root, nil, n) && HeightOk(v, nil, n)
    ensures HeightOk(Recolored(v, p, u, g), nil, n)
  {
    RecolorBH(v, nil, p, u, g, v[n].left);
    RecolorBH(v, nil, p, u, g, v[n].right);
    if n != g {
      assert v[n].left != p && v[n].left != u && v[n].right != p && v[n].right != u;
    }
  }

  lemma RecolorRed(v: View, root: Node, nil: Node, x: Node, p: Node, u: Node, g: Node, n: Node)
    requires RedUncle(v, root, nil, x, p, u, g)
    requires n in v && NodeOk(v, root, nil, n) && (n != x ==> RedOk(v, n)) && n != g
    ensures RedOk(Recolored(v, p, u, g), n)
  {
    if v[n].parent == g {
      assert n == p || n == u;
    }
  }

  /** Pushing the red conflict two levels up. */
  lemma RecolorMovesConflict(v: View, root: Node, nil: Node, x: Node, p: Node, u: Node, g: Node)
    requires Shape(v, root, nil) && RBExcept(v, root, nil, x) && RedUncle(v, root, nil, x, p, u, g)
    ensures RBExcept(Recolored(v, p, u, g), root, nil, g)
  {
    forall n | n in v
      ensures HeightOk(Recolored(v, p, u, g), nil, n) && (n != g ==> RedOk(Recolored(v, p, u, g), n))
    {
      assert NodeOk(v, root, nil, n) && HeightOk(v, nil, n);
      RecolorHeight(v, root, nil, x, p, u, g, n);
      if n != g {
        RecolorRed(v, root, nil, x, p, u, g, n);
      }
    }
  }

  /** p turns black and g red, before g is rotated below p. */
  ghost function Lifted(v: View, p: Node, g: Node): View
    requires p in v && g in v
  {
    map n | n in v ::
      if n == p then Blacken(v[n]) else if n == g then Redden(v[n], v[n].bh - 1) else v[n]
  }

  /** Conflict between p, the left child of g, and p's left child x, with a black uncle. */
  ghost predicate OuterRight(v: View, root: Node, nil: Node, x: Node, p: Node, g: Node) {
    && x in v && p in v && g in v && v[g].left == p && v[p].left == x
    && v[p].color.Red? && v[x].color.Red? && v[g].color.Black?
    && (v[g].right != nil && v[g].right in v ==> v[v[g].right].color.Black?)
  }

  lemma LiftRightBH(v: View, nil: Node, p: Node, g: Node, c: Node?)
    requires p in v && g in v && v[g].left == p && p != g && nil !in v
    ensures BH(RightRotated(Lifted(v, p, g), g), nil, c)
         == if c == p then v[p].bh + 1 else if c == g then v[g].bh - 1 else BH(v, nil, c)
  {
  }

  lemma LiftRightHeight(v: View, root: Node, nil: Node, p: Node, g: Node, n: Node)
    requires p in v && g in v && n in v && v[g].left == p && nil !in v && v[p].color.Red? && v[g].color.Black?
    requires NodeOk(v, root, nil, p) && NodeOk(v, root, nil, g) && NodeOk(v, root, nil, n)
    requires HeightOk(v, nil, p) && HeightOk(v, nil, g) && HeightOk(v, nil, n)
    ensures HeightOk(RightRotated(Lifted(v, p, g), g), nil, n)
  {
    var w := RightRotated(Lifted(v, p, g), g);
    LiftRightBH(v, nil, p, g, w[n].left);
    LiftRightBH(v, nil, p, g, w[n].right);
    if n == p {
      assert w[n].left == v[p].left && w[n].right == g && w[n].bh == v[p].bh + 1;
    } else if n == g {
      assert w[n].left == v[p].right && w[n].right == v[g].right && w[n].bh == v[g].bh - 1;
    } else {
      assert w[n].left == (if v[n].left == g then p else v[n].left);
      assert w[n].right == (if v[n].right == g then p else v[n].right);
      assert w[n].bh == v[n].bh && w[n].color == v[n].color;
    }
  }

  lemma LiftRightRed(v: View, root: Node, nil: Node, x: Node, p: Node, g: Node, n: Node)
    requires OuterRight(v, root, nil, x, p, g) && nil !in v && n in v
    requires NodeOk(v, root, nil, p) && NodeOk(v, root, nil, g) && NodeOk(v, root, nil, n)
    requires n != x ==> RedOk(v, n)
    ensures RedOk(RightRotated(Lifted(v, p, g), g), n)
  {
    var w := RightRotated(Lifted(v, p, g), g);
    if n != p && n != g {
      assert w[n].color == v[n].color;
      assert w[n].parent == (if n == v[p].right then g else v[n].parent);
    }
  }

  /** Lifting p over g ends the conflict; x's new parent is black. */
  lemma LiftRight(v: View, root: Node, nil: Node, x: Node, p: Node, g: Node)
    requires Shape(v, root, nil) && RBExcept(v, root, nil, x) && OuterRight(v, root, nil, x, p, g)
    ensures RB(RightRotated(Lifted(v, p, g), g), RotateRoot(v, root, g, p), nil)
  {
    assert NodeOk(v, root, nil, p) && NodeOk(v, root, nil, g);
    assert HeightOk(v, nil, p) && HeightOk(v, nil, g);
    var w := RightRotated(Lifted(v, p, g), g);
    forall n | n in w
      ensures HeightOk(w, nil, n) && RedOk(w, n)
    {
      assert NodeOk(v, root, nil, n) && HeightOk(v, nil, n);
      LiftRightHeight(v, root, nil, p, g, n);
      LiftRightRed(v, root, nil, x, p, g, n);
    }
    LiftRightRoot(v, root, nil, x, p, g);
  }

  lemma LiftRightRoot(v: View, root: Node, nil: Node, x: Node, p: Node, g: Node)
    requires OuterRight(v, root, nil, x, p, g) && NodeOk(v, root, nil, p) && NodeOk(v, root, nil, g)
    requires nil !in v && root in v && v[root].parent == null && (root != x ==> v[root].color.Black?)
    ensures RightRotated(Lifted(v, p, g), g)[RotateRoot(v, root, g, p)].color.Black?
  {
  }

  // The conflict is on p's inner side: p is on the left of g, x on the right of p.
  lemma TurnLeftBH(v: View, nil: Node, p: Node, x: Node, c: Node?)
    requires p in v && x in v && v[p].right == x && p != x
    ensures BH(LeftRotated(v, p), nil, c) == BH(v, nil, c)
  {
  }

  lemma TurnLeftNode(v: View, root: Node, nil: Node, p: Node, x: Node, n: Node)
    requires p in v && x in v && n in v && v[p].right == x && v[p].color.Red? && v[x].color.Red? && nil !in v
    requires NodeOk(v, root, nil, p) && NodeOk(v, root, nil, x) && NodeOk(v, root, nil, n)
    requires HeightOk(v, nil, p) && HeightOk(v, nil, x) && HeightOk(v, nil, n)
    requires (n != x ==> RedOk(v, n)) && RedOk(v, p)
    ensures HeightOk(LeftRotated(v, p), nil, n) && (n != p ==> RedOk(LeftRotated(v, p), n))
  {
    var w := LeftRotated(v, p);
    TurnLeftBH(v, nil, p, x, w[n].left);
    TurnLeftBH(v, nil, p, x, w[n].right);
    assert w[n].color == v[n].color && w[n].bh == v[n].bh;
    if n == p {
      assert w[n].left == v[p].left && w[n].right == v[x].left;
    } else if n == x {
      assert w[n].right == v[x].right && w[n].left == p && w[n].parent == v[p].parent;
    } else {
      assert w[n].left == (if v[n].left == p then x else v[n].left);
      assert w[n].right == (if v[n].right == p then x else v[n].right);
      assert w[n].parent == (if n == v[x].left then p else v[n].parent);
    }
  }

  /** Turning the inner conflict outwards: afterwards p is the red child of the red x. */
  lemma TurnLeft(v: View, root: Node, nil: Node, p: Node, x: Node)
    requires Shape(v, root, nil) && RBExcept(v, root, nil, x)
    requires p in v && x in v && v[p].right == x && v[p].color.Red? && v[x].color.Red? && v[p].parent != null
    ensures RBExcept(LeftRotated(v, p), root, nil, p)
  {
    assert NodeOk(v, root, nil, p) && NodeOk(v, root, nil, x) && HeightOk(v, nil, p) && HeightOk(v, nil, x);
    assert RedOk(v, p);
    var w := LeftRotated(v, p);
    forall n | n in w
      ensures HeightOk(w, nil, n) && (n != p ==> RedOk(w, n))
    {
      assert NodeOk(v, root, nil, n) && HeightOk(v, nil, n);
      TurnLeftNode(v, root, nil, p, x, n);
    }
    assert w[root].color == v[root].color;
  }

  /** Conflict between p, the right child of g, and p's right child x, with a black uncle. */
  ghost predicate OuterLeft(v: View, root: Node, nil: Node, x: Node, p: Node, g: Node) {
    && x in v && p in v && g in v && v[g].right == p && v[p].right == x
    && v[p].color.Red? && v[x].color.Red? && v[g].color.Black?
    && (v[g].left != nil && v[g].left in v ==> v[v[g].left].color.Black?)
  }

  lemma LiftLeftBH(v: View, nil: Node, p: Node, g: Node, c: Node?)
    requires p in v && g in v && v[g].right == p && p != g && nil !in v
    ensures BH(LeftRotated(Lifted(v, p, g), g), nil, c)
         == if c == p then v[p].bh + 1 else if c == g then v[g].bh - 1 else BH(v, nil, c)
  {
  }

  lemma LiftLeftHeight(v: View, root: Node, nil: Node, p: Node, g: Node, n: Node)
    requires p in v && g in v && n in v && v[g].right == p && nil !in v && v[p].color.Red? && v[g].color.Black?
    requires NodeOk(v, root, nil, p) && NodeOk(v, root, nil, g) && NodeOk(v, root, nil, n)
    requires HeightOk(v, nil, p) && HeightOk(v, nil, g) && HeightOk(v, nil, n)
    ensures HeightOk(LeftRotated(Lifted(v, p, g), g), nil, n)
  {
    var w := LeftRotated(Lifted(v, p, g), g);
    LiftLeftBH(v, nil, p, g, w[n].left);
    LiftLeftBH(v, nil, p, g, w[n].right);
    if n == p {
      assert w[n].right == v[p].right && w[n].left == g && w[n].bh == v[p].bh + 1;
    } else if n == g {
      assert w[n].right == v[p].left && w[n].left == v[g].left && w[n].bh == v[g].bh - 1;
    } else {
      assert w[n].left == (if v[n].left == g then p else v[n].left);
      assert w[n].right == (if v[n].right == g then p else v[n].right);
      assert w[n].bh == v[n].bh && w[n].color == v[n].color;
    }
  }

  lemma LiftLeftRed(v: View, root: Node, nil: Node, x: Node, p: Node, g: Node, n: Node)
    requires OuterLeft(v, root, nil, x, p, g) && nil !in v && n in v
    requires NodeOk(v, root, nil, p) && NodeOk(v, root, nil, g) && NodeOk(v, root, nil, n)
    requires n != x ==> RedOk(v, n)
    ensures RedOk(LeftRotated(Lifted(v, p, g), g), n)
  {
    var w := LeftRotated(Lifted(v, p, g), g);
    if n != p && n != g {
      assert w[n].color == v[n].color;
      assert w[n].parent == (if n == v[p].left then g else v[n].parent);
    }
  }

  /** Lifting p over g ends the conflict; x's new parent is black. */
  lemma LiftLeft(v: View, root: Node, nil: Node, x: Node, p: Node, g: Node)
    requires Shape(v, root, nil) && RBExcept(v, root, nil, x) && OuterLeft(v, root, nil, x, p, g)
    ensures RB(LeftRotated(Lifted(v, p, g), g), RotateRoot(v, root, g, p), nil)
  {
    assert NodeOk(v, root, nil, p) && NodeOk(v, root, nil, g);
    assert HeightOk(v, nil, p) && HeightOk(v, nil, g);
    var w := LeftRotated(Lifted(v, p, g), g);
    forall n | n in w
      ensures HeightOk(w, nil, n) && RedOk(w, n)
    {
      assert NodeOk(v, root, nil, n) && HeightOk(v, nil, n);
      LiftLeftHeight(v, root, nil, p, g, n);
      LiftLeftRed(v, root, nil, x, p, g, n);
    }
    LiftLeftRoot(v, root, nil, x, p, g);
  }

  lemma LiftLeftRoot(v: View, root: Node, nil: Node, x: Node, p: Node, g: Node)
    requires OuterLeft(v, root, nil, x, p, g) && NodeOk(v, root, nil, p) && NodeOk(v, root, nil, g)
    requires nil !in v && root in v && v[root].parent == null && (root != x ==> v[root].color.Black?)
    ensures LeftRotated(Lifted(v, p, g), g)[RotateRoot(v, root, g, p)].color.Black?
  {
  }

  // The conflict is on p's inner side: p is on the right of g, x on the left of p.
  lemma TurnRightBH(v: View, nil: Node, p: Node, x: Node, c: Node?)
    requires p in v && x in v && v[p].left == x && p != x
    ensures BH(RightRotated(v, p), nil, c) == BH(v, nil, c)
  {
  }

  lemma TurnRightNode(v: View, root: Node, nil: Node, p: Node, x: Node, n: Node)
    requires p in v && x in v && n in v && v[p].left == x && v[p].color.Red? && v[x].color.Red? && nil !in v
    requires NodeOk(v, root, nil, p) && NodeOk(v, root, nil, x) && NodeOk(v, root, nil, n)
    requires HeightOk(v, nil, p) && HeightOk(v, nil, x) && HeightOk(v, nil, n)
    requires (n != x ==> RedOk(v, n)) && RedOk(v, p)
    ensures HeightOk(RightRotated(v, p), nil, n) && (n != p ==> RedOk(RightRotated(v, p), n))
  {
    var w := RightRotated(v, p);
    TurnRightBH(v, nil, p, x, w[n].left);
    TurnRightBH(v, nil, p, x, w[n].right);
    assert w[n].color == v[n].color && w[n].bh == v[n].bh;
    if n == p {
      assert w[n].right == v[p].right && w[n].left == v[x].right;
    } else if n == x {
      assert w[n].left == v[x].left && w[n].right == p && w[n].parent == v[p].parent;
    } else {
      assert w[n].left == (if v[n].left == p then x else v[n].left);
      assert w[n].right == (if v[n].right == p then x else v[n].right);
      assert w[n].parent == (if n == v[x].right then p else v[n].parent);
    }
  }

  /** Turning the inner conflict outwards: afterwards p is the red child of the red x. */
  lemma TurnRight(v: View, root: Node, nil: Node, p: Node, x: Node)
    requires Shape(v, root, nil) && RBExcept(v, root, nil, x)
    requires p in v && x in v && v[p].left == x && v[p].color.Red? && v[x].color.Red? && v[p].parent != null
    ensures RBExcept(RightRotated(v, p), root, nil, p)
  {
    assert NodeOk(v, root, nil, p) && NodeOk(v, root, nil, x) && HeightOk(v, nil, p) && HeightOk(v, nil, x);
    assert RedOk(v, p);
    var w := RightRotated(v, p);
    forall n | n in w
      ensures HeightOk(w, nil, n) && (n != p ==> RedOk(w, n))
    {
      assert NodeOk(v, root, nil, n) && HeightOk(v, nil, n);
      TurnRightNode(v, root, nil, p, x, n);
    }
    assert w[root].color == v[root].color;
  }

  ghost function RootBlackened(v: View, root: Node): View
    requires root in v
  {
    if v[root].color.Black? then v else v[root := Blacken(v[root])]
  }

  /** Once the conflict has reached the root or met a black parent, blackening the root ends it. */
  lemma BlackenRoot(v: View, root: Node, nil: Node, x: Node)
    requires Shape(v, root, nil) && RBExcept(v, root, nil, x) && x in v && root in v && (x == root || RedOk(v, x))
    ensures RB(RootBlackened(v, root), root, nil)
  {
    var w := RootBlackened(v, root);
    forall n | n in w
      ensures HeightOk(w, nil, n) && RedOk(w, n)
    {
      assert NodeOk(v, root, nil, n) && HeightOk(v, nil, n);
      if n != x { assert RedOk(v, n); }
      assert v[n].left != root && v[n].right != root;
      BlackenNode(v, root, nil, n);
    }
  }

  lemma BlackenNode(v: View, root: Node, nil: Node, n: Node)
    requires root in v && n in v && v[n].left != root && v[n].right != root && HeightOk(v, nil, n)
    requires v[root].parent == null && (n == root || RedOk(v, n))
    ensures HeightOk(RootBlackened(v, root), nil, n) && RedOk(RootBlackened(v, root), n)
  {
  }
}
