/** The steps of an insertion as functions on views, and what each of them keeps. */
module IBSInsert {
  import opened IBSTypes
  import opened IBSShape
  import opened IBSMarks
  import opened IBSRotate
  import opened IBSColors

  /** What every step of insert and remove keeps; `marks` bounds the intervals that may be marked. */
  ghost predicate Core(v: View, root: Node, nil: Node, marks: set<Interval>) {
    Shape(v, root, nil) && Truthful(v) && MarksFrom(v, marks)
  }

  /** From v to w no stabbing result is lost, and an interval starting at key stays half marked. */
  ghost predicate Kept(v: View, w: View, key: int) {
    && v.Keys == w.Keys
    && Grows(v, w)
    && forall i: Interval | i.low == key && HalfMarked(v, i) :: HalfMarked(w, i)
  }

  lemma KeptRefl(v: View, key: int)
    ensures Kept(v, v, key)
  {
  }

  lemma KeptTrans(u: View, v: View, w: View, key: int)
    requires Kept(u, v, key) && Kept(v, w, key)
    ensures Kept(u, w, key)
  {
  }

  lemma RecolorKeeps(v: View, w: View, root: Node, nil: Node, marks: set<Interval>, key: int)
    requires SameSkeleton(v, w) && Core(v, root, nil, marks)
    ensures Core(w, root, nil, marks) && Kept(v, w, key)
  {
    SkeletonKeeps(v, w, root, nil, marks);
    SkeletonStabs(v, w);
  }

  lemma RightKeeps(v: View, root: Node, nil: Node, p: Node, marks: set<Interval>, key: int)
    requires Core(v, root, nil, marks) && p in v && v[p].left in v && key < v[p].val
    ensures Core(RightRotated(v, p), RotateRoot(v, root, p, v[p].left), nil, marks) && Kept(v, RightRotated(v, p), key)
  {
    RightKeepsShape(v, root, nil, p);
    RightKeepsTruth(v, root, nil, p);
    RightKeepsMarksFrom(v, root, nil, p, marks);
    RightGrows(v, root, nil, p);
    forall i: Interval | i.low == key && HalfMarked(v, i)
      ensures HalfMarked(RightRotated(v, p), i)
    {
      RightKeepsHalf(v, root, nil, p, i);
    }
  }

  lemma LeftKeeps(v: View, root: Node, nil: Node, p: Node, marks: set<Interval>, key: int)
    requires Core(v, root, nil, marks) && p in v && v[p].right in v && v[p].val < key && v[v[p].right].val < MAX
    ensures Core(LeftRotated(v, p), RotateRoot(v, root, p, v[p].right), nil, marks) && Kept(v, LeftRotated(v, p), key)
  {
    LeftKeepsShape(v, root, nil, p);
    LeftKeepsTruth(v, root, nil, p);
    LeftKeepsMarksFrom(v, root, nil, p, marks);
    LeftGrows(v, root, nil, p);
    forall i: Interval | i.low == key && HalfMarked(v, i)
      ensures HalfMarked(LeftRotated(v, p), i)
    {
      LeftKeepsHalf(v, root, nil, p, i);
    }
  }

  // ----- the three cases of the rebalancing loop

  /** x is red under a black parent. */
  ghost predicate Settled(v: View, x: Node) {
    x in v && v[x].color.Red? && v[x].parent != null && v[x].parent in v && v[v[x].parent].color.Black?
  }

  lemma RBWeaken(v: View, root: Node, nil: Node, x: Node)
    requires RB(v, root, nil)
    ensures RBExcept(v, root, nil, x)
  {
  }

  lemma LiftSkeleton(v: View, p: Node, g: Node)
    requires p in v && g in v && p != g
    ensures SameSkeleton(v, Lifted(v, p, g)) && Lifted(v, p, g)[g] == v[g].(color := Red, bh := v[g].bh - 1)
  {
  }

  /** What the loop may rely on when it looks at a red x under a red parent. */
  lemma GrandparentFacts(v: View, root: Node, nil: Node, x: Node)
    requires Shape(v, root, nil) && RBExcept(v, root, nil, x) && x in v && x != root
    requires v[x].parent != null && v[x].parent in v && v[v[x].parent].color.Red?
    ensures var p := v[x].parent; var g := v[p].parent;
      && g != null && g in v && v[g].color.Black? && g != p && x != p && g != x
      && (v[g].left == p || v[g].right == p) && v[g].left != v[g].right && (v[p].left == x || v[p].right == x)
      && NodeOk(v, root, nil, x) && NodeOk(v, root, nil, p) && NodeOk(v, root, nil, g)
      && (v[g].left in v ==> NodeOk(v, root, nil, v[g].left)) && (v[g].right in v ==> NodeOk(v, root, nil, v[g].right))
  {
    assert NodeOk(v, root, nil, x);
    var p := v[x].parent;
    assert NodeOk(v, root, nil, p) && RedOk(v, p);
    assert NodeOk(v, root, nil, v[p].parent);
  }

  /** After the turn, p and x stand in the outer position. */
  lemma TurnLeftOuter(v: View, root: Node, nil: Node, x: Node, p: Node, g: Node)
    requires x in v && p in v && g in v && v[g].left == p && v[p].right == x && v[p].parent == g && nil !in v
    requires NodeOk(v, root, nil, x) && NodeOk(v, root, nil, p) && NodeOk(v, root, nil, g)
    requires v[p].color.Red? && v[x].color.Red? && v[g].color.Black?
    requires v[g].right != nil && v[g].right in v ==> v[v[g].right].color.Black?
    ensures OuterRight(LeftRotated(v, p), root, nil, p, x, g)
    ensures LeftRotated(v, p)[p].parent == x && LeftRotated(v, p)[x].parent == g
  {
    var w := LeftRotated(v, p);
    assert w[g].left == x && w[x].left == p && w[g].right == v[g].right && w[x].parent == g;
  }

  /** After the turn, p and x stand in the outer position. */
  lemma TurnRightOuter(v: View, root: Node, nil: Node, x: Node, p: Node, g: Node)
    requires x in v && p in v && g in v && v[g].right == p && v[p].left == x && v[p].parent == g && nil !in v
    requires NodeOk(v, root, nil, x) && NodeOk(v, root, nil, p) && NodeOk(v, root, nil, g)
    requires v[p].color.Red? && v[x].color.Red? && v[g].color.Black?
    requires v[g].left != nil && v[g].left in v ==> v[v[g].left].color.Black?
    ensures OuterLeft(RightRotated(v, p), root, nil, p, x, g)
    ensures RightRotated(v, p)[p].parent == x && RightRotated(v, p)[x].parent == g
  {
    var w := RightRotated(v, p);
    assert w[g].right == x && w[x].right == p && w[g].left == v[g].left && w[x].parent == g;
  }

  lemma TurnLeftStep(v: View, root: Node, nil: Node, x: Node, p: Node, marks: set<Interval>, key: int)
    requires Core(v, root, nil, marks) && RBExcept(v, root, nil, x)
    requires p in v && x in v && v[p].right == x && v[p].color.Red? && v[x].color.Red? && v[p].parent != null
    requires v[p].val < key
    requires v[x].val < MAX
    ensures Core(LeftRotated(v, p), root, nil, marks) && RBExcept(LeftRotated(v, p), root, nil, p)
    ensures Kept(v, LeftRotated(v, p), key)
  {
    hide Shape, Truthful, MarksFrom, RBExcept, Kept, LeftRotated;
    TurnLeft(v, root, nil, p, x);
    LeftKeeps(v, root, nil, p, marks, key);
  }

  lemma TurnRightStep(v: View, root: Node, nil: Node, x: Node, p: Node, marks: set<Interval>, key: int)
    requires Core(v, root, nil, marks) && RBExcept(v, root, nil, x)
    requires p in v && x in v && v[p].left == x && v[p].color.Red? && v[x].color.Red? && v[p].parent != null
    requires key < v[p].val
    ensures Core(RightRotated(v, p), root, nil, marks) && RBExcept(RightRotated(v, p), root, nil, p)
    ensures Kept(v, RightRotated(v, p), key)
  {
    hide Shape, Truthful, MarksFrom, RBExcept, Kept, RightRotated;
    TurnRight(v, root, nil, p, x);
    RightKeeps(v, root, nil, p, marks, key);
  }

  lemma UncleStep(v: View, root: Node, nil: Node, x: Node, p: Node, u: Node, g: Node, marks: set<Interval>, key: int)
    requires Core(v, root, nil, marks) && RBExcept(v, root, nil, x) && RedUncle(v, root, nil, x, p, u, g)
    ensures Core(Recolored(v, p, u, g), root, nil, marks) && RBExcept(Recolored(v, p, u, g), root, nil, g)
    ensures Kept(v, Recolored(v, p, u, g), key)
  {
    hide Shape, Truthful, MarksFrom, RBExcept, Kept;
    RecolorMovesConflict(v, root, nil, x, p, u, g);
    RecolorKeeps(v, Recolored(v, p, u, g), root, nil, marks, key);
  }

  lemma LiftRightStep(v: View, root: Node, nil: Node, x: Node, p: Node, g: Node, marks: set<Interval>, key: int)
    requires Core(v, root, nil, marks) && RBExcept(v, root, nil, x) && OuterRight(v, root, nil, x, p, g)
    requires key < v[g].val
    ensures p != g && v[g].bh > 0 && Shape(Lifted(v, p, g), root, nil)
    ensures Core(RightRotated(Lifted(v, p, g), g), RotateRoot(v, root, g, p), nil, marks)
    ensures RBExcept(RightRotated(Lifted(v, p, g), g), RotateRoot(v, root, g, p), nil, x)
    ensures Settled(RightRotated(Lifted(v, p, g), g), x)
    ensures Kept(v, RightRotated(Lifted(v, p, g), g), key)
  {
    hide Shape, Truthful, MarksFrom, RBExcept, RB, Kept, SameSkeleton, RightRotated, Settled;
    LiftRightFacts(v, root, nil, x, p, g);
    LiftSkeleton(v, p, g);
    var l := Lifted(v, p, g);
    RecolorKeeps(v, l, root, nil, marks, key);
    LiftRight(v, root, nil, x, p, g);
    RightKeeps(l, root, nil, g, marks, key);
    KeptTrans(v, l, RightRotated(l, g), key);
    RBWeaken(RightRotated(l, g), RotateRoot(v, root, g, p), nil, x);
    LiftRightSettles(v, root, nil, x, p, g);
  }

  lemma LiftRightSettles(v: View, root: Node, nil: Node, x: Node, p: Node, g: Node)
    requires Shape(v, root, nil) && OuterRight(v, root, nil, x, p, g)
    ensures Settled(RightRotated(Lifted(v, p, g), g), x)
  {
    assert NodeOk(v, root, nil, g) && NodeOk(v, root, nil, p);
    var w := RightRotated(Lifted(v, p, g), g);
    assert w[x].parent == p && w[x].color == v[x].color;
  }

  lemma LiftRightFacts(v: View, root: Node, nil: Node, x: Node, p: Node, g: Node)
    requires Shape(v, root, nil) && RBExcept(v, root, nil, x) && OuterRight(v, root, nil, x, p, g)
    ensures p != g && v[g].bh > 0 && v[p].parent == g
  {
    hide SameSkeleton;
    assert NodeOk(v, root, nil, g) && HeightOk(v, nil, g) && NodeOk(v, root, nil, p) && HeightOk(v, nil, p);
  }

  lemma LiftLeftStep(v: View, root: Node, nil: Node, x: Node, p: Node, g: Node, marks: set<Interval>, key: int)
    requires Core(v, root, nil, marks) && RBExcept(v, root, nil, x) && OuterLeft(v, root, nil, x, p, g)
    requires v[g].val < key
    ensures p != g && v[g].bh > 0 && Shape(Lifted(v, p, g), root, nil)
    ensures Core(LeftRotated(Lifted(v, p, g), g), RotateRoot(v, root, g, p), nil, marks)
    ensures RBExcept(LeftRotated(Lifted(v, p, g), g), RotateRoot(v, root, g, p), nil, x)
    ensures Settled(LeftRotated(Lifted(v, p, g), g), x)
    ensures Kept(v, LeftRotated(Lifted(v, p, g), g), key)
  {
    hide Shape, Truthful, MarksFrom, RBExcept, RB, Kept, SameSkeleton, LeftRotated, Settled;
    LiftLeftFacts(v, root, nil, x, p, g);
    LiftSkeleton(v, p, g);
    var l := Lifted(v, p, g);
    RecolorKeeps(v, l, root, nil, marks, key);
    LiftLeft(v, root, nil, x, p, g);
    LeftKeeps(l, root, nil, g, marks, key);
    KeptTrans(v, l, LeftRotated(l, g), key);
    RBWeaken(LeftRotated(l, g), RotateRoot(v, root, g, p), nil, x);
    LiftLeftSettles(v, root, nil, x, p, g);
  }

  lemma LiftLeftSettles(v: View, root: Node, nil: Node, x: Node, p: Node, g: Node)
    requires Shape(v, root, nil) && OuterLeft(v, root, nil, x, p, g)
    ensures Settled(LeftRotated(Lifted(v, p, g), g), x)
  {
    assert NodeOk(v, root, nil, g) && NodeOk(v, root, nil, p);
    var w := LeftRotated(Lifted(v, p, g), g);
    assert w[x].parent == p && w[x].color == v[x].color;
  }

  lemma LiftLeftFacts(v: View, root: Node, nil: Node, x: Node, p: Node, g: Node)
    requires Shape(v, root, nil) && RBExcept(v, root, nil, x) && OuterLeft(v, root, nil, x, p, g)
    ensures p != g && v[g].bh > 0 && v[p].parent == g && v[p].val < MAX
  {
    hide SameSkeleton;
    assert NodeOk(v, root, nil, g) && HeightOk(v, nil, g) && NodeOk(v, root, nil, p) && HeightOk(v, nil, p);
    assert NodeOk(v, root, nil, x);
  }

  lemma ParentFacts(v: View, root: Node, nil: Node, x: Node)
    requires Shape(v, root, nil) && x in v
    ensures root in v && root != nil && NodeOk(v, root, nil, x)
    ensures x != root ==> v[x].parent != null && v[x].parent in v
  {
    assert NodeOk(v, root, nil, x);
  }

  lemma FixupEnd(v: View, root: Node, nil: Node, x: Node, marks: set<Interval>, key: int)
    requires Core(v, root, nil, marks) && RBExcept(v, root, nil, x) && x in v && root in v && (x == root || RedOk(v, x))
    ensures Core(RootBlackened(v, root), root, nil, marks) && RB(RootBlackened(v, root), root, nil)
    ensures Kept(v, RootBlackened(v, root), key)
  {
    hide Shape, Truthful, MarksFrom, RBExcept, RB, Kept;
    BlackenRoot(v, root, nil, x);
    RecolorKeeps(v, RootBlackened(v, root), root, nil, marks, key);
  }

  // ----- adding marks at one node

  /** r with i added to some of its mark sets. */
  ghost function Marked(r: Rec, i: Interval, l: bool, e: bool, g: bool): Rec {
    r.(less := if l then r.less + {i} else r.less,
       equal := if e then r.equal + {i} else r.equal,
       greater := if g then r.greater + {i} else r.greater)
  }

  lemma MarkKeeps(v: View, root: Node, nil: Node, marks: set<Interval>, n: Node, i: Interval, l: bool, e: bool, g: bool)
    requires Core(v, root, nil, marks) && n in v && i in marks
    requires TruthfulRec(Marked(v[n], i, l, e, g))
    ensures Core(v[n := Marked(v[n], i, l, e, g)], root, nil, marks)
  {
    hide Shape, Truthful, MarksFrom, TruthfulRec, Marked, SameLinks;
    MarkLinks(v, n, i, l, e, g);
    LinksKeepShape(v, v[n := Marked(v[n], i, l, e, g)], root, nil);
    MarkKeepsMarks(v, marks, n, i, l, e, g);
  }

  lemma MarkLinks(v: View, n: Node, i: Interval, l: bool, e: bool, g: bool)
    requires n in v
    ensures SameLinks(v, v[n := Marked(v[n], i, l, e, g)])
  {
  }

  lemma MarkKeepsMarks(v: View, marks: set<Interval>, n: Node, i: Interval, l: bool, e: bool, g: bool)
    requires Truthful(v) && MarksFrom(v, marks) && n in v && i in marks
    requires TruthfulRec(Marked(v[n], i, l, e, g))
    ensures Truthful(v[n := Marked(v[n], i, l, e, g)]) && MarksFrom(v[n := Marked(v[n], i, l, e, g)], marks)
  {
    hide TruthfulRec;
    assert MarksFromRec(v[n], marks);
  }

  lemma MarkGrows(v: View, n: Node, i: Interval, l: bool, e: bool, g: bool)
    requires n in v
    ensures Grows(v, v[n := Marked(v[n], i, l, e, g)])
  {
    var w := v[n := Marked(v[n], i, l, e, g)];
    forall j, x | Covered(v, j, x)
      ensures Covered(w, j, x)
    {
      var m: Node :| m in v && MarksAt(v[m], x, j);
      assert MarksAt(w[m], x, j);
    }
  }

  lemma MarkKeepsTree(v: View, n: Node, i: Interval, l: bool, e: bool, g: bool)
    requires n in v
    ensures SameTree(v, v[n := Marked(v[n], i, l, e, g)])
  {
  }

  lemma MarkKeepsHalf(v: View, n: Node, i: Interval, l: bool, e: bool, g: bool)
    requires n in v && HalfMarked(v, i)
    ensures HalfMarked(v[n := Marked(v[n], i, l, e, g)], i)
  {
    MarkGrows(v, n, i, l, e, g);
    var w := v[n := Marked(v[n], i, l, e, g)];
    forall m, x | m in w && IsFork(w[m], i) && Contains(i, x) && (x <= w[m].val || w[m].hi <= i.high)
      ensures Covered(w, i, x)
    {
      assert IsFork(v[m], i);
    }
  }

  // ----- hanging a new leaf off node q (null: the tree is empty)

  ghost function SlotLo(v: View, q: Node?, left: bool): int
    requires q != null ==> q in v
  {
    if q == null then NEG else if left then v[q].lo else v[q].val
  }

  ghost function SlotHi(v: View, q: Node?, left: bool): int
    requires q != null ==> q in v
  {
    if q == null then POS else if left then v[q].val else v[q].hi
  }

  /** The child slot of q on the given side is free and may hold a node with this key. */
  ghost predicate FreeSlot(v: View, nil: Node, q: Node?, left: bool, key: int) {
    && (q == null ==> v == map[])
    && (q != null ==> q in v && (if left then v[q].left else v[q].right) == nil)
    && SlotLo(v, q, left) < key < SlotHi(v, q, left)
  }

  ghost function LeafRec(v: View, nil: Node, q: Node?, left: bool, key: int): Rec
    requires q != null ==> q in v
  {
    Rec(key, SlotLo(v, q, left), SlotHi(v, q, left), 0, Red, nil, nil, q, {}, {}, {})
  }

  ghost function HungOff(r: Rec, m: Node, left: bool): Rec {
    if left then r.(left := m) else r.(right := m)
  }

  ghost function Linked(v: View, nil: Node, m: Node, q: Node?, left: bool, key: int): View
    requires FreeSlot(v, nil, q, left, key)
  {
    map n | n in v.Keys + {m} ::
      if n == m then LeafRec(v, nil, q, left, key) else if n == q then HungOff(v[n], m, left) else v[n]
  }

  lemma LinkedIs(v: View, nil: Node, m: Node, q: Node?, left: bool, key: int)
    requires FreeSlot(v, nil, q, left, key) && m !in v
    ensures Linked(v, nil, m, q, left, key)
         == (if q == null then v else v[q := HungOff(v[q], m, left)])[m := LeafRec(v, nil, q, left, key)]
  {
  }

  lemma SlotIn(v: View, nil: Node, q: Node?, left: bool, key: int)
    requires FreeSlot(v, nil, q, left, key)
    ensures q != null ==> q in v
  {
  }

  lemma LinkNodeOk(v: View, root: Node, nil: Node, m: Node, q: Node?, left: bool, key: int, n: Node)
    requires FreeSlot(v, nil, q, left, key) && m !in v && m != nil && nil !in v && n in v && NodeOk(v, root, nil, n)
    requires NEG <= SlotLo(v, q, left) && SlotHi(v, q, left) <= POS && q != null && NodeOk(v, root, nil, q)
    ensures NodeOk(Linked(v, nil, m, q, left, key), root, nil, n)
    ensures NodeOk(Linked(v, nil, m, q, left, key), root, nil, m)
  {
  }

  lemma LinkKeepsShape(v: View, root: Node, nil: Node, m: Node, q: Node?, left: bool, key: int)
    requires Shape(v, root, nil) && FreeSlot(v, nil, q, left, key) && m !in v && m != nil
    ensures Shape(Linked(v, nil, m, q, left, key), if q == null then m else root, nil)
  {
    var w := Linked(v, nil, m, q, left, key);
    if q == null {
      assert w.Keys == {m};
    } else {
      assert NodeOk(v, root, nil, q);
      forall n | n in w
        ensures NodeOk(w, root, nil, n)
      {
        if n in v { assert NodeOk(v, root, nil, n); }
        LinkNodeOk(v, root, nil, m, q, left, key, if n in v then n else q);
      }
    }
  }

  lemma LinkKeepsMarks(v: View, nil: Node, m: Node, q: Node?, left: bool, key: int, marks: set<Interval>)
    requires FreeSlot(v, nil, q, left, key) && m !in v && Truthful(v) && MarksFrom(v, marks)
    ensures Truthful(Linked(v, nil, m, q, left, key)) && MarksFrom(Linked(v, nil, m, q, left, key), marks)
  {
    hide TruthfulRec, MarksFromRec, FreeSlot, HungOff, LeafRec;
    var w := Linked(v, nil, m, q, left, key);
    forall n | n in w
      ensures TruthfulRec(w[n]) && MarksFromRec(w[n], marks)
    {
      LinkRecMarks(v, nil, m, q, left, key, n, marks);
    }
  }

  lemma LinkRecMarks(v: View, nil: Node, m: Node, q: Node?, left: bool, key: int, n: Node, marks: set<Interval>)
    requires FreeSlot(v, nil, q, left, key) && m !in v && n in Linked(v, nil, m, q, left, key)
    requires n in v ==> TruthfulRec(v[n]) && MarksFromRec(v[n], marks)
    ensures TruthfulRec(Linked(v, nil, m, q, left, key)[n]) && MarksFromRec(Linked(v, nil, m, q, left, key)[n], marks)
  {
  }

  lemma LinkGrows(v: View, nil: Node, m: Node, q: Node?, left: bool, key: int)
    requires FreeSlot(v, nil, q, left, key) && m !in v
    ensures Grows(v, Linked(v, nil, m, q, left, key))
  {
    var w := Linked(v, nil, m, q, left, key);
    forall i, x | Covered(v, i, x)
      ensures Covered(w, i, x)
    {
      var n: Node :| n in v && MarksAt(v[n], x, i);
      assert MarksAt(w[n], x, i);
    }
  }

  /** A red leaf disturbs nothing but, perhaps, the color rule at itself. */
  lemma LinkRB(v: View, root: Node, nil: Node, m: Node, q: Node?, left: bool, key: int)
    requires Shape(v, root, nil) && RB(v, root, nil) && FreeSlot(v, nil, q, left, key) && m !in v && m != nil
    ensures RBExcept(Linked(v, nil, m, q, left, key), if q == null then m else root, nil, m)
  {
    var w := Linked(v, nil, m, q, left, key);
    forall n | n in w
      ensures HeightOk(w, nil, n) && (n != m ==> RedOk(w, n))
    {
      if n != m {
        assert NodeOk(v, root, nil, n) && HeightOk(v, nil, n) && RedOk(v, n);
        LinkRBNode(v, root, nil, m, q, left, key, n);
      }
    }
    if q != null {
      assert w[root].color == v[root].color;
    }
  }

  lemma LinkRBNode(v: View, root: Node, nil: Node, m: Node, q: Node?, left: bool, key: int, n: Node)
    requires FreeSlot(v, nil, q, left, key) && m !in v && m != nil && nil !in v && n in v
    requires NodeOk(v, root, nil, n) && HeightOk(v, nil, n) && RedOk(v, n)
    ensures HeightOk(Linked(v, nil, m, q, left, key), nil, n) && RedOk(Linked(v, nil, m, q, left, key), n)
  {
    var w := Linked(v, nil, m, q, left, key);
    assert BH(w, nil, w[n].left) == BH(v, nil, v[n].left);
    assert BH(w, nil, w[n].right) == BH(v, nil, v[n].right);
  }

  // ----- a position on a downward walk: the child r of q on the given side, or the root

  ghost predicate At(v: View, root: Node, nil: Node, q: Node?, left: bool, r: Node?) {
    && (q == null ==> r == root)
    && (q != null ==> q in v && r == if left then v[q].left else v[q].right)
  }

  lemma AtNode(v: View, root: Node, nil: Node, q: Node?, left: bool, r: Node)
    requires Shape(v, root, nil) && At(v, root, nil, q, left, r) && r != nil
    ensures r in v && v[r].lo == SlotLo(v, q, left) && v[r].hi == SlotHi(v, q, left) && NodeOk(v, root, nil, r)
    ensures v[r].left != null && v[r].right != null
  {
    if q != null { assert NodeOk(v, root, nil, q); }
    assert NodeOk(v, root, nil, r);
  }

  lemma AtNil(v: View, root: Node, nil: Node, q: Node?, left: bool, key: int)
    requires Shape(v, root, nil) && At(v, root, nil, q, left, nil) && SlotLo(v, q, left) < key < SlotHi(v, q, left)
    ensures FreeSlot(v, nil, q, left, key) && (q != null ==> (left <==> key < v[q].val))
  {
    if q != null { assert NodeOk(v, root, nil, q); }
  }

  /** The walk goes on from r, which stays where it is while marks are added. */
  lemma AtChild(v: View, w: View, root: Node, nil: Node, r: Node, left: bool)
    requires SameTree(v, w) && Shape(v, root, nil) && r in v
    ensures At(w, root, nil, r, left, if left then v[r].left else v[r].right)
    ensures SlotLo(w, r, left) == (if left then v[r].lo else v[r].val)
    ensures SlotHi(w, r, left) == (if left then v[r].val else v[r].hi)
  {
  }

  lemma AtStay(v: View, root: Node, nil: Node, r: Node)
    requires Shape(v, root, nil) && r in v
    ensures At(v, root, nil, r, true, v[r].left) && At(v, root, nil, r, false, v[r].right)
    ensures SlotLo(v, r, true) == v[r].lo && SlotHi(v, r, true) == v[r].val
    ensures SlotLo(v, r, false) == v[r].val && SlotHi(v, r, false) == v[r].hi
  {
  }

  /** A new leaf at the end of a walk. */
  lemma LinkStep(v: View, root: Node, nil: Node, m: Node, q: Node?, left: bool, key: int, marks: set<Interval>)
    requires Core(v, root, nil, marks) && RB(v, root, nil) && FreeSlot(v, nil, q, left, key) && m !in v && m != nil
    ensures Core(Linked(v, nil, m, q, left, key), if q == null then m else root, nil, marks)
    ensures RBExcept(Linked(v, nil, m, q, left, key), if q == null then m else root, nil, m)
    ensures Grows(v, Linked(v, nil, m, q, left, key))
    ensures m in Linked(v, nil, m, q, left, key) && Linked(v, nil, m, q, left, key)[m] == LeafRec(v, nil, q, left, key)
  {
    hide Shape, Truthful, MarksFrom, RB, RBExcept, Grows;
    LinkKeepsShape(v, root, nil, m, q, left, key);
    LinkKeepsMarks(v, nil, m, q, left, key, marks);
    LinkRB(v, root, nil, m, q, left, key);
    LinkGrows(v, nil, m, q, left, key);
  }

  lemma TreeFields(v: View, w: View, r: Node)
    requires SameTree(v, w) && r in v
    ensures r in w && SameTreeRec(v[r], w[r])
  {
  }

  lemma MarksWeaken(v: View, live: set<Interval>, i: Interval)
    requires MarksFrom(v, live)
    ensures MarksFrom(v, live + {i})
  {
  }

  lemma CompleteNow(v: View, u: View, w: View, live: set<Interval>, i: Interval)
    requires Complete(v, live) && Grows(v, w) && Grows(u, w) && forall x | Contains(i, x) :: Covered(u, i, x)
    ensures Complete(w, live + {i})
  {
  }

  lemma GrowsRefl(v: View)
    ensures Grows(v, v)
  {
  }

  lemma GrowsCovered(v: View, w: View, i: Interval, x: int)
    requires Grows(v, w)
    ensures Covered(v, i, x) ==> Covered(w, i, x)
  {
  }

  lemma GrowsTrans(u: View, v: View, w: View)
    requires Grows(u, v) && Grows(v, w)
    ensures Grows(u, w)
  {
  }

  lemma LeafSlot(v: View, nil: Node, q: Node?, left: bool, key: int)
    requires FreeSlot(v, nil, q, left, key)
    ensures LeafRec(v, nil, q, left, key).val == key && LeafRec(v, nil, q, left, key).color.Red?
    ensures LeafRec(v, nil, q, left, key).lo == SlotLo(v, q, left)
    ensures LeafRec(v, nil, q, left, key).hi == SlotHi(v, q, left)
  {
  }

  lemma LeftStart(v: View, i: Interval)
    requires Storable(i)
    ensures LeftDone(v, i, POS)
  {
  }

  // ----- the fork of an interval

  lemma ForkUnique(v: View, root: Node, nil: Node, n: Node, m: Node, i: Interval)
    requires Shape(v, root, nil) && n in v && m in v && IsFork(v[n], i) && IsFork(v[m], i)
    ensures n == m
  {
    BelowRoot(v, root, nil, n);
    BelowRoot(v, root, nil, m);
    ForkUniqueFrom(v, root, nil, n, m, i, root);
  }

  lemma {:induction false} ForkUniqueFrom(v: View, root: Node, nil: Node, n: Node, m: Node, i: Interval, r: Node)
    requires Shape(v, root, nil) && n in v && m in v && r in v && IsFork(v[n], i) && IsFork(v[m], i)
    requires Below(v, root, nil, n, r) && Below(v, root, nil, m, r)
    ensures n == m
    decreases Width(v[r])
  {
    if n != m {
      assert NodeOk(v, root, nil, r);
      if n != r { PathStep(v, root, nil, n, r, i.low); }
      if m != r { PathStep(v, root, nil, m, r, i.low); }
      var c := if i.low < v[r].val then v[r].left else v[r].right;
      assert c in v && NodeOk(v, root, nil, c);
      if n == r {
        BelowRange(v, root, nil, m, c);
      } else if m == r {
        BelowRange(v, root, nil, n, c);
      } else {
        ForkUniqueFrom(v, root, nil, n, m, i, c);
      }
    }
  }

  /** A proper interval whose low endpoint has a node has a fork. */
  lemma {:induction false} ForkExists(v: View, root: Node, nil: Node, n: Node, i: Interval, r: Node)
    requires Shape(v, root, nil) && n in v && r in v && v[n].val == i.low < i.high
    requires Below(v, root, nil, n, r) && i.high <= v[r].hi
    ensures exists f | f in v :: IsFork(v[f], i)
    decreases Width(v[r])
  {
    assert NodeOk(v, root, nil, r) && NodeOk(v, root, nil, n);
    BelowRange(v, root, nil, n, r);
    if v[r].val < i.low || i.high <= v[r].val {
      PathStep(v, root, nil, n, r, i.low);
      ForkExists(v, root, nil, n, i, if i.low < v[r].val then v[r].left else v[r].right);
    } else {
      assert IsFork(v[r], i);
    }
  }

  // ----- first half: the walk towards i.low

  /** Points at or above hi that the walk is done with; hi is the upper bound of its position. */
  ghost predicate LeftDone(v: View, i: Interval, hi: int) {
    && TopSeen(v, i, hi)
    && forall n, x | n in v && IsFork(v[n], i) && Contains(i, x) && hi <= x && (x <= v[n].val || v[n].hi <= i.high) ::
         Covered(v, i, x)
  }

  /** No node holds MAX. */
  ghost predicate NoTop(v: View) {
    forall n | n in v :: v[n].val < MAX
  }

  /** The first node the walk marks is on the right edge of the tree, where the gap above it holds MAX. */
  ghost predicate TopSeen(v: View, i: Interval, hi: int) {
    ReachesTop(i) && NoTop(v) ==> hi == POS || Covered(v, i, MAX)
  }

  lemma LeftPass(v: View, root: Node, nil: Node, r: Node, i: Interval, e: bool, g: bool)
    requires Shape(v, root, nil) && r in v && Storable(i) && LeftDone(v, i, v[r].hi)
    requires v[r].lo < i.low <= v[r].val && (i.low < v[r].val < i.high ==> e) && (RightUpOf(v[r].hi) <= i.high ==> g)
    requires v[r].val == i.low ==> e
    ensures LeftDone(v[r := Marked(v[r], i, false, e, g)], i, v[r].val)
  {
    var w := v[r := Marked(v[r], i, false, e, g)];
    assert NodeOk(v, root, nil, r);
    MarkGrows(v, r, i, false, e, g);
    TopPass(v, r, i, e, g);
    forall n, x | n in w && IsFork(w[n], i) && Contains(i, x) && v[r].val <= x && (x <= w[n].val || w[n].hi <= i.high)
      ensures Covered(w, i, x)
    {
      assert IsFork(v[n], i);
      if v[r].hi <= x {
        assert Covered(v, i, x);
      } else if MarksAt(w[r], x, i) {
      } else {
        assert IsFork(v[r], i);
        ForkUnique(v, root, nil, n, r, i);
      }
    }
  }

  lemma TopPass(v: View, r: Node, i: Interval, e: bool, g: bool)
    requires r in v && v[r].lo < i.low <= v[r].val < v[r].hi <= POS && TopSeen(v, i, v[r].hi)
    requires RightUpOf(v[r].hi) <= i.high ==> g
    ensures TopSeen(v[r := Marked(v[r], i, false, e, g)], i, v[r].val)
  {
    var w := v[r := Marked(v[r], i, false, e, g)];
    MarkGrows(v, r, i, false, e, g);
    if ReachesTop(i) && NoTop(w) {
      assert NoTop(v) by { forall n | n in v ensures v[n].val < MAX { assert w[n].val == v[n].val; } }
      if v[r].hi == POS { assert MarksAt(w[r], MAX, i); }
    }
  }

  lemma TopLink(v: View, nil: Node, m: Node, q: Node?, left: bool, i: Interval)
    requires FreeSlot(v, nil, q, left, i.low) && m !in v && TopSeen(v, i, SlotHi(v, q, left))
    ensures TopSeen(Linked(v, nil, m, q, left, i.low), i, SlotHi(v, q, left))
  {
    var w := Linked(v, nil, m, q, left, i.low);
    LinkGrows(v, nil, m, q, left, i.low);
    if NoTop(w) {
      assert NoTop(v) by { forall n | n in v ensures v[n].val < MAX { assert w[n].val == v[n].val; } }
    }
  }

  /** When the walk is over, i is picked up at MAX if it reaches there and the tree has no node at MAX. */
  lemma TopDone(v: View, w: View, i: Interval)
    requires v.Keys <= w.Keys && (forall n | n in v :: w[n].val == v[n].val)
    requires (forall n | n in w && n !in v :: w[n].val == i.low) && LeftDone(w, i, i.low) && Storable(i)
    ensures ReachesTop(i) && NoTop(v) ==> Covered(w, i, MAX)
  {
  }

  lemma LeftDoneLink(v: View, nil: Node, m: Node, q: Node?, left: bool, i: Interval)
    requires FreeSlot(v, nil, q, left, i.low) && m !in v && LeftDone(v, i, SlotHi(v, q, left))
    ensures LeftDone(Linked(v, nil, m, q, left, i.low), i, SlotHi(v, q, left))
  {
    LinkGrows(v, nil, m, q, left, i.low);
    TopLink(v, nil, m, q, left, i);
    var w, hi := Linked(v, nil, m, q, left, i.low), SlotHi(v, q, left);
    forall n, x | n in w && IsFork(w[n], i) && Contains(i, x) && hi <= x && (x <= w[n].val || w[n].hi <= i.high)
      ensures Covered(w, i, x)
    {
      if n != m { assert IsFork(v[n], i); }
    }
  }

  lemma LinkKeepsHalf(v: View, nil: Node, m: Node, q: Node?, left: bool, i: Interval)
    requires FreeSlot(v, nil, q, left, i.high) && m !in v && HalfMarked(v, i)
    ensures HalfMarked(Linked(v, nil, m, q, left, i.high), i)
  {
    LinkGrows(v, nil, m, q, left, i.high);
    var w := Linked(v, nil, m, q, left, i.high);
    forall n, x | n in w && IsFork(w[n], i) && Contains(i, x) && (x <= w[n].val || w[n].hi <= i.high)
      ensures Covered(w, i, x)
    {
      assert n != m && IsFork(v[n], i);
    }
  }

  /** At the node of i.low the walk leaves i half marked. */
  lemma LeftEnd(w: View, root: Node, nil: Node, r: Node, i: Interval)
    requires Shape(w, root, nil) && r in w && w[r].val == i.low && i in w[r].equal && LeftDone(w, i, i.low)
    requires Storable(i)
    ensures HalfMarked(w, i)
  {
    assert NodeOk(w, root, nil, r);
    assert MarksAt(w[r], i.low, i);
  }

  /** The marks addLeft puts on a node it passes or stops at. */
  ghost function LeftMarks(r: Rec, i: Interval): Rec {
    Marked(r, i, false, r.val == i.low || r.val < i.high, RightUpOf(r.hi) <= i.high)
  }

  lemma LeftVisit(v: View, root: Node, nil: Node, marks: set<Interval>, r: Node, i: Interval)
    requires Core(v, root, nil, marks) && r in v && i in marks && Storable(i)
    requires v[r].lo < i.low <= v[r].val && LeftDone(v, i, v[r].hi)
    ensures var w := v[r := LeftMarks(v[r], i)];
      Core(w, root, nil, marks) && Grows(v, w) && LeftDone(w, i, v[r].val) && SameTree(v, w)
  {
    hide Shape, Truthful, MarksFrom, LeftDone, Grows, SameTree;
    var e, g := v[r].val == i.low || v[r].val < i.high, RightUpOf(v[r].hi) <= i.high;
    NodeTrue(v, r);
    LeftPass(v, root, nil, r, i, e, g);
    MarkKeeps(v, root, nil, marks, r, i, false, e, g);
    MarkGrows(v, r, i, false, e, g);
    MarkKeepsTree(v, r, i, false, e, g);
  }

  lemma LeftArrive(v: View, root: Node, nil: Node, marks: set<Interval>, r: Node, i: Interval)
    requires Core(v, root, nil, marks) && r in v && i in marks && Storable(i)
    requires v[r].lo < i.low == v[r].val && LeftDone(v, i, v[r].hi)
    ensures var w := v[r := LeftMarks(v[r], i)];
      Core(w, root, nil, marks) && Grows(v, w) && HalfMarked(w, i) && SameTree(v, w)
  {
    hide Shape, Truthful, MarksFrom, LeftDone, Grows, SameTree, HalfMarked;
    LeftVisit(v, root, nil, marks, r, i);
    LeftEnd(v[r := LeftMarks(v[r], i)], root, nil, r, i);
  }

  lemma NodeTrue(v: View, r: Node)
    requires Truthful(v) && r in v
    ensures TruthfulRec(v[r])
  {
  }

  // ----- second half: the walk towards i.high

  ghost predicate RightDone(v: View, i: Interval, lo: int) {
    forall x | Contains(i, x) && x <= lo :: Covered(v, i, x)
  }

  lemma RightStart(v: View, i: Interval)
    requires Storable(i)
    ensures RightDone(v, i, NEG)
  {
  }

  lemma RightPass(v: View, root: Node, nil: Node, r: Node, i: Interval, l: bool, e: bool)
    requires Shape(v, root, nil) && r in v && Storable(i) && HalfMarked(v, i) && RightDone(v, i, v[r].lo)
    requires v[r].val < i.high < v[r].hi && (v[r].val > i.low ==> e) && (LeftUpOf(v[r].lo) >= i.low ==> l)
    ensures RightDone(v[r := Marked(v[r], i, l, e, false)], i, v[r].val)
  {
    var w := v[r := Marked(v[r], i, l, e, false)];
    assert NodeOk(v, root, nil, r);
    MarkGrows(v, r, i, l, e, false);
    forall x | Contains(i, x) && x <= v[r].val
      ensures Covered(w, i, x)
    {
      if x <= v[r].lo || x == i.low {
        assert Covered(v, i, x);
      } else if MarksAt(w[r], x, i) {
      } else {
        assert IsFork(v[r], i);
      }
    }
  }

  /** At the node of i.high nothing is left uncovered. */
  lemma RightEnd(v: View, root: Node, nil: Node, r: Node, i: Interval, l: bool, low: Node)
    requires Shape(v, root, nil) && r in v && Storable(i) && HalfMarked(v, i) && RightDone(v, i, v[r].lo)
    requires v[r].val == i.high && (LeftUpOf(v[r].lo) >= i.low ==> l) && low in v && v[low].val == i.low
    ensures forall x | Contains(i, x) :: Covered(v[r := Marked(v[r], i, l, false, false)], i, x)
  {
    var w := v[r := Marked(v[r], i, l, false, false)];
    assert NodeOk(v, root, nil, r);
    MarkGrows(v, r, i, l, false, false);
    forall x | Contains(i, x)
      ensures Covered(w, i, x)
    {
      if x <= v[r].lo || x == i.low {
        assert Covered(v, i, x);
      } else if MarksAt(w[r], x, i) {
      } else {
        BelowRoot(v, root, nil, low);
        ForkExists(v, root, nil, low, i, root);
        var f: Node :| f in v && IsFork(v[f], i);
        BelowRoot(v, root, nil, f);
        BelowRoot(v, root, nil, r);
        ForkUnderHigh(v, root, nil, f, r, i, root);
      }
    }
  }

  /** If the node of i.high is met before the fork, the fork lies to its left. */
  lemma {:induction false} ForkUnderHigh(v: View, root: Node, nil: Node, f: Node, r: Node, i: Interval, t: Node)
    requires Shape(v, root, nil) && f in v && r in v && t in v && IsFork(v[f], i)
    requires v[r].val == i.high && v[r].lo < i.low < v[r].hi
    requires Below(v, root, nil, f, t) && Below(v, root, nil, r, t)
    ensures v[f].hi <= i.high
    decreases Width(v[t])
  {
    assert NodeOk(v, root, nil, t) && NodeOk(v, root, nil, f) && NodeOk(v, root, nil, r);
    if f != t { PathStep(v, root, nil, f, t, i.low); }
    if r != t { PathStep(v, root, nil, r, t, i.low); }
    var c := if i.low < v[t].val then v[t].left else v[t].right;
    assert f != r;
    assert c in v && NodeOk(v, root, nil, c);
    if r == t {
      BelowRange(v, root, nil, f, c);
    } else if f == t {
      BelowRange(v, root, nil, r, c);
    } else {
      ForkUnderHigh(v, root, nil, f, r, i, c);
    }
  }

  /** The marks addRight puts on a node at or below i.high. */
  ghost function RightMarks(r: Rec, i: Interval): Rec {
    Marked(r, i, LeftUpOf(r.lo) >= i.low, i.low < r.val < i.high, false)
  }

  lemma RightVisit(v: View, root: Node, nil: Node, marks: set<Interval>, r: Node, i: Interval)
    requires Core(v, root, nil, marks) && r in v && i in marks && Storable(i)
    requires v[r].val < i.high < v[r].hi && HalfMarked(v, i) && RightDone(v, i, v[r].lo)
    ensures var w := v[r := RightMarks(v[r], i)];
      && Core(w, root, nil, marks) && Grows(v, w) && HalfMarked(w, i) && RightDone(w, i, v[r].val) && SameTree(v, w)
  {
    hide Shape, Truthful, MarksFrom, RightDone, HalfMarked, Grows, SameTree;
    var l, e := LeftUpOf(v[r].lo) >= i.low, i.low < v[r].val < i.high;
    NodeTrue(v, r);
    RightPass(v, root, nil, r, i, l, e);
    MarkKeeps(v, root, nil, marks, r, i, l, e, false);
    MarkGrows(v, r, i, l, e, false);
    MarkKeepsHalf(v, r, i, l, e, false);
    MarkKeepsTree(v, r, i, l, e, false);
  }

  lemma RightArrive(v: View, root: Node, nil: Node, marks: set<Interval>, r: Node, i: Interval, low: Node)
    requires Core(v, root, nil, marks) && r in v && i in marks && Storable(i) && low in v && v[low].val == i.low
    requires v[r].val == i.high && HalfMarked(v, i) && RightDone(v, i, v[r].lo)
    ensures var w := v[r := RightMarks(v[r], i)];
      && Core(w, root, nil, marks) && Grows(v, w) && SameTree(v, w) && (forall x | Contains(i, x) :: Covered(w, i, x))
  {
    hide Shape, Truthful, MarksFrom, RightDone, HalfMarked, Grows, SameTree, Covered;
    var l := LeftUpOf(v[r].lo) >= i.low;
    NodeTrue(v, r);
    RightEnd(v, root, nil, r, i, l, low);
    MarkKeeps(v, root, nil, marks, r, i, l, false, false);
    MarkGrows(v, r, i, l, false, false);
    MarkKeepsTree(v, r, i, l, false, false);
  }
}
