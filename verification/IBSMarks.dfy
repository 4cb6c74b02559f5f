/** What the three mark sets mean: truthfulness, coverage, exactness. */
module IBSMarks {
  import opened IBSTypes
  import opened IBSShape

  function LeftUpOf(lo: int): int { if lo == NEG then MIN else lo }
  function RightUpOf(hi: int): int { if hi == POS then MAX else hi }

  /** A stabbing walk for x passes through this node and picks up i there. */
  predicate MarksAt(r: Rec, x: int, i: Interval) {
    && r.lo < x < r.hi
    && ((x < r.val && i in r.less) || (x == r.val && i in r.equal) || (x > r.val && i in r.greater))
  }

  /** A stabbing walk for x picks up i somewhere. */
  ghost predicate Covered(v: View, i: Interval, x: int) {
    exists n | n in v :: MarksAt(v[n], x, i)
  }

  /** Every mark speaks the truth about the whole range it stands for. */
  ghost predicate TruthfulRec(r: Rec) {
    && (forall i | i in r.less :: Storable(i) && i.low <= LeftUpOf(r.lo) && r.val <= i.high)
    && (forall i | i in r.equal :: Storable(i) && Contains(i, r.val))
    && (forall i | i in r.greater :: Storable(i) && i.low <= r.val && RightUpOf(r.hi) <= i.high)
  }

  ghost predicate Truthful(v: View) {
    forall n | n in v :: TruthfulRec(v[n])
  }

  /** Marks belong to live intervals.  The `less` slot of a node at MIN and the `greater` slot of one at
   *  MAX are never consulted. */
  ghost predicate MarksFromRec(r: Rec, live: set<Interval>) {
    r.equal <= live && (r.val < MAX ==> r.greater <= live) && (r.val > MIN ==> r.less <= live)
  }

  ghost predicate MarksFrom(v: View, live: set<Interval>) {
    forall n | n in v :: MarksFromRec(v[n], live)
  }

  /** Every live interval is picked up at each of its points. */
  ghost predicate Complete(v: View, live: set<Interval>) {
    forall i, x | i in live && Contains(i, x) :: Covered(v, i, x)
  }

  /** What a stabbing walk at x may pick up i for. */
  predicate Found(i: Interval, x: int) {
    Contains(i, x) || (x == MAX && ReachesTop(i))
  }

  /** The index is exact: a stabbing walk at x picks up all live intervals containing x and, except at MAX,
   *  nothing else; at MAX it may also pick up live intervals that end there. */
  ghost predicate Exact(v: View, live: set<Interval>) {
    forall i, x | MIN <= x <= MAX ::
      && (Covered(v, i, x) ==> i in live && Found(i, x))
      && (i in live && Contains(i, x) ==> Covered(v, i, x))
  }

  /** No stabbing result is lost from v to w. */
  ghost predicate Grows(v: View, w: View) {
    forall i, x | Covered(v, i, x) :: Covered(w, i, x)
  }

  lemma MarkIsTrue(r: Rec, x: int, i: Interval)
    requires TruthfulRec(r) && MarksAt(r, x, i) && MIN <= x <= MAX
    ensures Found(i, x)
  {
  }

  /** The bookkeeping invariant of the tree gives exactness. */
  lemma ExactFromMarks(v: View, live: set<Interval>)
    requires Truthful(v) && MarksFrom(v, live) && Complete(v, live)
    ensures Exact(v, live)
  {
    forall i, x | MIN <= x <= MAX && Covered(v, i, x)
      ensures i in live && Found(i, x)
    {
      var n: Node :| n in v && MarksAt(v[n], x, i);
      MarkIsTrue(v[n], x, i);
    }
  }

  /** The node that separates the search for i.low from the search for i.high. */
  predicate IsFork(r: Rec, i: Interval) {
    r.lo < i.low <= r.val < i.high <= r.hi
  }

  /** What the first half of an insertion leaves behind: i is picked up everywhere except, perhaps,
   *  strictly between the fork and i.high. */
  ghost predicate HalfMarked(v: View, i: Interval) {
    && Covered(v, i, i.low)
    && forall n, x | n in v && IsFork(v[n], i) && Contains(i, x) && (x <= v[n].val || v[n].hi <= i.high) ::
         Covered(v, i, x)
  }
}

/** The two rotations as functions on views, and what they keep. */
module IBSRotate {
  import opened IBSTypes
  import opened IBSShape
  import opened IBSMarks

  ghost predicate CanRight(v: View, root: Node, nil: Node, p: Node) {
    Shape(v, root, nil) && p in v && v[p].left in v
  }

  ghost predicate CanLeft(v: View, root: Node, nil: Node, p: Node) {
    Shape(v, root, nil) && p in v && v[p].right in v
  }

  /** g with child p replaced by y. */
  ghost function Relink(g: Rec, p: Node, y: Node): Rec {
    if g.left == p then g.(left := y) else g.(right := y)
  }

  /** A node other than p and y, after y swung above p; b is the subtree that changes hands. */
  ghost function Swung(r: Rec, n: Node, b: Node?, g: Node?, p: Node, y: Node): Rec {
    if n == b then r.(parent := p) else if n == g then Relink(r, p, y) else r
  }

  lemma SwungMarks(r: Rec, n: Node, b: Node?, g: Node?, p: Node, y: Node)
    ensures TruthfulRec(r) ==> TruthfulRec(Swung(r, n, b, g, p, y))
    ensures forall x, i :: MarksAt(Swung(r, n, b, g, p, y), x, i) <==> MarksAt(r, x, i)
  {
  }

  ghost function RotateRoot(v: View, root: Node, p: Node, y: Node): Node
    requires p in v
  {
    if v[p].parent == null then y else root
  }

  // Old subtree root p and its left child y.
  ghost function RightPivot(p: Rec, yn: Node, y: Rec): Rec {
    p.(left := y.right, parent := yn, lo := y.val,
       less := p.less + (y.greater - p.greater),
       equal := p.equal - y.greater * p.greater,
       greater := p.greater - y.greater)
  }

  ghost function RightTop(y: Rec, pn: Node, p: Rec): Rec {
    y.(right := pn, parent := p.parent, hi := p.hi,
       less := y.less + p.less,
       equal := y.equal + p.less,
       greater := y.greater * p.greater)
  }

  ghost function RightRotated(v: View, p: Node): View
    requires p in v && v[p].left in v
  {
    var y := v[p].left;
    map n | n in v ::
      if n == p then RightPivot(v[p], y, v[y])
      else if n == y then RightTop(v[y], p, v[p])
      else Swung(v[n], n, v[y].right, v[p].parent, p, y)
  }

  // Old subtree root p and its right child y.
  ghost function LeftPivot(p: Rec, yn: Node, y: Rec): Rec {
    p.(right := y.left, parent := yn, hi := y.val,
       greater := p.greater + (y.less - p.less),
       equal := p.equal - y.less * p.less,
       less := p.less - y.less)
  }

  ghost function LeftTop(y: Rec, pn: Node, p: Rec): Rec {
    y.(left := pn, parent := p.parent, lo := p.lo,
       greater := y.greater + p.greater,
       equal := y.equal + p.greater,
       less := y.less * p.less)
  }

  ghost function LeftRotated(v: View, p: Node): View
    requires p in v && v[p].right in v
  {
    var y := v[p].right;
    map n | n in v ::
      if n == p then LeftPivot(v[p], y, v[y])
      else if n == y then LeftTop(v[y], p, v[p])
      else Swung(v[n], n, v[y].left, v[p].parent, p, y)
  }

  lemma RightRotatedIs(v: View, p: Node, w: View)
    requires p in v && v[p].left in v && p != v[p].left && w.Keys == v.Keys
    requires w[p] == RightPivot(v[p], v[p].left, v[v[p].left]) && w[v[p].left] == RightTop(v[v[p].left], p, v[p])
    requires forall n | n in v.Keys - {p, v[p].left} ::
      w[n] == Swung(v[n], n, v[v[p].left].right, v[p].parent, p, v[p].left)
    ensures w == RightRotated(v, p)
  {
  }

  lemma RightKeepsShape(v: View, root: Node, nil: Node, p: Node)
    requires CanRight(v, root, nil, p)
    ensures Shape(RightRotated(v, p), RotateRoot(v, root, p, v[p].left), nil)
  {
    assert NodeOk(v, root, nil, p);
    var y, w := v[p].left, RightRotated(v, p);
    var r := RotateRoot(v, root, p, y);
    assert NodeOk(v, root, nil, y);
    forall n | n in w
      ensures NodeOk(w, r, nil, n)
    {
      RightNodeOk(v, root, nil, p, n);
    }
  }

  ghost predicate NodeOkIf(v: View, root: Node, nil: Node, n: Node?) {
    n != null && n in v ==> NodeOk(v, root, nil, n)
  }

  lemma RightNodeOk(v: View, root: Node, nil: Node, p: Node, n: Node)
    requires CanRight(v, root, nil, p) && n in v
    ensures NodeOk(RightRotated(v, p), RotateRoot(v, root, p, v[p].left), nil, n)
  {
    var y := v[p].left;
    assert NodeOk(v, root, nil, p) && NodeOk(v, root, nil, n) && NodeOk(v, root, nil, y);
    if n == p || n == y {
      RightPairOk(v, root, nil, p);
    } else {
      RightOtherOk(v, root, nil, p, n);
    }
  }

  // The two nodes that trade places.
  lemma RightPairOk(v: View, root: Node, nil: Node, p: Node)
    requires p in v && v[p].left in v && NodeOk(v, root, nil, p) && NodeOk(v, root, nil, v[p].left)
    requires NodeOkIf(v, root, nil, v[p].parent)
    requires nil !in v && root in v && v[root].parent == null
    ensures NodeOk(RightRotated(v, p), RotateRoot(v, root, p, v[p].left), nil, p)
    ensures NodeOk(RightRotated(v, p), RotateRoot(v, root, p, v[p].left), nil, v[p].left)
  {
  }

  lemma RightOtherOk(v: View, root: Node, nil: Node, p: Node, n: Node)
    requires p in v && n in v && v[p].left in v && NodeOk(v, root, nil, p) && NodeOk(v, root, nil, n)
    requires NodeOk(v, root, nil, v[p].left) && NodeOkIf(v, root, nil, v[p].parent)
    requires NodeOkIf(v, root, nil, v[n].parent)
    requires nil !in v && root in v && v[root].parent == null && n != p && n != v[p].left
    ensures NodeOk(RightRotated(v, p), RotateRoot(v, root, p, v[p].left), nil, n)
  {
    RightOtherChild(v, root, nil, p, n, v[n].left, v[n].lo, v[n].val);
    RightOtherChild(v, root, nil, p, n, v[n].right, v[n].val, v[n].hi);
    var w := RightRotated(v, p);
    assert w[n].left == (if v[n].left == p then v[p].left else v[n].left);
    assert w[n].right == (if v[n].right == p then v[p].left else v[n].right);
  }

  lemma RightOtherChild(v: View, root: Node, nil: Node, p: Node, n: Node, c: Node?, lo: int, hi: int)
    requires p in v && n in v && v[p].left in v && n != p && n != v[p].left && ChildOk(v, nil, n, c, lo, hi)
    requires nil !in v && NodeOk(v, root, nil, p) && NodeOk(v, root, nil, v[p].left)
    ensures ChildOk(RightRotated(v, p), nil, n, if c == p then v[p].left else c, lo, hi)
  {
    if c != nil && c != p {
      assert c != v[p].left && c != v[v[p].left].right;
    }
  }

  lemma LeftRotatedIs(v: View, p: Node, w: View)
    requires p in v && v[p].right in v && p != v[p].right && w.Keys == v.Keys
    requires w[p] == LeftPivot(v[p], v[p].right, v[v[p].right]) && w[v[p].right] == LeftTop(v[v[p].right], p, v[p])
    requires forall n | n in v.Keys - {p, v[p].right} ::
      w[n] == Swung(v[n], n, v[v[p].right].left, v[p].parent, p, v[p].right)
    ensures w == LeftRotated(v, p)
  {
  }

  lemma LeftKeepsShape(v: View, root: Node, nil: Node, p: Node)
    requires CanLeft(v, root, nil, p)
    ensures Shape(LeftRotated(v, p), RotateRoot(v, root, p, v[p].right), nil)
  {
    assert NodeOk(v, root, nil, p);
    var y, w := v[p].right, LeftRotated(v, p);
    var r := RotateRoot(v, root, p, y);
    assert NodeOk(v, root, nil, y);
    forall n | n in w
      ensures NodeOk(w, r, nil, n)
    {
      LeftNodeOk(v, root, nil, p, n);
    }
  }

  lemma LeftNodeOk(v: View, root: Node, nil: Node, p: Node, n: Node)
    requires CanLeft(v, root, nil, p) && n in v
    ensures NodeOk(LeftRotated(v, p), RotateRoot(v, root, p, v[p].right), nil, n)
  {
    var y := v[p].right;
    assert NodeOk(v, root, nil, p) && NodeOk(v, root, nil, n) && NodeOk(v, root, nil, y);
    if n == p || n == y {
      LeftPairOk(v, root, nil, p);
    } else {
      LeftOtherOk(v, root, nil, p, n);
    }
  }

  // The two nodes that trade places.
  lemma LeftPairOk(v: View, root: Node, nil: Node, p: Node)
    requires p in v && v[p].right in v && NodeOk(v, root, nil, p) && NodeOk(v, root, nil, v[p].right)
    requires NodeOkIf(v, root, nil, v[p].parent)
    requires nil !in v && root in v && v[root].parent == null
    ensures NodeOk(LeftRotated(v, p), RotateRoot(v, root, p, v[p].right), nil, p)
    ensures NodeOk(LeftRotated(v, p), RotateRoot(v, root, p, v[p].right), nil, v[p].right)
  {
  }

  lemma LeftOtherOk(v: View, root: Node, nil: Node, p: Node, n: Node)
    requires p in v && n in v && v[p].right in v && NodeOk(v, root, nil, p) && NodeOk(v, root, nil, n)
    requires NodeOk(v, root, nil, v[p].right) && NodeOkIf(v, root, nil, v[p].parent)
    requires NodeOkIf(v, root, nil, v[n].parent)
    requires nil !in v && root in v && v[root].parent == null && n != p && n != v[p].right
    ensures NodeOk(LeftRotated(v, p), RotateRoot(v, root, p, v[p].right), nil, n)
  {
    LeftOtherChild(v, root, nil, p, n, v[n].left, v[n].lo, v[n].val);
    LeftOtherChild(v, root, nil, p, n, v[n].right, v[n].val, v[n].hi);
    var w := LeftRotated(v, p);
    assert w[n].left == (if v[n].left == p then v[p].right else v[n].left);
    assert w[n].right == (if v[n].right == p then v[p].right else v[n].right);
  }

  lemma LeftOtherChild(v: View, root: Node, nil: Node, p: Node, n: Node, c: Node?, lo: int, hi: int)
    requires p in v && n in v && v[p].right in v && n != p && n != v[p].right && ChildOk(v, nil, n, c, lo, hi)
    requires nil !in v && NodeOk(v, root, nil, p) && NodeOk(v, root, nil, v[p].right)
    ensures ChildOk(LeftRotated(v, p), nil, n, if c == p then v[p].right else c, lo, hi)
  {
    if c != nil && c != p {
      assert c != v[p].right && c != v[v[p].right].left;
    }
  }

  /** Marks stay truthful although the two nodes' ranges change. */
  lemma RightKeepsTruth(v: View, root: Node, nil: Node, p: Node)
    requires CanRight(v, root, nil, p) && Truthful(v)
    ensures Truthful(RightRotated(v, p))
  {
    assert NodeOk(v, root, nil, p);
    var y := v[p].left;
    assert NodeOk(v, root, nil, y);
    RightRecTruth(v[p], v[y], p, y);
    var w := RightRotated(v, p);
    forall n | n in w
      ensures TruthfulRec(w[n])
    {
      assert TruthfulRec(v[n]);
      SwungMarks(v[n], n, v[y].right, v[p].parent, p, y);
    }
  }

  lemma RightRecTruth(p: Rec, y: Rec, pn: Node, yn: Node)
    requires NEG <= p.lo < p.val < p.hi <= POS && NEG <= y.lo < y.val < y.hi <= POS && y.lo == p.lo && y.hi == p.val
    requires TruthfulRec(p) && TruthfulRec(y)
    ensures TruthfulRec(RightPivot(p, yn, y)) && TruthfulRec(RightTop(y, pn, p))
  {
  }

  /** A node at MAX must not rise: it would be marked `equal` for intervals that end there. */
  lemma LeftKeepsTruth(v: View, root: Node, nil: Node, p: Node)
    requires CanLeft(v, root, nil, p) && Truthful(v) && v[v[p].right].val < MAX
    ensures Truthful(LeftRotated(v, p))
  {
    assert NodeOk(v, root, nil, p);
    var y := v[p].right;
    assert NodeOk(v, root, nil, y);
    LeftRecTruth(v[p], v[y], p, y);
    var w := LeftRotated(v, p);
    forall n | n in w
      ensures TruthfulRec(w[n])
    {
      assert TruthfulRec(v[n]);
      SwungMarks(v[n], n, v[y].left, v[p].parent, p, y);
    }
  }

  lemma LeftRecTruth(p: Rec, y: Rec, pn: Node, yn: Node)
    requires NEG <= p.lo < p.val < p.hi <= POS && NEG <= y.lo < y.val < y.hi <= POS && y.lo == p.val && y.hi == p.hi
    requires TruthfulRec(p) && TruthfulRec(y) && y.val < MAX
    ensures TruthfulRec(LeftPivot(p, yn, y)) && TruthfulRec(LeftTop(y, pn, p))
  {
  }

  lemma RightKeepsMarksFrom(v: View, root: Node, nil: Node, p: Node, live: set<Interval>)
    requires CanRight(v, root, nil, p) && MarksFrom(v, live)
    ensures MarksFrom(RightRotated(v, p), live)
  {
    hide Shape, MarksFromRec, Swung;
    var y, w := v[p].left, RightRotated(v, p);
    NodeHere(v, root, nil, p);
    NodeHere(v, root, nil, y);
    RightRecMarks(v[p], v[y], p, y, live);
    forall n | n in w ensures MarksFromRec(w[n], live) { SwungFrom(v[n], n, v[y].right, v[p].parent, p, y, live); }
  }

  lemma RightRecMarks(p: Rec, y: Rec, pn: Node, yn: Node, live: set<Interval>)
    requires MIN <= y.val < p.val <= MAX && MarksFromRec(p, live) && MarksFromRec(y, live)
    ensures MarksFromRec(RightPivot(p, yn, y), live) && MarksFromRec(RightTop(y, pn, p), live)
  {
  }

  lemma SwungFrom(r: Rec, n: Node, b: Node?, g: Node?, p: Node, y: Node, live: set<Interval>)
    ensures MarksFromRec(Swung(r, n, b, g, p, y), live) <==> MarksFromRec(r, live)
  {
  }

  lemma LeftKeepsMarksFrom(v: View, root: Node, nil: Node, p: Node, live: set<Interval>)
    requires CanLeft(v, root, nil, p) && MarksFrom(v, live)
    ensures MarksFrom(LeftRotated(v, p), live)
  {
    hide Shape, MarksFromRec, Swung;
    var y, w := v[p].right, LeftRotated(v, p);
    NodeHere(v, root, nil, p);
    NodeHere(v, root, nil, y);
    LeftRecMarks(v[p], v[y], p, y, live);
    forall n | n in w ensures MarksFromRec(w[n], live) { SwungFrom(v[n], n, v[y].left, v[p].parent, p, y, live); }
  }

  lemma LeftRecMarks(p: Rec, y: Rec, pn: Node, yn: Node, live: set<Interval>)
    requires MIN <= p.val < y.val <= MAX && MarksFromRec(p, live) && MarksFromRec(y, live)
    ensures MarksFromRec(LeftPivot(p, yn, y), live) && MarksFromRec(LeftTop(y, pn, p), live)
  {
  }

  /** A right rotation never loses a stabbing result, and gains one only at the pivot's key. */
  lemma RightStabs(v: View, root: Node, nil: Node, p: Node, i: Interval, x: int)
    requires CanRight(v, root, nil, p)
    ensures Covered(v, i, x) ==> Covered(RightRotated(v, p), i, x)
    ensures Covered(RightRotated(v, p), i, x) && !Covered(v, i, x) ==> x == v[p].val
  {
    assert NodeOk(v, root, nil, p) && NodeOk(v, root, nil, v[p].left);
    if Covered(v, i, x) {
      RightLoses(v, root, nil, p, i, x);
    }
    if Covered(RightRotated(v, p), i, x) && x != v[p].val {
      RightGains(v, root, nil, p, i, x);
    }
  }

  lemma RightLoses(v: View, root: Node, nil: Node, p: Node, i: Interval, x: int)
    requires p in v && v[p].left in v && NodeOk(v, root, nil, p) && NodeOk(v, root, nil, v[p].left) && nil !in v
    requires Covered(v, i, x)
    ensures Covered(RightRotated(v, p), i, x)
  {
    var y, w := v[p].left, RightRotated(v, p);
    var n: Node :| n in v && MarksAt(v[n], x, i);
    if n == p || n == y {
      RightRecStabs(v[p], v[y], p, y, i, x);
      assert MarksAt(w[p], x, i) || MarksAt(w[y], x, i);
    } else {
      SwungMarks(v[n], n, v[y].right, v[p].parent, p, y);
      assert MarksAt(w[n], x, i);
    }
  }

  lemma RightGains(v: View, root: Node, nil: Node, p: Node, i: Interval, x: int)
    requires p in v && v[p].left in v && NodeOk(v, root, nil, p) && NodeOk(v, root, nil, v[p].left) && nil !in v
    requires Covered(RightRotated(v, p), i, x) && x != v[p].val
    ensures Covered(v, i, x)
  {
    var y, w := v[p].left, RightRotated(v, p);
    var n: Node :| n in w && MarksAt(w[n], x, i);
    if n == p || n == y {
      RightRecStabs(v[p], v[y], p, y, i, x);
      assert MarksAt(v[p], x, i) || MarksAt(v[y], x, i);
    } else {
      SwungMarks(v[n], n, v[y].right, v[p].parent, p, y);
      assert MarksAt(v[n], x, i);
    }
  }

  lemma RightRecStabs(p: Rec, y: Rec, pn: Node, yn: Node, i: Interval, x: int)
    requires p.lo < p.val < p.hi && y.lo < y.val < y.hi
    requires y.lo == p.lo && y.hi == p.val
    ensures MarksAt(p, x, i) || MarksAt(y, x, i)
        ==> MarksAt(RightPivot(p, yn, y), x, i) || MarksAt(RightTop(y, pn, p), x, i)
    ensures MarksAt(RightPivot(p, yn, y), x, i) || MarksAt(RightTop(y, pn, p), x, i)
        ==> MarksAt(p, x, i) || MarksAt(y, x, i) || x == p.val
  {
  }

  lemma LeftStabs(v: View, root: Node, nil: Node, p: Node, i: Interval, x: int)
    requires CanLeft(v, root, nil, p)
    ensures Covered(v, i, x) ==> Covered(LeftRotated(v, p), i, x)
    ensures Covered(LeftRotated(v, p), i, x) && !Covered(v, i, x) ==> x == v[p].val
  {
    assert NodeOk(v, root, nil, p) && NodeOk(v, root, nil, v[p].right);
    if Covered(v, i, x) {
      LeftLoses(v, root, nil, p, i, x);
    }
    if Covered(LeftRotated(v, p), i, x) && x != v[p].val {
      LeftGains(v, root, nil, p, i, x);
    }
  }

  lemma LeftLoses(v: View, root: Node, nil: Node, p: Node, i: Interval, x: int)
    requires p in v && v[p].right in v && NodeOk(v, root, nil, p) && NodeOk(v, root, nil, v[p].right) && nil !in v
    requires Covered(v, i, x)
    ensures Covered(LeftRotated(v, p), i, x)
  {
    var y, w := v[p].right, LeftRotated(v, p);
    var n: Node :| n in v && MarksAt(v[n], x, i);
    if n == p || n == y {
      LeftRecStabs(v[p], v[y], p, y, i, x);
      assert MarksAt(w[p], x, i) || MarksAt(w[y], x, i);
    } else {
      SwungMarks(v[n], n, v[y].left, v[p].parent, p, y);
      assert MarksAt(w[n], x, i);
    }
  }

  lemma LeftGains(v: View, root: Node, nil: Node, p: Node, i: Interval, x: int)
    requires p in v && v[p].right in v && NodeOk(v, root, nil, p) && NodeOk(v, root, nil, v[p].right) && nil !in v
    requires Covered(LeftRotated(v, p), i, x) && x != v[p].val
    ensures Covered(v, i, x)
  {
    var y, w := v[p].right, LeftRotated(v, p);
    var n: Node :| n in w && MarksAt(w[n], x, i);
    if n == p || n == y {
      LeftRecStabs(v[p], v[y], p, y, i, x);
      assert MarksAt(v[p], x, i) || MarksAt(v[y], x, i);
    } else {
      SwungMarks(v[n], n, v[y].left, v[p].parent, p, y);
      assert MarksAt(v[n], x, i);
    }
  }

  lemma LeftRecStabs(p: Rec, y: Rec, pn: Node, yn: Node, i: Interval, x: int)
    requires p.lo < p.val < p.hi && y.lo < y.val < y.hi
    requires y.lo == p.val && y.hi == p.hi
    ensures MarksAt(p, x, i) || MarksAt(y, x, i)
        ==> MarksAt(LeftPivot(p, yn, y), x, i) || MarksAt(LeftTop(y, pn, p), x, i)
    ensures MarksAt(LeftPivot(p, yn, y), x, i) || MarksAt(LeftTop(y, pn, p), x, i)
        ==> MarksAt(p, x, i) || MarksAt(y, x, i) || x == p.val
  {
  }

  lemma RightGrows(v: View, root: Node, nil: Node, p: Node)
    requires CanRight(v, root, nil, p)
    ensures Grows(v, RightRotated(v, p))
  {
    forall i, x | Covered(v, i, x)
      ensures Covered(RightRotated(v, p), i, x)
    {
      RightStabs(v, root, nil, p, i, x);
    }
  }

  lemma LeftGrows(v: View, root: Node, nil: Node, p: Node)
    requires CanLeft(v, root, nil, p)
    ensures Grows(v, LeftRotated(v, p))
  {
    forall i, x | Covered(v, i, x)
      ensures Covered(LeftRotated(v, p), i, x)
    {
      LeftStabs(v, root, nil, p, i, x);
    }
  }

  /** An exact tree stays exact under any rotation. */
  lemma RotationsKeepExact(v: View, root: Node, nil: Node, p: Node, live: set<Interval>)
    requires Shape(v, root, nil) && p in v && Truthful(v) && MarksFrom(v, live) && Exact(v, live)
    requires forall i | i in live :: Storable(i)
    ensures v[p].left in v ==> Exact(RightRotated(v, p), live)
    ensures v[p].right in v ==> Exact(LeftRotated(v, p), live)
  {
    hide Shape;
    if v[p].left in v {
      RightKeepsTruth(v, root, nil, p);
      RightKeepsMarksFrom(v, root, nil, p, live);
      RightGrows(v, root, nil, p);
      CompleteGrows(v, RightRotated(v, p), live);
      ExactFromMarks(RightRotated(v, p), live);
    }
    if v[p].right in v {
      LeftKeepsExact(v, root, nil, p, live);
    }
  }

  lemma CompleteGrows(v: View, w: View, live: set<Interval>)
    requires Grows(v, w) && Exact(v, live) && forall i | i in live :: Storable(i)
    ensures Complete(w, live)
  {
  }

  lemma LeftKeepsExact(v: View, root: Node, nil: Node, p: Node, live: set<Interval>)
    requires CanLeft(v, root, nil, p) && Truthful(v) && MarksFrom(v, live) && Exact(v, live)
    ensures Exact(LeftRotated(v, p), live)
  {
    hide Shape, Covered, Truthful, MarksFrom, LeftRotated;
    var w := LeftRotated(v, p);
    forall i, x | MIN <= x <= MAX
      ensures Covered(v, i, x) ==> Covered(w, i, x)
      ensures Covered(w, i, x) ==> i in live && Found(i, x)
    {
      LeftStabs(v, root, nil, p, i, x);
      if Covered(w, i, v[p].val) { LeftGainTrue(v, root, nil, p, live, i); }
    }
  }

  /** What a left rotation adds at the pivot's key is live and contains the key. */
  lemma LeftGainTrue(v: View, root: Node, nil: Node, p: Node, live: set<Interval>, i: Interval)
    requires CanLeft(v, root, nil, p) && Truthful(v) && MarksFrom(v, live) && Covered(LeftRotated(v, p), i, v[p].val)
    ensures Covered(v, i, v[p].val) || (i in live && Contains(i, v[p].val))
  {
    var y, w := v[p].right, LeftRotated(v, p);
    assert NodeOk(v, root, nil, p) && NodeOk(v, root, nil, y);
    assert TruthfulRec(v[p]) && TruthfulRec(v[y]);
    var n: Node :| n in w && MarksAt(w[n], v[p].val, i);
    if n == p {
      assert MarksAt(v[p], v[p].val, i);
    } else if n != y {
      SwungMarks(v[n], n, v[y].left, v[p].parent, p, y);
      assert MarksAt(v[n], v[p].val, i);
    }
  }

  /** While i is half inserted, a right rotation whose pivot lies above i.low moves the fork only
   *  towards i.low, so the uncovered gap does not widen. */
  lemma RightKeepsHalf(v: View, root: Node, nil: Node, p: Node, i: Interval)
    requires CanRight(v, root, nil, p) && HalfMarked(v, i) && i.low < v[p].val
    ensures HalfMarked(RightRotated(v, p), i)
  {
    hide Shape, Covered;
    NodeHere(v, root, nil, p);
    var y, w := v[p].left, RightRotated(v, p);
    NodeHere(v, root, nil, y);
    RightGrows(v, root, nil, p);
    forall n, x | n in w && IsFork(w[n], i) && Contains(i, x) && (x <= w[n].val || w[n].hi <= i.high)
      ensures Covered(w, i, x)
    {
      if n == y && v[p].val < i.high {
        assert IsFork(v[p], i);
      } else {
        assert IsFork(v[n], i);
      }
    }
  }

  /** Likewise for a left rotation whose pivot lies below i.low. */
  lemma LeftKeepsHalf(v: View, root: Node, nil: Node, p: Node, i: Interval)
    requires CanLeft(v, root, nil, p) && HalfMarked(v, i) && v[p].val < i.low
    ensures HalfMarked(LeftRotated(v, p), i)
  {
    hide Shape, Covered;
    NodeHere(v, root, nil, p);
    var y, w := v[p].right, LeftRotated(v, p);
    NodeHere(v, root, nil, y);
    LeftGrows(v, root, nil, p);
    forall n, x | n in w && IsFork(w[n], i) && Contains(i, x) && (x <= w[n].val || w[n].hi <= i.high)
      ensures Covered(w, i, x)
    {
      assert IsFork(v[n], i);
    }
  }
}
