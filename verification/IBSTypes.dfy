/** The data of the interval binary search tree, and its heap seen as a value.
 *
 *  A node of the tree is a heap object (`Node`).  Every statement about the tree is made about a
 *  `View`: the map from nodes to the records of their fields.  Three ghost fields turn global facts
 *  into local ones: `lo` and `hi` bound the keys a node's subtree may hold, and `bh` is the number
 *  of black nodes on the way down to the sentinel.
 */
module IBSTypes {

  // numeric_limits<Address>::min() and max(); only MIN < MAX is used.
  const MIN: int := 0
  const MAX: int := 0xFFFF_FFFF_FFFF_FFFF

  // Ranges are open.  A node with no ancestor on its left has lo == NEG, one with none on its
  // right has hi == POS.
  const NEG: int := MIN - 1
  const POS: int := MAX + 1

  /** An interval [low, high); `id` stands for the identity of the object pointed to. */
  datatype Interval = Interval(low: int, high: int, id: int)

  /** Half-open containment; an interval that is empty or runs backwards matches its starting value. */
  predicate Contains(i: Interval, x: int) {
    i.low <= x < i.high || i.high <= i.low == x
  }

  /** The intervals the tree indexes. */
  predicate Storable(i: Interval) {
    MIN <= i.low <= MAX && MIN <= i.high <= MAX
  }

  /** Not running backwards. */
  predicate Forward(i: Interval) {
    i.low <= i.high
  }

  /** Proper and ending at the largest key: a stabbing walk for MAX may pick it up without cause. */
  predicate ReachesTop(i: Interval) {
    i.low < i.high == MAX
  }

  datatype Color = Red | Black

  class Node {
    const val: int
    var color: Color
    var left: Node?
    var right: Node?
    var parent: Node?
    var less: set<Interval>
    var equal: set<Interval>
    var greater: set<Interval>
    ghost var lo: int
    ghost var hi: int
    ghost var bh: nat

    /** A red leaf hanging off the sentinel, with no marks. */
    constructor Leaf(value: int, nil: Node)
      ensures val == value && color == Red && left == nil && right == nil && parent == null
      ensures less == {} && equal == {} && greater == {} && bh == 0
    {
      val, color, left, right, parent := value, Red, nil, nil, null;
      less, equal, greater, bh := {}, {}, {}, 0;
    }

    /** The sentinel: black, with null links. */
    constructor Nil()
      ensures color == Black && left == null && right == null && parent == null
      ensures less == {} && equal == {} && greater == {}
    {
      val, color, left, right, parent := 0, Black, null, null, null;
      less, equal, greater := {}, {}, {};
    }

    ghost function Fields(): Rec
      reads this
    {
      Rec(val, lo, hi, bh, color, left, right, parent, less, equal, greater)
    }
  }

  datatype Rec = Rec(val: int, lo: int, hi: int, bh: int, color: Color,
                     left: Node?, right: Node?, parent: Node?,
                     less: set<Interval>, equal: set<Interval>, greater: set<Interval>)

  type View = map<Node, Rec>
}

/** Links and key ranges. */
module IBSShape {
  import opened IBSTypes

  /** Child `c` of `n` is the sentinel, or a node that points back and owns the range (lo, hi). */
  ghost predicate ChildOk(v: View, nil: Node, n: Node, c: Node?, lo: int, hi: int) {
    c != null && (c == nil || (c in v && v[c].parent == n && v[c].lo == lo && v[c].hi == hi))
  }

  ghost predicate NodeOk(v: View, root: Node, nil: Node, n: Node)
    requires n in v
  {
    && NEG <= v[n].lo < v[n].val < v[n].hi <= POS
    && ChildOk(v, nil, n, v[n].left, v[n].lo, v[n].val)
    && ChildOk(v, nil, n, v[n].right, v[n].val, v[n].hi)
    && (v[n].parent == null ==> n == root)
    && (v[n].parent != null ==> v[n].parent in v && (v[v[n].parent].left == n || v[v[n].parent].right == n))
  }

  ghost predicate RootOk(v: View, root: Node, nil: Node) {
    && nil !in v
    && (root == nil ==> v == map[])
    && (root != nil ==> root in v && v[root].parent == null && v[root].lo == NEG && v[root].hi == POS)
  }

  /** Search order, parent links and the absence of sharing, node by node. */
  ghost predicate Shape(v: View, root: Node, nil: Node) {
    && RootOk(v, root, nil)
    && forall n | n in v :: NodeOk(v, root, nil, n)
  }

  lemma NodeHere(v: View, root: Node, nil: Node, n: Node)
    requires Shape(v, root, nil) && n in v
    ensures NodeOk(v, root, nil, n) && nil !in v
  {
  }

  ghost predicate SameLinksRec(a: Rec, b: Rec) {
    a.val == b.val && a.lo == b.lo && a.hi == b.hi && a.left == b.left && a.right == b.right && a.parent == b.parent
  }

  /** v and w differ at most in marks, colors and black heights. */
  ghost predicate SameLinks(v: View, w: View) {
    v.Keys == w.Keys && forall n | n in v :: SameLinksRec(v[n], w[n])
  }

  lemma LinksKeepShape(v: View, w: View, root: Node, nil: Node)
    requires SameLinks(v, w) && Shape(v, root, nil)
    ensures Shape(w, root, nil)
  {
    forall n | n in w
      ensures NodeOk(w, root, nil, n)
    {
      LinksKeepNode(v, w, root, nil, n);
    }
  }

  lemma LinksKeepNode(v: View, w: View, root: Node, nil: Node, n: Node)
    requires SameLinks(v, w) && n in v && NodeOk(v, root, nil, n)
    ensures NodeOk(w, root, nil, n)
  {
  }

  ghost function Width(r: Rec): int { r.hi - r.lo }

  /** `n` is in the subtree of `r`: climbing from n reaches r. */
  ghost predicate Below(v: View, root: Node, nil: Node, n: Node, r: Node)
    requires Shape(v, root, nil) && n in v
    decreases POS - NEG - Width(v[n])
  {
    n == r || (v[n].parent != null && (assert NodeOk(v, root, nil, n); assert NodeOk(v, root, nil, v[n].parent);
                                       Below(v, root, nil, v[n].parent, r)))
  }

  lemma {:induction false} BelowRoot(v: View, root: Node, nil: Node, n: Node)
    requires Shape(v, root, nil) && n in v
    ensures Below(v, root, nil, n, root)
    decreases POS - NEG - Width(v[n])
  {
    assert NodeOk(v, root, nil, n);
    if v[n].parent != null {
      assert NodeOk(v, root, nil, v[n].parent);
      BelowRoot(v, root, nil, v[n].parent);
    }
  }

  /** Everything strictly below r is below one of its two children. */
  lemma {:induction false} BelowSplit(v: View, root: Node, nil: Node, n: Node, r: Node)
    requires Shape(v, root, nil) && n in v && r in v && Below(v, root, nil, n, r) && n != r
    ensures (v[r].left != nil && Below(v, root, nil, n, v[r].left))
         || (v[r].right != nil && Below(v, root, nil, n, v[r].right))
    decreases POS - NEG - Width(v[n])
  {
    assert NodeOk(v, root, nil, n);
    var p := v[n].parent;
    assert NodeOk(v, root, nil, p);
    if p != r {
      BelowSplit(v, root, nil, p, r);
    }
  }

  /** A subtree's keys and ranges stay inside the range of its top. */
  lemma {:induction false} BelowRange(v: View, root: Node, nil: Node, n: Node, r: Node)
    requires Shape(v, root, nil) && n in v && r in v && Below(v, root, nil, n, r)
    ensures v[r].lo <= v[n].lo && v[n].hi <= v[r].hi
    decreases POS - NEG - Width(v[n])
  {
    assert NodeOk(v, root, nil, n);
    if n != r {
      assert NodeOk(v, root, nil, v[n].parent);
      BelowRange(v, root, nil, v[n].parent, r);
    }
  }

  /** A node whose range holds x and that is below r, but is not r, is below the child x selects. */
  lemma PathStep(v: View, root: Node, nil: Node, n: Node, r: Node, x: int)
    requires Shape(v, root, nil) && n in v && r in v && Below(v, root, nil, n, r) && n != r
    requires v[n].lo < x < v[n].hi
    ensures x != v[r].val
    ensures x < v[r].val ==> v[r].left != nil && v[r].left in v && Below(v, root, nil, n, v[r].left)
    ensures x > v[r].val ==> v[r].right != nil && v[r].right in v && Below(v, root, nil, n, v[r].right)
  {
    assert NodeOk(v, root, nil, r);
    BelowSplit(v, root, nil, n, r);
    if v[r].left != nil && Below(v, root, nil, n, v[r].left) {
      BelowRange(v, root, nil, n, v[r].left);
    } else {
      BelowRange(v, root, nil, n, v[r].right);
    }
  }

  /** Two nodes never hold the same key. */
  lemma KeysDistinct(v: View, root: Node, nil: Node, n: Node, m: Node)
    requires Shape(v, root, nil) && n in v && m in v && v[n].val == v[m].val
    ensures n == m
  {
    if n != m {
      BelowRoot(v, root, nil, n);
      BelowRoot(v, root, nil, m);
      KeysDistinctFrom(v, root, nil, n, m, root);
    }
  }

  lemma {:induction false} KeysDistinctFrom(v: View, root: Node, nil: Node, n: Node, m: Node, r: Node)
    requires Shape(v, root, nil) && n in v && m in v && r in v && n != m
    requires Below(v, root, nil, n, r) && Below(v, root, nil, m, r)
    ensures v[n].val != v[m].val
    decreases Width(v[r])
  {
    assert NodeOk(v, root, nil, n) && NodeOk(v, root, nil, m) && NodeOk(v, root, nil, r);
    if n != r {
      PathStep(v, root, nil, n, r, v[n].val);
    }
    if m != r {
      PathStep(v, root, nil, m, r, v[m].val);
    }
    if n != r && m != r && v[n].val == v[m].val {
      KeysDistinctFrom(v, root, nil, n, m, if v[n].val < v[r].val then v[r].left else v[r].right);
    }
  }
}
