/** The red-black rules bound the length of every search path by 2 log2(n + 1). */
module IBSHeight {
  import opened Basics
  import opened IBSTypes
  import opened IBSShape
  import opened IBSColors

  lemma {:induction false} Pow2Mono(a: nat, b: nat)
    requires a <= b
    ensures Pow2(a) <= Pow2(b)
    decreases b - a
  {
    if a < b { Pow2Mono(a + 1, b); }
  }

  /** Number of nodes on the search path from the root to n, both included. */
  ghost function Depth(v: View, root: Node, nil: Node, n: Node): nat
    requires Shape(v, root, nil) && n in v
    decreases POS - NEG - Width(v[n])
  {
    assert NodeOk(v, root, nil, n);
    if v[n].parent == null then 1
    else (assert NodeOk(v, root, nil, v[n].parent); 1 + Depth(v, root, nil, v[n].parent))
  }

  ghost function Subtree(v: View, root: Node, nil: Node, r: Node): set<Node>
    requires Shape(v, root, nil)
  {
    set n | n in v && Below(v, root, nil, n, r)
  }

  /** A red node follows a black one, so a path is at most twice its black nodes. */
  lemma {:induction false} DepthBound(v: View, root: Node, nil: Node, n: Node)
    requires Shape(v, root, nil) && RB(v, root, nil) && n in v
    ensures Depth(v, root, nil, n) <= 2 * (v[root].bh - v[n].bh) + (if v[n].color.Black? then 1 else 0)
    decreases POS - NEG - Width(v[n])
  {
    assert NodeOk(v, root, nil, n) && HeightOk(v, nil, n) && RedOk(v, n);
    var p := v[n].parent;
    if p != null {
      assert NodeOk(v, root, nil, p) && HeightOk(v, nil, p);
      DepthBound(v, root, nil, p);
    }
  }

  ghost function SubtreeOr(v: View, root: Node, nil: Node, c: Node?): set<Node>
    requires Shape(v, root, nil)
  {
    if c == null || c == nil then {} else Subtree(v, root, nil, c)
  }

  lemma InSubtree(v: View, root: Node, nil: Node, n: Node, c: Node, r: Node)
    requires Shape(v, root, nil) && r in v && n in v && c != nil && (v[r].left == c || v[r].right == c)
    requires Below(v, root, nil, n, c)
    ensures Below(v, root, nil, n, r) && n != r && (v[r].left == c <==> v[n].val < v[r].val)
  {
    assert NodeOk(v, root, nil, r) && NodeOk(v, root, nil, n);
    assert NodeOk(v, root, nil, c);
    ChildBelow(v, root, nil, n, c, r);
    BelowRange(v, root, nil, n, c);
  }

  lemma SubtreeSize(v: View, root: Node, nil: Node, r: Node)
    requires Shape(v, root, nil) && r in v
    ensures |SubtreeOr(v, root, nil, v[r].left)| + |SubtreeOr(v, root, nil, v[r].right)| + 1
         <= |Subtree(v, root, nil, r)|
  {
    var A, B := SubtreeOr(v, root, nil, v[r].left), SubtreeOr(v, root, nil, v[r].right);
    forall n | n in A
      ensures n in Subtree(v, root, nil, r) && n != r && v[n].val < v[r].val
    {
      InSubtree(v, root, nil, n, v[r].left, r);
    }
    assert NodeOk(v, root, nil, r);
    forall n | n in B
      ensures n in Subtree(v, root, nil, r) && n != r && !(v[n].val < v[r].val)
    {
      InSubtree(v, root, nil, n, v[r].right, r);
    }
    assert A !! B && r !in A + B;
    assert |A + B + {r}| == |A| + |B| + 1;
    Subset(A + B + {r}, Subtree(v, root, nil, r));
  }

  /** A subtree holds at least 2^bh - 1 nodes. */
  lemma {:induction false} SizeBound(v: View, root: Node, nil: Node, r: Node)
    requires Shape(v, root, nil) && RB(v, root, nil) && r in v
    ensures v[r].bh >= 0 && Pow2(v[r].bh) <= |Subtree(v, root, nil, r)| + 1
    decreases Width(v[r])
  {
    assert NodeOk(v, root, nil, r) && HeightOk(v, nil, r);
    var a, b := v[r].left, v[r].right;
    if a != nil { assert NodeOk(v, root, nil, a); SizeBound(v, root, nil, a); }
    if b != nil { assert NodeOk(v, root, nil, b); SizeBound(v, root, nil, b); }
    SubtreeSize(v, root, nil, r);
  }

  lemma {:induction false} ChildBelow(v: View, root: Node, nil: Node, n: Node, c: Node, r: Node)
    requires Shape(v, root, nil) && n in v && c in v && v[c].parent == r && Below(v, root, nil, n, c)
    ensures Below(v, root, nil, n, r)
    decreases POS - NEG - Width(v[n])
  {
    assert NodeOk(v, root, nil, n) && NodeOk(v, root, nil, c);
    if n != c {
      assert NodeOk(v, root, nil, v[n].parent);
      ChildBelow(v, root, nil, v[n].parent, c, r);
    } else {
      assert Below(v, root, nil, r, r);
    }
  }

  lemma {:induction false} Subset<T>(a: set<T>, b: set<T>)
    requires a <= b
    ensures |a| <= |b|
  {
    assert b == a + (b - a);
  }

  /** height <= 2 log2(n + 1), written with powers. */
  lemma HeightBound(v: View, root: Node, nil: Node, n: Node)
    requires Shape(v, root, nil) && RB(v, root, nil) && n in v
    ensures Pow2((Depth(v, root, nil, n) + 1) / 2) <= |v| + 1
  {
    PathBound(v, root, nil, n);
    RootSize(v, root, nil);
    Pow2Mono((Depth(v, root, nil, n) + 1) / 2, v[root].bh);
  }

  lemma PathBound(v: View, root: Node, nil: Node, n: Node)
    requires Shape(v, root, nil) && RB(v, root, nil) && n in v
    ensures root in v && Depth(v, root, nil, n) <= 2 * v[root].bh
  {
    DepthBound(v, root, nil, n);
    assert HeightOk(v, nil, n);
  }

  lemma RootSize(v: View, root: Node, nil: Node)
    requires Shape(v, root, nil) && RB(v, root, nil) && root in v
    ensures v[root].bh >= 0 && Pow2(v[root].bh) <= |v| + 1
  {
    SizeBound(v, root, nil, root);
    SubtreeWithin(v, root, nil);
  }

  lemma SubtreeWithin(v: View, root: Node, nil: Node)
    requires Shape(v, root, nil)
    ensures |Subtree(v, root, nil, root)| <= |v|
  {
    Subset(Subtree(v, root, nil, root), v.Keys);
  }
}
