/** Queries and removal, as facts about views. */
module IBSQuery {
  import opened IBSTypes
  import opened IBSShape
  import opened IBSMarks
  import opened IBSColors
  import opened IBSInsert

  // ----- stabbing query

  /** The slot a stabbing walk for x reads at a node. */
  function Slot(r: Rec, x: int): set<Interval> {
    if x == r.val then r.equal else if x < r.val then r.less else r.greater
  }

  /** Whatever the walk at r has yet to pick up lies below r. */
  ghost predicate Pending(v: View, root: Node, nil: Node, r: Node, x: int, res: set<Interval>)
    requires Shape(v, root, nil)
  {
    forall n, i | n in v && MarksAt(v[n], x, i) && i !in res :: r != nil && Below(v, root, nil, n, r)
  }

  lemma PendingStart(v: View, root: Node, nil: Node, x: int, res: set<Interval>)
    requires Shape(v, root, nil)
    ensures Pending(v, root, nil, root, x, res)
  {
    forall n, i | n in v && MarksAt(v[n], x, i) && i !in res
      ensures Below(v, root, nil, n, root)
    {
      BelowRoot(v, root, nil, n);
    }
  }

  lemma PendingStep(v: View, root: Node, nil: Node, r: Node, x: int, res: set<Interval>)
    requires Shape(v, root, nil) && r in v && Pending(v, root, nil, r, x, res)
    ensures v[r].left != null && v[r].right != null
    ensures Pending(v, root, nil, if x < v[r].val then v[r].left else v[r].right, x, res + Slot(v[r], x))
  {
    hide Shape, Below;
    NodeHere(v, root, nil, r);
    var c := if x < v[r].val then v[r].left else v[r].right;
    forall n, i | n in v && MarksAt(v[n], x, i) && i !in res + Slot(v[r], x)
      ensures c != nil && Below(v, root, nil, n, c)
    {
      assert n != r;
      PathStep(v, root, nil, n, r, x);
    }
  }

  /** At the node of x itself the walk is over. */
  lemma PendingStop(v: View, root: Node, nil: Node, r: Node, x: int, res: set<Interval>)
    requires Shape(v, root, nil) && r in v && Pending(v, root, nil, r, x, res) && x == v[r].val
    ensures Pending(v, root, nil, nil, x, res + Slot(v[r], x))
  {
    hide Shape, Below;
    forall n, i | n in v && MarksAt(v[n], x, i)
      ensures i in res + Slot(v[r], x)
    {
      if i !in res && n != r {
        PathStep(v, root, nil, n, r, x);
      }
    }
  }

  lemma RootKnown(v: View, root: Node, nil: Node)
    requires Shape(v, root, nil)
    ensures root != nil ==> root in v && v[root].lo == NEG && v[root].hi == POS
  {
  }

  /** The live intervals that contain x. */
  ghost function Stab(live: set<Interval>, x: int): set<Interval> {
    set i | i in live && Contains(i, x)
  }

  /** The live intervals that a stab at x may return. */
  ghost function Findable(live: set<Interval>, x: int): set<Interval> {
    set i | i in live && Found(i, x)
  }

  /** No live interval can be picked up at MAX without cause. */
  ghost predicate NoneAtTop(live: set<Interval>) {
    forall i | i in live :: !ReachesTop(i)
  }

  lemma FindExact(v: View, root: Node, nil: Node, live: set<Interval>, x: int, out: set<Interval>, res: set<Interval>)
    requires Core(v, root, nil, live) && Complete(v, live) && Pending(v, root, nil, nil, x, res) && MIN <= x <= MAX
    requires out <= res && forall i | i in res && i !in out :: Covered(v, i, x)
    ensures out + Stab(live, x) <= res <= out + Findable(live, x)
  {
    hide Shape, Truthful, MarksFrom, Complete, Pending, Covered, Below;
    ExactFromMarks(v, live);
    forall i | i in live && Contains(i, x)
      ensures i in res
    {
      FindsAll(v, root, nil, live, x, i, res);
    }
  }

  /** A finished walk has picked up whatever covers x. */
  lemma FindsCovered(v: View, root: Node, nil: Node, x: int, res: set<Interval>)
    requires Shape(v, root, nil) && Pending(v, root, nil, nil, x, res)
    ensures forall i | Covered(v, i, x) :: i in res
  {
    hide Shape, Below;
  }

  /** Away from MAX, and at MAX if no live interval reaches there, only containment counts. */
  lemma FoundAlone(live: set<Interval>, x: int)
    ensures x < MAX || NoneAtTop(live) ==> Findable(live, x) == Stab(live, x)
  {
  }

  lemma FindsAll(v: View, root: Node, nil: Node, live: set<Interval>, x: int, i: Interval, res: set<Interval>)
    requires Shape(v, root, nil) && Complete(v, live) && Pending(v, root, nil, nil, x, res) && i in live
    requires Contains(i, x)
    ensures i in res
  {
    hide Shape, Below;
    assert Covered(v, i, x);
  }

  lemma SlotCovered(v: View, r: Node, x: int)
    requires r in v && v[r].lo < x < v[r].hi
    ensures forall i | i in Slot(v[r], x) :: Covered(v, i, x)
  {
    forall i | i in Slot(v[r], x)
      ensures Covered(v, i, x)
    {
      assert MarksAt(v[r], x, i);
    }
  }

  // ----- interval query

  /** Some point lies in both. */
  ghost predicate Overlaps(q: Interval, i: Interval) {
    exists x :: Contains(q, x) && Contains(i, x)
  }

  /** For proper intervals this is the usual comparison of endpoints. */
  lemma OverlapsByEndpoints(q: Interval, i: Interval)
    requires q.low < q.high && i.low < i.high
    ensures Overlaps(q, i) <==> q.low < i.high && i.low < q.high
  {
    if q.low < i.high && i.low < q.high {
      assert Contains(q, if q.low < i.low then i.low else q.low) && Contains(i, if q.low < i.low then i.low else q.low);
    }
  }

  /** What the query may take i for: a common point, unless the query stabs at MAX. */
  ghost predicate Answers(q: Interval, i: Interval) {
    Overlaps(q, i) || (q.low == MAX && ReachesTop(i))
  }

  predicate GoesLeft(r: Rec, q: Interval) { q.low < r.val }
  predicate GoesRight(r: Rec, q: Interval) { q.low > r.val || q.high > r.val }
  predicate TakesEqual(r: Rec, q: Interval) { (q.low <= r.val && q.high > r.val) || q.low == r.val == q.high }

  /** The query takes i from one of the mark sets of this node. */
  predicate Takes(r: Rec, q: Interval, i: Interval) {
    || (GoesLeft(r, q) && i in r.less)
    || (GoesRight(r, q) && i in r.greater)
    || (TakesEqual(r, q) && i in r.equal)
  }

  /** The query's extent reaches into the range of this node. */
  predicate Entered(r: Rec, q: Interval) {
    r.lo < (if Forward(q) then q.high else q.low) && q.low < r.hi
  }

  /** Every mark the query takes at a node it has entered belongs to an interval that answers it. */
  lemma TakenOverlap(r: Rec, q: Interval, i: Interval)
    requires NEG <= r.lo < r.val < r.hi <= POS && TruthfulRec(r) && Entered(r, q) && Storable(q)
    requires Takes(r, q, i)
    ensures Answers(q, i)
  {
    if q.low < MAX || !ReachesTop(i) {
      var x := if TakesEqual(r, q) && i in r.equal then r.val else if q.low < i.low then i.low else q.low;
      assert Contains(q, x) && Contains(i, x);
    }
  }

  /** All that the query must still find below r. */
  ghost predicate Gathered(v: View, root: Node, nil: Node, r: Node, q: Interval, res: set<Interval>)
    requires Shape(v, root, nil)
  {
    r != nil ==>
      forall n, i, x | n in v && Contains(q, x) && MarksAt(v[n], x, i) && Below(v, root, nil, n, r) :: i in res
  }

  lemma GatherNode(v: View, root: Node, nil: Node, r: Node, q: Interval, res: set<Interval>)
    requires Shape(v, root, nil) && r in v && Forward(q)
    requires GoesLeft(v[r], q) ==> v[r].less <= res && v[r].left != null && Gathered(v, root, nil, v[r].left, q, res)
    requires GoesRight(v[r], q) ==>
      v[r].greater <= res && v[r].right != null && Gathered(v, root, nil, v[r].right, q, res)
    requires TakesEqual(v[r], q) ==> v[r].equal <= res
    ensures Gathered(v, root, nil, r, q, res)
  {
    forall n, i, x | n in v && Contains(q, x) && MarksAt(v[n], x, i) && Below(v, root, nil, n, r)
      ensures i in res
    {
      if n != r {
        PathStep(v, root, nil, n, r, x);
      }
    }
  }

  /** The query's extent reaches into the subtrees it descends into. */
  lemma Descends(v: View, root: Node, nil: Node, r: Node, q: Interval)
    requires Shape(v, root, nil) && r in v && Entered(v[r], q)
    ensures v[r].left != null && v[r].right != null
    ensures GoesLeft(v[r], q) ==> v[r].left == nil || (v[r].left in v && Entered(v[v[r].left], q))
    ensures GoesRight(v[r], q) ==> v[r].right == nil || (v[r].right in v && Entered(v[v[r].right], q))
  {
    hide Shape;
    NodeHere(v, root, nil, r);
  }

  lemma GatherNil(v: View, root: Node, nil: Node, q: Interval, res: set<Interval>)
    requires Shape(v, root, nil)
    ensures Gathered(v, root, nil, nil, q, res)
  {
  }

  lemma GatherMore(v: View, root: Node, nil: Node, r: Node, q: Interval, a: set<Interval>, b: set<Interval>)
    requires Shape(v, root, nil) && Gathered(v, root, nil, r, q, a) && a <= b
    ensures Gathered(v, root, nil, r, q, b)
  {
  }

  /** Everything the query takes at a node is live and answers it. */
  lemma TakenAll(v: View, root: Node, nil: Node, live: set<Interval>, r: Node, q: Interval)
    requires Core(v, root, nil, live) && r in v && Entered(v[r], q) && Storable(q)
    ensures GoesLeft(v[r], q) ==> forall i | i in v[r].less :: Answers(q, i) && i in live
    ensures GoesRight(v[r], q) ==> forall i | i in v[r].greater :: Answers(q, i) && i in live
    ensures TakesEqual(v[r], q) ==> forall i | i in v[r].equal :: Answers(q, i) && i in live
  {
    hide Answers;
    assert NodeOk(v, root, nil, r) && TruthfulRec(v[r]);
    forall i | Takes(v[r], q, i)
      ensures Answers(q, i) && i in live
    {
      TakenOverlap(v[r], q, i);
    }
  }

  /** The live intervals that share a point with q. */
  ghost function Met(live: set<Interval>, q: Interval): set<Interval> {
    set i | i in live && Overlaps(q, i)
  }

  ghost function Answering(live: set<Interval>, q: Interval): set<Interval> {
    set i | i in live && Answers(q, i)
  }

  /** The query result is the union of the stabbing results over the query's points. */
  lemma OverlapExact(v: View, root: Node, nil: Node, live: set<Interval>, q: Interval, out: set<Interval>,
      res: set<Interval>)
    requires Core(v, root, nil, live) && Complete(v, live) && (Forward(q) ==> Gathered(v, root, nil, root, q, res))
    requires out <= res
    requires forall i | i in res && i !in out :: Answers(q, i) && i in live
    ensures res <= out + Answering(live, q) && (Forward(q) ==> out + Met(live, q) <= res)
  {
    forall i | i in live && Overlaps(q, i) && Forward(q)
      ensures i in res
    {
      var x :| Contains(q, x) && Contains(i, x);
      assert Covered(v, i, x);
      var n: Node :| n in v && MarksAt(v[n], x, i);
      BelowRoot(v, root, nil, n);
    }
  }

  lemma AnswersAlone(live: set<Interval>, q: Interval)
    requires Storable(q)
    ensures q.low < MAX || NoneAtTop(live) ==> Answering(live, q) == Met(live, q)
  {
  }

  // ----- removal

  /** From v to w only marks of i may have disappeared, and no `equal` mark if i runs backwards. */
  ghost predicate ErasedRec(a: Rec, b: Rec, i: Interval) {
    && b == a.(less := b.less, equal := b.equal, greater := b.greater) && (Forward(i) || b.equal == a.equal)
    && a.less - {i} <= b.less <= a.less && a.equal - {i} <= b.equal <= a.equal
    && a.greater - {i} <= b.greater <= a.greater
  }

  ghost predicate Erased(v: View, w: View, i: Interval) {
    v.Keys == w.Keys && forall n | n in v :: ErasedRec(v[n], w[n], i)
  }

  /** No mark of i is left here, except in a slot that is never consulted, or if i runs backwards. */
  ghost predicate CleanRec(r: Rec, i: Interval) {
    && (i in r.equal ==> !Forward(i))
    && (i in r.greater ==> r.val == MAX == i.high)
    && (i in r.less ==> r.val == MIN == i.low)
  }

  ghost predicate Clean(v: View, w: View, root: Node, nil: Node, r: Node, i: Interval)
    requires Shape(v, root, nil)
  {
    r != nil ==> forall n | n in v && n in w && Below(v, root, nil, n, r) :: CleanRec(w[n], i)
  }

  /** A node below r that carries i lies on the side the removal descends into. */
  lemma CleanNode(v: View, w: View, root: Node, nil: Node, r: Node, i: Interval)
    requires Shape(v, root, nil) && Truthful(v) && Erased(v, w, i) && r in v && Storable(i) && v[r].left != null
    requires v[r].right != null
    requires GoesLeft(v[r], i) ==> i !in w[r].less && Clean(v, w, root, nil, v[r].left, i)
    requires GoesRight(v[r], i) ==> i !in w[r].greater && Clean(v, w, root, nil, v[r].right, i)
    requires TakesEqual(v[r], i) ==> i !in w[r].equal
    ensures Clean(v, w, root, nil, r, i)
  {
    hide Shape, Below;
    forall n | n in v && n in w && Below(v, root, nil, n, r)
      ensures CleanRec(w[n], i)
    {
      NodeHere(v, root, nil, n);
      NodeTrue(v, n);
      ErasedAt(v, w, i, n);
      if n == r {
        CleanHere(v[r], w[r], i);
      } else {
        PathStep(v, root, nil, n, r, v[n].val);
        CleanSide(v, w, root, nil, r, i, n);
      }
    }
  }

  lemma CleanHere(a: Rec, b: Rec, i: Interval)
    requires NEG <= a.lo < a.val < a.hi <= POS && TruthfulRec(a) && ErasedRec(a, b, i) && Storable(i)
    requires (GoesLeft(a, i) ==> i !in b.less) && (GoesRight(a, i) ==> i !in b.greater)
    requires TakesEqual(a, i) ==> i !in b.equal
    ensures CleanRec(b, i)
  {
  }

  lemma CleanSide(v: View, w: View, root: Node, nil: Node, r: Node, i: Interval, n: Node)
    requires Shape(v, root, nil) && Erased(v, w, i) && r in v && n in v && n in w && Storable(i) && v[r].left != null
    requires v[r].right != null
    requires GoesLeft(v[r], i) ==> Clean(v, w, root, nil, v[r].left, i)
    requires GoesRight(v[r], i) ==> Clean(v, w, root, nil, v[r].right, i)
    requires TruthfulRec(v[n]) && ErasedRec(v[n], w[n], i) && NodeOk(v, root, nil, n) && v[n].val != v[r].val
    requires v[n].val < v[r].val ==> v[r].left in v && v[r].left != nil && Below(v, root, nil, n, v[r].left)
    requires v[n].val > v[r].val ==> v[r].right in v && v[r].right != nil && Below(v, root, nil, n, v[r].right)
    ensures CleanRec(w[n], i)
  {
    hide Shape, Below, Erased;
    NodeHere(v, root, nil, r);
    var c := if v[n].val < v[r].val then v[r].left else v[r].right;
    NodeHere(v, root, nil, c);
    BelowRange(v, root, nil, n, c);
    if v[n].val < v[r].val && GoesLeft(v[r], i) {
      assert CleanRec(w[n], i);
    } else if v[n].val > v[r].val && GoesRight(v[r], i) {
      assert CleanRec(w[n], i);
    }
  }

  lemma ErasedRefl(v: View, i: Interval)
    ensures Erased(v, v, i)
  {
  }

  lemma ErasedAt(v: View, w: View, i: Interval, r: Node)
    requires Erased(v, w, i) && (r in v || r in w)
    ensures r in v && r in w && ErasedRec(v[r], w[r], i)
  {
  }

  lemma CleanNil(v: View, w: View, root: Node, nil: Node, i: Interval)
    requires Shape(v, root, nil)
    ensures Clean(v, w, root, nil, nil, i)
  {
  }

  lemma CleanMore(v: View, a: View, b: View, root: Node, nil: Node, r: Node, i: Interval)
    requires Shape(v, root, nil) && Clean(v, a, root, nil, r, i) && Erased(a, b, i)
    ensures Clean(v, b, root, nil, r, i)
  {
    if r != nil {
      forall n | n in v && n in b && Below(v, root, nil, n, r)
        ensures CleanRec(b[n], i)
      {
        ErasedAt(a, b, i, n);
        assert CleanRec(a[n], i);
      }
    }
  }

  lemma RemovalColors(v: View, w: View, root: Node, nil: Node, i: Interval)
    requires RB(v, root, nil) && Erased(v, w, i)
    ensures RB(w, root, nil)
  {
    assert SameTree(v, w) by {
      forall n | n in v
        ensures SameTreeRec(v[n], w[n])
      {
        ErasedAt(v, w, i, n);
      }
    }
    ColorsKeepRB(v, w, root, nil, nil);
  }

  lemma RemovalClean(v: View, w: View, root: Node, nil: Node, i: Interval)
    requires Shape(v, root, nil) && Erased(v, w, i) && Clean(v, w, root, nil, root, i)
    ensures forall n | n in w :: CleanRec(w[n], i)
  {
    forall n | n in w
      ensures CleanRec(w[n], i)
    {
      ErasedAt(v, w, i, n);
      BelowRoot(v, root, nil, n);
    }
  }

  lemma ErasedTrans(u: View, v: View, w: View, i: Interval)
    requires Erased(u, v, i) && Erased(v, w, i)
    ensures Erased(u, w, i)
  {
    forall n | n in u
      ensures ErasedRec(u[n], w[n], i)
    {
      assert ErasedRec(u[n], v[n], i) && ErasedRec(v[n], w[n], i);
    }
  }

  /** What a finished removal leaves: every other interval is found as before, i nowhere. */
  lemma RemovalKeeps(v: View, w: View, root: Node, nil: Node, live: set<Interval>, i: Interval)
    requires Core(v, root, nil, live) && Complete(v, live) && Erased(v, w, i) && Clean(v, w, root, nil, root, i)
    requires Forward(i)
    ensures Core(w, root, nil, live - {i}) && Complete(w, live - {i})
  {
    hide Shape, Below, Covered;
    RemovalShape(v, w, root, nil, i);
    RemovalClean(v, w, root, nil, i);
    RemovalMarks(v, w, live, i);
    forall j, x | j in live - {i} && Contains(j, x)
      ensures Covered(w, j, x)
    {
      RemovalStabs(v, w, i, j, x);
    }
  }

  lemma RemovalMarks(v: View, w: View, live: set<Interval>, i: Interval)
    requires Truthful(v) && MarksFrom(v, live) && Erased(v, w, i) && Forward(i)
    requires forall n | n in w :: CleanRec(w[n], i)
    ensures Truthful(w) && MarksFrom(w, live - {i})
  {
    forall n | n in w
      ensures TruthfulRec(w[n]) && w[n].equal <= live - {i} && (w[n].val < MAX ==> w[n].greater <= live - {i})
      ensures w[n].val > MIN ==> w[n].less <= live - {i}
    {
      assert TruthfulRec(v[n]) && ErasedRec(v[n], w[n], i) && CleanRec(w[n], i);
    }
  }

  /** An interval that runs backwards has only `equal` marks, so its removal changes nothing. */
  lemma RemovalOfBackward(v: View, w: View, root: Node, nil: Node, i: Interval)
    requires Shape(v, root, nil) && Truthful(v) && Erased(v, w, i) && !Forward(i)
    ensures w == v
  {
    forall n | n in v
      ensures w[n] == v[n]
    {
      assert NodeOk(v, root, nil, n) && TruthfulRec(v[n]) && ErasedRec(v[n], w[n], i);
    }
  }

  /** Any other interval is picked up wherever it was. */
  lemma RemovalStabs(v: View, w: View, i: Interval, j: Interval, x: int)
    requires Erased(v, w, i) && j != i && Covered(v, j, x)
    ensures Covered(w, j, x)
  {
    var n: Node :| n in v && MarksAt(v[n], x, j);
    assert ErasedRec(v[n], w[n], i);
    assert MarksAt(w[n], x, j);
  }

  lemma RemovalShape(v: View, w: View, root: Node, nil: Node, i: Interval)
    requires Shape(v, root, nil) && Erased(v, w, i)
    ensures Shape(w, root, nil)
  {
    assert SameLinks(v, w) by {
      forall n | n in v
        ensures SameLinksRec(v[n], w[n])
      {
        assert ErasedRec(v[n], w[n], i);
      }
    }
    LinksKeepShape(v, w, root, nil);
  }

  // ----- successor query

  /** The intervals recorded at a node as starting there. */
  function StartsAt(r: Rec): set<Interval> {
    set i | i in r.equal && i.low == r.val
  }

  lemma StartsHere(r: Rec)
    ensures StartsAt(r) == set i | i in r.equal && i.low == r.val
  {
  }

  /** A live interval that starts above MIN is recorded at the node of its low endpoint. */
  lemma StartHasNode(v: View, root: Node, nil: Node, live: set<Interval>, i: Interval) returns (m: Node)
    requires Core(v, root, nil, live) && Complete(v, live) && i in live && Storable(i) && i.low > MIN
    ensures m in v && v[m].val == i.low && i in StartsAt(v[m])
  {
    assert Contains(i, i.low);
    m :| m in v && MarksAt(v[m], i.low, i);
    assert TruthfulRec(v[m]) && NodeOk(v, root, nil, m);
  }

  lemma StartsLive(v: View, live: set<Interval>, m: Node)
    requires MarksFrom(v, live) && m in v
    ensures StartsAt(v[m]) <= live
  {
  }

  /** The nodes still to be visited in order: the path's pending ancestors, greatest first. */
  ghost predicate ChainOk(v: View, chain: seq<Node>, upto: int) {
    && (forall k | 0 <= k < |chain| :: chain[k] in v && v[chain[k]].val > upto)
    && (forall k | 0 < k < |chain| :: v[chain[k]].hi <= v[chain[k - 1]].val)
  }

  /** m is c itself or lies to the right below it. */
  ghost predicate Hangs(v: View, root: Node, nil: Node, c: Node, m: Node)
    requires Shape(v, root, nil) && m in v && c in v
  {
    m == c || (v[c].right != nil && v[c].right in v && Below(v, root, nil, m, v[c].right))
  }

  /** m is still ahead of the traversal. */
  ghost predicate Ahead(v: View, root: Node, nil: Node, n: Node, chain: seq<Node>, m: Node)
    requires Shape(v, root, nil) && m in v && forall k | 0 <= k < |chain| :: chain[k] in v
  {
    || (n != nil && Below(v, root, nil, m, n))
    || (exists k | 0 <= k < |chain| :: Hangs(v, root, nil, chain[k], m))
  }

  /** Endpoint nodes in (x, upto] have been visited, those above upto are ahead. */
  ghost predicate Traversal(v: View, root: Node, nil: Node, x: int, upto: int, n: Node, chain: seq<Node>)
    requires Shape(v, root, nil)
  {
    && x <= upto && ChainOk(v, chain, upto)
    && (n != nil ==> n in v && (upto == x || upto <= v[n].lo) && (|chain| > 0 ==> v[n].hi <= v[chain[|chain| - 1]].val))
    && (forall m | m in v && v[m].val > upto :: Ahead(v, root, nil, n, chain, m))
    && (forall m | m in v && x < v[m].val <= upto :: StartsAt(v[m]) == {})
  }

  lemma TraversalStart(v: View, root: Node, nil: Node, x: int)
    requires Shape(v, root, nil)
    ensures Traversal(v, root, nil, x, x, root, [])
  {
    forall m | m in v && v[m].val > x
      ensures Ahead(v, root, nil, root, [], m)
    {
      BelowRoot(v, root, nil, m);
    }
  }

  lemma TraversalRight(v: View, root: Node, nil: Node, x: int, upto: int, n: Node, chain: seq<Node>)
    requires Shape(v, root, nil) && Traversal(v, root, nil, x, upto, n, chain) && n in v && n != nil && x >= v[n].val
    ensures v[n].right != null && Traversal(v, root, nil, x, upto, v[n].right, chain)
  {
    assert NodeOk(v, root, nil, n);
    forall m | m in v && v[m].val > upto
      ensures Ahead(v, root, nil, v[n].right, chain, m)
    {
      assert Ahead(v, root, nil, n, chain, m) && NodeOk(v, root, nil, m);
      if Below(v, root, nil, m, n) {
        PathStep(v, root, nil, m, n, v[m].val);
      }
    }
    if v[n].right != nil { assert NodeOk(v, root, nil, v[n].right); }
  }

  lemma TraversalLeft(v: View, root: Node, nil: Node, x: int, upto: int, n: Node, chain: seq<Node>)
    requires Shape(v, root, nil) && Traversal(v, root, nil, x, upto, n, chain) && n in v && n != nil && x < v[n].val
    ensures v[n].left != null && Traversal(v, root, nil, x, upto, v[n].left, chain + [n])
  {
    hide Ahead, Shape, StartsAt;
    NodeHere(v, root, nil, n);
    var c := chain + [n];
    assert forall k | 0 <= k < |chain| :: c[k] == chain[k];
    forall m | m in v && v[m].val > upto
      ensures Ahead(v, root, nil, v[n].left, c, m)
    {
      AheadLeft(v, root, nil, n, chain, m);
    }
  }

  lemma AheadLeft(v: View, root: Node, nil: Node, n: Node, chain: seq<Node>, m: Node)
    requires Shape(v, root, nil) && m in v && n in v && n != nil && forall k | 0 <= k < |chain| :: chain[k] in v
    requires Ahead(v, root, nil, n, chain, m)
    ensures v[n].left != null && Ahead(v, root, nil, v[n].left, chain + [n], m)
  {
    NodeHere(v, root, nil, n);
    NodeHere(v, root, nil, m);
    var c := chain + [n];
    if Below(v, root, nil, m, n) {
      if m != n { PathStep(v, root, nil, m, n, v[m].val); }
      assert c[|chain|] == n;
    } else {
      var k :| 0 <= k < |chain| && Hangs(v, root, nil, chain[k], m);
      assert c[k] == chain[k];
    }
  }

  /** With nothing left to descend into, the top of the chain is the next endpoint. */
  lemma TraversalNext(v: View, root: Node, nil: Node, x: int, upto: int, chain: seq<Node>, m: Node)
    requires Shape(v, root, nil) && Traversal(v, root, nil, x, upto, nil, chain) && m in v && v[m].val > upto
    ensures |chain| > 0 && v[chain[|chain| - 1]].val <= v[m].val
  {
    assert Ahead(v, root, nil, nil, chain, m);
    var k :| 0 <= k < |chain| && Hangs(v, root, nil, chain[k], m);
    ChainOrder(v, root, nil, chain, upto, k);
    assert NodeOk(v, root, nil, chain[k]) && NodeOk(v, root, nil, m);
    if m != chain[k] { BelowRange(v, root, nil, m, v[chain[k]].right); }
  }

  lemma {:induction false} ChainOrder(v: View, root: Node, nil: Node, chain: seq<Node>, upto: int, k: nat)
    requires Shape(v, root, nil) && ChainOk(v, chain, upto) && k < |chain|
    ensures v[chain[|chain| - 1]].val <= v[chain[k]].val
    decreases |chain| - k
  {
    if k + 1 < |chain| {
      assert NodeOk(v, root, nil, chain[k + 1]);
      ChainOrder(v, root, nil, chain, upto, k + 1);
    }
  }

  /** An endpoint where nothing starts is passed over. */
  lemma TraversalPop(v: View, root: Node, nil: Node, x: int, upto: int, chain: seq<Node>)
    requires Shape(v, root, nil) && Traversal(v, root, nil, x, upto, nil, chain) && |chain| > 0
    requires StartsAt(v[chain[|chain| - 1]]) == {}
    ensures var t := chain[|chain| - 1];
      v[t].right != null && v[t].val > upto && Traversal(v, root, nil, x, v[t].val, v[t].right, chain[..|chain| - 1])
  {
    hide Ahead, Shape, StartsAt;
    var t, c := chain[|chain| - 1], chain[..|chain| - 1];
    NodeHere(v, root, nil, t);
    ChainPop(v, root, nil, chain, upto);
    forall m | m in v && v[m].val > v[t].val
      ensures Ahead(v, root, nil, v[t].right, c, m)
    {
      AheadPop(v, root, nil, chain, m);
    }
    forall m | m in v && x < v[m].val <= v[t].val
      ensures StartsAt(v[m]) == {}
    {
      if v[m].val > upto {
        TraversalNext(v, root, nil, x, upto, chain, m);
        KeysDistinct(v, root, nil, m, t);
      }
    }
  }

  lemma ChainPop(v: View, root: Node, nil: Node, chain: seq<Node>, upto: int)
    requires Shape(v, root, nil) && ChainOk(v, chain, upto) && |chain| > 0
    ensures ChainOk(v, chain[..|chain| - 1], v[chain[|chain| - 1]].val)
  {
    var t, c := chain[|chain| - 1], chain[..|chain| - 1];
    forall k | 0 <= k < |c|
      ensures c[k] in v && v[c[k]].val > v[t].val
    {
      ChainOrder(v, root, nil, chain, upto, k + 1);
      assert chain[k + 1] in v && NodeOk(v, root, nil, chain[k + 1]);
      assert c[k] == chain[k + 1 - 1];
    }
  }

  lemma AheadPop(v: View, root: Node, nil: Node, chain: seq<Node>, m: Node)
    requires Shape(v, root, nil) && m in v && |chain| > 0 && forall k | 0 <= k < |chain| :: chain[k] in v
    requires Ahead(v, root, nil, nil, chain, m) && m != chain[|chain| - 1]
    ensures v[chain[|chain| - 1]].right != null
    ensures Ahead(v, root, nil, v[chain[|chain| - 1]].right, chain[..|chain| - 1], m)
  {
    var t, c := chain[|chain| - 1], chain[..|chain| - 1];
    NodeHere(v, root, nil, t);
    var k :| 0 <= k < |chain| && Hangs(v, root, nil, chain[k], m);
    if k < |c| { assert c[k] == chain[k]; }
  }

  lemma TraversalTop(v: View, root: Node, nil: Node, x: int, upto: int, chain: seq<Node>)
    requires Shape(v, root, nil) && Traversal(v, root, nil, x, upto, nil, chain) && |chain| > 0
    ensures chain[|chain| - 1] in v && v[chain[|chain| - 1]].val > x
  {
  }

  /** i is a live interval with the least low endpoint above x. */
  ghost predicate IsNext(live: set<Interval>, x: int, i: Interval) {
    i in live && i.low > x && forall j | j in live && j.low > x :: i.low <= j.low
  }

  /** Intervals starting at the next endpoint node that has any are exactly the successors of x. */
  lemma NextFound(v: View, root: Node, nil: Node, live: set<Interval>, x: int, upto: int, chain: seq<Node>, i: Interval)
    requires Core(v, root, nil, live) && Complete(v, live) && MIN <= x && forall j | j in live :: Storable(j)
    requires Traversal(v, root, nil, x, upto, nil, chain) && |chain| > 0 && StartsAt(v[chain[|chain| - 1]]) != {}
    ensures i in StartsAt(v[chain[|chain| - 1]]) <==> IsNext(live, x, i)
  {
    hide Shape, Truthful, Complete, ChainOk, Ahead;
    var t := chain[|chain| - 1];
    TraversalTop(v, root, nil, x, upto, chain);
    forall j | j in live && j.low > x
      ensures v[t].val <= j.low && (j.low == v[t].val ==> j in StartsAt(v[t]))
    {
      var m := StartHasNode(v, root, nil, live, j);
      NotYet(v, root, nil, x, upto, chain, m, j);
      TraversalNext(v, root, nil, x, upto, chain, m);
      if v[m].val == v[t].val { KeysDistinct(v, root, nil, m, t); }
    }
    var s :| s in StartsAt(v[t]);
    assert s in live && s.low == v[t].val;
  }

  lemma NotYet(v: View, root: Node, nil: Node, x: int, upto: int, chain: seq<Node>, m: Node, i: Interval)
    requires Shape(v, root, nil) && Traversal(v, root, nil, x, upto, nil, chain) && m in v && v[m].val > x
    requires i in StartsAt(v[m])
    ensures v[m].val > upto
  {
    hide Shape, ChainOk, Ahead;
  }

  lemma NoneFound(v: View, root: Node, nil: Node, live: set<Interval>, x: int, upto: int, i: Interval)
    requires Core(v, root, nil, live) && Complete(v, live) && MIN <= x && forall j | j in live :: Storable(j)
    requires Traversal(v, root, nil, x, upto, nil, [])
    ensures !IsNext(live, x, i)
  {
    if i in live && i.low > x {
      var m := StartHasNode(v, root, nil, live, i);
      if v[m].val > upto { TraversalNext(v, root, nil, x, upto, [], m); }
    }
  }

  /** n is the first endpoint node above x. */
  ghost predicate FirstNode(v: View, x: int, n: Node) {
    n in v && v[n].val > x && forall m | m in v && v[m].val > x :: v[n].val <= v[m].val
  }

  ghost function Starting(live: set<Interval>, low: int): set<Interval> {
    set i | i in live && i.low == low
  }

  /** What successor leaves in the caller's set: the successors of x; but if the set was not empty, just the
   *  intervals starting at the first endpoint node above x, of which there may be none. */
  ghost predicate SuccessorOf(v: View, live: set<Interval>, x: int, out: set<Interval>, res: set<Interval>) {
    && (out == {} ==> forall i :: i in res <==> IsNext(live, x, i))
    && (out != {} ==> forall n | n in v && FirstNode(v, x, n) :: res == out + Starting(live, v[n].val))
    && ((forall n | n in v :: v[n].val <= x) ==> res == out)
  }

  lemma SuccessorFound(v: View, root: Node, nil: Node, live: set<Interval>, x: int, upto: int, chain: seq<Node>,
      out: set<Interval>)
    requires Core(v, root, nil, live) && Complete(v, live) && MIN <= x && forall j | j in live :: Storable(j)
    requires Traversal(v, root, nil, x, upto, nil, chain) && |chain| > 0
    requires if out == {} then StartsAt(v[chain[|chain| - 1]]) != {} else upto == x
    ensures SuccessorOf(v, live, x, out, out + StartsAt(v[chain[|chain| - 1]]))
  {
    hide Shape, Truthful, MarksFrom, Complete, Traversal, IsNext;
    var t := chain[|chain| - 1];
    TraversalTop(v, root, nil, x, upto, chain);
    if out == {} {
      forall i ensures i in StartsAt(v[t]) <==> IsNext(live, x, i) { NextFound(v, root, nil, live, x, upto, chain, i); }
      assert out + StartsAt(v[t]) == StartsAt(v[t]);
    } else {
      StartingIs(v, root, nil, live, t);
      forall n | n in v && FirstNode(v, x, n)
        ensures v[n].val == v[t].val
      {
        TraversalNext(v, root, nil, x, upto, chain, n);
      }
    }
  }

  lemma StartingIs(v: View, root: Node, nil: Node, live: set<Interval>, t: Node)
    requires Core(v, root, nil, live) && Complete(v, live) && t in v && v[t].val > MIN
    requires forall j | j in live :: Storable(j)
    ensures StartsAt(v[t]) == Starting(live, v[t].val)
  {
    hide Shape, Truthful, Complete;
    StartsLive(v, live, t);
    forall i | i in Starting(live, v[t].val)
      ensures i in StartsAt(v[t])
    {
      var m := StartHasNode(v, root, nil, live, i);
      KeysDistinct(v, root, nil, m, t);
    }
  }

  lemma SuccessorNone(v: View, root: Node, nil: Node, live: set<Interval>, x: int, upto: int, out: set<Interval>)
    requires Core(v, root, nil, live) && Complete(v, live) && MIN <= x && forall j | j in live :: Storable(j)
    requires Traversal(v, root, nil, x, upto, nil, []) && (out == {} || upto == x)
    ensures SuccessorOf(v, live, x, out, out)
  {
    hide Shape, Truthful, MarksFrom, Complete, Traversal, IsNext;
    forall i ensures !IsNext(live, x, i) { NoneFound(v, root, nil, live, x, upto, i); }
    if out != {} {
      forall n | n in v
        ensures v[n].val <= x
      {
        if v[n].val > x { TraversalNext(v, root, nil, x, upto, [], n); }
      }
    }
  }
}
