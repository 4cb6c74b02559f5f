/** The two-part interval index: intervals that met no other are kept in a plain sorted set. */
module IBSTreesFast {
  import opened Basics
  import opened IBSTypes
  import opened IBSMarks
  import opened IBSQuery
  import opened IBSTrees

  /** The order of the sorted set: by high, then low, then address. */
  predicate Less(a: Interval, b: Interval) {
    a.high < b.high || (a.high == b.high && (a.low < b.low || (a.low == b.low && a.id < b.id)))
  }

  ghost predicate Sorted(u: seq<Interval>) {
    forall i, j | 0 <= i < j < |u| :: Less(u[i], u[j])
  }

  /** Each interval ends before the next begins. */
  ghost predicate Apart(u: seq<Interval>) {
    forall i, j | 0 <= i < j < |u| :: u[i].high <= u[j].low
  }

  ghost predicate AllStorable(u: seq<Interval>) {
    forall i | 0 <= i < |u| :: Storable(u[i]) && Forward(u[i])
  }

  /** No point lies in two of the intervals. */
  lemma ApartMeansDisjoint(u: seq<Interval>, i: nat, j: nat, x: int)
    requires Apart(u) && i < j < |u| && u[i].low <= x < u[i].high
    ensures !(u[j].low <= x < u[j].high)
  {
    assert u[i].high <= u[j].low;
  }

  /** The first place whose high end is above x. */
  method UpperBound(u: seq<Interval>, x: int) returns (k: nat)
    requires Sorted(u)
    ensures k <= |u| && (forall i | 0 <= i < k :: u[i].high <= x) && (forall i | k <= i < |u| :: u[i].high > x)
  {
    k := 0;
    while k < |u| && u[k].high <= x
      invariant k <= |u| && forall i | 0 <= i < k :: u[i].high <= x
    {
      k := k + 1;
    }
  }

  /** The first place whose high end is not below x. */
  method LowerBound(u: seq<Interval>, x: int) returns (k: nat)
    requires Sorted(u)
    ensures k <= |u| && (forall i | 0 <= i < k :: u[i].high < x) && (forall i | k <= i < |u| :: u[i].high >= x)
  {
    k := 0;
    while k < |u| && u[k].high < x
      invariant k <= |u| && forall i | 0 <= i < k :: u[i].high < x
    {
      k := k + 1;
    }
  }

  lemma LessOrder(a: Interval, b: Interval, c: Interval)
    ensures Less(a, b) && Less(b, c) ==> Less(a, c)
    ensures a == b || Less(a, b) || Less(b, a)
  {
  }

  method SetInsert(u: seq<Interval>, e: Interval) returns (w: seq<Interval>)
    requires Sorted(u)
    ensures Sorted(w) && Elements(w) == Elements(u) + {e}
  {
    hide Less, Elements, Sorted;
    var k := 0;
    while k < |u| && Less(u[k], e)
      invariant k <= |u| && forall i | 0 <= i < k :: Less(u[i], e)
    {
      k := k + 1;
    }
    if k < |u| { LessOrder(u[k], e, e); }
    if k < |u| && u[k] == e {
      w := u;
      AlreadyIn(u, k);
    } else {
      w := u[..k] + [e] + u[k..];
      SortedInsert(u, k, e);
      ElementsInsert(u, k, e);
    }
  }

  lemma AlreadyIn(u: seq<Interval>, k: nat)
    requires k < |u|
    ensures Elements(u) == Elements(u) + {u[k]}
  {
  }

  lemma SortedInsert(u: seq<Interval>, k: nat, e: Interval)
    requires Sorted(u) && k <= |u| && (forall i | 0 <= i < k :: Less(u[i], e)) && (k < |u| ==> Less(e, u[k]))
    ensures Sorted(u[..k] + [e] + u[k..])
  {
    hide Less;
    forall j | k < j < |u| ensures Less(e, u[j]) { LessOrder(e, u[k], u[j]); }
  }

  lemma ElementsInsert(u: seq<Interval>, k: nat, e: Interval)
    requires k <= |u|
    ensures Elements(u[..k] + [e] + u[k..]) == Elements(u) + {e}
  {
    ElementsSplit(u, k);
  }

  lemma ElementsSplit(u: seq<Interval>, k: nat)
    requires k <= |u|
    ensures Elements(u) == Elements(u[..k]) + Elements(u[k..])
  {
    assert u == u[..k] + u[k..];
  }

  /** Taking a stretch out leaves the rest in order and apart. */
  lemma CutOut(u: seq<Interval>, a: nat, b: nat)
    requires Sorted(u) && Apart(u) && AllStorable(u) && a <= b <= |u|
    ensures Sorted(u[..a] + u[b..]) && Apart(u[..a] + u[b..]) && AllStorable(u[..a] + u[b..])
    ensures Elements(u) == Elements(u[..a] + u[b..]) + Elements(u[a..b])
    ensures Elements(u[..a] + u[b..]) !! Elements(u[a..b])
  {
    hide Less, Storable;
    assert u == u[..a] + u[a..b] + u[b..];
    SortedDistinct(u);
  }

  lemma SortedDistinct(u: seq<Interval>)
    requires Sorted(u)
    ensures forall i, j | 0 <= i < j < |u| :: u[i] != u[j]
  {
    forall i, j | 0 <= i < j < |u| ensures u[i] != u[j] { assert Less(u[i], u[j]); }
  }

  /** An interval that meets none of u fits between them. */
  lemma ApartInsert(u: seq<Interval>, w: seq<Interval>, e: Interval)
    requires Apart(u) && Sorted(w) && Elements(w) == Elements(u) + {e} && AllStorable(u) && Storable(e) && Forward(e)
    requires forall i | i in u :: i.high <= e.low || e.high < i.low
    ensures Apart(w) && AllStorable(w)
  {
    forall i, j | 0 <= i < j < |w|
      ensures w[i].high <= w[j].low
    {
      assert w[i] in Elements(w) && w[j] in Elements(w) && Less(w[i], w[j]);
      if w[i] != e && w[j] != e {
        var a :| 0 <= a < |u| && u[a] == w[i];
        var b :| 0 <= b < |u| && u[b] == w[j];
      }
    }
    forall i | 0 <= i < |w| ensures Storable(w[i]) && Forward(w[i]) { assert w[i] in Elements(w); }
  }

  lemma NoElements()
    ensures Elements([]) == {}
  {
  }

  lemma OneMore(u: seq<Interval>, a: nat, b: nat)
    requires a <= b < |u|
    ensures Elements(u[a..b + 1]) == Elements(u[a..b]) + {u[b]}
  {
    assert u[a..b + 1] == u[a..b] + [u[b]];
  }

  /** The intervals before `lower` end below the entry, those from it on begin above. */
  lemma FarApart(u: seq<Interval>, lower: nat, e: Interval)
    requires Apart(u) && AllStorable(u) && lower <= |u| && (forall i | 0 <= i < lower :: u[i].high <= e.low)
    requires lower < |u| ==> u[lower].low > e.high
    ensures forall i | i in u :: i.high <= e.low || e.high < i.low
  {
    forall i | lower < i < |u| ensures e.high < u[i].low { assert u[lower].high <= u[i].low && Storable(u[lower]); }
  }

  lemma RemovedOne(u: seq<Interval>, k: nat)
    requires Sorted(u) && k < |u|
    ensures Elements(u[..k] + u[k + 1..]) == Elements(u) - {u[k]}
  {
    forall i | 0 <= i < |u| && i != k ensures u[i] != u[k] { assert Less(u[i], u[k]) || Less(u[k], u[i]); }
    assert u == u[..k] + [u[k]] + u[k + 1..];
  }

  lemma NotThere(u: seq<Interval>, k: nat, e: Interval)
    requires Sorted(u) && k <= |u| && e !in u[..k] && (k < |u| ==> u[k].high > e.high)
    ensures e !in Elements(u)
  {
    forall i | k <= i < |u| ensures u[i] != e { assert i == k || Less(u[k], u[i]); }
    assert u == u[..k] + u[k..];
  }

  lemma CountGrown(a: set<Interval>, b: set<Interval>)
    requires a <= b
    ensures |b| - |a| >= 0 && (|b| - |a| == 0 <==> a == b)
  {
    assert |b| == |a| + |b - a|;
  }

  ghost function Within(s: set<Interval>, x: int): set<Interval> {
    set i | i in s && i.low <= x < i.high
  }

  /** Some stored interval contains x; an empty one counts only when the tree holds it. */
  ghost predicate Stabbed(live: set<Interval>, u: seq<Interval>, x: int) {
    Stab(live, x) != {} || Within(Elements(u), x) != {}
  }

  /** In the sorted set only the interval at the upper bound of x can contain x. */
  lemma WithinIs(u: seq<Interval>, k: nat, x: int)
    requires Apart(u) && AllStorable(u) && k <= |u|
    requires (forall i | 0 <= i < k :: u[i].high <= x) && (forall i | k <= i < |u| :: u[i].high > x)
    ensures Within(Elements(u), x) == if k < |u| && u[k].low <= x then {u[k]} else {}
  {
    forall j | k < j < |u| ensures u[j].low > x { assert u[k].high <= u[j].low; }
    if k < |u| && u[k].low <= x { assert u[k] in Elements(u); }
  }

  lemma AllForward(u: seq<Interval>)
    requires AllStorable(u)
    ensures forall i | i in Elements(u) :: Forward(i)
  {
  }

  /** Nothing in the sorted set ends above MAX. */
  lemma AtTop(u: seq<Interval>)
    requires AllStorable(u)
    ensures Within(Elements(u), MAX) == {} && forall k | 0 <= k < |u| :: u[k].high <= MAX
  {
  }

  lemma FindableIs(live: set<Interval>, x: int)
    ensures forall i | i in Findable(live, x) :: i in live && Found(i, x)
  {
  }

  lemma FoundAt(u: seq<Interval>, k: nat, x: int)
    requires k < |u| && u[k].low <= x < u[k].high
    ensures u[k] in Elements(u) && Found(u[k], x)
  {
  }

  /** What a stab adds to `out`, given what the two parts hold: the sorted set is asked only when the tree has
   *  nothing new to offer. */
  ghost function Answer(live: set<Interval>, u: seq<Interval>, x: int, out: set<Interval>): set<Interval> {
    if Stab(live, x) <= out then Stab(live, x) + Within(Elements(u), x) else Stab(live, x)
  }

  /** A stab completes `out` to every stored interval that contains x exactly when the tree, if it holds one that
   *  is missing from `out`, holds all of those, and otherwise no empty interval of the sorted set at x is missing. */
  lemma StabIsComplete(live: set<Interval>, u: seq<Interval>, x: int, out: set<Interval>)
    ensures out + Answer(live, u, x, out) == out + Stab(live + Elements(u), x)
      <==> if Stab(live, x) <= out then forall i | i in u && i.high <= i.low == x :: i in out
           else Stab(Elements(u), x) <= out + Stab(live, x)
  {
    var have, all := out + Answer(live, u, x, out), out + Stab(live + Elements(u), x);
    assert all == out + Stab(live, x) + Stab(Elements(u), x);
    if Stab(live, x) <= out && have == all {
      forall i | i in u && i.high <= i.low == x
        ensures i in out
      {
        assert i in Stab(Elements(u), x) && i in all && i !in Within(Elements(u), x);
      }
    }
    if Stab(live, x) <= out && forall i | i in u && i.high <= i.low == x :: i in out {
      forall i | i in Stab(Elements(u), x) ensures i in have { assert i in Elements(u); }
    }
  }

  // ----- which part an entry goes to

  /** The members of the sorted set that the entry meets, end points included. */
  ghost function Neighbours(u: seq<Interval>, e: Interval): set<Interval> {
    set i | i in u && i.high > e.low && i.low <= e.high
  }

  /** The first member that ends above the entry's low end counts as equal to it. */
  ghost predicate Twin(u: seq<Interval>, e: Interval, same: (Interval, Interval) -> bool) {
    exists k | 0 <= k < |u| :: u[k].high > e.low && same(u[k], e) && forall j | 0 <= j < k :: u[j].high <= e.low
  }

  lemma TwinIs(u: seq<Interval>, e: Interval, same: (Interval, Interval) -> bool, lower: nat)
    requires lower <= |u| && forall i | 0 <= i < lower :: u[i].high <= e.low
    requires forall i | lower <= i < |u| :: u[i].high > e.low
    ensures Twin(u, e, same) <==> lower < |u| && same(u[lower], e)
  {
    forall k | 0 <= k < |u| && u[k].high > e.low && forall j | 0 <= j < k :: u[j].high <= e.low
      ensures k == lower
    {
      assert lower <= k;
      var h := u[lower].high;
      assert h > e.low;
    }
  }

  /** The neighbours are the stretch the insertion moves. */
  lemma NeighboursAre(u: seq<Interval>, e: Interval, lower: nat, upper: nat)
    requires Apart(u) && AllStorable(u) && lower <= upper <= |u| && (forall i | 0 <= i < lower :: u[i].high <= e.low)
    requires (forall i | lower <= i < |u| :: u[i].high > e.low) && (forall i | lower <= i < upper :: u[i].low <= e.high)
    requires upper < |u| ==> u[upper].low > e.high
    ensures Neighbours(u, e) == Elements(u[lower..upper]) && (Neighbours(u, e) == {} <==> lower == upper)
  {
    forall i | upper < i < |u| ensures u[i].low > e.high { assert u[upper].high <= u[i].low && Forward(u[upper]); }
    forall i | i in Elements(u[lower..upper])
      ensures i in Neighbours(u, e)
    {
      var k :| 0 <= k < upper - lower && u[lower..upper][k] == i;
      assert u[lower + k] == i;
    }
    forall i | i in Neighbours(u, e)
      ensures i in Elements(u[lower..upper])
    {
      var k :| 0 <= k < |u| && u[k] == i;
      assert u[lower..upper][k - lower] == i;
    }
    if lower < upper { assert u[lower..upper][0] in Elements(u[lower..upper]); }
  }

  /** From (live, u) to (live', u') the entry went where the code sends it. */
  ghost predicate Routed(live: set<Interval>, u: seq<Interval>, live': set<Interval>, u': seq<Interval>, e: Interval,
                         same: (Interval, Interval) -> bool, hit: bool) {
    if hit then live' == live + {e} && u' == u
    else if Twin(u, e, same) then live' == live && u' == u
    else if Neighbours(u, e) != {} then
      live' == live + Neighbours(u, e) + {e} && Elements(u') == Elements(u) - Neighbours(u, e)
    else live' == live && Elements(u') == Elements(u) + {e}
  }

  class IBSTreeFast {
    const overlapping: IBSTree
    var unique: seq<Interval>
    /** When two entries count as equal: a property of the interval type. */
    const same: (Interval, Interval) -> bool

    ghost predicate Valid()
      reads this, overlapping, overlapping.nodes, overlapping.nil
    {
      overlapping.Valid() && Sorted(unique) && Apart(unique) && AllStorable(unique)
    }

    ghost function Stored(): set<Interval>
      reads this, overlapping
    {
      overlapping.live + Elements(unique)
    }

    constructor (same: (Interval, Interval) -> bool)
      ensures Valid() && Stored() == {} && unique == [] && this.same == same && fresh(overlapping)
      ensures fresh(overlapping.nil) && overlapping.nodes == {}
    {
      overlapping := new IBSTree();
      unique, this.same := [], same;
    }

    /** Stores the entry.  If the tree holds an interval that meets it, the tree gets it; otherwise, unless an
     *  equal one is there, it joins the sorted set, or takes its neighbours along into the tree. */
    method Insert(entry: Interval)
      requires Valid() && Storable(entry) && Forward(entry)
      modifies this, overlapping, overlapping.nodes
      ensures Valid() && fresh(overlapping.nodes - old(overlapping.nodes))
      ensures Routed(old(overlapping.live), old(unique), overlapping.live, unique, entry, same, true)
        || Routed(old(overlapping.live), old(unique), overlapping.live, unique, entry, same, false)
      ensures entry.low < MAX || NoneAtTop(old(overlapping.live)) ==>
        var hit := Met(old(overlapping.live), entry) != {};
        Routed(old(overlapping.live), old(unique), overlapping.live, unique, entry, same, hit)
      ensures Stored() == old(Stored()) + {entry} ||
        (Stored() == old(Stored()) && unique == old(unique) && exists i | i in unique :: same(i, entry))
    {
      hide IBSTree.Valid, Sorted, Apart, AllStorable, Elements, Met, Answering, NoneAtTop, Twin, Neighbours, IBSTree.V;
      hide Grows, Covered;
      var met, hits := overlapping.FindOverlapping(entry, {});
      CountGrown({}, met);
      if hits != 0 {
        overlapping.Insert(entry);
      } else {
        Settle(entry);
      }
    }

    /** The entry meets nothing in the tree. */
    method Settle(entry: Interval)
      requires Valid() && Storable(entry) && Forward(entry)
      modifies this, overlapping, overlapping.nodes
      ensures Valid() && fresh(overlapping.nodes - old(overlapping.nodes))
      ensures Routed(old(overlapping.live), old(unique), overlapping.live, unique, entry, same, false)
      ensures Stored() == old(Stored()) + {entry} ||
        (Stored() == old(Stored()) && unique == old(unique) && exists i | i in unique :: same(i, entry))
    {
      hide IBSTree.Valid, Sorted, Apart, AllStorable, Elements, Twin, Neighbours, IBSTree.V, Grows, Covered;
      ghost var u := unique;
      var lower := UpperBound(unique, entry.low);
      TwinIs(u, entry, same, lower);
      if lower < |unique| && same(unique[lower], entry) { return; }
      var upper := MoveOverlapping(lower, entry);
      NeighboursAre(u, entry, lower, upper);
      if upper != lower {
        CutOut(unique, lower, upper);
        unique := unique[..lower] + unique[upper..];
        overlapping.Insert(entry);
      } else {
        assert unique[lower..upper] == [];
        NoElements();
        FarApart(unique, lower, entry);
        unique := SetInsert(unique, entry);
        ApartInsert(u, unique, entry);
      }
    }

    /** Copies into the tree the intervals from `lower` on that reach down to the entry's high end. */
    method MoveOverlapping(lower: nat, entry: Interval) returns (upper: nat)
      requires Valid() && lower <= |unique|
      modifies overlapping, overlapping.nodes
      ensures overlapping.Valid() && fresh(overlapping.nodes - old(overlapping.nodes))
      ensures lower <= upper <= |unique| && overlapping.live == old(overlapping.live) + Elements(unique[lower..upper])
      ensures upper < |unique| ==> unique[upper].low > entry.high
      ensures forall k | lower <= k < upper :: unique[k].low <= entry.high
    {
      hide IBSTree.Valid, Sorted, Apart, Elements;
      upper := lower;
      assert unique[lower..upper] == [];
      NoElements();
      while upper < |unique| && unique[upper].low <= entry.high
        invariant lower <= upper <= |unique| && overlapping.Valid()
        invariant overlapping.live == old(overlapping.live) + Elements(unique[lower..upper])
        invariant fresh(overlapping.nodes - old(overlapping.nodes))
        invariant forall k | lower <= k < upper :: unique[k].low <= entry.high
      {
        overlapping.Insert(unique[upper]);
        OneMore(unique, lower, upper);
        upper := upper + 1;
      }
    }

    /** Removes this entry wherever it is stored. */
    method Remove(entry: Interval)
      requires Valid() && Storable(entry)
      modifies this, overlapping, overlapping.nodes
      ensures Valid() && overlapping.nodes == old(overlapping.nodes)
      ensures Stored() == if Forward(entry) then old(Stored()) - {entry} else old(Stored())
      ensures overlapping.live == if Forward(entry) then old(overlapping.live) - {entry} else old(overlapping.live)
      ensures Elements(unique) == old(Elements(unique)) - {entry}
    {
      hide IBSTree.Valid, IBSTree.V, Elements, Erased, CleanRec;
      AllForward(unique);
      overlapping.Remove(entry);
      var found := LowerBound(unique, entry.high);
      while found < |unique| && unique[found].high == entry.high
        invariant found <= |unique| && entry !in unique[..found]
      {
        if unique[found] == entry {
          RemovedOne(unique, found);
          CutOut(unique, found, found + 1);
          unique := unique[..found] + unique[found + 1..];
          return;
        }
        found := found + 1;
      }
      NotThere(unique, found, entry);
    }

    /** Stabs: adds to `out` what the tree finds and, if that is nothing new, what the sorted set holds.  Into an
     *  empty set some interval comes back if and only if some stored interval contains x. */
    method Find(x: int, out: set<Interval>) returns (res: set<Interval>, count: int)
      requires Valid() && MIN <= x <= MAX
      ensures out <= res && forall i | i in res - out :: i in Stored() && Found(i, x)
      ensures count == |res| - |out|
      ensures x < MAX || NoneAtTop(overlapping.live) ==> res == out + Answer(overlapping.live, unique, x, out)
      ensures out == {} && (x < MAX || NoneAtTop(overlapping.live)) ==>
        (count > 0 <==> Stabbed(overlapping.live, unique, x))
      ensures x == MAX ==> out + Stab(overlapping.live, x) <= res <= out + Findable(overlapping.live, x)
    {
      hide IBSTree.Valid, Sorted, Apart, Elements, AllStorable, Within, Stab, Findable, Found, NoneAtTop, Covered;
      hide IBSTree.V;
      res, count := overlapping.Find(x, out);
      CountGrown(out, res);
      FindableIs(overlapping.live, x);
      var k := UpperBound(unique, x);
      WithinIs(unique, k, x);
      AtTop(unique);
      if count > 0 { return; }
      if k < |unique| {
        if unique[k].low > x { return; }
        FoundAt(unique, k, x);
        res := res + {unique[k]};
      }
      CountGrown(out, res);
      count := |res| - |out|;
    }

    /** Stabs at every point from lo up to hi, collecting into one set. */
    method Sweep(lo: int, hi: int) returns (res: set<Interval>)
      requires Valid() && MIN <= lo && hi <= MAX
      ensures res == InTree(overlapping.live, lo, hi) + InSorted(overlapping.live, unique, lo, hi)
    {
      hide IBSTreeFast.Valid, InTree, InSorted, Answer, Stabbed, NoneAtTop, Stab, Findable, Found;
      res := {};
      NothingSwept(overlapping.live, unique, lo, lo);
      var x := lo;
      while x < hi
        invariant lo <= x && (x <= hi || x == lo)
        invariant res == InTree(overlapping.live, lo, x) + InSorted(overlapping.live, unique, lo, x)
      {
        SweepStep(overlapping.live, unique, lo, x);
        var n;
        res, n := Find(x, res);
        x := x + 1;
      }
      if hi < lo { NothingSwept(overlapping.live, unique, lo, hi); }
    }

    /** Queries with an interval: adds to `out` what the tree finds and, if that is nothing new, the members of the
     *  sorted set between the ends of q. */
    method FindOverlapping(q: Interval, out: set<Interval>) returns (res: set<Interval>, count: int)
      requires Valid() && Storable(q)
      ensures out <= res && res - out <= Answering(overlapping.live, q) + Between(unique, q)
      ensures count == |res| - |out|
      ensures Forward(q) && (q.low < MAX || NoneAtTop(overlapping.live)) ==>
        res == out + Reply(overlapping.live, unique, q, out)
    {
      hide IBSTree.Valid, Sorted, Apart, AllStorable, Answering, Met, NoneAtTop, Between, IBSTree.V, Covered;
      res, count := overlapping.FindOverlapping(q, out);
      CountGrown(out, res);
      if count != 0 { return; }
      res := CollectBetween(unique, q, out);
      CountGrown(out, res);
      count := |res| - |out|;
    }

    /** Adds one interval: the stored one that starts first above x, unless an interval of the sorted set contains
     *  x; then that one. */
    method Successor(x: int, out: set<Interval>) returns (res: set<Interval>)
      requires Valid() && MIN <= x <= MAX
      ensures Within(Elements(unique), x) != {} ==> res == out + Within(Elements(unique), x)
      ensures Within(Elements(unique), x) == {} && (forall i | i in Stored() :: i.low <= x) ==> res == out
      ensures Within(Elements(unique), x) == {} && (exists i | i in Stored() :: i.low > x) ==>
        exists i :: IsNext(Stored(), x, i) && res == out + {i}
    {
      hide IBSTree.Valid, Sorted, Apart, AllStorable, Within, IsNext, IBSTree.V, Covered, Elements;
      var a := TreeNext(overlapping, x);
      var k := UpperBound(unique, x);
      WithinIs(unique, k, x);
      res := out;
      if k < |unique| && (a.None? || a.v.low >= unique[k].low) {
        res := out + {unique[k]};
      } else if a.Some? {
        res := out + {a.v};
      }
      NextOfBoth(overlapping.live, unique, x, k, a);
    }
  }

  /** Adds the members of the sorted set between the ends of q. */
  method CollectBetween(u: seq<Interval>, q: Interval, out: set<Interval>) returns (res: set<Interval>)
    requires Sorted(u) && Apart(u) && AllStorable(u)
    ensures res == out + Between(u, q)
  {
    hide Sorted, Apart, AllStorable, Between, Elements;
    var lb := UpperBound(u, q.low);
    var ub := lb;
    res := out;
    assert u[lb..ub] == [];
    NoElements();
    while ub < |u| && u[ub].low < q.high
      invariant lb <= ub <= |u| && res == out + Elements(u[lb..ub])
      invariant forall k | lb <= k < ub :: u[k].low < q.high
    {
      OneMore(u, lb, ub);
      res := res + {u[ub]};
      ub := ub + 1;
    }
    BetweenIs(u, q, lb, ub);
  }

  /** The successor in the tree; of several that start together, the one with the least address. */
  method TreeNext(t: IBSTree, x: int) returns (r: Opt<Interval>)
    requires t.Valid() && MIN <= x <= MAX
    ensures r.None? <==> forall i | i in t.live :: i.low <= x
    ensures r.Some? ==> IsNext(t.live, x, r.v) && forall i | IsNext(t.live, x, i) :: r.v.id <= i.id
  {
    hide IBSTree.Valid, IBSTree.V;
    var all := t.Successor(x, {});
    NextExists(t.live, x);
    if all == {} { return None; }
    var least :| least in all;
    var rest := all - {least};
    while rest != {}
      invariant rest <= all && least in all && forall i | i in all - rest :: least.id <= i.id
      decreases |rest|
    {
      var i :| i in rest;
      if i.id < least.id { least := i; }
      rest := rest - {i};
    }
    r := Some(least);
  }

  lemma {:induction false} NextExists(live: set<Interval>, x: int)
    ensures (exists i :: IsNext(live, x, i)) <==> exists i | i in live :: i.low > x
    decreases |live|
  {
    if i :| i in live && i.low > x {
      var rest := live - {i};
      NextExists(rest, x);
      if j :| IsNext(rest, x, j) {
        assert IsNext(live, x, if j.low < i.low then j else i);
      } else {
        assert IsNext(live, x, i);
      }
    }
  }

  /** The sorted interval at the upper bound starts first among those of the sorted set above x, unless it
   *  contains x; with the tree's successor that decides. */
  lemma NextOfBoth(live: set<Interval>, u: seq<Interval>, x: int, k: nat, a: Opt<Interval>)
    requires Apart(u) && AllStorable(u) && k <= |u|
    requires (forall i | 0 <= i < k :: u[i].high <= x) && (forall i | k <= i < |u| :: u[i].high > x)
    requires (a.None? <==> forall i | i in live :: i.low <= x) && (a.Some? ==> IsNext(live, x, a.v))
    ensures k < |u| && u[k].low <= x && a.Some? ==> a.v.low >= u[k].low
    ensures var all := live + Elements(u);
      !(k < |u| && u[k].low <= x) ==>
        && (k == |u| && a.None? <==> forall i | i in all :: i.low <= x)
        && (k < |u| && (a.None? || a.v.low >= u[k].low) ==> IsNext(all, x, u[k]))
        && (a.Some? && !(k < |u| && a.v.low >= u[k].low) ==> IsNext(all, x, a.v))
  {
    forall j | 0 <= j < |u| && u[j].low > x
      ensures k < |u| && u[j].low >= u[k].low
    {
      assert Forward(u[j]) && j >= k;
      if k < j { assert u[k].high <= u[j].low && Forward(u[k]); }
    }
    if k < |u| { assert u[k] in Elements(u); }
  }

  // ----- queries with an interval

  /** The members of the sorted set between the ends of q. */
  ghost function Between(u: seq<Interval>, q: Interval): set<Interval> {
    set i | i in u && i.high > q.low && i.low < q.high
  }

  /** What an interval query adds to `out`. */
  ghost function Reply(live: set<Interval>, u: seq<Interval>, q: Interval, out: set<Interval>): set<Interval> {
    if Met(live, q) <= out then Met(live, q) + Between(u, q) else Met(live, q)
  }

  lemma BetweenIs(u: seq<Interval>, q: Interval, lower: nat, upper: nat)
    requires Apart(u) && AllStorable(u) && lower <= upper <= |u| && (forall i | 0 <= i < lower :: u[i].high <= q.low)
    requires (forall i | lower <= i < |u| :: u[i].high > q.low) && (forall i | lower <= i < upper :: u[i].low < q.high)
    requires upper < |u| ==> u[upper].low >= q.high
    ensures Between(u, q) == Elements(u[lower..upper])
  {
    forall i | upper < i < |u| ensures u[i].low >= q.high { assert u[upper].high <= u[i].low && Forward(u[upper]); }
    forall i | i in Elements(u[lower..upper])
      ensures i in Between(u, q)
    {
      var k :| 0 <= k < upper - lower && u[lower..upper][k] == i;
      assert u[lower + k] == i;
    }
    forall i | i in Between(u, q)
      ensures i in Elements(u[lower..upper])
    {
      var k :| 0 <= k < |u| && u[k] == i;
      assert u[lower..upper][k - lower] == i;
    }
  }

  /** An empty interval at the start of the query, or an empty query at the start of the interval. */
  predicate AtStart(q: Interval, i: Interval) { i.high <= i.low == q.low || q.high <= q.low == i.low }

  /** But for these, sharing a point is the same as lying between the ends. */
  lemma BetweenOrAtStart(q: Interval, i: Interval)
    requires Forward(q) && Forward(i)
    ensures Overlaps(q, i) <==> (i.high > q.low && i.low < q.high) || AtStart(q, i)
  {
    var x := if q.low < i.low then i.low else q.low;
    assert Contains(q, x) && Contains(i, x) ==> Overlaps(q, i);
  }

  /** An interval query completes `out` to every stored interval that shares a point with q exactly when the tree,
   *  if it holds one that is missing from `out`, holds all of those, and otherwise none is missing that the sorted
   *  part passes over. */
  lemma QueryIsComplete(live: set<Interval>, u: seq<Interval>, q: Interval, out: set<Interval>)
    requires AllStorable(u) && Forward(q)
    ensures out + Reply(live, u, q, out) == out + Met(live + Elements(u), q)
      <==> if Met(live, q) <= out then forall i | i in u && AtStart(q, i) :: i in out
           else Met(Elements(u), q) <= out + Met(live, q)
  {
    hide Overlaps;
    var have, all := out + Reply(live, u, q, out), out + Met(live + Elements(u), q);
    assert all == out + Met(live, q) + Met(Elements(u), q);
    forall i | i in u
      ensures i in Met(Elements(u), q) <==> i in Between(u, q) || AtStart(q, i)
      ensures AtStart(q, i) ==> i !in Between(u, q)
    {
      assert i in Elements(u) && Forward(i);
      BetweenOrAtStart(q, i);
    }
    assert forall i | i in Met(Elements(u), q) :: i in u;
  }

  // ----- a sweep over an address range

  /** The tree's intervals that contain a point of the range. */
  ghost function InTree(live: set<Interval>, lo: int, hi: int): set<Interval> {
    set i | i in live && exists x :: lo <= x < hi && Contains(i, x)
  }

  /** At x the tree has nothing to offer that contains no earlier point of the range. */
  ghost predicate NothingNew(live: set<Interval>, lo: int, x: int) {
    forall j | j in live && Contains(j, x) :: j in InTree(live, lo, x)
  }

  /** The sorted intervals that a point of the range lies in at which the tree has nothing new. */
  ghost function InSorted(live: set<Interval>, u: seq<Interval>, lo: int, hi: int): set<Interval> {
    set i | i in Elements(u) && exists x :: lo <= x < hi && i.low <= x < i.high && NothingNew(live, lo, x)
  }

  lemma NothingSwept(live: set<Interval>, u: seq<Interval>, lo: int, hi: int)
    requires hi <= lo
    ensures InTree(live, lo, hi) == {} && InSorted(live, u, lo, hi) == {}
  {
  }

  /** One more stab carries the sweep one point further. */
  lemma SweepStep(live: set<Interval>, u: seq<Interval>, lo: int, x: int)
    requires lo <= x
    ensures var out := InTree(live, lo, x) + InSorted(live, u, lo, x);
      out + Answer(live, u, x, out) == InTree(live, lo, x + 1) + InSorted(live, u, lo, x + 1)
  {
    hide Elements, InTree, InSorted, NothingNew;
    TreeStep(live, lo, x);
    SortedStep(live, u, lo, x);
    NewIsNew(live, u, lo, x);
  }

  lemma NewIsNew(live: set<Interval>, u: seq<Interval>, lo: int, x: int)
    ensures Stab(live, x) <= InTree(live, lo, x) + InSorted(live, u, lo, x) <==> NothingNew(live, lo, x)
  {
    hide Elements, InTree, InSorted;
    SortedToo(live, u, lo, x);
    forall j | j in live && Contains(j, x) && Stab(live, x) <= InTree(live, lo, x) + InSorted(live, u, lo, x)
      ensures j in InTree(live, lo, x)
    {
      assert j in Stab(live, x);
    }
  }

  lemma TreeStep(live: set<Interval>, lo: int, x: int)
    requires lo <= x
    ensures InTree(live, lo, x + 1) == InTree(live, lo, x) + Stab(live, x)
  {
    forall i | i in Stab(live, x) ensures i in InTree(live, lo, x + 1) { assert Contains(i, x); }
    forall i | i in InTree(live, lo, x)
      ensures i in InTree(live, lo, x + 1)
    {
      var y :| lo <= y < x && Contains(i, y);
      assert y < x + 1;
    }
    forall i | i in InTree(live, lo, x + 1) - Stab(live, x)
      ensures i in InTree(live, lo, x)
    {
      var y :| lo <= y < x + 1 && Contains(i, y);
      assert y != x;
    }
  }

  lemma SortedStep(live: set<Interval>, u: seq<Interval>, lo: int, x: int)
    requires lo <= x
    ensures InSorted(live, u, lo, x + 1)
      == InSorted(live, u, lo, x) + if NothingNew(live, lo, x) then Within(Elements(u), x) else {}
  {
    hide Elements, NothingNew;
    forall i | i in InSorted(live, u, lo, x)
      ensures i in InSorted(live, u, lo, x + 1)
    {
      var y :| lo <= y < x && i.low <= y < i.high && NothingNew(live, lo, y);
      assert y < x + 1;
    }
    forall i | i in InSorted(live, u, lo, x + 1) - InSorted(live, u, lo, x)
      ensures NothingNew(live, lo, x) && i in Within(Elements(u), x)
    {
      var y :| lo <= y < x + 1 && i.low <= y < i.high && NothingNew(live, lo, y);
      assert y == x;
    }
  }

  /** What both parts hold and the sorted part yields, the tree yields too. */
  lemma SortedToo(live: set<Interval>, u: seq<Interval>, lo: int, x: int)
    ensures InSorted(live, u, lo, x) * live <= InTree(live, lo, x)
  {
    forall i | i in InSorted(live, u, lo, x) * live
      ensures i in InTree(live, lo, x)
    {
      var y :| lo <= y < x && i.low <= y < i.high && NothingNew(live, lo, y);
      assert Contains(i, y);
    }
  }

  // ----- a run that loses an interval

  /** Where a proper entry goes, among proper intervals, when only an identical one counts as equal. */
  lemma RouteOf(live: set<Interval>, u: seq<Interval>, live': set<Interval>, u': seq<Interval>, e: Interval,
                same: (Interval, Interval) -> bool)
    requires Routed(live, u, live', u', e, same, Met(live, e) != {})
    requires (forall i | i in live + Elements(u) + {e} :: i.low < i.high) && forall i | i in Elements(u) :: !same(i, e)
    ensures (exists i | i in live :: e.low < i.high && i.low < e.high) ==> live' == live + {e} && u' == u
    ensures (forall i | i in live :: i.high <= e.low || e.high <= i.low) ==>
      && live' == (if Neighbours(u, e) == {} then live else live + Neighbours(u, e) + {e})
      && Elements(u') == if Neighbours(u, e) == {} then Elements(u) + {e} else Elements(u) - Neighbours(u, e)
  {
    assert forall i | i in u :: i in Elements(u);
    forall i | i in live
      ensures i in Met(live, e) <==> e.low < i.high && i.low < e.high
    {
      OverlapsByEndpoints(e, i);
    }
  }

  method InsertProper(t: IBSTreeFast, e: Interval)
    requires t.Valid() && MIN <= e.low < e.high <= MAX && (forall i | i in t.Stored() :: i.low < i.high)
    requires forall i | i in Elements(t.unique) :: !t.same(i, e)
    modifies t, t.overlapping, t.overlapping.nodes
    ensures t.Valid() && fresh(t.overlapping.nodes - old(t.overlapping.nodes))
    ensures (exists i | i in old(t.overlapping.live) :: e.low < i.high && i.low < e.high) ==>
      t.overlapping.live == old(t.overlapping.live) + {e} && t.unique == old(t.unique)
    ensures (forall i | i in old(t.overlapping.live) :: i.high <= e.low || e.high <= i.low) ==>
      var n := Neighbours(old(t.unique), e);
      && t.overlapping.live == (if n == {} then old(t.overlapping.live) else old(t.overlapping.live) + n + {e})
      && Elements(t.unique) == if n == {} then old(Elements(t.unique)) + {e} else old(Elements(t.unique)) - n
  {
    hide IBSTreeFast.Valid, Routed, Met, Neighbours, Elements;
    ghost var live, u := t.overlapping.live, t.unique;
    t.Insert(e);
    RouteOf(live, u, t.overlapping.live, t.unique, e, t.same);
  }

  /** The sorted part keeps A although D, which meets it, goes to the tree with B and C. */
  method Crowded(a: Interval, b: Interval, c: Interval, d: Interval) returns (t: IBSTreeFast)
    requires a == Interval(0, 10, 2) && b == Interval(20, 30, 0) && c == Interval(25, 35, 1) && d == Interval(5, 25, 3)
    ensures t.Valid() && t.overlapping.live == {b, c, d} && Elements(t.unique) == {a}
  {
    hide IBSTreeFast.Valid;
    t := new IBSTreeFast((i, j) => i == j);
    InsertProper(t, b);
    assert t.overlapping.live == {} && Elements(t.unique) == {b};
    assert Neighbours(t.unique, c) == {b} by { assert b in Elements(t.unique); }
    InsertProper(t, c);
    assert t.overlapping.live == {b, c} && Elements(t.unique) == {};
    InsertProper(t, a);
    assert t.overlapping.live == {b, c} && Elements(t.unique) == {a};
    InsertProper(t, d);
  }

  /** So the tree answers at 7 and A is left out. */
  method LeavesOneOut() returns (a: Interval, res: set<Interval>)
    ensures Contains(a, 7) && a !in res && res == {Interval(5, 25, 3)}
  {
    hide IBSTreeFast.Valid;
    a := Interval(0, 10, 2);
    var b, c, d := Interval(20, 30, 0), Interval(25, 35, 1), Interval(5, 25, 3);
    var t := Crowded(a, b, c, d);
    var n;
    res, n := t.Find(7, {});
    assert Stab({b, c, d}, 7) == {d};
  }

  /** An empty interval alone goes to the sorted part, where no stab finds it. */
  method EmptyIsLost() returns (e: Interval, res: set<Interval>)
    ensures Contains(e, 5) && res == {}
  {
    hide IBSTreeFast.Valid, Routed;
    e := Interval(5, 5, 0);
    var t := new IBSTreeFast((i, j) => i == j);
    assert t.overlapping.live == {};
    t.Insert(e);
    AloneIsSorted(t.overlapping.live, t.unique, e, t.same);
    var n;
    res, n := t.Find(5, {});
  }

  lemma AloneIsSorted(live: set<Interval>, u: seq<Interval>, e: Interval, same: (Interval, Interval) -> bool)
    requires Routed({}, [], live, u, e, same, Met({}, e) != {})
    ensures live == {} && Elements(u) == {e}
  {
  }

  /** With [0, 10) alone in the index the successor of 5 is the interval that contains 5. */
  method SuccessorContains() returns (e: Interval, res: set<Interval>)
    ensures Contains(e, 5) && res == {e}
  {
    hide IBSTreeFast.Valid, Routed;
    e := Interval(0, 10, 0);
    var t := new IBSTreeFast((i, j) => i == j);
    assert t.overlapping.live == {};
    t.Insert(e);
    AloneIsSorted(t.overlapping.live, t.unique, e, t.same);
    res := t.Successor(5, {});
    assert Within({e}, 5) == {e};
  }
}
