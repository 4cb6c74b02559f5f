/** The sharded hash map as one thread sees it. */
module HashMaps {
  import opened HashShards

  /** The mixed hash of a key, cut to 32 bits. */
  function HashOf<K>(hasher: K -> nat, k: K): nat {
    hasher(k) % 0x1_0000_0000
  }

  /** `at` gives the node of each key, and each node is in the shard its hash selects. */
  ghost predicate Index<K, V>(hasher: K -> nat, chains: seq<Chains<K, V>>, at: map<K, Node<K, V>>) {
    && |chains| == NUM_SHARDS
    && (forall k | k in at ::
          at[k].key == k && at[k].hash == HashOf(hasher, k) && at[k] in Nodes(chains[at[k].hash % NUM_SHARDS]))
    && (forall i, n | 0 <= i < NUM_SHARDS && n in Nodes(chains[i]) ::
          n.hash % NUM_SHARDS == i && n.key in at && at[n.key] == n)
  }

  lemma IndexSame<K, V>(hasher: K -> nat, chains: seq<Chains<K, V>>, at: map<K, Node<K, V>>, i: nat, c: Chains<K, V>)
    requires Index(hasher, chains, at) && i < NUM_SHARDS && Nodes(c) == Nodes(chains[i])
    ensures Index(hasher, chains[i := c], at)
  {
    hide Nodes, HashOf;
  }

  lemma IndexInsert<K, V>(hasher: K -> nat, chains: seq<Chains<K, V>>, at: map<K, Node<K, V>>, n: Node<K, V>,
      c: Chains<K, V>)
    requires Index(hasher, chains, at) && n.key !in at && n.hash == HashOf(hasher, n.key)
    requires Nodes(c) == Nodes(chains[n.hash % NUM_SHARDS]) + {n}
    ensures Index(hasher, chains[n.hash % NUM_SHARDS := c], at[n.key := n])
  {
    hide Nodes, HashOf;
  }

  lemma IndexErase<K, V>(hasher: K -> nat, chains: seq<Chains<K, V>>, at: map<K, Node<K, V>>, n: Node<K, V>,
      c: Chains<K, V>)
    requires Index(hasher, chains, at) && n.key in at && at[n.key] == n
    requires Nodes(c) == Nodes(chains[n.hash % NUM_SHARDS]) - {n}
    ensures Index(hasher, chains[n.hash % NUM_SHARDS := c], at - {n.key})
  {
    hide Nodes, HashOf;
  }

  /** The nodes of one shard are nodes of the map and of no other shard. */
  lemma ShardNodes<K, V>(hasher: K -> nat, chains: seq<Chains<K, V>>, at: map<K, Node<K, V>>, i: nat)
    requires Index(hasher, chains, at) && i < NUM_SHARDS
    ensures Nodes(chains[i]) <= at.Values
    ensures forall j | 0 <= j < NUM_SHARDS && j != i :: Nodes(chains[i]) !! Nodes(chains[j])
  {
    hide Nodes, HashOf;
    forall n | n in Nodes(chains[i]) ensures n in at.Values { assert at[n.key] == n; }
  }

  lemma KeyInShard<K, V>(hasher: K -> nat, chains: seq<Chains<K, V>>, at: map<K, Node<K, V>>, k: K, i: nat)
    requires Index(hasher, chains, at) && i == HashOf(hasher, k) % NUM_SHARDS
    ensures forall x | x in Nodes(chains[i]) && x.key == k :: x.hash == HashOf(hasher, k) && k in at && x == at[k]
    ensures k in at ==> at[k] in Nodes(chains[i]) && at[k].key == k && at[k].hash == HashOf(hasher, k)
  {
    hide Nodes, HashOf;
  }

  class HashMap<K(==), V> {
    const hasher: K -> nat
    var shards: seq<Shard<K, V>>
    ghost var chains: seq<Chains<K, V>>
    /** The node of each key that is present. */
    ghost var at: map<K, Node<K, V>>

    ghost predicate Valid()
      reads this, at.Values
    {
      && |shards| == |chains| == NUM_SHARDS && Index(hasher, chains, at)
      && forall i | 0 <= i < NUM_SHARDS :: Nodes(chains[i]) <= at.Values && ShardOk(shards[i], chains[i])
    }

    constructor (hasher: K -> nat)
      ensures Valid() && at == map[]
    {
      this.hasher := hasher;
      shards, chains, at := seq(NUM_SHARDS, _ => Shard([], 0, 0)), seq(NUM_SHARDS, _ => []), map[];
    }

    lemma AllPlaced()
      requires Valid()
      ensures Index(hasher, chains, at) && |chains| == NUM_SHARDS && forall i | 0 <= i < NUM_SHARDS :: Placed(chains[i])
    {
    }

    /** Finds the node of a key that is present, and only of such a key. */
    method Find(k: K) returns (n: Node?<K, V>)
      requires Valid()
      ensures n != null <==> k in at
      ensures n != null ==> n == at[k] && n.key == k && n.hash == HashOf(hasher, k)
    {
      hide Nodes, HashOf, ShardOk, Index;
      var h := HashOf(hasher, k);
      KeyInShard(hasher, chains, at, k, h % NUM_SHARDS);
      n := Search(shards[h % NUM_SHARDS], chains[h % NUM_SHARDS], h, k);
    }

    /** Makes an element for a key that is absent; leaves an element that is present alone. */
    method Insert(k: K, v: V) returns (created: bool, n: Node<K, V>)
      requires Valid()
      modifies this, at.Values`next
      ensures Valid() && created == (k !in old(at)) && k in at && n == at[k]
      ensures !created ==> at == old(at)
      ensures created ==> fresh(n) && n.value == v && at == old(at)[k := n]
    {
      hide Nodes, HashOf, ShardOk, Index;
      var h := HashOf(hasher, k);
      var i := h % NUM_SHARDS;
      KeyInShard(hasher, chains, at, k, i);
      ShardNodes(hasher, chains, at, i);
      var found := Search(shards[i], chains[i], h, k);
      if found != null { return false, found; }
      n := new Node(k, h, v);
      var s, c := LinkLocked(shards[i], chains[i], n);
      IndexInsert(hasher, chains, at, n, c);
      Replace(i, s, c, at[k := n]);
      created := true;
    }

    /** Stores shard i; the other shards are untouched. */
    method Replace(i: nat, s: Shard<K, V>, ghost c: Chains<K, V>, ghost at': map<K, Node<K, V>>)
      requires |shards| == |chains| == NUM_SHARDS && i < NUM_SHARDS && ShardOk(s, c)
      requires forall j | 0 <= j < NUM_SHARDS && j != i :: ShardOk(shards[j], chains[j])
      requires Index(hasher, chains[i := c], at')
      modifies this
      ensures Valid() && at == at' && shards == old(shards)[i := s]
    {
      hide Nodes, HashOf, ShardOk, Index;
      shards, chains, at := shards[i := s], chains[i := c], at';
      forall j: nat | j < NUM_SHARDS
        ensures Nodes(chains[j]) <= at.Values
      {
        ShardNodes(hasher, chains, at, j);
      }
    }

    /** Removes the element of a key that is present, and only that. */
    method Erase(k: K) returns (n: Node?<K, V>)
      requires Valid()
      modifies this, at.Values`next
      ensures Valid() && at == old(at) - {k}
      ensures n != null <==> k in old(at)
      ensures n != null ==> n == old(at)[k]
    {
      hide Nodes, HashOf, ShardOk, Index;
      var h := HashOf(hasher, k);
      var i := h % NUM_SHARDS;
      KeyInShard(hasher, chains, at, k, i);
      ShardNodes(hasher, chains, at, i);
      var s: Shard<K, V>;
      ghost var c: Chains<K, V>;
      s, n, c := EraseKey(shards[i], chains[i], h, k);
      if n == null {
        assert at == at - {k};
        return;
      }
      IndexErase(hasher, chains, at, n, c);
      Replace(i, s, c, at - {k});
    }

    /** Removes this very element, if the map still holds it. */
    method EraseElement(n: Node<K, V>) returns (removed: bool)
      requires Valid() && n.hash == HashOf(hasher, n.key)
      modifies this, at.Values`next
      ensures Valid() && removed == (n.key in old(at) && old(at)[n.key] == n)
      ensures at == if removed then old(at) - {n.key} else old(at)
    {
      hide Nodes, HashOf, ShardOk, Index;
      var i := n.hash % NUM_SHARDS;
      KeyInShard(hasher, chains, at, n.key, i);
      ShardNodes(hasher, chains, at, i);
      var s: Shard<K, V>;
      ghost var c: Chains<K, V>;
      s, removed, c := EraseNode(shards[i], chains[i], n);
      if removed {
        IndexErase(hasher, chains, at, n, c);
        Replace(i, s, c, at - {n.key});
      }
    }

    /** Grows the arrays for n elements; the elements stay the same. */
    method Rehash(n: int)
      requires Valid()
      modifies this, at.Values`next
      ensures Valid() && at == old(at)
      ensures n <= 0 ==> shards == old(shards)
      ensures n > 0 ==> forall i | 0 <= i < NUM_SHARDS ::
        var per := Min(n / NUM_SHARDS + 1, MAX_BUCKETS);
        per <= |shards[i].buckets| && AsFarAs(old(shards)[i], shards[i], per)
    {
      hide Nodes, HashOf, ShardOk, Index;
      if n <= 0 { return; }
      var per := n / NUM_SHARDS + 1;
      if per > MAX_BUCKETS { per := MAX_BUCKETS; }
      for i := 0 to NUM_SHARDS
        invariant Valid() && at == old(at)
        invariant forall j | 0 <= j < i :: |shards[j].buckets| >= per && AsFarAs(old(shards)[j], shards[j], per)
        invariant forall j | i <= j < NUM_SHARDS :: shards[j] == old(shards)[j]
      {
        ShardNodes(hasher, chains, at, i);
        var s, c := RehashShard(shards[i], chains[i], per);
        IndexSame(hasher, chains, at, i, c);
        Replace(i, s, c, at);
      }
    }

    /** The number of elements, narrowed to a 32-bit integer: right below 2^31. */
    method Size() returns (r: int)
      requires Valid()
      ensures r == Narrowed(|at|) && (r == |at| <==> |at| < 0x8000_0000)
    {
      hide Nodes, HashOf, ShardOk, Index, Upto;
      var n := 0;
      NoneYet(chains);
      KeyCount(hasher, chains, at);
      for i := 0 to NUM_SHARDS
        invariant n == |Upto(chains, i)|
      {
        UptoNext(hasher, chains, at, i);
        ShardCount(shards[i], chains[i]);
        n := n + shards[i].count;
      }
      r := Narrowed(n);
    }
  }

  /** The low 32 bits as a signed number. */
  function Narrowed(n: nat): int {
    var m := n % 0x1_0000_0000;
    if m < 0x8000_0000 then m else m - 0x1_0000_0000
  }

  function Min(a: nat, b: nat): nat {
    if a < b then a else b
  }

  lemma ShardCount<K, V>(s: Shard<K, V>, c: Chains<K, V>)
    requires ShardOk(s, c)
    ensures s.count == |Nodes(c)|
  {
  }

  /** The nodes of the first i shards. */
  ghost function Upto<K, V>(chains: seq<Chains<K, V>>, i: nat): set<Node<K, V>>
    requires i <= |chains|
  {
    if i == 0 then {} else Upto(chains, i - 1) + Nodes(chains[i - 1])
  }

  lemma NoneYet<K, V>(chains: seq<Chains<K, V>>)
    ensures Upto(chains, 0) == {}
  {
  }

  lemma {:induction false} UptoIs<K, V>(chains: seq<Chains<K, V>>, i: nat, n: Node<K, V>)
    requires i <= |chains|
    ensures n in Upto(chains, i) <==> exists j :: 0 <= j < i && n in Nodes(chains[j])
  {
    if i > 0 { UptoIs(chains, i - 1, n); }
  }

  lemma UptoNext<K, V>(hasher: K -> nat, chains: seq<Chains<K, V>>, at: map<K, Node<K, V>>, i: nat)
    requires Index(hasher, chains, at) && i < NUM_SHARDS
    ensures |Upto(chains, i + 1)| == |Upto(chains, i)| + |Nodes(chains[i])|
  {
    hide Nodes, HashOf;
    ShardNodes(hasher, chains, at, i);
    forall n | n in Upto(chains, i) ensures n !in Nodes(chains[i]) { UptoIs(chains, i, n); }
    Disjoint(Upto(chains, i), Nodes(chains[i]));
  }

  lemma Disjoint<T>(a: set<T>, b: set<T>)
    requires a !! b
    ensures |a + b| == |a| + |b|
  {
    assert (a + b) - a == b;
  }

  lemma KeyCount<K, V>(hasher: K -> nat, chains: seq<Chains<K, V>>, at: map<K, Node<K, V>>)
    requires Index(hasher, chains, at)
    ensures |Upto(chains, NUM_SHARDS)| == |at|
  {
    hide Nodes, HashOf;
    var all := Upto(chains, NUM_SHARDS);
    forall n | n in all ensures n.key in at && at[n.key] == n { UptoIs(chains, NUM_SHARDS, n); }
    forall k | k in at ensures at[k] in all { UptoIs(chains, NUM_SHARDS, at[k]); }
    Bijection(all, at);
  }

  lemma {:induction false} Bijection<K, V>(all: set<Node<K, V>>, at: map<K, Node<K, V>>)
    requires forall n | n in all :: n.key in at && at[n.key] == n
    requires forall k | k in at :: at[k] in all && at[k].key == k
    ensures |all| == |at|
    decreases |all|
  {
    if all == {} {
      assert at == map[];
    } else {
      var n :| n in all;
      var rest := at - {n.key};
      Bijection(all - {n}, rest);
      assert at.Keys == rest.Keys + {n.key};
      assert |at.Keys| == |rest.Keys| + 1;
    }
  }

  // ----- iteration

  /** The nodes of a shard from bucket b on, in iteration order. */
  ghost function FromBucket<K, V>(c: Chains<K, V>, b: nat): seq<Node<K, V>>
    decreases |c| - b
  {
    if b >= |c| then [] else c[b] + FromBucket(c, b + 1)
  }

  /** The nodes of the map from shard i on, in iteration order. */
  ghost function FromShard<K, V>(chains: seq<Chains<K, V>>, i: nat): seq<Node<K, V>>
    decreases |chains| - i
  {
    if i >= |chains| then [] else FromBucket(chains[i], 0) + FromShard(chains, i + 1)
  }

  /** The nodes from bucket b of shard s on, in iteration order. */
  ghost function After<K, V>(chains: seq<Chains<K, V>>, s: nat, b: nat): seq<Node<K, V>> {
    if s >= |chains| then [] else FromBucket(chains[s], b) + FromShard(chains, s + 1)
  }

  lemma AfterBucket<K, V>(chains: seq<Chains<K, V>>, s: nat, b: nat)
    requires s < |chains| && b < |chains[s]|
    ensures After(chains, s, b) == chains[s][b] + After(chains, s, b + 1)
  {
  }

  lemma AfterShard<K, V>(chains: seq<Chains<K, V>>, s: nat, b: nat)
    requires s < |chains| && b >= |chains[s]|
    ensures After(chains, s, b) == After(chains, s + 1, 0)
  {
  }

  /** The iterator stands on node `place` of bucket b of shard s, or at the end. */
  ghost predicate Stands<K, V>(chains: seq<Chains<K, V>>, s: nat, b: nat, place: nat, cur: Node?<K, V>) {
    if cur == null then s == |chains|
    else s < |chains| && b < |chains[s]| && place < |chains[s][b]| && cur == chains[s][b][place]
  }

  ghost function ToVisit<K, V>(chains: seq<Chains<K, V>>, s: nat, b: nat, place: nat, cur: Node?<K, V>): seq<Node<K, V>>
    requires Stands(chains, s, b, place, cur)
  {
    if cur == null then [] else chains[s][b][place..] + After(chains, s, b + 1)
  }

  lemma ToVisitFirst<K, V>(chains: seq<Chains<K, V>>, s: nat, b: nat, cur: Node<K, V>)
    requires Stands(chains, s, b, 0, cur)
    ensures ToVisit(chains, s, b, 0, cur) == After(chains, s, b)
  {
    hide After;
    AfterBucket(chains, s, b);
    assert chains[s][b][0..] == chains[s][b];
  }

  lemma ToVisitNext<K, V>(chains: seq<Chains<K, V>>, s: nat, b: nat, place: nat, cur: Node<K, V>)
    requires Stands(chains, s, b, place, cur)
    ensures ToVisit(chains, s, b, place, cur) != []
    ensures place + 1 < |chains[s][b]| ==>
      ToVisit(chains, s, b, place, cur)[1..] == ToVisit(chains, s, b, place + 1, chains[s][b][place + 1])
    ensures place + 1 == |chains[s][b]| ==> ToVisit(chains, s, b, place, cur)[1..] == After(chains, s, b + 1)
  {
    hide After;
    assert chains[s][b][place..][1..] == chains[s][b][place + 1..];
  }

  class Iterator<K(==), V> {
    const hashMap: HashMap<K, V>
    var sidx: nat
    var bidx: nat
    var cur: Node?<K, V>
    /** The place of cur in its chain. */
    ghost var place: nat

    ghost predicate Valid()
      reads this, hashMap, hashMap.at.Values
    {
      hashMap.Valid() && Stands(hashMap.chains, sidx, bidx, place, cur)
    }

    /** What is still to be visited, the current node first. */
    ghost function Rest(): seq<Node<K, V>>
      requires Valid()
      reads this, hashMap, hashMap.at.Values
    {
      ToVisit(hashMap.chains, sidx, bidx, place, cur)
    }

    constructor Begin(hashMap: HashMap<K, V>)
      requires hashMap.Valid()
      ensures this.hashMap == hashMap && Valid() && Rest() == FromShard(hashMap.chains, 0)
    {
      this.hashMap := hashMap;
      sidx, bidx, cur, place := 0, 0, null, 0;
      new;
      Seek();
    }

    /** Moves to the first node at or after bucket bidx of shard sidx. */
    method Seek()
      requires hashMap.Valid() && sidx < NUM_SHARDS && cur == null
      modifies this
      ensures Valid() && Rest() == After(hashMap.chains, old(sidx), old(bidx))
    {
      hide Nodes, Index, After, ShardOk;
      ghost var chains := hashMap.chains;
      ghost var goal := After(chains, sidx, bidx);
      while sidx < NUM_SHARDS
        invariant sidx <= NUM_SHARDS && cur == null && goal == After(chains, sidx, bidx)
        invariant sidx == NUM_SHARDS ==> goal == []
      {
        var s := hashMap.shards[sidx];
        ghost var i := sidx;
        ShardShape(s, chains[i]);
        if s.buckets != [] {
          while bidx <= s.mask
            invariant sidx == i && cur == null && goal == After(chains, sidx, bidx)
          {
            AfterBucket(chains, sidx, bidx);
            if s.buckets[bidx] != null {
              cur, place := s.buckets[bidx], 0;
              ToVisitFirst(chains, sidx, bidx, cur);
              return;
            }
            bidx := bidx + 1;
          }
        }
        AfterShard(chains, sidx, bidx);
        AfterEnd(chains);
        sidx, bidx := sidx + 1, 0;
      }
    }

    lemma Current()
      requires Valid()
      ensures cur == null ==> Rest() == []
      ensures cur != null ==> Rest() != [] && Rest()[0] == cur
    {
    }

    /** Moves to the next node; an exhausted iterator stays where it is. */
    method Next()
      requires Valid()
      modifies this
      ensures Valid() && Rest() == if old(cur) == null then [] else old(Rest())[1..]
    {
      hide Nodes, Index, After, ShardOk;
      if cur != null {
        ShardShape(hashMap.shards[sidx], hashMap.chains[sidx]);
        ToVisitNext(hashMap.chains, sidx, bidx, place, cur);
      }
      if cur != null && cur.next != null {
        cur, place := cur.next, place + 1;
      } else if cur != null {
        bidx := bidx + 1;
        cur := null;
        Seek();
      }
    }
  }

  lemma AfterEnd<K, V>(chains: seq<Chains<K, V>>)
    ensures After(chains, |chains|, 0) == []
  {
  }

  lemma ShardShape<K, V>(s: Shard<K, V>, c: Chains<K, V>)
    requires ShardOk(s, c)
    ensures |s.buckets| == |c| && (c != [] ==> s.mask + 1 == |c|)
    ensures forall b | 0 <= b < |c| :: s.buckets[b] == At(c[b], 0)
    ensures forall b, i | 0 <= b < |c| && 0 <= i < |c[b]| :: c[b][i].next == At(c[b], i + 1)
  {
    forall b: nat | b < |c|
      ensures s.buckets[b] == At(c[b], 0) && forall i | 0 <= i < |c[b]| :: c[b][i].next == At(c[b], i + 1)
    {
      ChainLinked(s.buckets, c, b);
    }
  }

  ghost predicate Once<T>(s: seq<T>) {
    forall i, j | 0 <= i < j < |s| :: s[i] != s[j]
  }

  lemma OnceJoin<T>(s: seq<T>, t: seq<T>)
    requires Once(s) && Once(t) && forall x | x in s :: x !in t
    ensures Once(s + t)
  {
    forall i, j | 0 <= i < j < |s + t|
      ensures (s + t)[i] != (s + t)[j]
    {
      if i < |s| <= j { assert s[i] in s && t[j - |s|] in t; }
    }
  }

  lemma {:induction false} BucketFound<K, V>(c: Chains<K, V>, b: nat, x: Node<K, V>) returns (a: nat)
    requires x in FromBucket(c, b)
    ensures b <= a < |c| && x in c[a]
    decreases |c| - b
  {
    if x in c[b] { a := b; } else { a := BucketFound(c, b + 1, x); }
  }

  lemma {:induction false} BucketCovered<K, V>(c: Chains<K, V>, b: nat, a: nat, x: Node<K, V>)
    requires b <= a < |c| && x in c[a]
    ensures x in FromBucket(c, b)
    decreases |c| - b
  {
    if b < a { BucketCovered(c, b + 1, a, x); }
  }

  lemma {:induction false} BucketsOnce<K, V>(c: Chains<K, V>, b: nat)
    requires Placed(c)
    ensures Once(FromBucket(c, b))
    decreases |c| - b
  {
    if b < |c| {
      hide BucketOf, Once, Placed;
      BucketsOnce(c, b + 1);
      ApartFrom(c, b);
      ChainOnce(c, b);
      forall x | x in c[b]
        ensures x !in FromBucket(c, b + 1)
      {
        if x in FromBucket(c, b + 1) { var _ := BucketFound(c, b + 1, x); }
      }
      OnceJoin(c[b], FromBucket(c, b + 1));
    }
  }

  lemma ChainOnce<K, V>(c: Chains<K, V>, b: nat)
    requires Placed(c) && b < |c|
    ensures Once(c[b])
  {
  }

  lemma InShard<K, V>(c: Chains<K, V>, x: Node<K, V>)
    ensures x in FromBucket(c, 0) <==> x in Nodes(c)
  {
    if x in FromBucket(c, 0) {
      var a := BucketFound(c, 0, x);
      ChainsInNodes(c);
    }
    if x in Nodes(c) {
      var a, i :| 0 <= a < |c| && 0 <= i < |c[a]| && c[a][i] == x;
      BucketCovered(c, 0, a, x);
    }
  }

  lemma {:induction false} InShards<K, V>(chains: seq<Chains<K, V>>, i: nat, x: Node<K, V>)
    ensures x in FromShard(chains, i) <==> exists j :: i <= j < |chains| && x in Nodes(chains[j])
    decreases |chains| - i
  {
    hide Nodes;
    if i < |chains| {
      InShard(chains[i], x);
      InShards(chains, i + 1, x);
    }
  }

  lemma {:induction false} ShardsOnce<K, V>(hasher: K -> nat, chains: seq<Chains<K, V>>, at: map<K, Node<K, V>>, i: nat)
    requires Index(hasher, chains, at) && forall j | 0 <= j < NUM_SHARDS :: Placed(chains[j])
    ensures Once(FromShard(chains, i))
    decreases NUM_SHARDS - i
  {
    if i < NUM_SHARDS {
      hide Placed, Once, Nodes, HashOf, FromBucket;
      ShardsOnce(hasher, chains, at, i + 1);
      BucketsOnce(chains[i], 0);
      ShardNodes(hasher, chains, at, i);
      forall x | x in FromBucket(chains[i], 0)
        ensures x !in FromShard(chains, i + 1)
      {
        InShard(chains[i], x);
        InShards(chains, i + 1, x);
      }
      OnceJoin(FromBucket(chains[i], 0), FromShard(chains, i + 1));
    }
  }

  /** Iteration from begin to end visits each element once. */
  lemma VisitsEachOnce<K, V>(hasher: K -> nat, chains: seq<Chains<K, V>>, at: map<K, Node<K, V>>)
    requires Index(hasher, chains, at) && forall j | 0 <= j < NUM_SHARDS :: Placed(chains[j])
    ensures Once(FromShard(chains, 0)) && |FromShard(chains, 0)| == |at|
    ensures forall x | x in FromShard(chains, 0) :: x.key in at && at[x.key] == x
    ensures forall k | k in at :: at[k] in FromShard(chains, 0)
  {
    hide Placed, Once, Nodes, HashOf, FromShard;
    var all := FromShard(chains, 0);
    ShardsOnce(hasher, chains, at, 0);
    forall k | k in at
      ensures at[k] in all && at[k].key == k
    {
      InShards(chains, 0, at[k]);
    }
    forall x | x in all
      ensures x.key in at && at[x.key] == x
    {
      InShards(chains, 0, x);
    }
    OnceCount(all);
    Bijection((set x | x in all), at);
  }

  lemma {:induction false} OnceCount<T>(s: seq<T>)
    requires Once(s)
    ensures |set x | x in s| == |s|
  {
    if s != [] {
      var t := s[..|s| - 1];
      OnceCount(t);
      assert (set x | x in s) == (set x | x in t) + {s[|s| - 1]};
      assert s[|s| - 1] !in t;
    }
  }

  // ----- whole runs

  /** EraseFound finds the key and erases the element the accessor then holds. */
  datatype Op<!K, V> = Insert(key: K, value: V) | Erase(key: K) | EraseFound(key: K) | Rehash(n: int)

  /** What a plain map holds after the operations: the first insertion of a key wins. */
  function Apply<K, V>(ops: seq<Op<K, V>>): map<K, V> {
    if ops == [] then map[] else Applied(Apply(ops[..|ops| - 1]), ops[|ops| - 1])
  }

  function Applied<K, V>(m: map<K, V>, op: Op<K, V>): map<K, V> {
    match op
    case Insert(k, v) => if k in m then m else m[k := v]
    case Erase(k) => m - {k}
    case EraseFound(k) => m - {k}
    case Rehash(_) => m
  }

  ghost predicate Holds<K, V>(at: map<K, Node<K, V>>, m: map<K, V>)
    reads at.Values
  {
    at.Keys == m.Keys && forall k | k in at :: at[k] in at.Values && at[k].value == m[k]
  }

  /** After any run, a lookup finds what a plain map would, and a traversal the same elements, each once. */
  method Run<K(==), V>(hasher: K -> nat, ops: seq<Op<K, V>>, q: K) returns (n: Node?<K, V>, all: seq<Node<K, V>>)
    ensures n != null <==> q in Apply(ops)
    ensures n != null ==> n.key == q && n.value == Apply(ops)[q]
    ensures Once(all) && |all| == |Apply(ops)|
    ensures forall x | x in all :: x.key in Apply(ops) && x.value == Apply(ops)[x.key]
  {
    hide HashMap.Valid, Once;
    var m := new HashMap(hasher);
    for i := 0 to |ops|
      invariant fresh(m) && fresh(m.at.Values) && m.Valid() && Holds(m.at, Apply(ops[..i]))
    {
      assert ops[..i + 1][..i] == ops[..i];
      Perform(m, ops[i], Apply(ops[..i]));
    }
    assert ops[..|ops|] == ops;
    n := m.Find(q);
    all := Elements(m);
  }

  /** One operation on the hash map does to its contents what it does to a plain map. */
  method Perform<K(==), V>(m: HashMap<K, V>, op: Op<K, V>, ghost before: map<K, V>)
    requires m.Valid() && Holds(m.at, before)
    modifies m, m.at.Values`next
    ensures m.Valid() && Holds(m.at, Applied(before, op)) && fresh(m.at.Values - old(m.at.Values))
  {
    hide HashMap.Valid;
    match op
    case Insert(k, v) => var _, _ := m.Insert(k, v);
    case Erase(k) => var _ := m.Erase(k);
    case EraseFound(k) =>
      var n := m.Find(k);
      if n != null { var _ := m.EraseElement(n); }
    case Rehash(c) => m.Rehash(c);
  }

  /** All elements, in iteration order. */
  method Elements<K(==), V>(m: HashMap<K, V>) returns (all: seq<Node<K, V>>)
    requires m.Valid()
    ensures Once(all) && |all| == |m.at| && forall x | x in all :: x.key in m.at && m.at[x.key] == x
  {
    hide HashMap.Valid, Iterator.Valid, Iterator.Rest, FromShard, Once, Index, Placed;
    var it := new Iterator.Begin(m);
    all := [];
    while it.cur != null
      invariant fresh(it) && it.hashMap == m && it.Valid() && all + it.Rest() == FromShard(m.chains, 0)
      decreases |it.Rest()|
    {
      it.Current();
      all := all + [it.cur];
      it.Next();
    }
    it.Current();
    assert all == FromShard(m.chains, 0);
    m.AllPlaced();
    VisitsEachOnce(m.hasher, m.chains, m.at);
  }
}
