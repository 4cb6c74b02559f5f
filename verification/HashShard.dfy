/** One shard of the hash map: a bucket array whose buckets head chains of nodes. */
module HashShards {

  const NUM_SHARDS: nat := 64
  const INITIAL_BUCKETS: nat := 4
  const MAX_BUCKETS: nat := 0x400_0000

  class Node<K, V> {
    var next: Node?<K, V>
    const hash: nat
    const key: K
    var value: V

    constructor (key: K, hash: nat, value: V)
      ensures this.key == key && this.hash == hash && this.value == value && next == null
    {
      this.key, this.hash, this.value, next := key, hash, value, null;
    }
  }

  /** No buckets stands for the null array of a shard that was never inserted into. */
  datatype Shard<!K, !V> = Shard(buckets: seq<Node?<K, V>>, mask: nat, count: nat)

  /** The nodes of each bucket, in chain order. */
  type Chains<!K, !V> = seq<seq<Node<K, V>>>

  // ----- indices

  function BitAnd(x: nat, m: nat): (a: nat)
    ensures a <= m
  {
    if x == 0 || m == 0 then 0 else 2 * BitAnd(x / 2, m / 2) + (if x % 2 == 1 && m % 2 == 1 then 1 else 0)
  }

  predicate PowerOfTwo(n: nat) {
    n == 1 || (n > 1 && n % 2 == 0 && PowerOfTwo(n / 2))
  }

  lemma {:induction false} NextPower(n: nat, m: nat)
    requires PowerOfTwo(n) && PowerOfTwo(m) && n < m
    ensures PowerOfTwo(2 * n) && 2 * n <= m
  {
    if n > 1 { NextPower(n / 2, m / 2); }
  }

  function BucketOf(h: nat, mask: nat): (b: nat)
    ensures b <= mask
  {
    BitAnd(h / NUM_SHARDS, mask)
  }

  lemma {:induction false} MaskIsRemainder(x: nat, n: nat)
    requires PowerOfTwo(n)
    ensures BitAnd(x, n - 1) == x % n
  {
    if n > 1 && x > 0 {
      var h := n / 2;
      assert n == 2 * h && PowerOfTwo(h);
      hide PowerOfTwo;
      MaskIsRemainder(x / 2, h);
      OddMask(x, h);
      HalvedRemainder(x, h);
    }
  }

  lemma OddMask(x: nat, h: nat)
    requires h > 0 && x > 0
    ensures BitAnd(x, 2 * h - 1) == 2 * BitAnd(x / 2, h - 1) + x % 2
  {
    assert (2 * h - 1) / 2 == h - 1 && (2 * h - 1) % 2 == 1;
  }

  lemma HalvedRemainder(x: nat, h: nat)
    requires h > 0
    ensures x % (2 * h) == 2 * (x / 2 % h) + x % 2
  {
    var k, m := x / 2 / h, x / 2 % h;
    assert x / 2 == h * k + m;
    assert x == (2 * h) * k + (2 * m + x % 2);
    RemainderIs(2 * h, k, 2 * m + x % 2);
  }

  lemma RemainderIs(d: nat, k: nat, r: nat)
    requires r < d
    ensures (d * k + r) % d == r
  {
    var x := d * k + r;
    var q := x / d;
    assert x == d * q + x % d;
    if q < k { TimesMore(d, q, k); }
    if k < q { TimesMore(d, k, q); }
  }

  lemma {:induction false} TimesMore(d: nat, a: nat, b: nat)
    requires a < b
    ensures d * b >= d * a + d
  {
    assert d * b == d * (b - 1) + d;
    if a < b - 1 { TimesMore(d, a, b - 1); }
  }

  /** Of a hash the shard takes the low six bits and the bucket is the rest modulo the number of buckets. */
  lemma BucketIs(h: nat, n: nat)
    requires PowerOfTwo(n)
    ensures BucketOf(h, n - 1) == h / 64 % n
  {
    MaskIsRemainder(h / NUM_SHARDS, n);
  }

  // ----- what a shard is

  ghost function Nodes<K, V>(c: Chains<K, V>): set<Node<K, V>> {
    set b, i | 0 <= b < |c| && 0 <= i < |c[b]| :: c[b][i]
  }

  /** Each node is once in the chain its hash selects. */
  ghost predicate Placed<K, V>(c: Chains<K, V>) {
    && (forall b, i | 0 <= b < |c| && 0 <= i < |c[b]| :: BucketOf(c[b][i].hash, |c| - 1) == b)
    && (forall b, i, j | 0 <= b < |c| && 0 <= i < j < |c[b]| :: c[b][i] != c[b][j])
  }

  /** The chains are the ones the pointers spell out. */
  ghost predicate Linked<K, V>(heads: seq<Node?<K, V>>, c: Chains<K, V>)
    reads Nodes(c)
  {
    |heads| == |c| && forall b | 0 <= b < |c| :: (forall n | n in c[b] :: n in Nodes(c)) && Chain(heads[b], c[b])
  }

  ghost predicate Chain<K, V>(head: Node?<K, V>, chain: seq<Node<K, V>>)
    reads chain
  {
    head == At(chain, 0) && forall i | 0 <= i < |chain| :: chain[i].next == At(chain, i + 1)
  }

  ghost function At<K, V>(chain: seq<Node<K, V>>, i: nat): Node?<K, V> {
    if i < |chain| then chain[i] else null
  }

  /** The counters agree with the chains, and chains stay short unless the array cannot grow. */
  ghost predicate Counted<K, V>(s: Shard<K, V>, c: Chains<K, V>) {
    && |s.buckets| == |c| && s.count == |Nodes(c)|
    && (c == [] ==> s.mask == 0)
    && (c != [] ==> s.mask + 1 == |c| && PowerOfTwo(|c|) && INITIAL_BUCKETS <= |c| <= MAX_BUCKETS)
    && (s.count <= |c| || |c| == MAX_BUCKETS)
  }

  ghost predicate ShardOk<K, V>(s: Shard<K, V>, c: Chains<K, V>)
    reads Nodes(c)
  {
    Counted(s, c) && Placed(c) && Linked(s.buckets, c)
  }

  // ----- pushing a node in front of a chain

  ghost function Pushed<K, V>(c: Chains<K, V>, b: nat, n: Node<K, V>): Chains<K, V>
    requires b < |c|
  {
    c[b := [n] + c[b]]
  }

  lemma PushedNodes<K, V>(c: Chains<K, V>, b: nat, n: Node<K, V>)
    requires b < |c|
    ensures Nodes(Pushed(c, b, n)) == Nodes(c) + {n}
  {
    var d := Pushed(c, b, n);
    assert n == d[b][0];
    forall x | x in Nodes(c)
      ensures x in Nodes(d)
    {
      var a, i :| 0 <= a < |c| && 0 <= i < |c[a]| && c[a][i] == x;
      assert x == if a == b then d[a][i + 1] else d[a][i];
    }
  }

  lemma PushedPlaced<K, V>(c: Chains<K, V>, b: nat, n: Node<K, V>)
    requires Placed(c) && b < |c| && n !in Nodes(c) && BucketOf(n.hash, |c| - 1) == b
    ensures Placed(Pushed(c, b, n))
  {
    hide BucketOf;
    var d := Pushed(c, b, n);
    forall i, j | 0 <= i < j < |d[b]|
      ensures d[b][i] != d[b][j]
    {
      assert c[b][j - 1] in Nodes(c);
    }
  }

  method PushFront<K, V>(heads: seq<Node?<K, V>>, ghost c: Chains<K, V>, b: nat, n: Node<K, V>)
    returns (heads': seq<Node?<K, V>>)
    requires b < |c| && Linked(heads, c) && n !in Nodes(c)
    modifies n`next
    ensures Linked(heads', Pushed(c, b, n)) && |heads'| == |heads|
  {
    hide Nodes;
    n.next := heads[b];
    heads' := heads[b := n];
    PushedNodes(c, b, n);
    assert Chain(heads[b], c[b]);
    assert Chain(n, [n] + c[b]);
  }

  // ----- operations on a shard whose lock is held

  /** The node with key k, if there is one. */
  method Search<K(==), V>(s: Shard<K, V>, ghost c: Chains<K, V>, h: nat, k: K) returns (n: Node?<K, V>)
    requires ShardOk(s, c) && forall x | x in Nodes(c) && x.key == k :: x.hash == h
    ensures n != null ==> n in Nodes(c) && n.key == k
    ensures n == null ==> forall x | x in Nodes(c) :: x.key != k
  {
    hide Counted, Linked, Placed, Nodes, BucketOf;
    CountedMask(s, c);
    if s.buckets == [] {
      NoNodes(c);
      return null;
    }
    ghost var b := BucketOf(h, s.mask);
    n := s.buckets[BucketOf(h, s.mask)];
    ghost var i := 0;
    ChainLinked(s.buckets, c, b);
    while n != null
      invariant 0 <= i <= |c[b]| && n == At(c[b], i)
      invariant forall j | 0 <= j < i :: !(c[b][j].hash == h && c[b][j].key == k)
      decreases |c[b]| - i
    {
      if n.hash == h && n.key == k {
        InNodes(c, b, i);
        return;
      }
      n := n.next;
      i := i + 1;
    }
    forall x | x in Nodes(c)
      ensures x.key != k
    {
      InItsChain(c, x);
    }
  }

  lemma NoNodes<K, V>(c: Chains<K, V>)
    requires c == []
    ensures Nodes(c) == {}
  {
  }

  lemma CountedMask<K, V>(s: Shard<K, V>, c: Chains<K, V>)
    requires Counted(s, c)
    ensures |s.buckets| == |c| && s.count == |Nodes(c)|
    ensures c != [] ==> s.mask + 1 == |c|
    ensures c == [] ==> s.mask == 0
  {
  }

  lemma InItsChain<K, V>(c: Chains<K, V>, x: Node<K, V>)
    requires Placed(c) && x in Nodes(c)
    ensures c != [] && x in c[BucketOf(x.hash, |c| - 1)]
  {
  }

  /** The nodes of the buckets before b and the first i of bucket b. */
  ghost function Before<K, V>(c: Chains<K, V>, b: nat, i: nat): set<Node<K, V>> {
    set a, j | 0 <= a < |c| && 0 <= j < |c[a]| && (a < b || (a == b && j < i)) :: c[a][j]
  }

  lemma BeforeStep<K, V>(c: Chains<K, V>, b: nat, i: nat)
    requires b < |c|
    ensures i < |c[b]| ==> Before(c, b, i + 1) == Before(c, b, i) + {c[b][i]}
    ensures Before(c, b, |c[b]|) == Before(c, b + 1, 0)
  {
    if i < |c[b]| {
      forall x | x in Before(c, b, i + 1)
        ensures x in Before(c, b, i) + {c[b][i]}
      {
      }
    }
  }

  lemma BeforeAll<K, V>(c: Chains<K, V>)
    ensures Before(c, 0, 0) == {} && Before(c, |c|, 0) == Nodes(c)
  {
  }

  lemma NotBefore<K, V>(c: Chains<K, V>, b: nat, i: nat)
    requires Placed(c) && b < |c| && i < |c[b]|
    ensures c[b][i] !in Before(c, b, i)
  {
  }

  function Empty<K, V>(n: nat): (c: seq<Node?<K, V>>)
    ensures |c| == n && forall b | 0 <= b < n :: c[b] == null
  {
    seq(n, _ => null)
  }

  ghost function EmptyChains<K, V>(n: nat): (c: Chains<K, V>)
    ensures |c| == n && Nodes(c) == {} && Placed(c)
  {
    seq(n, _ => [])
  }

  /** How many buckets there are after growing once. */
  function Grown(n: nat): nat {
    if n == 0 then INITIAL_BUCKETS else if n == MAX_BUCKETS then MAX_BUCKETS else 2 * n
  }

  /** Doubles the bucket array, or makes the first one, and relinks every chain; the nodes stay the same. */
  method GrowLocked<K, V>(s: Shard<K, V>, ghost c: Chains<K, V>) returns (s': Shard<K, V>, ghost c': Chains<K, V>)
    requires ShardOk(s, c)
    modifies Nodes(c)`next
    ensures ShardOk(s', c') && Nodes(c') == Nodes(c) && s'.count == s.count
    ensures |s'.buckets| == Grown(|s.buckets|)
  {
    if s.buckets != [] && s.mask + 1 >= MAX_BUCKETS { return s, c; }
    hide Nodes, Placed, Linked, Counted;
    var newCount := if s.buckets != [] then (s.mask + 1) * 2 else INITIAL_BUCKETS;
    var newMask := newCount - 1;
    var nb := Empty(newCount);
    c' := EmptyChains(newCount);
    LinkedEmpty(nb, c');
    if s.buckets != [] {
      CountedMask(s, c);
      nb, c' := Relink(s, c, nb, c', newMask);
    }
    s' := s.(buckets := nb, mask := newMask);
    GrownCounted(s, c, s', c');
  }

  lemma LinkedEmpty<K, V>(heads: seq<Node?<K, V>>, c: Chains<K, V>)
    requires |heads| == |c| && forall b | 0 <= b < |c| :: heads[b] == null && c[b] == []
    ensures Linked(heads, c)
  {
  }

  /** The old chains from node i of bucket b on are still linked. */
  ghost predicate Remaining<K, V>(heads: seq<Node?<K, V>>, c: Chains<K, V>, b: nat, i: nat)
    reads Nodes(c)
  {
    && |heads| == |c|
    && (forall a | b < a < |c| :: heads[a] == At(c[a], 0))
    && (forall a, j | b <= a < |c| && 0 <= j < |c[a]| && (a > b || i <= j) :: c[a][j].next == At(c[a], j + 1))
  }

  lemma RemainingAll<K, V>(heads: seq<Node?<K, V>>, c: Chains<K, V>)
    requires Linked(heads, c) && c != []
    ensures Remaining(heads, c, 0, 0) && heads[0] == At(c[0], 0)
  {
    forall a, j | 0 <= a < |c| && 0 <= j < |c[a]|
      ensures c[a][j].next == At(c[a], j + 1) && heads[a] == At(c[a], 0)
    {
      assert Chain(heads[a], c[a]);
    }
    assert Chain(heads[0], c[0]);
  }

  lemma RemainingNext<K, V>(heads: seq<Node?<K, V>>, c: Chains<K, V>, b: nat, i: nat)
    requires Remaining(heads, c, b, i)
    ensures Remaining(heads, c, b + 1, 0) && (b + 1 < |c| ==> heads[b + 1] == At(c[b + 1], 0))
  {
  }

  ghost predicate Moving<K, V>(nb: seq<Node?<K, V>>, d: Chains<K, V>, size: nat, moved: set<Node<K, V>>)
    reads Nodes(d)
  {
    Linked(nb, d) && Placed(d) && |nb| == |d| == size && Nodes(d) == moved
  }

  /** Moves node i of old bucket b to the front of its new chain. */
  method MoveNode<K, V>(ghost heads: seq<Node?<K, V>>, ghost c: Chains<K, V>, ghost b: nat, ghost i: nat,
      n: Node<K, V>, nb: seq<Node?<K, V>>, ghost d: Chains<K, V>, newMask: nat)
    returns (next: Node?<K, V>, nb': seq<Node?<K, V>>, ghost d': Chains<K, V>)
    requires Placed(c) && b < |c| && i < |c[b]| && c[b][i] == n && Remaining(heads, c, b, i)
    requires Moving(nb, d, newMask + 1, Before(c, b, i))
    modifies n`next
    ensures Moving(nb', d', newMask + 1, Before(c, b, i + 1)) && Remaining(heads, c, b, i + 1)
    ensures next == At(c[b], i + 1)
  {
    hide Nodes, Linked, BucketOf, Before;
    next := n.next;
    NotBefore(c, b, i);
    BeforeStep(c, b, i);
    var k := BucketOf(n.hash, newMask);
    PushedNodes(d, k, n);
    PushedPlaced(d, k, n);
    nb' := PushFront(nb, d, k, n);
    d' := Pushed(d, k, n);
    forall a, j | b <= a < |c| && 0 <= j < |c[a]| && (a > b || i + 1 <= j)
      ensures c[a][j].next == At(c[a], j + 1)
    {
      assert c[a][j] != n by {
        if a != b { assert BucketOf(c[a][j].hash, |c| - 1) == a && BucketOf(c[b][i].hash, |c| - 1) == b; }
      }
    }
  }

  /** Moves every node of c into the empty chains d. */
  method Relink<K, V>(s: Shard<K, V>, ghost c: Chains<K, V>, heads: seq<Node?<K, V>>, ghost empty: Chains<K, V>,
      newMask: nat)
    returns (nb: seq<Node?<K, V>>, ghost d: Chains<K, V>)
    requires ShardOk(s, c) && s.buckets != [] && Moving(heads, empty, newMask + 1, {})
    modifies Nodes(c)`next
    ensures Moving(nb, d, newMask + 1, Nodes(c))
  {
    hide Nodes, Linked, Placed, Counted, Before, Remaining, Moving;
    nb, d := heads, empty;
    CountedMask(s, c);
    BeforeAll(c);
    RemainingAll(s.buckets, c);
    for b := 0 to s.mask + 1
      invariant Moving(nb, d, newMask + 1, Before(c, b, 0))
      invariant Remaining(s.buckets, c, b, 0) && (b <= s.mask ==> s.buckets[b] == At(c[b], 0))
    {
      var n := s.buckets[b];
      ghost var i := 0;
      while n != null
        invariant 0 <= i <= |c[b]| && n == At(c[b], i)
        invariant Moving(nb, d, newMask + 1, Before(c, b, i)) && Remaining(s.buckets, c, b, i)
        decreases |c[b]| - i
      {
        InNodes(c, b, i);
        n, nb, d := MoveNode(s.buckets, c, b, i, n, nb, d, newMask);
        i := i + 1;
      }
      BeforeStep(c, b, 0);
      RemainingNext(s.buckets, c, b, i);
    }
  }

  lemma InNodes<K, V>(c: Chains<K, V>, b: nat, i: nat)
    requires b < |c| && i < |c[b]|
    ensures c[b][i] in Nodes(c)
  {
  }

  lemma GrownCounted<K, V>(s: Shard<K, V>, c: Chains<K, V>, s': Shard<K, V>, c': Chains<K, V>)
    requires Counted(s, c) && Nodes(c') == Nodes(c) && s'.count == s.count && |s'.buckets| == |c'|
    requires s'.mask + 1 == |c'| && (c == [] ==> |c'| == INITIAL_BUCKETS)
    requires c != [] ==> |c| < MAX_BUCKETS && |c'| == 2 * |c|
    ensures Counted(s', c')
  {
    MaxIsPower();
    if c == [] {
      assert PowerOfTwo(INITIAL_BUCKETS);
    } else {
      NextPower(|c|, MAX_BUCKETS);
    }
  }

  lemma SixteenTimes(n: nat)
    requires PowerOfTwo(n)
    ensures PowerOfTwo(16 * n)
  {
    hide PowerOfTwo;
    TwoTimes(n);
    TwoTimes(2 * n);
    TwoTimes(4 * n);
    TwoTimes(8 * n);
  }

  lemma TwoTimes(n: nat)
    requires PowerOfTwo(n)
    ensures PowerOfTwo(2 * n)
  {
  }

  lemma MaxIsPower()
    ensures PowerOfTwo(MAX_BUCKETS)
  {
    assert PowerOfTwo(4);
    hide PowerOfTwo;
    SixteenTimes(0x4);
    SixteenTimes(0x40);
    SixteenTimes(0x400);
    SixteenTimes(0x4000);
    SixteenTimes(0x4_0000);
    SixteenTimes(0x40_0000);
  }

  /** At the cap shard and bucket together are the whole 32-bit hash: different hashes share no chain. */
  lemma NoFolding(h: nat, g: nat)
    requires h < 0x1_0000_0000 && g < 0x1_0000_0000 && h % NUM_SHARDS == g % NUM_SHARDS
    ensures BucketOf(h, MAX_BUCKETS - 1) == BucketOf(g, MAX_BUCKETS - 1) <==> h == g
  {
    hide BucketOf, PowerOfTwo;
    MaxIsPower();
    BucketIs(h, MAX_BUCKETS);
    BucketIs(g, MAX_BUCKETS);
  }

  /** Links a node that is not in the shard yet, growing the array first when it is full. */
  method LinkLocked<K, V>(s: Shard<K, V>, ghost c: Chains<K, V>, n: Node<K, V>)
    returns (s': Shard<K, V>, ghost c': Chains<K, V>)
    requires ShardOk(s, c) && n !in Nodes(c)
    modifies Nodes(c)`next, n`next
    ensures ShardOk(s', c') && Nodes(c') == Nodes(c) + {n}
    ensures |s'.buckets| == if |Nodes(c)| < |s.buckets| then |s.buckets| else Grown(|s.buckets|)
  {
    hide Nodes, Placed, Linked, Counted, BucketOf;
    s', c' := s, c;
    CountedMask(s, c);
    CountedRoom(s, c);
    if s.buckets == [] || s.count + 1 > s.mask + 1 {
      s', c' := GrowLocked(s, c);
      CountedMask(s', c');
    }
    var b := BucketOf(n.hash, s'.mask);
    var heads := PushFront(s'.buckets, c', b, n);
    PushedNodes(c', b, n);
    PushedPlaced(c', b, n);
    PushedCounted(s', c', b, n, heads);
    s' := s'.(buckets := heads, count := s'.count + 1);
    c' := Pushed(c', b, n);
  }

  lemma CountedRoom<K, V>(s: Shard<K, V>, c: Chains<K, V>)
    requires Counted(s, c)
    ensures s.count <= |c| <= MAX_BUCKETS || |c| == MAX_BUCKETS
  {
  }

  lemma PushedCounted<K, V>(s: Shard<K, V>, c: Chains<K, V>, b: nat, n: Node<K, V>, heads: seq<Node?<K, V>>)
    requires Counted(s, c) && b < |c| == |heads| && n !in Nodes(c) && (s.count + 1 <= |c| || |c| == MAX_BUCKETS)
    ensures Counted(s.(buckets := heads, count := s.count + 1), Pushed(c, b, n))
  {
    hide Nodes, PowerOfTwo;
    PushedNodes(c, b, n);
  }

  // ----- unlinking

  ghost function Removed<K, V>(c: Chains<K, V>, b: nat, i: nat): Chains<K, V>
    requires b < |c| && i < |c[b]|
  {
    c[b := c[b][..i] + c[b][i + 1..]]
  }

  lemma RemovedNodes<K, V>(c: Chains<K, V>, b: nat, i: nat)
    requires Placed(c) && b < |c| && i < |c[b]|
    ensures Nodes(Removed(c, b, i)) == Nodes(c) - {c[b][i]}
  {
    hide BucketOf;
    var d := Removed(c, b, i);
    forall x | x in Nodes(c) - {c[b][i]}
      ensures x in Nodes(d)
    {
      var a, j :| 0 <= a < |c| && 0 <= j < |c[a]| && c[a][j] == x;
      assert x == if a == b && j > i then d[a][j - 1] else d[a][j];
    }
    forall x | x in Nodes(d)
      ensures x in Nodes(c) - {c[b][i]}
    {
      var a, j :| 0 <= a < |d| && 0 <= j < |d[a]| && d[a][j] == x;
      assert x == if a == b && j >= i then c[a][j + 1] else c[a][j];
      if a != b { assert BucketOf(c[a][j].hash, |c| - 1) == a && BucketOf(c[b][i].hash, |c| - 1) == b; }
    }
  }

  lemma RemovedPlaced<K, V>(c: Chains<K, V>, b: nat, i: nat)
    requires Placed(c) && b < |c| && i < |c[b]|
    ensures Placed(Removed(c, b, i))
  {
    hide BucketOf;
  }

  lemma RemovedCounted<K, V>(s: Shard<K, V>, c: Chains<K, V>, b: nat, i: nat, heads: seq<Node?<K, V>>)
    requires Counted(s, c) && Placed(c) && b < |c| == |heads| && i < |c[b]|
    ensures s.count > 0 && Counted(s.(buckets := heads, count := s.count - 1), Removed(c, b, i))
  {
    hide Nodes, PowerOfTwo, Placed;
    InNodes(c, b, i);
    RemovedNodes(c, b, i);
  }

  /** Takes node i of chain b out of the chain; prev is the node before it, or null for the head. */
  method Unlink<K, V>(s: Shard<K, V>, ghost c: Chains<K, V>, b: nat, ghost i: nat, prev: Node?<K, V>, n: Node<K, V>)
    returns (s': Shard<K, V>, ghost c': Chains<K, V>)
    requires ShardOk(s, c) && b < |c| && i < |c[b]| && c[b][i] == n && prev == if i == 0 then null else c[b][i - 1]
    modifies Nodes(c)`next
    ensures ShardOk(s', c') && Nodes(c') == Nodes(c) - {n}
  {
    hide Nodes, Placed, Counted, PowerOfTwo, Linked, Removed;
    RemovedNodes(c, b, i);
    RemovedPlaced(c, b, i);
    CountedMask(s, c);
    var heads := Splice(s.buckets, c, b, i, prev, n);
    RemovedCounted(s, c, b, i, heads);
    s', c' := s.(buckets := heads, count := s.count - 1), Removed(c, b, i);
  }

  method Splice<K, V>(heads: seq<Node?<K, V>>, ghost c: Chains<K, V>, b: nat, ghost i: nat, prev: Node?<K, V>,
      n: Node<K, V>)
    returns (heads': seq<Node?<K, V>>)
    requires Linked(heads, c) && Placed(c) && b < |c| && i < |c[b]| && c[b][i] == n
    requires prev == if i == 0 then null else c[b][i - 1]
    modifies Nodes(c)`next
    ensures Linked(heads', Removed(c, b, i)) && |heads'| == |heads|
  {
    hide Nodes, Placed;
    heads' := heads;
    assert Chain(heads[b], c[b]);
    ApartFrom(c, b);
    if prev == null {
      heads' := heads[b := n.next];
    } else {
      InNodes(c, b, i - 1);
      prev.next := n.next;
    }
    ghost var d := Removed(c, b, i);
    assert Chain(heads'[b], d[b]);
    ChainsInNodes(d);
    assert prev != null ==> prev in c[b];
    forall a | 0 <= a < |c| && a != b
      ensures Chain(heads'[a], c[a])
    {
      assert old(Chain(heads[a], c[a]));
      forall j | 0 <= j < |c[a]| ensures c[a][j].next == old(c[a][j].next) { assert c[a][j] in c[a]; }
    }
  }

  lemma ChainsInNodes<K, V>(c: Chains<K, V>)
    ensures forall b | 0 <= b < |c| :: forall n | n in c[b] :: n in Nodes(c)
  {
  }

  /** A node of chain b is in no other chain. */
  lemma ApartFrom<K, V>(c: Chains<K, V>, b: nat)
    requires Placed(c) && b < |c|
    ensures forall a, x | 0 <= a < |c| && a != b && x in c[a] :: x !in c[b]
    ensures forall i, j | 0 <= i < j < |c[b]| :: c[b][i] != c[b][j]
  {
    hide BucketOf;
    forall a, x | 0 <= a < |c| && a != b && x in c[a]
      ensures x !in c[b]
    {
      assert BucketOf(x.hash, |c| - 1) == a;
    }
  }

  /** Unlinks the node with key k and returns it, or null if there is none. */
  method EraseKey<K(==), V>(s: Shard<K, V>, ghost c: Chains<K, V>, h: nat, k: K)
    returns (s': Shard<K, V>, n: Node?<K, V>, ghost c': Chains<K, V>)
    requires ShardOk(s, c) && forall x | x in Nodes(c) && x.key == k :: x.hash == h
    modifies Nodes(c)`next
    ensures n == null ==> s' == s && c' == c && forall x | x in Nodes(c) :: x.key != k
    ensures n != null ==> ShardOk(s', c') && n in Nodes(c) && n.key == k && Nodes(c') == Nodes(c) - {n}
    ensures ShardOk(s', c')
  {
    hide Counted, Linked, Placed, Nodes, BucketOf;
    s', n, c' := s, null, c;
    CountedMask(s, c);
    if s.buckets == [] {
      NoNodes(c);
      return;
    }
    var b := BucketOf(h, s.mask);
    var prev: Node?<K, V> := null;
    var p := s.buckets[b];
    ghost var i := 0;
    ChainLinked(s.buckets, c, b);
    while p != null && !(p.hash == h && p.key == k)
      invariant 0 <= i <= |c[b]| && p == At(c[b], i) && prev == if i == 0 then null else c[b][i - 1]
      invariant forall j | 0 <= j < i :: !(c[b][j].hash == h && c[b][j].key == k)
      decreases |c[b]| - i
    {
      prev, p := p, p.next;
      i := i + 1;
    }
    if p == null {
      forall x | x in Nodes(c)
        ensures x.key != k
      {
        InItsChain(c, x);
      }
      return;
    }
    n := p;
    InNodes(c, b, i);
    s', c' := Unlink(s, c, b, i, prev, p);
  }

  /** Unlinks this very node; a node with the same key that replaced it is left alone. */
  method EraseNode<K, V>(s: Shard<K, V>, ghost c: Chains<K, V>, n: Node<K, V>)
    returns (s': Shard<K, V>, removed: bool, ghost c': Chains<K, V>)
    requires ShardOk(s, c)
    modifies Nodes(c)`next
    ensures ShardOk(s', c') && Nodes(c') == Nodes(c) - {n} && removed == (n in Nodes(c))
    ensures !removed ==> s' == s && c' == c
  {
    hide Counted, Linked, Placed, Nodes, BucketOf;
    s', removed, c' := s, false, c;
    CountedMask(s, c);
    if s.buckets == [] {
      NoNodes(c);
      return;
    }
    var b := BucketOf(n.hash, s.mask);
    var prev: Node?<K, V> := null;
    var p := s.buckets[b];
    ghost var i := 0;
    ChainLinked(s.buckets, c, b);
    while p != null && p != n
      invariant 0 <= i <= |c[b]| && p == At(c[b], i) && prev == if i == 0 then null else c[b][i - 1]
      invariant forall j | 0 <= j < i :: c[b][j] != n
      decreases |c[b]| - i
    {
      prev, p := p, p.next;
      i := i + 1;
    }
    if p == n {
      s', c' := Unlink(s, c, b, i, prev, n);
      removed := true;
      InNodes(c, b, i);
    } else if n in Nodes(c) {
      InItsChain(c, n);
      assert false;
    }
  }

  lemma ChainLinked<K, V>(heads: seq<Node?<K, V>>, c: Chains<K, V>, b: nat)
    requires Linked(heads, c) && b < |c|
    ensures |heads| == |c| && heads[b] == At(c[b], 0) && forall i | 0 <= i < |c[b]| :: c[b][i].next == At(c[b], i + 1)
  {
    assert Chain(heads[b], c[b]);
  }

  /** The shard is untouched or grown no further than asked. */
  ghost predicate AsFarAs<K, V>(s: Shard<K, V>, s': Shard<K, V>, per: nat) {
    s' == s || |s'.buckets| == INITIAL_BUCKETS || |s'.buckets| < 2 * per
  }

  /** Grows the array to at least `per` buckets; never shrinks it. */
  method RehashShard<K, V>(s: Shard<K, V>, ghost c: Chains<K, V>, per: nat)
    returns (s': Shard<K, V>, ghost c': Chains<K, V>)
    requires ShardOk(s, c) && per <= MAX_BUCKETS
    modifies Nodes(c)`next
    ensures ShardOk(s', c') && Nodes(c') == Nodes(c) && s'.count == s.count
    ensures |s'.buckets| >= per && |s'.buckets| >= |s.buckets| && s'.buckets != []
    ensures AsFarAs(s, s', per)
  {
    hide Nodes, Placed, Linked, Counted;
    s', c' := s, c;
    CountedMask(s, c);
    while s'.buckets == [] || s'.mask + 1 < per
      invariant ShardOk(s', c') && Nodes(c') == Nodes(c) && s'.count == s.count && |s'.buckets| >= |s.buckets|
      invariant s'.buckets != [] ==> s'.mask + 1 == |s'.buckets|
      invariant s'.buckets == [] ==> s'.mask == 0
      invariant AsFarAs(s, s', per)
      decreases MAX_BUCKETS - |s'.buckets|
    {
      var before := s'.mask;
      s', c' := GrowLocked(s', c');
      CountedMask(s', c');
      if s'.mask == before { break; }
    }
  }
}
