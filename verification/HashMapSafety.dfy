/** The lifetime invariant of the concurrent hash map, and what it guarantees over all runs. */
module HashMapSafety {
  import opened Basics
  import opened HashMapProtocol

  ghost predicate NoHolder(s: State, n: Nid) { forall h :: !Holds(s, h, n) }

  /** t unlinked n and has yet to free it. */
  ghost predicate Mine(s: State, t: Tid, n: Nid) {
    n in s.nodes && n !in s.linked && n !in s.freed && n in s.unlinker && s.unlinker[n] == t
  }

  ghost predicate OwnsEmpty(s: State, t: Tid, a: Aid) { Owns(s, t, a) && s.acc[a].hold == Empty }

  ghost predicate OwnsWrite(s: State, t: Tid, a: Aid, n: Nid) { Owns(s, t, a) && s.acc[a].hold == Held(n, Exclusive) }

  // What a position relies on, by kind.

  /** The node pointer a thread may use because it holds the shard lock. */
  function Pointed(pc: Pc): Opt<(Nid, Key)> {
    match pc
    case Try(_, k, _, _, n, _) => Some((n, k))
    case Got(_, k, _, n) => Some((n, k))
    case LockNew(_, k, _, n) => Some((n, k))
    case _ => None
  }

  /** The node a thread has unlinked and must free. */
  function Doomed(pc: Pc): Opt<Nid> {
    match pc
    case EraDone(_, n, _, removed) => if removed then Some(n) else None
    case EraRelease(_, n, removed) => if removed then Some(n) else None
    case EraFree(n) => Some(n)
    case DelDone(_, n) => Some(n)
    case DelDrain(n) => Some(n)
    case DelDrained(n) => Some(n)
    case DelFree(n) => Some(n)
    case _ => None
  }

  /** A node whose element lock must be free. */
  function Unheld(pc: Pc): Opt<Nid> {
    match pc
    case LockNew(_, _, _, n) => Some(n)
    case EraFree(n) => Some(n)
    case DelFree(n) => Some(n)
    case _ => None
  }

  /** A key known to be absent. */
  function Absent(pc: Pc): Opt<Key> {
    match pc
    case New(_, k, _) => Some(k)
    case PutNew(k) => Some(k)
    case _ => None
  }

  /** The accessor an operation is filling. */
  function Filling(pc: Pc): Opt<Aid> {
    match pc
    case Want(a, _, _, _) => Some(a)
    case Search(a, _, _, _) => Some(a)
    case Try(a, _, _, _, _, _) => Some(a)
    case Drop(a, _, _, _) => Some(a)
    case Got(a, _, _, _) => Some(a)
    case Adopt(a, _, _) => Some(a)
    case New(a, _, _) => Some(a)
    case LockNew(a, _, _, _) => Some(a)
    case _ => None
  }

  /** The accessor through which an element is being erased. */
  function Erasing(pc: Pc): Opt<(Aid, Nid)> {
    match pc
    case EraWant(a, n) => Some((a, n))
    case EraUnlink(a, n, _) => Some((a, n))
    case EraDone(a, n, _, _) => Some((a, n))
    case EraRelease(a, n, _) => Some((a, n))
    case _ => None
  }

  ghost predicate PcOk(s: State, t: Tid, pc: Pc) {
    && (Pointed(pc).Some? ==> HasKey(s, Pointed(pc).v.0, Pointed(pc).v.1))
    && (Doomed(pc).Some? ==> Mine(s, t, Doomed(pc).v))
    && (Unheld(pc).Some? ==> NoHolder(s, Unheld(pc).v))
    && (Absent(pc).Some? ==> !Present(s, Absent(pc).v))
    && (Filling(pc).Some? ==> OwnsEmpty(s, t, Filling(pc).v))
    && (Erasing(pc).Some? ==> OwnsWrite(s, t, Erasing(pc).v.0, Erasing(pc).v.1))
    && (pc.EraUnlink? ==> pc.n in s.nodes && s.nodes[pc.n] == pc.k)
    && (pc.Try? ==> pc.i <= MAX_ATTEMPTS)
  }

  ghost predicate Threads(s: State) { forall t | t in s.pc :: PcOk(s, t, s.pc[t]) }

  ghost predicate Memory(s: State) {
    && s.linked <= s.nodes.Keys && s.freed <= s.nodes.Keys && s.linked !! s.freed
    && (forall n, m | n in s.linked && m in s.linked && s.nodes[n] == s.nodes[m] :: n == m)
  }

  ghost predicate Elements(s: State) {
    && (forall h, n | Holds(s, h, n) :: n in s.nodes && n !in s.freed)
    && (forall g, h, n | Holds(s, g, n) && Holds(s, h, n) && HoldOf(s, g).m == Exclusive :: g == h)
  }

  ghost predicate Shards(s: State, sh: Key -> nat) {
    forall t, u | t in s.pc && u in s.pc && t != u && ShardHeld(s.pc[t]).OnShard?
                  && SameShard(sh, ShardHeld(s.pc[u]), ShardHeld(s.pc[t]).k) ::
      !ShardHeld(s.pc[t]).excl && !ShardHeld(s.pc[u]).excl
  }

  ghost predicate Inv(s: State, sh: Key -> nat) {
    Memory(s) && Elements(s) && Shards(s, sh) && Threads(s)
  }

  // ----- shard locks: only the moving thread's hold changes

  lemma ShardsKept(s: State, s': State, sh: Key -> nat, t: Tid)
    requires Shards(s, sh) && t in s.pc && s'.pc.Keys == s.pc.Keys
    requires forall u | u in s.pc && u != t :: s'.pc[u] == s.pc[u]
    requires ShardHeld(s'.pc[t]).NoShard? || ShardHeld(s'.pc[t]) == ShardHeld(s.pc[t])
          || ShardFree(s, sh, t, ShardHeld(s'.pc[t]).k, ShardHeld(s'.pc[t]).excl)
    ensures Shards(s', sh)
  {
  }

  lemma PresentWithin(s: State, s': State, k: Key)
    requires forall n | HasKey(s, n, k) :: HasKey(s', n, k)
    ensures Present(s, k) ==> Present(s', k)
  {
    if Present(s, k) {
      var n :| HasKey(s, n, k);
      assert HasKey(s', n, k);
    }
  }

  // ----- other threads

  /** What a step of t must respect so that u's position stays justified. */
  lemma OtherKept(s: State, s': State, t: Tid, u: Tid)
    requires u in s.pc && PcOk(s, u, s.pc[u])
    requires forall n | n in s.nodes :: n in s'.nodes && s'.nodes[n] == s.nodes[n]
    requires forall a | Owns(s, u, a) :: a in s'.acc && s'.acc[a] == s.acc[a]
    requires Pointed(s.pc[u]).Some? ==> Pointed(s.pc[u]).v.0 in s'.linked
    requires Doomed(s.pc[u]).Some? ==> Mine(s', u, Doomed(s.pc[u]).v)
    requires Unheld(s.pc[u]).Some? ==> NoHolder(s', Unheld(s.pc[u]).v)
    requires Absent(s.pc[u]).Some? ==> !Present(s', Absent(s.pc[u]).v)
    ensures PcOk(s', u, s.pc[u])
  {
    hide NoHolder, Present;
  }

  /** Only t moves, and of the accessors only t's own change. */
  ghost predicate OnlyMover(s: State, s': State, t: Tid) {
    && t in s.pc && s'.pc.Keys == s.pc.Keys && (forall u | u in s.pc && u != t :: s'.pc[u] == s.pc[u])
    && (forall a | a in s.acc && s.acc[a].owner != t :: a in s'.acc && s'.acc[a] == s.acc[a])
  }

  ghost predicate SameMemory(s: State, s': State) {
    s'.nodes == s.nodes && s'.linked == s.linked && s'.freed == s.freed && s'.unlinker == s.unlinker
  }

  ghost predicate ShardStep(s: State, s': State, sh: Key -> nat, t: Tid)
    requires t in s.pc && t in s'.pc
  {
    ShardHeld(s'.pc[t]).NoShard? || ShardHeld(s'.pc[t]) == ShardHeld(s.pc[t])
    || ShardFree(s, sh, t, ShardHeld(s'.pc[t]).k, ShardHeld(s'.pc[t]).excl)
  }

  /** No element lock is gained. */
  ghost predicate HoldersWithin(s: State, s': State) {
    forall h | HoldOf(s', h).Held? :: HoldOf(s', h) == HoldOf(s, h)
  }

  lemma ElementsWithin(s: State, s': State)
    requires Elements(s) && HoldersWithin(s, s') && s'.nodes == s.nodes && s'.freed == s.freed
    ensures Elements(s') && forall n | NoHolder(s, n) :: NoHolder(s', n)
  {
    forall h, n | Holds(s', h, n)
      ensures Holds(s, h, n) && HoldOf(s', h) == HoldOf(s, h)
    {
    }
  }

  /** Steps that change neither memory nor gain an element lock. */
  lemma QuietStep(s: State, s': State, sh: Key -> nat, t: Tid)
    requires Inv(s, sh) && OnlyMover(s, s', t) && SameMemory(s, s') && HoldersWithin(s, s') && ShardStep(s, s', sh, t)
    requires PcOk(s', t, s'.pc[t])
    ensures Inv(s', sh)
  {
    hide Elements, Shards, NoHolder, HoldersWithin, ShardFree, PcOk;
    ElementsWithin(s, s');
    ShardsKept(s, s', sh, t);
    forall u | u in s'.pc
      ensures PcOk(s', u, s'.pc[u])
    {
      if u != t { QuietOther(s, s', t, u); }
    }
  }

  lemma QuietOther(s: State, s': State, t: Tid, u: Tid)
    requires OnlyMover(s, s', t) && SameMemory(s, s') && u in s.pc && u != t && PcOk(s, u, s.pc[u])
    requires forall n | NoHolder(s, n) :: NoHolder(s', n)
    ensures PcOk(s', u, s.pc[u])
  {
    hide NoHolder;
    if Absent(s.pc[u]).Some? { PresentWithin(s', s, Absent(s.pc[u]).v); }
    OtherKept(s, s', t, u);
  }

  // ----- gaining an element lock

  /** Holder g gains x in mode m; every other hold is as before or gone. */
  ghost predicate Gains(s: State, s': State, g: Holder, x: Nid, m: Mode) {
    && HoldOf(s', g) == Held(x, m)
    && forall h | h != g && HoldOf(s', h).Held? :: HoldOf(s', h) == HoldOf(s, h)
  }

  lemma ElementsGain(s: State, s': State, g: Holder, x: Nid, m: Mode)
    requires Elements(s) && Gains(s, s', g, x, m) && s'.nodes == s.nodes && s'.freed == s.freed
    requires x in s.nodes && x !in s.freed && ElementFree(s, x, m) && HoldOf(s, g) == Empty
    ensures Elements(s') && forall n | n != x && NoHolder(s, n) :: NoHolder(s', n)
  {
    forall h, n | Holds(s', h, n) && h != g
      ensures Holds(s, h, n) && HoldOf(s', h) == HoldOf(s, h)
    {
    }
    forall h | Holds(s', h, x) && h != g
      ensures m == Shared && HoldOf(s', h).m == Shared
    {
      assert Holds(s, h, x);
    }
    forall a, b, n | Holds(s', a, n) && Holds(s', b, n) && HoldOf(s', a).m == Exclusive
      ensures a == b
    {
      assert a != g && b != g ==> Holds(s, a, n) && Holds(s, b, n);
    }
    forall n | n != x && NoHolder(s, n)
      ensures NoHolder(s', n)
    {
      forall h ensures !Holds(s', h, n) { assert !Holds(s, h, n); }
    }
  }

  /** Nobody else counts on x being unheld: x is reached under t's shard lock, or doomed by t. */
  lemma NotUnheld(s: State, sh: Key -> nat, t: Tid, u: Tid, x: Nid)
    requires Inv(s, sh) && t in s.pc && u in s.pc && u != t
    requires (Pointed(s.pc[t]).Some? && Pointed(s.pc[t]).v.0 == x) || (Doomed(s.pc[t]).Some? && Doomed(s.pc[t]).v == x)
    ensures Unheld(s.pc[u]).Some? ==> Unheld(s.pc[u]).v != x
  {
    hide Elements, Memory, NoHolder, Present;
    assert PcOk(s, t, s.pc[t]) && PcOk(s, u, s.pc[u]);
  }

  lemma GainStep(s: State, s': State, sh: Key -> nat, t: Tid, g: Holder, x: Nid, m: Mode)
    requires Inv(s, sh) && OnlyMover(s, s', t) && SameMemory(s, s') && Gains(s, s', g, x, m) && ShardStep(s, s', sh, t)
    requires x in s.nodes && x !in s.freed && ElementFree(s, x, m) && HoldOf(s, g) == Empty
    requires (Pointed(s.pc[t]).Some? && Pointed(s.pc[t]).v.0 == x) || (Doomed(s.pc[t]).Some? && Doomed(s.pc[t]).v == x)
    requires PcOk(s', t, s'.pc[t])
    ensures Inv(s', sh)
  {
    hide Elements, Shards, NoHolder, Gains, ShardFree, ElementFree, PcOk, Holds;
    ElementsGain(s, s', g, x, m);
    ShardsKept(s, s', sh, t);
    forall u | u in s'.pc
      ensures PcOk(s', u, s'.pc[u])
    {
      if u != t {
        NotUnheld(s, sh, t, u, x);
        GainOther(s, s', t, u, x);
      }
    }
  }

  lemma GainOther(s: State, s': State, t: Tid, u: Tid, x: Nid)
    requires OnlyMover(s, s', t) && SameMemory(s, s') && u in s.pc && u != t && PcOk(s, u, s.pc[u])
    requires Unheld(s.pc[u]).Some? ==> Unheld(s.pc[u]).v != x
    requires forall n | n != x && NoHolder(s, n) :: NoHolder(s', n)
    ensures PcOk(s', u, s.pc[u])
  {
    hide NoHolder;
    if Absent(s.pc[u]).Some? { PresentWithin(s', s, Absent(s.pc[u]).v); }
    OtherKept(s, s', t, u);
  }

  // ----- linking, unlinking and freeing

  /** Two threads on the same shard, one of them exclusively, are the same thread. */
  lemma ShardAlone(s: State, sh: Key -> nat, t: Tid, u: Tid, k: Key)
    requires Shards(s, sh) && t in s.pc && u in s.pc && ShardHeld(s.pc[t]).OnShard? && ShardHeld(s.pc[t]).excl
    requires sh(ShardHeld(s.pc[t]).k) == sh(k) && SameShard(sh, ShardHeld(s.pc[u]), k)
    ensures t == u
  {
  }

  lemma PointedShard(pc: Pc)
    ensures Pointed(pc).Some? ==> ShardHeld(pc).OnShard? && ShardHeld(pc).k == Pointed(pc).v.1
    ensures Absent(pc).Some? ==> ShardHeld(pc) == OnShard(Absent(pc).v, true)
  {
  }

  ghost predicate SameHolds(s: State, s': State) { forall h :: HoldOf(s', h) == HoldOf(s, h) }

  lemma SameHoldsKeep(s: State, s': State)
    requires SameHolds(s, s')
    ensures forall n :: NoHolder(s, n) <==> NoHolder(s', n)
  {
    forall n
      ensures NoHolder(s, n) <==> NoHolder(s', n)
    {
      forall h ensures Holds(s, h, n) == Holds(s', h, n) { }
    }
  }

  /** A node of a key that is absent is allocated and linked under the exclusive shard lock. */
  lemma LinkStep(s: State, s': State, sh: Key -> nat, t: Tid, n: Nid, k: Key)
    requires Inv(s, sh) && OnlyMover(s, s', t) && SameHolds(s, s') && ShardHeld(s'.pc[t]) == ShardHeld(s.pc[t])
    requires n !in s.nodes && Absent(s.pc[t]) == Some(k) && s'.acc == s.acc
    requires s'.nodes == s.nodes[n := k] && s'.linked == s.linked + {n} && s'.freed == s.freed
    requires s'.unlinker == s.unlinker
    requires s'.pc[t] == PutDone(k, true) || (s.pc[t].New? && s'.pc[t] == LockNew(s.pc[t].a, k, s.pc[t].m, n))
    ensures Inv(s', sh)
  {
    hide Shards, NoHolder, Present, Holds, PcOk;
    LinkMemory(s, s', t, n, k);
    ShardsKept(s, s', sh, t);
    SameHoldsKeep(s, s');
    forall u | u in s'.pc
      ensures PcOk(s', u, s'.pc[u])
    {
      if u != t { LinkOther(s, s', sh, t, u, n, k); } else { LinkSelf(s, s', t, n, k); }
    }
  }

  lemma LinkMemory(s: State, s': State, t: Tid, n: Nid, k: Key)
    requires Memory(s) && Elements(s) && SameHolds(s, s') && n !in s.nodes && t in s.pc && PcOk(s, t, s.pc[t])
    requires Absent(s.pc[t]) == Some(k)
    requires s'.nodes == s.nodes[n := k] && s'.linked == s.linked + {n} && s'.freed == s.freed
    ensures Memory(s') && Elements(s')
  {
    forall m | m in s.linked
      ensures s.nodes[m] != k
    {
      assert HasKey(s, m, s.nodes[m]);
    }
    forall h, x ensures Holds(s', h, x) == Holds(s, h, x) { }
  }

  lemma LinkSelf(s: State, s': State, t: Tid, n: Nid, k: Key)
    requires Elements(s) && t in s.pc && t in s'.pc && PcOk(s, t, s.pc[t]) && n !in s.nodes && s'.acc == s.acc
    requires SameHolds(s, s')
    requires s'.nodes == s.nodes[n := k] && s'.linked == s.linked + {n}
    requires s'.pc[t] == PutDone(k, true) || (s.pc[t].New? && s'.pc[t] == LockNew(s.pc[t].a, k, s.pc[t].m, n))
    ensures PcOk(s', t, s'.pc[t])
  {
    forall h ensures !Holds(s', h, n) { assert !Holds(s, h, n); }
  }

  lemma LinkOther(s: State, s': State, sh: Key -> nat, t: Tid, u: Tid, n: Nid, k: Key)
    requires Shards(s, sh) && OnlyMover(s, s', t) && u in s.pc && u != t && PcOk(s, u, s.pc[u])
    requires n !in s.nodes && Absent(s.pc[t]) == Some(k) && forall m | NoHolder(s, m) :: NoHolder(s', m)
    requires s'.nodes == s.nodes[n := k] && s'.linked == s.linked + {n} && s'.freed == s.freed
    requires s'.unlinker == s.unlinker
    ensures PcOk(s', u, s.pc[u])
  {
    hide NoHolder, Shards;
    if Absent(s.pc[u]).Some? {
      var j := Absent(s.pc[u]).v;
      PointedShard(s.pc[u]);
      PointedShard(s.pc[t]);
      if j == k { ShardAlone(s, sh, t, u, k); }
      PresentWithin(s', s, j);
    }
    OtherKept(s, s', t, u);
  }

  /** The exclusive shard lock keeps every other thread from holding a bare pointer to n. */
  lemma UnlinkStep(s: State, s': State, sh: Key -> nat, t: Tid, n: Nid)
    requires Inv(s, sh) && OnlyMover(s, s', t) && SameHolds(s, s') && ShardHeld(s'.pc[t]) == ShardHeld(s.pc[t])
    requires n in s.linked && s'.acc == s.acc && ShardHeld(s.pc[t]) == OnShard(s.nodes[n], true)
    requires s'.nodes == s.nodes && s'.linked == s.linked - {n} && s'.freed == s.freed
    requires s'.unlinker == s.unlinker[n := t]
    requires (s.pc[t].EraUnlink? && s.pc[t].n == n && s'.pc[t] == EraDone(s.pc[t].a, n, s.pc[t].k, true))
          || (s.pc[t].DelUnlink? && s'.pc[t] == DelDone(s.pc[t].k, n))
    ensures Inv(s', sh)
  {
    hide Shards, NoHolder, Present, PcOk, HoldOf;
    UnlinkElements(s, s');
    ShardsKept(s, s', sh, t);
    SameHoldsKeep(s, s');
    forall u | u in s'.pc
      ensures PcOk(s', u, s'.pc[u])
    {
      if u != t { UnlinkOther(s, s', sh, t, u, n); } else { UnlinkSelf(s, s', t, n); }
    }
  }

  lemma UnlinkElements(s: State, s': State)
    requires Elements(s) && SameHolds(s, s') && s'.nodes == s.nodes && s'.freed == s.freed
    ensures Elements(s')
  {
    forall h, x ensures Holds(s', h, x) == Holds(s, h, x) { }
  }

  lemma UnlinkSelf(s: State, s': State, t: Tid, n: Nid)
    requires Memory(s) && t in s.pc && t in s'.pc && PcOk(s, t, s.pc[t]) && n in s.linked && s'.acc == s.acc
    requires s'.nodes == s.nodes && s'.linked == s.linked - {n} && s'.freed == s.freed
    requires s'.unlinker == s.unlinker[n := t]
    requires (s.pc[t].EraUnlink? && s.pc[t].n == n && s'.pc[t] == EraDone(s.pc[t].a, n, s.pc[t].k, true))
          || (s.pc[t].DelUnlink? && s'.pc[t] == DelDone(s.pc[t].k, n))
    ensures PcOk(s', t, s'.pc[t])
  {
    hide NoHolder, Present;
  }

  lemma UnlinkOther(s: State, s': State, sh: Key -> nat, t: Tid, u: Tid, n: Nid)
    requires Shards(s, sh) && OnlyMover(s, s', t) && u in s.pc && u != t && PcOk(s, u, s.pc[u])
    requires n in s.linked && n in s.nodes && ShardHeld(s.pc[t]) == OnShard(s.nodes[n], true)
    requires forall m | NoHolder(s, m) :: NoHolder(s', m)
    requires s'.nodes == s.nodes && s'.linked == s.linked - {n} && s'.freed == s.freed
    requires s'.unlinker == s.unlinker[n := t]
    ensures PcOk(s', u, s.pc[u])
  {
    hide NoHolder, Shards;
    PointedShard(s.pc[u]);
    if Pointed(s.pc[u]).Some? && Pointed(s.pc[u]).v.0 == n { ShardAlone(s, sh, t, u, s.nodes[n]); }
    if Absent(s.pc[u]).Some? { PresentWithin(s', s, Absent(s.pc[u]).v); }
    OtherKept(s, s', t, u);
  }

  lemma FreeStep(s: State, s': State, sh: Key -> nat, t: Tid, n: Nid)
    requires Inv(s, sh) && OnlyMover(s, s', t) && SameHolds(s, s') && s'.acc == s.acc && s'.pc[t] == Idle
    requires Doomed(s.pc[t]) == Some(n) && Unheld(s.pc[t]) == Some(n)
    requires s'.nodes == s.nodes && s'.linked == s.linked && s'.freed == s.freed + {n} && s'.unlinker == s.unlinker
    ensures Inv(s', sh)
  {
    hide Shards, Present, PcOk, HoldOf;
    FreeElements(s, s', t, n);
    ShardsKept(s, s', sh, t);
    SameHoldsKeep(s, s');
    forall u | u in s'.pc
      ensures PcOk(s', u, s'.pc[u])
    {
      if u != t { FreeOther(s, s', t, u, n); } else { IdleOk(s', t); }
    }
  }

  lemma IdleOk(s: State, t: Tid)
    ensures PcOk(s, t, Idle)
  {
  }

  lemma FreeElements(s: State, s': State, t: Tid, n: Nid)
    requires Memory(s) && Elements(s) && SameHolds(s, s') && t in s.pc && PcOk(s, t, s.pc[t])
    requires Doomed(s.pc[t]) == Some(n) && Unheld(s.pc[t]) == Some(n)
    requires s'.nodes == s.nodes && s'.linked == s.linked && s'.freed == s.freed + {n}
    ensures Memory(s') && Elements(s')
  {
    forall h, x ensures Holds(s', h, x) == Holds(s, h, x) { }
  }

  lemma FreeOther(s: State, s': State, t: Tid, u: Tid, n: Nid)
    requires OnlyMover(s, s', t) && u in s.pc && u != t && PcOk(s, u, s.pc[u]) && PcOk(s, t, s.pc[t])
    requires Doomed(s.pc[t]) == Some(n)
    requires forall m | NoHolder(s, m) :: NoHolder(s', m)
    requires s'.nodes == s.nodes && s'.linked == s.linked && s'.freed == s.freed + {n} && s'.unlinker == s.unlinker
    ensures PcOk(s', u, s.pc[u])
  {
    hide NoHolder;
    if Absent(s.pc[u]).Some? { PresentWithin(s', s, Absent(s.pc[u]).v); }
    OtherKept(s, s', t, u);
  }

  // ----- handing an element lock from the thread to its accessor

  ghost predicate Transfers(s: State, s': State, f: Holder, g: Holder) {
    && f != g && HoldOf(s, f).Held? && HoldOf(s, g) == Empty && HoldOf(s', g) == HoldOf(s, f) && HoldOf(s', f) == Empty
    && forall h | h != f && h != g :: HoldOf(s', h) == HoldOf(s, h)
  }

  lemma ElementsTransfer(s: State, s': State, f: Holder, g: Holder)
    requires Elements(s) && Transfers(s, s', f, g) && s'.nodes == s.nodes && s'.freed == s.freed
    ensures Elements(s') && forall n | NoHolder(s, n) :: NoHolder(s', n)
  {
    forall h, n | Holds(s', h, n)
      ensures var o := if h == g then f else h; Holds(s, o, n) && HoldOf(s, o) == HoldOf(s', h) && h != f
    {
    }
    forall a, b, n | Holds(s', a, n) && Holds(s', b, n) && HoldOf(s', a).m == Exclusive
      ensures a == b
    {
      var oa, ob := if a == g then f else a, if b == g then f else b;
      assert Holds(s, oa, n) && Holds(s, ob, n);
    }
    forall n | NoHolder(s, n)
      ensures NoHolder(s', n)
    {
      forall h ensures !Holds(s', h, n) { assert !Holds(s, if h == g then f else h, n); }
    }
  }

  lemma TransferStep(s: State, s': State, sh: Key -> nat, t: Tid, f: Holder, g: Holder)
    requires Inv(s, sh) && OnlyMover(s, s', t) && SameMemory(s, s') && Transfers(s, s', f, g) && s'.pc[t] == Idle
    ensures Inv(s', sh)
  {
    hide Elements, Shards, NoHolder, Transfers, PcOk;
    ElementsTransfer(s, s', f, g);
    ShardsKept(s, s', sh, t);
    forall u | u in s'.pc
      ensures PcOk(s', u, s'.pc[u])
    {
      if u != t { QuietOther(s, s', t, u); } else { IdleOk(s', t); }
    }
  }

  // ----- every step

  /** A move that touches nothing but the thread's own position. */
  lemma Moves(s: State, sh: Key -> nat, t: Tid, q: Pc)
    requires Inv(s, sh) && t in s.pc && Unheld(q).None? && PcOk(s, t, q)
    requires LocalHold(q) == Empty || LocalHold(q) == LocalHold(s.pc[t])
    requires ShardHeld(q).NoShard? || ShardHeld(q) == ShardHeld(s.pc[t])
      || ShardFree(s, sh, t, ShardHeld(q).k, ShardHeld(q).excl)
    ensures Inv(To(s, t, q), sh)
  {
    hide Inv, NoHolder, Present, PcOk, ShardFree;
    var s' := To(s, t, q);
    SamePcOk(s, s', t, q);
    QuietStep(s, s', sh, t);
  }

  lemma SamePcOk(s: State, s': State, t: Tid, q: Pc)
    requires SameMemory(s, s') && s'.acc == s.acc && Unheld(q).None? && PcOk(s, t, q)
    ensures PcOk(s', t, q)
  {
    if Absent(q).Some? { PresentWithin(s', s, Absent(q).v); }
  }

  /** A move that also empties one of the thread's accessors. */
  lemma LetsGo(s: State, sh: Key -> nat, t: Tid, a: Aid, q: Pc)
    requires Inv(s, sh) && t in s.pc && Owns(s, t, a) && LocalHold(q) == Empty && ShardHeld(q).NoShard?
    requires PcOk(To(SetHold(s, a, Empty), t, q), t, q)
    ensures Inv(To(SetHold(s, a, Empty), t, q), sh)
  {
    hide Inv, NoHolder, Present, PcOk;
    QuietStep(s, To(SetHold(s, a, Empty), t, q), sh, t);
  }

  /** The element lock of x goes to accessor a, which was empty. */
  lemma Takes(s: State, sh: Key -> nat, t: Tid, a: Aid, x: Nid, m: Mode, q: Pc)
    requires Inv(s, sh) && t in s.pc && OwnsEmpty(s, t, a) && ElementFree(s, x, m) && x in s.nodes && x !in s.freed
    requires Pointed(s.pc[t]).Some? && Pointed(s.pc[t]).v.0 == x && LocalHold(s.pc[t]) == Empty
    requires q.InsDone? && ShardHeld(q) == ShardHeld(s.pc[t])
    ensures Inv(To(SetHold(s, a, Held(x, m)), t, q), sh)
  {
    hide Inv, NoHolder, Present, ElementFree;
    GainStep(s, To(SetHold(s, a, Held(x, m)), t, q), sh, t, ByAccessor(a), x, m);
  }

  lemma IdleStep(s: State, sh: Key -> nat, t: Tid, c: Choice)
    requires Inv(s, sh) && t in s.pc && s.pc[t].Idle?
    ensures Inv(StepIdle(s, t, c), sh)
  {
    hide Inv, NoHolder, Present;
    match c
    case Find(a, k, m) => if Owns(s, t, a) { LetsGo(s, sh, t, a, Want(a, k, m, false)); }
    case Insert(a, k, m) => if Owns(s, t, a) { LetsGo(s, sh, t, a, Want(a, k, m, true)); }
    case Put(k) => Moves(s, sh, t, PutWant(k));
    case Erase(a) =>
      if Owns(s, t, a) && s.acc[a].hold.Held? && s.acc[a].hold.m == Exclusive {
        Moves(s, sh, t, EraWant(a, s.acc[a].hold.n));
      }
    case Delete(k) => Moves(s, sh, t, DelWant(k));
    case Release(a) =>
      if Owns(s, t, a) {
        LetsGo(s, sh, t, a, Idle);
        assert s.pc[t := Idle] == s.pc;
      }
    case _ =>
  }

  lemma AcquireStep(s: State, sh: Key -> nat, t: Tid, n: Nid, fail: bool)
    requires Inv(s, sh) && t in s.pc && !s.pc[t].Idle? && !IsPut(s.pc[t]) && !IsErase(s.pc[t])
    ensures Inv(StepAcquire(s, sh, t, n, fail), sh)
  {
    hide Inv, NoHolder, Present, ElementFree, ShardFree;
    Known(s, sh, t);
    match s.pc[t]
    case Want(a, k, m, ins) => if ShardFree(s, sh, t, k, ins) { Moves(s, sh, t, Search(a, k, m, ins)); }
    case Search(a, k, m, ins) =>
      if HasKey(s, n, k) { Moves(s, sh, t, Try(a, k, m, ins, n, 0)); }
      else if !Present(s, k) { Moves(s, sh, t, if ins then New(a, k, m) else Miss(k)); }
    case Try(a, k, m, ins, x, i) =>
      if i >= MAX_ATTEMPTS { Moves(s, sh, t, Drop(a, k, m, ins)); }
      else if fail || !ElementFree(s, x, m) { Moves(s, sh, t, Try(a, k, m, ins, x, i + 1)); }
      else if ins { Takes(s, sh, t, a, x, m, InsDone(k, x, false)); }
      else { TakesLocally(s, sh, t, x, m, Got(a, k, m, x)); }
    case Drop(a, k, m, ins) => Moves(s, sh, t, Want(a, k, m, ins));
    case Miss(_) => Moves(s, sh, t, Idle);
    case Got(a, _, m, x) => Moves(s, sh, t, Adopt(a, m, x));
    case Adopt(a, m, x) => TransferStep(s, To(SetHold(s, a, Held(x, m)), t, Idle), sh, t, ByThread(t), ByAccessor(a));
    case New(a, k, m) => if n !in s.nodes { Links(s, sh, t, n, k, LockNew(a, k, m, n)); }
    case LockNew(a, k, m, x) => if ElementFree(s, x, m) { Takes(s, sh, t, a, x, m, InsDone(k, x, true)); }
    case InsDone(_, _, _) => Moves(s, sh, t, Idle);
  }

  lemma Known(s: State, sh: Key -> nat, t: Tid)
    requires Inv(s, sh) && t in s.pc
    ensures PcOk(s, t, s.pc[t])
    ensures forall n | n in s.linked :: n in s.nodes && n !in s.freed
  {
  }

  lemma TakesLocally(s: State, sh: Key -> nat, t: Tid, x: Nid, m: Mode, q: Pc)
    requires Inv(s, sh) && t in s.pc && ElementFree(s, x, m) && x in s.nodes && x !in s.freed
    requires LocalHold(s.pc[t]) == Empty
    requires (Pointed(s.pc[t]).Some? && Pointed(s.pc[t]).v.0 == x) || (Doomed(s.pc[t]).Some? && Doomed(s.pc[t]).v == x)
    requires Unheld(q).None? && PcOk(s, t, q) && LocalHold(q) == Held(x, m) && ShardHeld(q) == ShardHeld(s.pc[t])
    ensures Inv(To(s, t, q), sh)
  {
    hide Inv, NoHolder, Present, ElementFree, PcOk;
    SamePcOk(s, To(s, t, q), t, q);
    GainStep(s, To(s, t, q), sh, t, ByThread(t), x, m);
  }

  lemma Links(s: State, sh: Key -> nat, t: Tid, n: Nid, k: Key, q: Pc)
    requires Inv(s, sh) && t in s.pc && n !in s.nodes && Absent(s.pc[t]) == Some(k)
    requires q == PutDone(k, true) || (s.pc[t].New? && q == LockNew(s.pc[t].a, k, s.pc[t].m, n))
    ensures Inv(To(s.(nodes := s.nodes[n := k], linked := s.linked + {n}), t, q), sh)
  {
    hide Inv, NoHolder, Present;
    LinkStep(s, To(s.(nodes := s.nodes[n := k], linked := s.linked + {n}), t, q), sh, t, n, k);
  }

  lemma PutStep(s: State, sh: Key -> nat, t: Tid, n: Nid)
    requires Inv(s, sh) && t in s.pc && IsPut(s.pc[t])
    ensures Inv(StepPut(s, sh, t, n), sh)
  {
    hide Inv, NoHolder, Present, ShardFree;
    Known(s, sh, t);
    match s.pc[t]
    case PutWant(k) => if ShardFree(s, sh, t, k, true) { Moves(s, sh, t, PutSearch(k)); }
    case PutSearch(k) => Moves(s, sh, t, if Present(s, k) then PutDone(k, false) else PutNew(k));
    case PutNew(k) => if n !in s.nodes { Links(s, sh, t, n, k, PutDone(k, true)); }
    case PutDone(_, _) => Moves(s, sh, t, Idle);
  }

  /** Letting go of an exclusive hold leaves the element unheld. */
  lemma ExclusiveGone(s: State, s': State, f: Holder, n: Nid)
    requires Elements(s) && HoldOf(s, f) == Held(n, Exclusive) && HoldOf(s', f) == Empty
    requires forall h | h != f :: HoldOf(s', h) == HoldOf(s, h)
    ensures NoHolder(s', n) && HoldersWithin(s, s')
  {
    assert Holds(s, f, n);
    forall h ensures !Holds(s', h, n) { assert Holds(s, h, n) ==> h == f; }
  }

  predicate ByAccess(pc: Pc) { pc.EraWant? || pc.EraUnlink? || pc.EraDone? || pc.EraRelease? || pc.EraFree? }

  lemma EraseByAccessor(s: State, sh: Key -> nat, t: Tid, n: Nid)
    requires Inv(s, sh) && t in s.pc && ByAccess(s.pc[t])
    ensures Inv(StepErase(s, sh, t, n), sh)
  {
    hide Inv, NoHolder, Present, ElementFree, ShardFree;
    Known(s, sh, t);
    match s.pc[t]
    case EraWant(a, x) =>
      if x in s.nodes && ShardFree(s, sh, t, s.nodes[x], true) { Moves(s, sh, t, EraUnlink(a, x, s.nodes[x])); }
    case EraUnlink(a, x, k) =>
      if x in s.linked {
        Unlinks(s, sh, t, x, EraDone(a, x, k, true));
      } else {
        Moves(s, sh, t, EraDone(a, x, k, false));
      }
    case EraDone(a, x, _, removed) => Moves(s, sh, t, EraRelease(a, x, removed));
    case EraRelease(a, x, removed) => Releases(s, sh, t, a, x, removed);
    case EraFree(x) => Frees(s, sh, t, x);
  }

  lemma EraseByKey(s: State, sh: Key -> nat, t: Tid, n: Nid)
    requires Inv(s, sh) && t in s.pc && IsErase(s.pc[t]) && !ByAccess(s.pc[t])
    ensures Inv(StepErase(s, sh, t, n), sh)
  {
    hide Inv, NoHolder, Present, ElementFree, ShardFree;
    Known(s, sh, t);
    match s.pc[t]
    case DelWant(k) => if ShardFree(s, sh, t, k, true) { Moves(s, sh, t, DelUnlink(k)); }
    case DelUnlink(k) =>
      if HasKey(s, n, k) {
        Unlinks(s, sh, t, n, DelDone(k, n));
      } else if !Present(s, k) {
        Moves(s, sh, t, DelMiss(k));
      }
    case DelMiss(_) => Moves(s, sh, t, Idle);
    case DelDone(_, x) => Moves(s, sh, t, DelDrain(x));
    case DelDrain(x) => if ElementFree(s, x, Exclusive) { TakesLocally(s, sh, t, x, Exclusive, DelDrained(x)); }
    case DelDrained(x) => Drains(s, sh, t, x);
    case DelFree(x) => Frees(s, sh, t, x);
  }

  lemma Frees(s: State, sh: Key -> nat, t: Tid, x: Nid)
    requires Inv(s, sh) && t in s.pc && (s.pc[t] == EraFree(x) || s.pc[t] == DelFree(x))
    ensures Inv(To(s.(freed := s.freed + {x}), t, Idle), sh)
  {
    hide Inv;
    FreeStep(s, To(s.(freed := s.freed + {x}), t, Idle), sh, t, x);
  }

  lemma Unlinks(s: State, sh: Key -> nat, t: Tid, n: Nid, q: Pc)
    requires Inv(s, sh) && t in s.pc && n in s.linked && n in s.nodes && ShardHeld(s.pc[t]) == OnShard(s.nodes[n], true)
    requires (s.pc[t].EraUnlink? && s.pc[t].n == n && q == EraDone(s.pc[t].a, n, s.pc[t].k, true))
          || (s.pc[t].DelUnlink? && q == DelDone(s.pc[t].k, n))
    ensures Inv(To(Unlink(s, t, n), t, q), sh)
  {
    hide Inv, NoHolder, Present;
    UnlinkStep(s, To(Unlink(s, t, n), t, q), sh, t, n);
  }

  lemma Releases(s: State, sh: Key -> nat, t: Tid, a: Aid, x: Nid, removed: bool)
    requires Inv(s, sh) && t in s.pc && s.pc[t] == EraRelease(a, x, removed)
    ensures a in s.acc && Inv(To(SetHold(s, a, Empty), t, if removed then EraFree(x) else Idle), sh)
  {
    hide Shards, Memory, NoHolder, Present;
    assert PcOk(s, t, s.pc[t]);
    var q := if removed then EraFree(x) else Idle;
    var s' := To(SetHold(s, a, Empty), t, q);
    ExclusiveGone(s, s', ByAccessor(a), x);
    LetsGo(s, sh, t, a, q);
  }

  lemma Drains(s: State, sh: Key -> nat, t: Tid, x: Nid)
    requires Inv(s, sh) && t in s.pc && s.pc[t] == DelDrained(x)
    ensures Inv(To(s, t, DelFree(x)), sh)
  {
    hide Shards, Memory, NoHolder, Present;
    assert PcOk(s, t, s.pc[t]);
    var s' := To(s, t, DelFree(x));
    ExclusiveGone(s, s', ByThread(t), x);
    QuietStep(s, s', sh, t);
  }

  /** Every step of every thread keeps the invariant. */
  lemma StepKeepsInv(s: State, sh: Key -> nat, t: Tid, c: Choice)
    requires Inv(s, sh) && t in s.pc
    ensures Inv(Step(s, sh, t, c), sh)
  {
    hide Inv, StepIdle, StepErase, StepPut, StepAcquire;
    if s.pc[t].Idle? {
      IdleStep(s, sh, t, c);
    } else if c.Go? {
      if ByAccess(s.pc[t]) { EraseByAccessor(s, sh, t, c.n); }
      else if IsErase(s.pc[t]) { EraseByKey(s, sh, t, c.n); }
      else if IsPut(s.pc[t]) { PutStep(s, sh, t, c.n); }
      else { AcquireStep(s, sh, t, c.n, c.fail); }
    }
  }

  // ----- whole runs

  /** The map starts empty, with every thread between calls and every accessor empty. */
  ghost predicate Init(s: State) {
    && s.nodes == map[] && s.linked == {} && s.freed == {}
    && (forall t | t in s.pc :: s.pc[t] == Idle) && (forall a | a in s.acc :: s.acc[a].hold == Empty)
  }

  ghost predicate Follows(s: State, s': State, sh: Key -> nat) {
    exists t, c | t in s.pc :: s' == Step(s, sh, t, c)
  }

  ghost predicate Run(b: seq<State>, sh: Key -> nat) {
    && |b| > 0 && Init(b[0])
    && forall k | 0 <= k < |b| - 1 :: Follows(b[k], b[k + 1], sh)
  }

  lemma {:induction false} RunInv(b: seq<State>, sh: Key -> nat, k: nat)
    requires Run(b, sh) && k < |b|
    ensures Inv(b[k], sh)
  {
    hide Step, PcOk;
    if k == 0 {
      forall t | t in b[0].pc ensures PcOk(b[0], t, b[0].pc[t]) { IdleOk(b[0], t); }
    } else {
      RunInv(b, sh, k - 1);
      assert Follows(b[k - 1], b[k], sh);
      var t, c :| t in b[k - 1].pc && b[k] == Step(b[k - 1], sh, t, c);
      StepKeepsInv(b[k - 1], sh, t, c);
    }
  }

  /** No step, in any state of any run, touches a freed node; in particular no node is freed twice. */
  lemma NoUseAfterFree(b: seq<State>, sh: Key -> nat, k: nat, t: Tid, c: Choice)
    requires Run(b, sh) && k < |b| && t in b[k].pc
    ensures Touches(b[k], sh, t, c) !! b[k].freed
  {
    hide Shards, NoHolder, Present;
    RunInv(b, sh, k);
    var s := b[k];
    assert PcOk(s, t, s.pc[t]);
    forall a | a in s.acc && s.acc[a].hold.Held?
      ensures s.acc[a].hold.n !in s.freed
    {
      assert Holds(s, ByAccessor(a), s.acc[a].hold.n);
    }
    assert LocalHold(s.pc[t]).Held? ==> Holds(s, ByThread(t), LocalHold(s.pc[t]).n);
  }

  /** A freed node is unreachable: not linked, its lock unheld, and in no thread's hands. */
  lemma FreedIsGone(b: seq<State>, sh: Key -> nat, k: nat, n: Nid)
    requires Run(b, sh) && k < |b| && n in b[k].freed
    ensures n !in b[k].linked && NoHolder(b[k], n)
    ensures forall t | t in b[k].pc ::
              && (Pointed(b[k].pc[t]).Some? ==> Pointed(b[k].pc[t]).v.0 != n)
              && (Doomed(b[k].pc[t]).Some? ==> Doomed(b[k].pc[t]).v != n)
  {
    hide Shards, Present;
    RunInv(b, sh, k);
    forall t | t in b[k].pc ensures PcOk(b[k], t, b[k].pc[t]) { }
  }

  /** A node is freed by the thread that unlinked it, once nobody holds its lock. */
  lemma FreedByUnlinker(b: seq<State>, sh: Key -> nat, k: nat, t: Tid, c: Choice, n: Nid)
    requires Run(b, sh) && k < |b| && t in b[k].pc && n !in b[k].freed && n in Step(b[k], sh, t, c).freed
    ensures n in b[k].unlinker && b[k].unlinker[n] == t && n !in b[k].linked && NoHolder(b[k], n)
  {
    hide Inv, Step, NoHolder, Present;
    RunInv(b, sh, k);
    Known(b[k], sh, t);
    FreeingPc(b[k], sh, t, c, n);
  }

  lemma FreeingPc(s: State, sh: Key -> nat, t: Tid, c: Choice, n: Nid)
    requires t in s.pc && n !in s.freed && n in Step(s, sh, t, c).freed
    ensures s.pc[t] == EraFree(n) || s.pc[t] == DelFree(n)
  {
    hide Present, ElementFree, ShardFree, HasKey;
  }

  /** Whoever holds an element exclusively, through an accessor or on the way to one, holds it alone. */
  lemma ElementExclusion(b: seq<State>, sh: Key -> nat, k: nat, g: Holder, h: Holder, n: Nid)
    requires Run(b, sh) && k < |b| && Holds(b[k], g, n) && Holds(b[k], h, n) && HoldOf(b[k], g).m == Exclusive
    ensures g == h && n in b[k].nodes && n !in b[k].freed
  {
    RunInv(b, sh, k);
  }

  /** Keys stay unique, so a lookup has at most one answer. */
  lemma KeysUnique(b: seq<State>, sh: Key -> nat, k: nat, n: Nid, m: Nid, key: Key)
    requires Run(b, sh) && k < |b| && HasKey(b[k], n, key) && HasKey(b[k], m, key)
    ensures n == m
  {
    RunInv(b, sh, k);
  }

  // ----- shard sections are short

  /** The scheduler names the node that is there, or an address that is free. */
  ghost predicate ValidPick(s: State, pc: Pc, n: Nid) {
    && (pc.Search? || pc.DelUnlink? ==> HasKey(s, n, pc.k) || !Present(s, pc.k))
    && (pc.New? || pc.PutNew? ==> n !in s.nodes)
  }

  /** Bounds the steps a thread still takes under its shard lock. */
  function Rank(pc: Pc): int {
    match pc
    case Search(_, _, _, _) => 12
    case Try(_, _, _, _, _, i) => 11 - i
    case New(_, _, _) => 4
    case LockNew(_, _, _, _) => 3
    case PutSearch(_) => 3
    case PutNew(_) => 2
    case EraUnlink(_, _, _) => 2
    case DelUnlink(_) => 2
    case _ => 1
  }

  /** A thread that holds a shard lock never waits for an element lock, nor for anything else: each of
   *  its steps brings it closer to releasing the shard, at most 12 steps in all, whatever other
   *  threads do.  Existing elements are only tried, at most eight times; the one blocking acquisition,
   *  on a node just linked, finds the lock free. */
  lemma ShardSectionIsShort(b: seq<State>, sh: Key -> nat, k: nat, t: Tid, c: Choice)
    requires Run(b, sh) && k < |b| && t in b[k].pc && ShardHeld(b[k].pc[t]).OnShard?
    requires c.Go? && ValidPick(b[k], b[k].pc[t], c.n)
    ensures Advances(b[k].pc[t], Step(b[k], sh, t, c).pc[t])
  {
    hide Inv, StepAcquire, StepPut, StepErase, NoHolder, Present, ValidPick, Rank;
    RunInv(b, sh, k);
    Known(b[k], sh, t);
    if IsErase(b[k].pc[t]) { EraseAdvances(b[k], sh, t, c.n); }
    else if IsPut(b[k].pc[t]) { PutAdvances(b[k], sh, t, c.n); }
    else { AcquireAdvances(b[k], sh, t, c.n, c.fail); }
  }

  ghost predicate Advances(p: Pc, q: Pc) {
    1 <= Rank(p) <= 12 && (ShardHeld(q).NoShard? || Rank(q) < Rank(p))
  }

  lemma AcquireAdvances(s: State, sh: Key -> nat, t: Tid, n: Nid, fail: bool)
    requires t in s.pc && PcOk(s, t, s.pc[t]) && ValidPick(s, s.pc[t], n) && ShardHeld(s.pc[t]).OnShard?
    requires !IsErase(s.pc[t]) && !IsPut(s.pc[t])
    ensures Advances(s.pc[t], StepAcquire(s, sh, t, n, fail).pc[t])
  {
    hide Present, HasKey, ShardFree;
    if s.pc[t].LockNew? { UnheldIsFree(s, s.pc[t].n, s.pc[t].m); }
  }

  lemma UnheldIsFree(s: State, n: Nid, m: Mode)
    requires NoHolder(s, n)
    ensures ElementFree(s, n, m)
  {
  }

  lemma PutAdvances(s: State, sh: Key -> nat, t: Tid, n: Nid)
    requires t in s.pc && ValidPick(s, s.pc[t], n) && ShardHeld(s.pc[t]).OnShard? && IsPut(s.pc[t])
    ensures Advances(s.pc[t], StepPut(s, sh, t, n).pc[t])
  {
    hide Present, HasKey, ShardFree;
  }

  lemma EraseAdvances(s: State, sh: Key -> nat, t: Tid, n: Nid)
    requires t in s.pc && ValidPick(s, s.pc[t], n) && ShardHeld(s.pc[t]).OnShard? && IsErase(s.pc[t])
    ensures Advances(s.pc[t], StepErase(s, sh, t, n).pc[t])
  {
    hide Present, HasKey, ShardFree;
  }
}
