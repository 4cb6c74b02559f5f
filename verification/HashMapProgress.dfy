/** Who waits for whom on the concurrent hash map. */
module HashMapProgress {
  import opened Basics
  import opened HashMapProtocol
  import opened HashMapSafety
  import opened HashMapLinear
  import opened HashMapCalls

  /** The shard lock a thread is about to take. */
  function WantsShard(s: State, pc: Pc): ShardHold {
    match pc
    case Want(_, k, _, ins) => OnShard(k, ins)
    case PutWant(k) => OnShard(k, true)
    case EraWant(_, n) => if n in s.nodes then OnShard(s.nodes[n], true) else NoShard
    case DelWant(k) => OnShard(k, true)
    case _ => NoShard
  }

  /** Another thread holds the shard lock that t needs, or somebody the element that t has unlinked. */
  ghost predicate Waits(s: State, sh: Key -> nat, t: Tid)
    requires t in s.pc
  {
    var w := WantsShard(s, s.pc[t]);
    (w.OnShard? && !ShardFree(s, sh, t, w.k, w.excl)) || (s.pc[t].DelDrain? && !ElementFree(s, s.pc[t].n, Exclusive))
  }

  /** In every reachable state a thread inside a call moves on with its step if and only if it does not wait. */
  lemma MovesUnlessWaits(b: seq<State>, sh: Key -> nat, k: nat, t: Tid, c: Choice)
    requires Run(b, sh) && k < |b| && t in b[k].pc && b[k].pc[t] != Idle && c.Go? && ValidPick(b[k], b[k].pc[t], c.n)
    ensures Step(b[k], sh, t, c).pc[t] == b[k].pc[t] <==> Waits(b[k], sh, t)
  {
    hide Inv, StepAcquire, StepPut, StepErase, NoHolder, Present, ValidPick, Waits, PcOk;
    RunInv(b, sh, k);
    Known(b[k], sh, t);
    HeldIsNode(b[k], sh, t);
    if IsErase(b[k].pc[t]) { EraseGoes(b[k], sh, t, c.n); }
    else if IsPut(b[k].pc[t]) { PutGoes(b[k], sh, t, c.n); }
    else { AcquireGoes(b[k], sh, t, c.n, c.fail); }
  }

  lemma HeldIsNode(s: State, sh: Key -> nat, t: Tid)
    requires Inv(s, sh) && t in s.pc
    ensures s.pc[t].EraWant? ==> s.pc[t].n in s.nodes
  {
    hide Memory, Shards, NoHolder, Present;
    if s.pc[t].EraWant? {
      assert PcOk(s, t, s.pc[t]);
      assert Holds(s, ByAccessor(s.pc[t].a), s.pc[t].n);
    }
  }

  lemma AcquireGoes(s: State, sh: Key -> nat, t: Tid, n: Nid, fail: bool)
    requires t in s.pc && PcOk(s, t, s.pc[t]) && s.pc[t] != Idle && ValidPick(s, s.pc[t], n)
    requires !IsErase(s.pc[t]) && !IsPut(s.pc[t])
    ensures StepAcquire(s, sh, t, n, fail).pc[t] == s.pc[t] <==> Waits(s, sh, t)
  {
    hide Present, HasKey, ShardFree, ElementFree, NoHolder;
    if s.pc[t].LockNew? { UnheldIsFree(s, s.pc[t].n, s.pc[t].m); }
  }

  lemma PutGoes(s: State, sh: Key -> nat, t: Tid, n: Nid)
    requires t in s.pc && ValidPick(s, s.pc[t], n) && IsPut(s.pc[t])
    ensures StepPut(s, sh, t, n).pc[t] == s.pc[t] <==> Waits(s, sh, t)
  {
    hide Present, HasKey, ShardFree;
  }

  lemma EraseGoes(s: State, sh: Key -> nat, t: Tid, n: Nid)
    requires t in s.pc && PcOk(s, t, s.pc[t]) && ValidPick(s, s.pc[t], n) && IsErase(s.pc[t])
    requires s.pc[t].EraWant? ==> s.pc[t].n in s.nodes
    ensures StepErase(s, sh, t, n).pc[t] == s.pc[t] <==> Waits(s, sh, t)
  {
    hide StepErase, PcOk, ValidPick, Waits;
    if ByAccess(s.pc[t]) { EraseAccessGoes(s, sh, t, n); } else { EraseKeyGoes(s, sh, t, n); }
  }

  lemma EraseAccessGoes(s: State, sh: Key -> nat, t: Tid, n: Nid)
    requires t in s.pc && PcOk(s, t, s.pc[t]) && ByAccess(s.pc[t])
    requires s.pc[t].EraWant? ==> s.pc[t].n in s.nodes
    ensures StepErase(s, sh, t, n).pc[t] == s.pc[t] <==> Waits(s, sh, t)
  {
    hide Present, HasKey, ShardFree, ElementFree, NoHolder;
  }

  lemma EraseKeyGoes(s: State, sh: Key -> nat, t: Tid, n: Nid)
    requires t in s.pc && ValidPick(s, s.pc[t], n) && IsErase(s.pc[t]) && !ByAccess(s.pc[t])
    ensures StepErase(s, sh, t, n).pc[t] == s.pc[t] <==> Waits(s, sh, t)
  {
    hide Present, HasKey, ShardFree, ElementFree;
  }

  // ----- no deadlock

  lemma WaitersHoldNothing(s: State, sh: Key -> nat, t: Tid)
    requires t in s.pc && (s.pc[t] == Idle || Waits(s, sh, t))
    ensures ShardHeld(s.pc[t]).NoShard? && LocalHold(s.pc[t]) == Empty
  {
    hide ShardFree, ElementFree;
  }

  /** If every thread inside a call waits, each of them is erasing a key whose element some accessor holds: the map
   *  itself never deadlocks, and with no accessor in use some thread can always move. */
  lemma NoDeadlock(s: State, sh: Key -> nat, t: Tid)
    requires (forall u | u in s.pc && s.pc[u] != Idle :: Waits(s, sh, u)) && t in s.pc && s.pc[t] != Idle
    ensures s.pc[t].DelDrain? && exists a | a in s.acc :: s.acc[a].hold.Held? && s.acc[a].hold.n == s.pc[t].n
  {
    hide ShardHeld, LocalHold, Waits;
    forall u | u in s.pc ensures ShardHeld(s.pc[u]).NoShard? && LocalHold(s.pc[u]) == Empty {
      WaitersHoldNothing(s, sh, u);
    }
    WaitsFor(s, sh, t);
  }

  lemma WaitsFor(s: State, sh: Key -> nat, t: Tid)
    requires t in s.pc && Waits(s, sh, t)
    requires forall u | u in s.pc :: ShardHeld(s.pc[u]).NoShard? && LocalHold(s.pc[u]) == Empty
    ensures s.pc[t].DelDrain? && exists a | a in s.acc :: s.acc[a].hold.Held? && s.acc[a].hold.n == s.pc[t].n
  {
    hide ShardHeld, LocalHold;
    assert s.pc[t].DelDrain? && !ElementFree(s, s.pc[t].n, Exclusive);
    var h :| Holds(s, h, s.pc[t].n);
    assert h.ByAccessor? && h.a in s.acc;
  }

  /** A thread that erases a key while its own accessor holds the element waits for itself: it never returns,
   *  whatever others do. */
  lemma {:induction false} SelfErase(b: seq<State>, sh: Key -> nat, ts: seq<Tid>, cs: seq<Choice>, t: Tid, a: Aid,
      n: Nid, i: nat, j: nat)
    requires Scheduled(b, sh, ts, cs) && i <= j < |b| && t in b[i].pc && b[i].pc[t] == DelDrain(n)
    requires Owns(b[i], t, a) && b[i].acc[a].hold.Held? && b[i].acc[a].hold.n == n
    ensures t in b[j].pc && b[j].pc[t] == DelDrain(n) && a in b[j].acc && b[j].acc[a] == b[i].acc[a]
    decreases j
  {
    hide Step, Init, Inv, PcOk;
    if i < j {
      SelfErase(b, sh, ts, cs, t, a, n, i, j - 1);
      var s, u, c := b[j - 1], ts[j - 1], cs[j - 1];
      assert b[j] == Step(s, sh, u, c);
      ScheduledRun(b, sh, ts, cs);
      RunInv(b, sh, j - 1);
      Known(s, sh, u);
      StepFrame(s, sh, u, c);
      StepMoves(s, sh, u, c);
      if u == t {
        assert Holds(s, ByAccessor(a), n);
        DrainStays(s, sh, t, c);
      }
    }
  }

  lemma DrainStays(s: State, sh: Key -> nat, t: Tid, c: Choice)
    requires t in s.pc && s.pc[t].DelDrain? && !ElementFree(s, s.pc[t].n, Exclusive)
    ensures Step(s, sh, t, c) == s
  {
  }

  // ----- calls end

  /** How many steps a call needs at most if nothing holds it up. */
  function ToGo(pc: Pc): nat {
    match pc
    case Idle => 0
    case Want(_, _, _, _) => 5
    case Search(_, _, _, _) => 4
    case Try(_, _, _, _, _, i) => if i < MAX_ATTEMPTS then 3 else 7
    case Drop(_, _, _, _) => 6
    case Got(_, _, _, _) => 2
    case New(_, _, _) => 3
    case LockNew(_, _, _, _) => 2
    case PutWant(_) => 4
    case PutSearch(_) => 3
    case PutNew(_) => 2
    case EraWant(_, _) => 5
    case EraUnlink(_, _, _) => 4
    case EraDone(_, _, _, _) => 3
    case EraRelease(_, _, _) => 2
    case DelWant(_) => 6
    case DelUnlink(_) => 5
    case DelDone(_, _) => 4
    case DelDrain(_) => 3
    case DelDrained(_) => 2
    case _ => 1
  }

  /** The step finds every lock it asks for free, and the scheduler names a node that fits. */
  ghost predicate Unhindered(s: State, sh: Key -> nat, t: Tid, c: Choice)
    requires t in s.pc
  {
    && c.Go? && ValidPick(s, s.pc[t], c.n) && !Waits(s, sh, t)
    && (s.pc[t].Try? ==> !c.fail && ElementFree(s, s.pc[t].n, s.pc[t].m))
  }

  lemma ToGoFalls(s: State, sh: Key -> nat, t: Tid, c: Choice)
    requires Inv(s, sh) && t in s.pc && s.pc[t] != Idle && Unhindered(s, sh, t, c)
    ensures ToGo(Step(s, sh, t, c).pc[t]) < ToGo(s.pc[t]) <= 7
  {
    hide Inv, StepAcquire, StepPut, StepErase, NoHolder, Present, ValidPick, Waits, PcOk, IsErase, IsPut, ToGo;
    Known(s, sh, t);
    HeldIsNode(s, sh, t);
    if IsErase(s.pc[t]) { EraseFalls(s, sh, t, c.n); }
    else if IsPut(s.pc[t]) { PutFalls(s, sh, t, c.n); }
    else { AcquireFalls(s, sh, t, c.n, c.fail); }
  }

  lemma AcquireFalls(s: State, sh: Key -> nat, t: Tid, n: Nid, fail: bool)
    requires t in s.pc && PcOk(s, t, s.pc[t]) && s.pc[t] != Idle && ValidPick(s, s.pc[t], n) && !Waits(s, sh, t)
    requires !IsErase(s.pc[t]) && !IsPut(s.pc[t])
    requires s.pc[t].Try? ==> !fail && ElementFree(s, s.pc[t].n, s.pc[t].m)
    ensures ToGo(StepAcquire(s, sh, t, n, fail).pc[t]) < ToGo(s.pc[t]) <= 7
  {
    hide Present, HasKey, ShardFree, ElementFree, NoHolder;
    if s.pc[t].LockNew? { UnheldIsFree(s, s.pc[t].n, s.pc[t].m); }
  }

  lemma PutFalls(s: State, sh: Key -> nat, t: Tid, n: Nid)
    requires t in s.pc && ValidPick(s, s.pc[t], n) && IsPut(s.pc[t]) && !Waits(s, sh, t)
    ensures ToGo(StepPut(s, sh, t, n).pc[t]) < ToGo(s.pc[t]) <= 7
  {
    hide Present, HasKey, ShardFree;
  }

  lemma EraseFalls(s: State, sh: Key -> nat, t: Tid, n: Nid)
    requires t in s.pc && PcOk(s, t, s.pc[t]) && ValidPick(s, s.pc[t], n) && IsErase(s.pc[t]) && !Waits(s, sh, t)
    requires s.pc[t].EraWant? ==> s.pc[t].n in s.nodes
    ensures ToGo(StepErase(s, sh, t, n).pc[t]) < ToGo(s.pc[t]) <= 7
  {
    hide StepErase, ToGo, PcOk, ValidPick, Waits;
    if ByAccess(s.pc[t]) { EraseAccessFalls(s, sh, t, n); } else { EraseKeyFalls(s, sh, t, n); }
  }

  lemma EraseAccessFalls(s: State, sh: Key -> nat, t: Tid, n: Nid)
    requires t in s.pc && PcOk(s, t, s.pc[t]) && ByAccess(s.pc[t]) && !Waits(s, sh, t)
    requires s.pc[t].EraWant? ==> s.pc[t].n in s.nodes
    ensures ToGo(StepErase(s, sh, t, n).pc[t]) < ToGo(s.pc[t]) <= 7
  {
    hide Present, HasKey, ShardFree, ElementFree, NoHolder;
  }

  lemma EraseKeyFalls(s: State, sh: Key -> nat, t: Tid, n: Nid)
    requires t in s.pc && ValidPick(s, s.pc[t], n) && IsErase(s.pc[t]) && !ByAccess(s.pc[t]) && !Waits(s, sh, t)
    ensures ToGo(StepErase(s, sh, t, n).pc[t]) < ToGo(s.pc[t]) <= 7
  {
    hide Present, HasKey, ShardFree, ElementFree;
  }

  lemma SomeToGo(pc: Pc)
    requires pc != Idle
    ensures 1 <= ToGo(pc) <= 7
  {
  }

  /** A thread whose steps meet no taken lock is back from its call after at most seven of them, whatever others do
   *  in between. */
  lemma {:induction false} CallsEnd(b: seq<State>, sh: Key -> nat, ts: seq<Tid>, cs: seq<Choice>, t: Tid, i: nat,
      j: nat)
    requires Scheduled(b, sh, ts, cs) && i <= j < |b| && InCall(b, t, i, j)
    requires forall k | i <= k < j && ts[k] == t :: Unhindered(b[k], sh, t, cs[k])
    ensures ToGo(b[j].pc[t]) + OwnSteps(ts, t, i, j) <= 7 && OwnSteps(ts, t, i, j) < 7
    decreases j
  {
    hide Step, Init, Inv, ToGo, Unhindered;
    SomeToGo(b[j].pc[t]);
    if i < j {
      CallsEnd(b, sh, ts, cs, t, i, j - 1);
      assert b[j] == Step(b[j - 1], sh, ts[j - 1], cs[j - 1]);
      ScheduledRun(b, sh, ts, cs);
      RunInv(b, sh, j - 1);
      StepMoves(b[j - 1], sh, ts[j - 1], cs[j - 1]);
      if ts[j - 1] == t { ToGoFalls(b[j - 1], sh, t, cs[j - 1]); }
    }
  }
}
