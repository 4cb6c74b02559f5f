/** What the calls on the concurrent hash map leave behind: what an accessor holds, and where a node went. */
module HashMapCalls {
  import opened Basics
  import opened HashMapProtocol
  import opened HashMapSafety
  import opened HashMapLinear

  // ----- what a step of one thread leaves alone

  /** Nodes keep their keys, freed nodes stay freed, and other threads' accessors stay as they are. */
  ghost predicate Frame(s: State, s': State, t: Tid) {
    && (forall n | n in s.nodes :: n in s'.nodes && s'.nodes[n] == s.nodes[n]) && s.freed <= s'.freed
    && s'.acc.Keys == s.acc.Keys && (forall a | a in s.acc :: s'.acc[a].owner == s.acc[a].owner)
    && (forall a | a in s.acc && s.acc[a].owner != t :: s'.acc[a] == s.acc[a])
  }

  lemma IdleFrame(s: State, t: Tid, c: Choice)
    requires t in s.pc
    ensures Frame(s, StepIdle(s, t, c), t)
  {
  }

  lemma AcquireFrame(s: State, sh: Key -> nat, t: Tid, n: Nid, fail: bool)
    requires t in s.pc && PcOk(s, t, s.pc[t])
    ensures Frame(s, StepAcquire(s, sh, t, n, fail), t)
  {
    hide StepAcquire, Frame, PcOk;
    if Looking(s.pc[t]) { LookFrame(s, sh, t, n, fail); } else { TakeFrame(s, sh, t, n, fail); }
  }

  lemma LookFrame(s: State, sh: Key -> nat, t: Tid, n: Nid, fail: bool)
    requires t in s.pc && PcOk(s, t, s.pc[t]) && Looking(s.pc[t])
    ensures Frame(s, StepAcquire(s, sh, t, n, fail), t)
  {
    hide Present, ElementFree, ShardFree, HasKey, NoHolder;
  }

  lemma TakeFrame(s: State, sh: Key -> nat, t: Tid, n: Nid, fail: bool)
    requires t in s.pc && PcOk(s, t, s.pc[t]) && !Looking(s.pc[t])
    ensures Frame(s, StepAcquire(s, sh, t, n, fail), t)
  {
    hide Present, ElementFree, ShardFree, HasKey, NoHolder;
  }

  lemma PutFrame(s: State, sh: Key -> nat, t: Tid, n: Nid)
    requires t in s.pc
    ensures Frame(s, StepPut(s, sh, t, n), t)
  {
    hide Present, ShardFree;
  }

  lemma EraseFrame(s: State, sh: Key -> nat, t: Tid, n: Nid)
    requires t in s.pc && PcOk(s, t, s.pc[t])
    ensures Frame(s, StepErase(s, sh, t, n), t)
  {
    hide StepErase, Frame, PcOk;
    if ByAccess(s.pc[t]) { EraseAccessFrame(s, sh, t, n); } else { EraseKeyFrame(s, sh, t, n); }
  }

  lemma EraseAccessFrame(s: State, sh: Key -> nat, t: Tid, n: Nid)
    requires t in s.pc && PcOk(s, t, s.pc[t]) && ByAccess(s.pc[t])
    ensures Frame(s, StepErase(s, sh, t, n), t)
  {
    hide Present, ElementFree, ShardFree, HasKey, NoHolder;
  }

  lemma EraseKeyFrame(s: State, sh: Key -> nat, t: Tid, n: Nid)
    requires t in s.pc && !ByAccess(s.pc[t])
    ensures Frame(s, StepErase(s, sh, t, n), t)
  {
    hide Present, ElementFree, ShardFree, HasKey;
  }

  lemma StepFrame(s: State, sh: Key -> nat, t: Tid, c: Choice)
    requires t in s.pc && PcOk(s, t, s.pc[t])
    ensures Frame(s, Step(s, sh, t, c), t)
  {
    hide StepIdle, StepAcquire, StepPut, StepErase, IsPut, IsErase, PcOk;
    IdleFrame(s, t, c);
    if c.Go? {
      EraseFrame(s, sh, t, c.n);
      PutFrame(s, sh, t, c.n);
      AcquireFrame(s, sh, t, c.n, c.fail);
    }
  }

  // ----- from a call to its return

  ghost predicate HoldsNothing(s: State, a: Aid) { a in s.acc && s.acc[a].hold == Empty }

  /** The accessor holds node n, which has key k, in mode m. */
  ghost predicate HoldsKey(s: State, a: Aid, n: Nid, k: Key, m: Mode) {
    a in s.acc && s.acc[a].hold == Held(n, m) && n in s.nodes && s.nodes[n] == k
  }

  /** Where a thread may stand in find(a, k) with mode m. */
  ghost predicate InFind(s: State, pc: Pc, a: Aid, k: Key, m: Mode) {
    match pc
    case Want(b, j, l, ins) => b == a && j == k && l == m && !ins
    case Search(b, j, l, ins) => b == a && j == k && l == m && !ins
    case Try(b, j, l, ins, _, _) => b == a && j == k && l == m && !ins
    case Drop(b, j, l, ins) => b == a && j == k && l == m && !ins
    case Miss(_) => HoldsNothing(s, a)
    case Got(b, j, l, _) => b == a && j == k && l == m
    case Adopt(b, l, n) => b == a && l == m && n in s.nodes && s.nodes[n] == k
    case _ => false
  }

  /** Where a thread may stand in insert(a, k) with mode m. */
  ghost predicate InInsert(s: State, pc: Pc, a: Aid, k: Key, m: Mode) {
    match pc
    case Want(b, j, l, ins) => b == a && j == k && l == m && ins
    case Search(b, j, l, ins) => b == a && j == k && l == m && ins
    case Try(b, j, l, ins, _, _) => b == a && j == k && l == m && ins
    case Drop(b, j, l, ins) => b == a && j == k && l == m && ins
    case New(b, j, l) => b == a && j == k && l == m
    case LockNew(b, j, l, _) => b == a && j == k && l == m
    case InsDone(_, n, _) => HoldsKey(s, a, n, k, m)
    case _ => false
  }

  /** Where a thread may stand in erase(a), the accessor having held x. */
  ghost predicate InErase(s: State, pc: Pc, a: Aid, x: Nid) {
    match pc
    case EraWant(b, n) => b == a && n == x
    case EraUnlink(b, n, _) => b == a && n == x
    case EraDone(b, n, _, _) => b == a && n == x
    case EraRelease(b, n, _) => b == a && n == x
    case EraFree(n) => n == x && HoldsNothing(s, a)
    case _ => false
  }

  predicate InDelete(pc: Pc) { IsErase(pc) && !ByAccess(pc) }

  /** The call a choice makes, with x the node the accessor holds. */
  function Asked(c: Choice, x: Nid): Opt<Call> {
    match c
    case Find(_, k, _) => Some(CallFind(k))
    case Insert(_, k, _) => Some(CallInsert(k))
    case Put(k) => Some(CallPut(k))
    case Erase(_) => Some(CallErase(x))
    case Delete(k) => Some(CallDelete(k))
    case _ => None
  }

  ghost predicate Serves(s: State, pc: Pc, c: Choice, x: Nid) {
    match c
    case Find(a, k, m) => InFind(s, pc, a, k, m)
    case Insert(a, k, m) => InInsert(s, pc, a, k, m)
    case Put(_) => IsPut(pc)
    case Erase(a) => InErase(s, pc, a, x)
    case Delete(_) => InDelete(pc)
    case _ => false
  }

  /** What the caller finds on return with answer r. */
  ghost predicate Left(s: State, c: Choice, x: Nid, r: Answer) {
    match c
    case Find(a, k, m) => if r.There? then HoldsKey(s, a, r.n, k, m) else r == Nothing && HoldsNothing(s, a)
    case Insert(a, k, m) => (r.There? || r.Made?) && HoldsKey(s, a, r.n, k, m)
    case Put(_) => r.Changed?
    case Erase(a) => r.Changed? && HoldsNothing(s, a) && (r.b ==> x in s.freed)
    case Delete(_) => r.Changed?
    case _ => false
  }

  /** A step of the thread itself keeps it in its call or returns from it. */
  ghost predicate Carried(s: State, s': State, t: Tid, c: Choice, x: Nid)
    requires t in s.pc && t in s'.pc
  {
    Serves(s', s'.pc[t], c, x)
    || (s'.pc[t] == Idle && Closed(s.pc[t]).Some? && Left(s', c, x, Closed(s.pc[t]).v))
  }

  lemma FindCarried(s: State, sh: Key -> nat, t: Tid, n: Nid, fail: bool, a: Aid, k: Key, m: Mode, x: Nid)
    requires t in s.pc && PcOk(s, t, s.pc[t]) && InFind(s, s.pc[t], a, k, m)
    ensures Carried(s, StepAcquire(s, sh, t, n, fail), t, Find(a, k, m), x)
  {
    hide Present, ElementFree, ShardFree, NoHolder;
  }

  lemma InsertCarried(s: State, sh: Key -> nat, t: Tid, n: Nid, fail: bool, a: Aid, k: Key, m: Mode, x: Nid)
    requires t in s.pc && PcOk(s, t, s.pc[t]) && InInsert(s, s.pc[t], a, k, m)
    ensures Carried(s, StepAcquire(s, sh, t, n, fail), t, Insert(a, k, m), x)
  {
    hide Present, ElementFree, ShardFree, NoHolder;
  }

  lemma PutCarried(s: State, sh: Key -> nat, t: Tid, n: Nid, k: Key, x: Nid)
    requires t in s.pc && IsPut(s.pc[t])
    ensures Carried(s, StepPut(s, sh, t, n), t, Put(k), x)
  {
    hide Present, ShardFree;
  }

  lemma EraseCarried(s: State, sh: Key -> nat, t: Tid, n: Nid, a: Aid, x: Nid)
    requires t in s.pc && PcOk(s, t, s.pc[t]) && InErase(s, s.pc[t], a, x)
    ensures Carried(s, StepErase(s, sh, t, n), t, Erase(a), x)
  {
    hide Present, ElementFree, ShardFree, NoHolder, HasKey;
  }

  lemma DeleteCarried(s: State, sh: Key -> nat, t: Tid, n: Nid, k: Key, x: Nid)
    requires t in s.pc && InDelete(s.pc[t])
    ensures Carried(s, StepErase(s, sh, t, n), t, Delete(k), x)
  {
    hide Present, ElementFree, ShardFree, HasKey;
  }

  /** Which steps serve which call. */
  lemma Kinds(s: State, pc: Pc, c: Choice, x: Nid)
    requires Serves(s, pc, c, x)
    ensures pc != Idle && (c.Find? || c.Insert? || c.Put? || c.Erase? || c.Delete?)
    ensures c.Find? || c.Insert? ==> !IsPut(pc) && !IsErase(pc)
    ensures c.Put? ==> IsPut(pc) && !IsErase(pc)
    ensures c.Erase? || c.Delete? ==> IsErase(pc)
  {
  }

  lemma OwnCarried(s: State, sh: Key -> nat, t: Tid, d: Choice, c: Choice, x: Nid)
    requires t in s.pc && PcOk(s, t, s.pc[t]) && Serves(s, s.pc[t], c, x)
    ensures Carried(s, Step(s, sh, t, d), t, c, x)
  {
    hide StepIdle, StepAcquire, StepPut, StepErase, IsPut, IsErase, PcOk, Left, InFind, InInsert, InErase;
    Kinds(s, s.pc[t], c, x);
    if d.Go? {
      match c
      case Find(a, k, m) => FindCarried(s, sh, t, d.n, d.fail, a, k, m, x);
      case Insert(a, k, m) => InsertCarried(s, sh, t, d.n, d.fail, a, k, m, x);
      case Put(k) => PutCarried(s, sh, t, d.n, k, x);
      case Erase(a) => EraseCarried(s, sh, t, d.n, a, x);
      case Delete(k) => DeleteCarried(s, sh, t, d.n, k, x);
    }
  }

  /** The accessor a call works on, if any. */
  function Through(c: Choice): Opt<Aid> {
    match c
    case Find(a, _, _) => Some(a)
    case Insert(a, _, _) => Some(a)
    case Erase(a) => Some(a)
    case _ => None
  }

  ghost predicate OwnsIt(s: State, t: Tid, c: Choice) { Through(c).Some? ==> Owns(s, t, Through(c).v) }

  /** Steps of other threads do not disturb the call. */
  lemma OtherCarried(s: State, s': State, t: Tid, u: Tid, pc: Pc, c: Choice, x: Nid)
    requires Frame(s, s', u) && u != t && OwnsIt(s, t, c) && Serves(s, pc, c, x)
    ensures OwnsIt(s', t, c) && Serves(s', pc, c, x)
  {
  }

  /** The node that erase is asked to erase. */
  function HeldBy(s: State, c: Choice): Nid {
    if c.Erase? && c.a in s.acc && s.acc[c.a].hold.Held? then s.acc[c.a].hold.n else 0
  }

  /** What is asked when a thread between calls makes choice c: the call begins, if the accessor is the thread's
   *  and, for erase, holds an element exclusively; release() takes effect at once; nothing else does. */
  lemma Begins(s: State, sh: Key -> nat, t: Tid, c: Choice)
    requires t in s.pc && s.pc[t] == Idle
    ensures var s', x := Step(s, sh, t, c), HeldBy(s, c);
      if s'.pc[t] != Idle then OwnsIt(s', t, c) && Serves(s', s'.pc[t], c, x) && Open(s'.pc[t]) == Asked(c, x)
      else s' == if c.Release? && Owns(s, t, c.a) then SetHold(s, c.a, Empty) else s
    ensures Step(s, sh, t, c).pc[t] != Idle <==>
      && (c.Find? || c.Insert? || c.Put? || c.Erase? || c.Delete?) && OwnsIt(s, t, c)
      && (c.Erase? ==> s.acc[c.a].hold.Held? && s.acc[c.a].hold.m == Exclusive)
  {
  }

  /** Thread t's call of step i is still underway in state j. */
  lemma {:induction false} StillServes(b: seq<State>, sh: Key -> nat, ts: seq<Tid>, cs: seq<Choice>, t: Tid, i: nat,
      j: nat)
    requires Scheduled(b, sh, ts, cs) && i < j < |b| && ts[i] == t && b[i].pc[t] == Idle && InCall(b, t, i + 1, j)
    ensures OwnsIt(b[j], t, cs[i]) && Serves(b[j], b[j].pc[t], cs[i], HeldBy(b[i], cs[i]))
    decreases j
  {
    hide Step, Inv, Serves, OwnsIt, Frame, Open, Init;
    var x := HeldBy(b[i], cs[i]);
    if j == i + 1 {
      Begins(b[i], sh, t, cs[i]);
    } else {
      StillServes(b, sh, ts, cs, t, i, j - 1);
      ScheduledRun(b, sh, ts, cs);
      RunInv(b, sh, j - 1);
      assert b[j] == Step(b[j - 1], sh, ts[j - 1], cs[j - 1]);
      ServesOn(b[j - 1], sh, ts[j - 1], cs[j - 1], t, cs[i], x);
    }
  }

  lemma ServesOn(s: State, sh: Key -> nat, u: Tid, d: Choice, t: Tid, c: Choice, x: Nid)
    requires Inv(s, sh) && t in s.pc && u in s.pc && OwnsIt(s, t, c) && Serves(s, s.pc[t], c, x)
    requires t in Step(s, sh, u, d).pc && Step(s, sh, u, d).pc[t] != Idle
    ensures OwnsIt(Step(s, sh, u, d), t, c) && Serves(Step(s, sh, u, d), Step(s, sh, u, d).pc[t], c, x)
  {
    hide Step, Inv, Serves, PcOk, Left;
    Known(s, sh, u);
    StepFrame(s, sh, u, d);
    StepMoves(s, sh, u, d);
    if u == t { OwnCarried(s, sh, t, d, c, x); } else { OtherCarried(s, Step(s, sh, u, d), t, u, s.pc[t], c, x); }
  }

  /** Every call that returns was the one asked for, and leaves behind what its answer says: find and insert leave
   *  the element they name locked in the accessor, in the mode asked for; find without success and erase leave
   *  the accessor empty; an erase through the accessor that succeeded has freed the node. */
  lemma CallLeaves(b: seq<State>, sh: Key -> nat, ts: seq<Tid>, cs: seq<Choice>, t: Tid, i: nat, j: nat)
    requires Scheduled(b, sh, ts, cs) && i < j < |b| - 1 && ts[i] == t && b[i].pc[t] == Idle && InCall(b, t, i + 1, j)
    requires t in b[j + 1].pc && b[j + 1].pc[t] == Idle
    ensures Open(b[i + 1].pc[t]) == Asked(cs[i], HeldBy(b[i], cs[i]))
    ensures Closed(b[j].pc[t]).Some? && Left(b[j + 1], cs[i], HeldBy(b[i], cs[i]), Closed(b[j].pc[t]).v)
  {
    hide Step, Inv, Serves, OwnsIt, Left, Open, Closed, Init, PcOk;
    var x := HeldBy(b[i], cs[i]);
    Begins(b[i], sh, t, cs[i]);
    StillServes(b, sh, ts, cs, t, i, j);
    ScheduledRun(b, sh, ts, cs);
    RunInv(b, sh, j);
    Known(b[j], sh, t);
    StepMoves(b[j], sh, ts[j], cs[j]);
    OwnCarried(b[j], sh, t, cs[j], cs[i], x);
    NotIdle(b[j + 1], cs[i], x);
  }

  lemma NotIdle(s: State, c: Choice, x: Nid)
    ensures !Serves(s, Idle, c, x)
  {
  }

  // ----- between calls

  /** The step is part of a call on accessor a. */
  predicate WorksOn(s: State, t: Tid, c: Choice, a: Aid) {
    t in s.pc && if s.pc[t].Idle? then Through(c) == Some(a) || c == Release(a)
      else Filling(s.pc[t]) == Some(a) || (Erasing(s.pc[t]).Some? && Erasing(s.pc[t]).v.0 == a)
  }

  /** An accessor keeps what it holds, whatever happens, until a call is made on it. */
  lemma {:induction false} HoldLasts(b: seq<State>, sh: Key -> nat, ts: seq<Tid>, cs: seq<Choice>, a: Aid, i: nat,
      j: nat)
    requires Scheduled(b, sh, ts, cs) && i <= j < |b| && a in b[i].acc
    requires forall k | i <= k < j :: !WorksOn(b[k], ts[k], cs[k], a)
    ensures a in b[j].acc && b[j].acc[a] == b[i].acc[a]
    decreases j
  {
    hide Step, Init, WorksOn;
    if i < j {
      HoldLasts(b, sh, ts, cs, a, i, j - 1);
      assert b[j] == Step(b[j - 1], sh, ts[j - 1], cs[j - 1]);
      HoldKept(b[j - 1], sh, ts[j - 1], cs[j - 1], a);
    }
  }

  lemma HoldKept(s: State, sh: Key -> nat, t: Tid, c: Choice, a: Aid)
    requires t in s.pc && a in s.acc && !WorksOn(s, t, c, a)
    ensures a in Step(s, sh, t, c).acc && Step(s, sh, t, c).acc[a] == s.acc[a]
  {
    hide StepIdle, StepAcquire, StepPut, StepErase, IsPut, IsErase, WorksOn;
    if s.pc[t].Idle? {
      IdleHoldKept(s, t, c, a);
    } else if c.Go? {
      if IsErase(s.pc[t]) {
        EraseHoldKept(s, sh, t, c, a);
      } else if IsPut(s.pc[t]) {
        PutHoldKept(s, sh, t, c.n);
      } else {
        AcquireHoldKept(s, sh, t, c, a);
      }
    }
  }

  lemma IdleHoldKept(s: State, t: Tid, c: Choice, a: Aid)
    requires t in s.pc && a in s.acc && s.pc[t].Idle? && !WorksOn(s, t, c, a)
    ensures a in StepIdle(s, t, c).acc && StepIdle(s, t, c).acc[a] == s.acc[a]
  {
  }

  lemma AcquireHoldKept(s: State, sh: Key -> nat, t: Tid, c: Choice, a: Aid)
    requires t in s.pc && a in s.acc && c.Go? && !s.pc[t].Idle? && !WorksOn(s, t, c, a)
    ensures var s' := StepAcquire(s, sh, t, c.n, c.fail); a in s'.acc && s'.acc[a] == s.acc[a]
  {
    hide Present, ElementFree, ShardFree, HasKey;
  }

  lemma PutHoldKept(s: State, sh: Key -> nat, t: Tid, n: Nid)
    requires t in s.pc
    ensures StepPut(s, sh, t, n).acc == s.acc
  {
    hide Present, ShardFree;
  }

  lemma EraseHoldKept(s: State, sh: Key -> nat, t: Tid, c: Choice, a: Aid)
    requires t in s.pc && a in s.acc && c.Go? && IsErase(s.pc[t]) && !WorksOn(s, t, c, a)
    ensures var s' := StepErase(s, sh, t, c.n); a in s'.acc && s'.acc[a] == s.acc[a]
  {
    hide Present, ElementFree, ShardFree, HasKey;
  }

  // ----- where nodes go

  /** What t's step does to nodes: those it adds are linked, the one it unlinks is now its own to free, and the one
   *  it has to free it keeps or frees. */
  ghost predicate Minds(s: State, s': State, t: Tid)
    requires t in s.pc && t in s'.pc
  {
    && (forall n | n in s'.nodes :: n in s.nodes || n in s'.linked) && s.freed <= s'.freed
    && (forall n | n in s.linked :: n in s'.linked || Doomed(s'.pc[t]) == Some(n))
    && (Doomed(s.pc[t]).Some? ==>
          Doomed(s'.pc[t]) == Doomed(s.pc[t]) || (Doomed(s.pc[t]).v in s'.freed && s'.pc[t] == Idle))
  }

  lemma IdleMinds(s: State, t: Tid, c: Choice)
    requires t in s.pc && s.pc[t] == Idle
    ensures Minds(s, StepIdle(s, t, c), t)
  {
  }

  lemma LookMinds(s: State, sh: Key -> nat, t: Tid, n: Nid, fail: bool)
    requires t in s.pc && Looking(s.pc[t])
    ensures Minds(s, StepAcquire(s, sh, t, n, fail), t)
  {
    hide Present, ElementFree, ShardFree, HasKey;
  }

  lemma TakeMinds(s: State, sh: Key -> nat, t: Tid, n: Nid, fail: bool)
    requires t in s.pc && !Looking(s.pc[t]) && !IsErase(s.pc[t])
    ensures Minds(s, StepAcquire(s, sh, t, n, fail), t)
  {
    hide Present, ElementFree, ShardFree, HasKey;
  }

  lemma PutMinds(s: State, sh: Key -> nat, t: Tid, n: Nid)
    requires t in s.pc && IsPut(s.pc[t])
    ensures Minds(s, StepPut(s, sh, t, n), t)
  {
    hide Present, ShardFree;
  }

  lemma EraseAccessMinds(s: State, sh: Key -> nat, t: Tid, n: Nid)
    requires t in s.pc && ByAccess(s.pc[t])
    ensures Minds(s, StepErase(s, sh, t, n), t)
  {
    hide Present, ElementFree, ShardFree, HasKey;
  }

  lemma EraseKeyMinds(s: State, sh: Key -> nat, t: Tid, n: Nid)
    requires t in s.pc && IsErase(s.pc[t]) && !ByAccess(s.pc[t])
    ensures Minds(s, StepErase(s, sh, t, n), t)
  {
    hide Present, ElementFree, ShardFree, HasKey;
  }

  lemma StepMinds(s: State, sh: Key -> nat, t: Tid, c: Choice)
    requires t in s.pc
    ensures Minds(s, Step(s, sh, t, c), t)
  {
    hide StepIdle, StepAcquire, StepPut, StepErase, IsPut, IsErase, Minds;
    SameMinds(s, t);
    if s.pc[t].Idle? {
      IdleMinds(s, t, c);
    } else if c.Go? {
      if IsErase(s.pc[t]) {
        if ByAccess(s.pc[t]) { EraseAccessMinds(s, sh, t, c.n); } else { EraseKeyMinds(s, sh, t, c.n); }
      } else if IsPut(s.pc[t]) {
        PutMinds(s, sh, t, c.n);
      } else if Looking(s.pc[t]) {
        LookMinds(s, sh, t, c.n, c.fail);
      } else {
        TakeMinds(s, sh, t, c.n, c.fail);
      }
    }
  }

  lemma SameMinds(s: State, t: Tid)
    requires t in s.pc
    ensures Minds(s, s, t)
  {
  }

  /** Some thread has n to free. */
  ghost predicate InHand(s: State, n: Nid) { exists t | t in s.pc :: Doomed(s.pc[t]) == Some(n) }

  /** In every state of every run each node ever made is linked, freed, or in the hands of a thread that will free
   *  it: none is lost.  Once no erase is underway, the nodes not freed are the linked ones. */
  lemma {:induction false} NoneLost(b: seq<State>, sh: Key -> nat, k: nat)
    requires Run(b, sh) && k < |b|
    ensures forall n | n in b[k].nodes :: n in b[k].linked || n in b[k].freed || InHand(b[k], n)
    ensures (forall t | t in b[k].pc :: !IsErase(b[k].pc[t])) ==> b[k].nodes.Keys == b[k].linked + b[k].freed
  {
    hide Step, IsErase, Minds;
    RunInv(b, sh, k);
    if k > 0 {
      NoneLost(b, sh, k - 1);
      assert Follows(b[k - 1], b[k], sh);
      var t, c :| t in b[k - 1].pc && b[k] == Step(b[k - 1], sh, t, c);
      forall n | n in b[k].nodes
        ensures n in b[k].linked || n in b[k].freed || InHand(b[k], n)
      {
        StillThere(b[k - 1], sh, t, c, n);
      }
    }
    forall t | t in b[k].pc && !IsErase(b[k].pc[t]) ensures Doomed(b[k].pc[t]).None? { DoomedInErase(b[k].pc[t]); }
  }

  lemma DoomedInErase(pc: Pc)
    ensures Doomed(pc).Some? ==> IsErase(pc)
  {
  }

  lemma StillThere(s: State, sh: Key -> nat, t: Tid, c: Choice, n: Nid)
    requires t in s.pc && (n in s.nodes ==> n in s.linked || n in s.freed || InHand(s, n))
    ensures var s' := Step(s, sh, t, c); n in s'.nodes ==> n in s'.linked || n in s'.freed || InHand(s', n)
  {
    hide Step, Doomed;
    var s' := Step(s, sh, t, c);
    StepMinds(s, sh, t, c);
    StepMoves(s, sh, t, c);
    if n in s'.nodes && n in s.nodes && n !in s.linked && n !in s.freed {
      var u :| u in s.pc && Doomed(s.pc[u]) == Some(n);
      assert u in s'.pc && (u != t ==> Doomed(s'.pc[u]) == Some(n));
    }
  }

  /** Until it returns, a thread keeps the node it has to free. */
  lemma {:induction false} KeepsNode(b: seq<State>, sh: Key -> nat, ts: seq<Tid>, cs: seq<Choice>, t: Tid, k: nat,
      j: nat)
    requires Scheduled(b, sh, ts, cs) && k <= j < |b| && InCall(b, t, k, j) && Doomed(b[k].pc[t]).Some?
    ensures Doomed(b[j].pc[t]) == Doomed(b[k].pc[t])
    decreases j
  {
    hide Step, Init, Doomed;
    if k < j {
      KeepsNode(b, sh, ts, cs, t, k, j - 1);
      assert b[j] == Step(b[j - 1], sh, ts[j - 1], cs[j - 1]);
      StepMinds(b[j - 1], sh, ts[j - 1], cs[j - 1]);
      StepMoves(b[j - 1], sh, ts[j - 1], cs[j - 1]);
    }
  }

  /** An erase that returns true has unlinked one node, the one it was asked for, and freed it. */
  lemma EraseFrees(b: seq<State>, sh: Key -> nat, ts: seq<Tid>, cs: seq<Choice>, t: Tid, i: nat, j: nat)
      returns (k: nat, n: Nid)
    requires Scheduled(b, sh, ts, cs) && i < j < |b| - 1 && ts[i] == t && b[i].pc[t] == Idle && InCall(b, t, i + 1, j)
    requires t in b[j + 1].pc && b[j + 1].pc[t] == Idle && Closed(b[j].pc[t]) == Some(Changed(true))
    requires cs[i].Erase? || cs[i].Delete?
    ensures i < k < j && n in b[k].linked && b[k + 1].linked == b[k].linked - {n} && n in b[j + 1].freed
    ensures cs[i].Erase? ==> cs[i].a in b[i].acc && b[i].acc[cs[i].a].hold == Held(n, Exclusive)
    ensures cs[i].Delete? ==> n in b[k].nodes && b[k].nodes[n] == cs[i].k
  {
    hide Step, Inv, Init, Open, Closed, Settles, Doomed, Serves, Left, Event;
    Lengths(b, sh, ts, cs);
    k := SettledOnce(b, sh, ts, cs, t, i, j);
    CallLeaves(b, sh, ts, cs, t, i, j);
    Begins(b[i], sh, t, cs[i]);
    ScheduledRun(b, sh, ts, cs);
    RunInv(b, sh, k);
    n := Unlinked(b[k], sh, t, cs[k], Asked(cs[i], HeldBy(b[i], cs[i])).v);
    KeepsNode(b, sh, ts, cs, t, k + 1, j);
    StepMinds(b[j], sh, ts[j], cs[j]);
    StepMoves(b[j], sh, ts[j], cs[j]);
    IdleHasNone();
  }

  lemma IdleHasNone()
    ensures Doomed(Idle).None?
  {
  }

  lemma Unlinked(s: State, sh: Key -> nat, t: Tid, c: Choice, call: Call) returns (n: Nid)
    requires Inv(s, sh) && t in s.pc && Open(s.pc[t]) == Some(call) && (call.CallErase? || call.CallDelete?)
    requires Closed(Step(s, sh, t, c).pc[t]) == Some(Changed(true))
    ensures n in s.linked && Step(s, sh, t, c).linked == s.linked - {n} && Doomed(Step(s, sh, t, c).pc[t]) == Some(n)
    ensures call.CallErase? ==> n == call.n
    ensures call.CallDelete? ==> n in s.nodes && s.nodes[n] == call.k
  {
    hide Inv, Present, ElementFree, ShardFree, NoHolder, StepIdle, StepAcquire, StepPut, StepErase, Unlink;
    Known(s, sh, t);
    SettlesErase(s, sh, t, if c.Go? then c.n else 0);
    if s.pc[t].EraUnlink? {
      n := s.pc[t].n;
      UnlinksHeld(s, sh, t, c.n);
    } else {
      n := c.n;
      UnlinksKey(s, sh, t, c.n);
    }
  }

  lemma SettlesErase(s: State, sh: Key -> nat, t: Tid, n: Nid)
    requires t in s.pc && IsErase(s.pc[t]) && Open(s.pc[t]).Some?
    ensures Closed(StepErase(s, sh, t, n).pc[t]).Some? ==> s.pc[t].EraUnlink? || s.pc[t].DelUnlink?
  {
    hide Present, ShardFree, HasKey;
  }

  lemma UnlinksHeld(s: State, sh: Key -> nat, t: Tid, x: Nid)
    requires t in s.pc && s.pc[t].EraUnlink? && Closed(StepErase(s, sh, t, x).pc[t]) == Some(Changed(true))
    ensures var n, s' := s.pc[t].n, StepErase(s, sh, t, x);
      n in s.linked && s'.linked == s.linked - {n} && Doomed(s'.pc[t]) == Some(n)
  {
  }

  lemma UnlinksKey(s: State, sh: Key -> nat, t: Tid, n: Nid)
    requires t in s.pc && s.pc[t].DelUnlink? && Closed(StepErase(s, sh, t, n).pc[t]) == Some(Changed(true))
    ensures var s' := StepErase(s, sh, t, n);
      HasKey(s, n, s.pc[t].k) && s'.linked == s.linked - {n} && Doomed(s'.pc[t]) == Some(n)
  {
    hide Present;
  }
}
