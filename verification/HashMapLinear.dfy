/** Every call on the concurrent hash map takes effect at one instant, as on a plain map. */
module HashMapLinear {
  import opened Basics
  import opened HashMapProtocol
  import opened HashMapSafety

  /** The map the linked nodes stand for. */
  ghost function Contents(s: State): map<Key, Nid>
    requires Memory(s)
  {
    map n | n in s.linked :: s.nodes[n] := n
  }

  datatype Call = CallFind(k: Key) | CallInsert(k: Key) | CallPut(k: Key) | CallErase(n: Nid) | CallDelete(k: Key)

  /** What a call answers: an element that was there, one it made, or whether it changed the map. */
  datatype Answer = Nothing | There(n: Nid) | Made(n: Nid) | Changed(b: bool)

  /** What a plain map answers, and what it becomes. */
  ghost predicate Legal(m: map<Key, Nid>, call: Call, r: Answer, m': map<Key, Nid>) {
    match call
    case CallFind(k) => m' == m && r == if k in m then There(m[k]) else Nothing
    case CallInsert(k) =>
      if k in m then m' == m && r == There(m[k]) else r.Made? && r.n !in m.Values && m' == m[k := r.n]
    case CallPut(k) =>
      if k in m then m' == m && r == Changed(false)
      else r == Changed(true) && exists n: Nid | n !in m.Values :: m' == m[k := n]
    case CallErase(n) => r == Changed(n in m.Values) && m' == map k | k in m && m[k] != n :: m[k]
    case CallDelete(k) => r == Changed(k in m) && m' == m - {k}
  }

  /** The call a thread is in, as long as its answer is open. */
  function Open(pc: Pc): Opt<Call> {
    match pc
    case Want(_, k, _, ins) => Some(if ins then CallInsert(k) else CallFind(k))
    case Search(_, k, _, ins) => Some(if ins then CallInsert(k) else CallFind(k))
    case Try(_, k, _, ins, _, _) => Some(if ins then CallInsert(k) else CallFind(k))
    case Drop(_, k, _, ins) => Some(if ins then CallInsert(k) else CallFind(k))
    case New(_, k, _) => Some(CallInsert(k))
    case PutWant(k) => Some(CallPut(k))
    case PutSearch(k) => Some(CallPut(k))
    case PutNew(k) => Some(CallPut(k))
    case EraWant(_, n) => Some(CallErase(n))
    case EraUnlink(_, n, _) => Some(CallErase(n))
    case DelWant(k) => Some(CallDelete(k))
    case DelUnlink(k) => Some(CallDelete(k))
    case _ => None
  }

  /** The answer a thread is on its way to return. */
  function Closed(pc: Pc): Opt<Answer> {
    match pc
    case Miss(_) => Some(Nothing)
    case Got(_, _, _, n) => Some(There(n))
    case Adopt(_, _, n) => Some(There(n))
    case LockNew(_, _, _, n) => Some(Made(n))
    case InsDone(_, n, made) => Some(if made then Made(n) else There(n))
    case PutDone(_, made) => Some(Changed(made))
    case EraDone(_, _, _, removed) => Some(Changed(removed))
    case EraRelease(_, _, removed) => Some(Changed(removed))
    case EraFree(_) => Some(Changed(true))
    case DelMiss(_) => Some(Changed(false))
    case DelDone(_, _) => Some(Changed(true))
    case DelDrain(_) => Some(Changed(true))
    case DelDrained(_) => Some(Changed(true))
    case DelFree(_) => Some(Changed(true))
    case _ => None
  }

  /** From p to q a thread settles its answer. */
  predicate Settles(p: Pc, q: Pc) { Open(p).Some? && Closed(q).Some? }

  /** A thread is between calls, in a call whose answer is open, or on its way back with the answer; a step
   *  moves it forward in that order and changes neither the call nor the answer. */
  predicate Forward(p: Pc, q: Pc) {
    if Open(p).Some? then Open(q) == Open(p) || Closed(q).Some?
    else if Closed(p).Some? then Closed(q) == Closed(p) || q == Idle
    else q == Idle || Open(q).Some?
  }

  lemma IdleForward(s: State, t: Tid, c: Choice)
    requires t in s.pc && s.pc[t].Idle?
    ensures Forward(s.pc[t], StepIdle(s, t, c).pc[t])
    ensures StepIdle(s, t, c).nodes == s.nodes && StepIdle(s, t, c).linked == s.linked
  {
  }

  /** Looking for the key and trying the element found. */
  predicate Looking(pc: Pc) { pc.Want? || pc.Search? || pc.Try? || pc.Drop? }

  lemma AcquireForward(s: State, sh: Key -> nat, t: Tid, n: Nid, fail: bool)
    requires t in s.pc && !s.pc[t].Idle? && !IsPut(s.pc[t]) && !IsErase(s.pc[t])
    ensures Forward(s.pc[t], StepAcquire(s, sh, t, n, fail).pc[t])
  {
    hide StepAcquire, Forward, IsPut, IsErase;
    if Looking(s.pc[t]) { LookForward(s, sh, t, n, fail); } else { TakeForward(s, sh, t, n, fail); }
  }

  lemma LookForward(s: State, sh: Key -> nat, t: Tid, n: Nid, fail: bool)
    requires t in s.pc && Looking(s.pc[t])
    ensures Forward(s.pc[t], StepAcquire(s, sh, t, n, fail).pc[t])
  {
    hide Present, ElementFree, ShardFree, HasKey;
  }

  lemma TakeForward(s: State, sh: Key -> nat, t: Tid, n: Nid, fail: bool)
    requires t in s.pc && !s.pc[t].Idle? && !IsPut(s.pc[t]) && !IsErase(s.pc[t]) && !Looking(s.pc[t])
    ensures Forward(s.pc[t], StepAcquire(s, sh, t, n, fail).pc[t])
  {
    hide Present, ElementFree, ShardFree, HasKey;
  }

  lemma PutForward(s: State, sh: Key -> nat, t: Tid, n: Nid)
    requires t in s.pc && IsPut(s.pc[t])
    ensures Forward(s.pc[t], StepPut(s, sh, t, n).pc[t])
  {
    hide Present, ShardFree;
  }

  lemma EraseForward(s: State, sh: Key -> nat, t: Tid, n: Nid)
    requires t in s.pc && IsErase(s.pc[t])
    ensures Forward(s.pc[t], StepErase(s, sh, t, n).pc[t])
  {
    hide StepErase, Forward;
    if ByAccess(s.pc[t]) { EraseAccessForward(s, sh, t, n); } else { EraseKeyForward(s, sh, t, n); }
  }

  lemma EraseAccessForward(s: State, sh: Key -> nat, t: Tid, n: Nid)
    requires t in s.pc && ByAccess(s.pc[t])
    ensures Forward(s.pc[t], StepErase(s, sh, t, n).pc[t])
  {
    hide Present, ElementFree, ShardFree, HasKey;
  }

  lemma EraseKeyForward(s: State, sh: Key -> nat, t: Tid, n: Nid)
    requires t in s.pc && IsErase(s.pc[t]) && !ByAccess(s.pc[t])
    ensures Forward(s.pc[t], StepErase(s, sh, t, n).pc[t])
  {
    hide Present, ElementFree, ShardFree, HasKey;
  }

  lemma StepForward(s: State, sh: Key -> nat, t: Tid, c: Choice)
    requires t in s.pc
    ensures Forward(s.pc[t], Step(s, sh, t, c).pc[t])
  {
    hide StepIdle, StepAcquire, StepPut, StepErase, IsPut, IsErase, Forward;
    ForwardStill(s.pc[t]);
    if s.pc[t].Idle? {
      IdleForward(s, t, c);
    } else if c.Go? {
      if IsErase(s.pc[t]) {
        EraseForward(s, sh, t, c.n);
      } else if IsPut(s.pc[t]) {
        PutForward(s, sh, t, c.n);
      } else {
        AcquireForward(s, sh, t, c.n, c.fail);
      }
    }
  }

  lemma ForwardStill(p: Pc)
    ensures Forward(p, p)
  {
  }

  // ----- what the steps do to the map

  lemma ContentsAt(s: State, k: Key)
    requires Memory(s)
    ensures k in Contents(s) <==> Present(s, k)
    ensures forall n | HasKey(s, n, k) :: k in Contents(s) && Contents(s)[k] == n
    ensures forall n :: n in Contents(s).Values <==> n in s.linked
  {
    forall n | n in s.linked
      ensures n in Contents(s).Values
    {
      assert Contents(s)[s.nodes[n]] == n;
    }
    if Present(s, k) {
      var n :| HasKey(s, n, k);
      assert Contents(s)[k] == n;
    }
    if k in Contents(s) { assert HasKey(s, Contents(s)[k], k); }
  }

  lemma ContentsSame(s: State, s': State)
    requires Memory(s) && Memory(s')
    ensures s'.nodes == s.nodes && s'.linked == s.linked ==> Contents(s') == Contents(s)
  {
  }

  lemma ContentsLink(s: State, s': State, n: Nid, k: Key)
    requires Memory(s) && Memory(s') && n !in s.nodes && s'.nodes == s.nodes[n := k] && s'.linked == s.linked + {n}
    ensures Contents(s') == Contents(s)[k := n]
  {
  }

  lemma ContentsUnlink(s: State, s': State, n: Nid)
    requires Memory(s) && Memory(s') && s'.nodes == s.nodes && s'.linked == s.linked - {n} && n in s.linked
    ensures Contents(s') == map k | k in Contents(s) && Contents(s)[k] != n :: Contents(s)[k]
    ensures Contents(s') == Contents(s) - {s.nodes[n]}
  {
  }

  /** A step that settles no answer leaves the map alone; one that does is a legal step of a plain map. */
  ghost predicate Linear(s: State, s': State, t: Tid)
    requires Memory(s) && Memory(s') && t in s.pc && t in s'.pc
  {
    if Settles(s.pc[t], s'.pc[t]) then Legal(Contents(s), Open(s.pc[t]).v, Closed(s'.pc[t]).v, Contents(s'))
    else Contents(s') == Contents(s)
  }

  lemma AcquireLinear(s: State, sh: Key -> nat, t: Tid, n: Nid, fail: bool)
    requires Memory(s) && t in s.pc && PcOk(s, t, s.pc[t]) && !s.pc[t].Idle? && !IsPut(s.pc[t]) && !IsErase(s.pc[t])
    requires Memory(StepAcquire(s, sh, t, n, fail))
    ensures Linear(s, StepAcquire(s, sh, t, n, fail), t)
  {
    hide StepAcquire, Linear, IsPut, IsErase, Memory, PcOk;
    if Looking(s.pc[t]) { LookLinear(s, sh, t, n, fail); } else { TakeLinear(s, sh, t, n, fail); }
  }

  lemma LookLinear(s: State, sh: Key -> nat, t: Tid, n: Nid, fail: bool)
    requires Memory(s) && t in s.pc && PcOk(s, t, s.pc[t]) && Looking(s.pc[t]) && Memory(StepAcquire(s, sh, t, n, fail))
    ensures Linear(s, StepAcquire(s, sh, t, n, fail), t)
  {
    hide Present, ElementFree, ShardFree, Contents, NoHolder, Memory;
    ContentsSame(s, StepAcquire(s, sh, t, n, fail));
    match s.pc[t]
    case Search(a, k, m, ins) => ContentsAt(s, k);
    case Try(a, k, m, ins, x, i) =>
      ContentsAt(s, k);
      assert HasKey(s, x, k);
    case _ =>
  }

  lemma TakeLinear(s: State, sh: Key -> nat, t: Tid, n: Nid, fail: bool)
    requires Memory(s) && t in s.pc && PcOk(s, t, s.pc[t]) && !s.pc[t].Idle? && !IsPut(s.pc[t]) && !IsErase(s.pc[t])
    requires !Looking(s.pc[t]) && Memory(StepAcquire(s, sh, t, n, fail))
    ensures Linear(s, StepAcquire(s, sh, t, n, fail), t)
  {
    hide Present, ElementFree, ShardFree, Contents, NoHolder;
    ContentsSame(s, StepAcquire(s, sh, t, n, fail));
    match s.pc[t]
    case New(a, k, m) =>
      ContentsAt(s, k);
      if n !in s.nodes { ContentsLink(s, StepAcquire(s, sh, t, n, fail), n, k); }
    case _ =>
  }

  lemma PutLinear(s: State, sh: Key -> nat, t: Tid, n: Nid)
    requires Memory(s) && t in s.pc && PcOk(s, t, s.pc[t]) && IsPut(s.pc[t]) && Memory(StepPut(s, sh, t, n))
    ensures Linear(s, StepPut(s, sh, t, n), t)
  {
    hide Present, ShardFree, Contents, NoHolder;
    ContentsSame(s, StepPut(s, sh, t, n));
    match s.pc[t]
    case PutSearch(k) => ContentsAt(s, k);
    case PutNew(k) =>
      ContentsAt(s, k);
      if n !in s.nodes { ContentsLink(s, StepPut(s, sh, t, n), n, k); }
    case _ =>
  }

  lemma EraseLinear(s: State, sh: Key -> nat, t: Tid, n: Nid)
    requires Memory(s) && t in s.pc && PcOk(s, t, s.pc[t]) && IsErase(s.pc[t]) && Memory(StepErase(s, sh, t, n))
    ensures Linear(s, StepErase(s, sh, t, n), t)
  {
    hide StepErase, Linear, Memory, PcOk;
    if ByAccess(s.pc[t]) { EraseAccessLinear(s, sh, t, n); } else { EraseKeyLinear(s, sh, t, n); }
  }

  lemma EraseAccessLinear(s: State, sh: Key -> nat, t: Tid, n: Nid)
    requires Memory(s) && t in s.pc && PcOk(s, t, s.pc[t]) && ByAccess(s.pc[t]) && Memory(StepErase(s, sh, t, n))
    ensures Linear(s, StepErase(s, sh, t, n), t)
  {
    hide Present, ElementFree, ShardFree, Contents, NoHolder, Memory, PcOk;
    ContentsSame(s, StepErase(s, sh, t, n));
    match s.pc[t]
    case EraUnlink(a, x, k) =>
      ContentsAt(s, k);
      if x in s.linked { ContentsUnlink(s, StepErase(s, sh, t, n), x); } else { UnlinkNothing(s, x); }
    case _ =>
  }

  lemma EraseKeyLinear(s: State, sh: Key -> nat, t: Tid, n: Nid)
    requires Memory(s) && t in s.pc && PcOk(s, t, s.pc[t]) && IsErase(s.pc[t]) && !ByAccess(s.pc[t])
    requires Memory(StepErase(s, sh, t, n))
    ensures Linear(s, StepErase(s, sh, t, n), t)
  {
    hide Present, ElementFree, ShardFree, Contents, NoHolder, Memory, PcOk;
    ContentsSame(s, StepErase(s, sh, t, n));
    match s.pc[t]
    case DelUnlink(k) =>
      ContentsAt(s, k);
      if HasKey(s, n, k) { ContentsUnlink(s, StepErase(s, sh, t, n), n); }
    case _ =>
  }

  lemma UnlinkNothing(s: State, n: Nid)
    requires Memory(s) && n !in s.linked
    ensures Contents(s) == map k | k in Contents(s) && Contents(s)[k] != n :: Contents(s)[k]
  {
  }

  lemma StepLinear(s: State, sh: Key -> nat, t: Tid, c: Choice)
    requires Inv(s, sh) && t in s.pc
    ensures Memory(Step(s, sh, t, c)) && Linear(s, Step(s, sh, t, c), t)
  {
    hide StepIdle, StepAcquire, StepPut, StepErase, IsPut, IsErase, Memory, PcOk, Contents, Legal, Elements, Shards;
    StepKeepsInv(s, sh, t, c);
    ContentsSame(s, Step(s, sh, t, c));
    if s.pc[t].Idle? {
      IdleForward(s, t, c);
    } else if c.Go? {
      if IsErase(s.pc[t]) {
        EraseLinear(s, sh, t, c.n);
      } else if IsPut(s.pc[t]) {
        PutLinear(s, sh, t, c.n);
      } else {
        AcquireLinear(s, sh, t, c.n, c.fail);
      }
    } else {
      StillOpen(s.pc[t]);
    }
  }

  lemma StillOpen(p: Pc)
    ensures !Settles(p, p)
  {
  }

  // ----- whole runs

  /** A run with its schedule: in step k thread ts[k] moves with choice cs[k]. */
  ghost predicate Scheduled(b: seq<State>, sh: Key -> nat, ts: seq<Tid>, cs: seq<Choice>) {
    && |b| == |ts| + 1 == |cs| + 1 && Init(b[0])
    && forall k | 0 <= k < |ts| :: ts[k] in b[k].pc && b[k + 1] == Step(b[k], sh, ts[k], cs[k])
  }

  /** Step k settles an answer. */
  ghost predicate Event(b: seq<State>, ts: seq<Tid>, k: nat)
    requires |b| == |ts| + 1 && k < |ts|
  {
    ts[k] in b[k].pc && ts[k] in b[k + 1].pc && Settles(b[k].pc[ts[k]], b[k + 1].pc[ts[k]])
  }

  /** The calls settled in the first k steps, in that order, with their answers. */
  ghost function History(b: seq<State>, ts: seq<Tid>, k: nat): seq<(Call, Answer)>
    requires |b| == |ts| + 1 && k <= |ts|
  {
    if k == 0 then []
    else if Event(b, ts, k - 1) then
      History(b, ts, k - 1) + [(Open(b[k - 1].pc[ts[k - 1]]).v, Closed(b[k].pc[ts[k - 1]]).v)]
    else History(b, ts, k - 1)
  }

  /** Made one after the other on a plain map, the calls give these answers and leave m. */
  ghost predicate Replays(h: seq<(Call, Answer)>, m: map<Key, Nid>)
    decreases |h|, 0
  {
    if h == [] then m == map[] else Extends(h[..|h| - 1], h[|h| - 1].0, h[|h| - 1].1, m)
  }

  /** After the calls of h, the call may give answer r and leave m. */
  ghost predicate Extends(h: seq<(Call, Answer)>, call: Call, r: Answer, m: map<Key, Nid>)
    decreases |h|, 1
  {
    exists m0 :: Replays(h, m0) && Legal(m0, call, r, m)
  }

  lemma ScheduledRun(b: seq<State>, sh: Key -> nat, ts: seq<Tid>, cs: seq<Choice>)
    requires Scheduled(b, sh, ts, cs)
    ensures Run(b, sh)
  {
    hide Step, Init;
    forall k | 0 <= k < |b| - 1 ensures Follows(b[k], b[k + 1], sh) { assert b[k + 1] == Step(b[k], sh, ts[k], cs[k]); }
  }

  /** The map is at every moment what the settled calls, one after the other, make of a plain map. */
  lemma {:induction false} Linearizable(b: seq<State>, sh: Key -> nat, ts: seq<Tid>, cs: seq<Choice>, k: nat)
    requires Scheduled(b, sh, ts, cs) && k < |b|
    ensures Memory(b[k]) && Replays(History(b, ts, k), Contents(b[k]))
  {
    hide Memory, Contents, Legal, Step, Settles, Open, Closed, Elements, Shards, Threads;
    ScheduledRun(b, sh, ts, cs);
    RunInv(b, sh, k);
    if k == 0 {
      NoContents(b[0]);
    } else {
      Linearizable(b, sh, ts, cs, k - 1);
      RunInv(b, sh, k - 1);
      StepLinear(b[k - 1], sh, ts[k - 1], cs[k - 1]);
      if Event(b, ts, k - 1) {
        var h := History(b, ts, k);
        assert h[..|h| - 1] == History(b, ts, k - 1);
        assert Replays(h[..|h| - 1], Contents(b[k - 1]));
      }
    }
  }

  lemma NoContents(s: State)
    requires Init(s) && Memory(s)
    ensures Contents(s) == map[]
  {
  }

  /** s' differs from s, as far as threads go, at most at t. */
  ghost predicate OnlyMoves(s: State, s': State, t: Tid) {
    s'.pc.Keys == s.pc.Keys && forall u | u in s.pc && u != t :: s'.pc[u] == s.pc[u]
  }

  lemma IdleMoves(s: State, t: Tid, c: Choice)
    requires t in s.pc
    ensures OnlyMoves(s, StepIdle(s, t, c), t)
  {
  }

  lemma AcquireMoves(s: State, sh: Key -> nat, t: Tid, n: Nid, fail: bool)
    requires t in s.pc
    ensures OnlyMoves(s, StepAcquire(s, sh, t, n, fail), t)
  {
    hide StepAcquire, OnlyMoves;
    if Looking(s.pc[t]) { LookMoves(s, sh, t, n, fail); } else { TakeMoves(s, sh, t, n, fail); }
  }

  lemma LookMoves(s: State, sh: Key -> nat, t: Tid, n: Nid, fail: bool)
    requires t in s.pc && Looking(s.pc[t])
    ensures OnlyMoves(s, StepAcquire(s, sh, t, n, fail), t)
  {
    hide Present, ElementFree, ShardFree, HasKey;
  }

  lemma TakeMoves(s: State, sh: Key -> nat, t: Tid, n: Nid, fail: bool)
    requires t in s.pc && !Looking(s.pc[t])
    ensures OnlyMoves(s, StepAcquire(s, sh, t, n, fail), t)
  {
    hide Present, ElementFree, ShardFree, HasKey;
  }

  lemma PutMoves(s: State, sh: Key -> nat, t: Tid, n: Nid)
    requires t in s.pc
    ensures OnlyMoves(s, StepPut(s, sh, t, n), t)
  {
    hide Present, ShardFree;
  }

  lemma EraseMoves(s: State, sh: Key -> nat, t: Tid, n: Nid)
    requires t in s.pc
    ensures OnlyMoves(s, StepErase(s, sh, t, n), t)
  {
    hide StepErase, OnlyMoves;
    if ByAccess(s.pc[t]) { EraseAccessMoves(s, sh, t, n); } else { EraseKeyMoves(s, sh, t, n); }
  }

  lemma EraseAccessMoves(s: State, sh: Key -> nat, t: Tid, n: Nid)
    requires t in s.pc && ByAccess(s.pc[t])
    ensures OnlyMoves(s, StepErase(s, sh, t, n), t)
  {
    hide Present, ElementFree, ShardFree, HasKey;
  }

  lemma EraseKeyMoves(s: State, sh: Key -> nat, t: Tid, n: Nid)
    requires t in s.pc && !ByAccess(s.pc[t])
    ensures OnlyMoves(s, StepErase(s, sh, t, n), t)
  {
    hide Present, ElementFree, ShardFree, HasKey;
  }

  /** A step moves one thread. */
  lemma StepMoves(s: State, sh: Key -> nat, t: Tid, c: Choice)
    requires t in s.pc
    ensures OnlyMoves(s, Step(s, sh, t, c), t)
  {
    hide StepIdle, StepAcquire, StepPut, StepErase, IsPut, IsErase;
    IdleMoves(s, t, c);
    if c.Go? {
      EraseMoves(s, sh, t, c.n);
      PutMoves(s, sh, t, c.n);
      AcquireMoves(s, sh, t, c.n, c.fail);
    }
  }

  /** Thread t at step k: it stays where it is, or moves forward. */
  lemma PcStep(b: seq<State>, sh: Key -> nat, ts: seq<Tid>, cs: seq<Choice>, t: Tid, k: nat)
    requires Scheduled(b, sh, ts, cs) && k < |ts| && t in b[k].pc
    ensures t in b[k + 1].pc
    ensures if ts[k] == t then Forward(b[k].pc[t], b[k + 1].pc[t]) else b[k + 1].pc[t] == b[k].pc[t]
  {
    hide Step, Forward, Init;
    StepMoves(b[k], sh, ts[k], cs[k]);
    if ts[k] == t { StepForward(b[k], sh, t, cs[k]); }
  }

  lemma OpenOrClosed(p: Pc)
    ensures (Open(p).Some? ==> Closed(p).None?) && (p == Idle <==> Open(p).None? && Closed(p).None?)
  {
  }

  /** Thread t is inside a call from state i to state j. */
  ghost predicate InCall(b: seq<State>, t: Tid, i: nat, j: nat)
    requires i <= j < |b|
  {
    forall k | i <= k <= j :: t in b[k].pc && b[k].pc[t] != Idle
  }

  /** From state k on, with its answer settled, the thread keeps it until it returns. */
  lemma {:induction false} KeepsAnswer(b: seq<State>, sh: Key -> nat, ts: seq<Tid>, cs: seq<Choice>, t: Tid, k: nat,
      j: nat)
    requires Scheduled(b, sh, ts, cs) && k <= j < |b| && InCall(b, t, k, j) && Closed(b[k].pc[t]).Some?
    ensures forall l | k <= l <= j :: Closed(b[l].pc[t]) == Closed(b[k].pc[t])
    decreases j - k
  {
    hide Scheduled, Open, Closed;
    if k < j {
      Lengths(b, sh, ts, cs);
      PcStep(b, sh, ts, cs, t, k);
      OpenOrClosed(b[k].pc[t]);
      assert Closed(b[k + 1].pc[t]) == Closed(b[k].pc[t]);
      KeepsAnswer(b, sh, ts, cs, t, k + 1, j);
    }
  }

  lemma Lengths(b: seq<State>, sh: Key -> nat, ts: seq<Tid>, cs: seq<Choice>)
    requires Scheduled(b, sh, ts, cs)
    ensures |b| == |ts| + 1 == |cs| + 1
  {
  }

  /** Between its start and its return every call is settled exactly once, and returns the settled answer. */
  lemma SettledOnce(b: seq<State>, sh: Key -> nat, ts: seq<Tid>, cs: seq<Choice>, t: Tid, i: nat, j: nat)
      returns (k: nat)
    requires Scheduled(b, sh, ts, cs) && i < j < |b| - 1 && t in b[i].pc && b[i].pc[t] == Idle && InCall(b, t, i + 1, j)
    requires t in b[j + 1].pc && b[j + 1].pc[t] == Idle
    ensures i < k < j && ts[k] == t && Event(b, ts, k)
    ensures Open(b[k].pc[t]) == Open(b[i + 1].pc[t]) && Closed(b[k + 1].pc[t]) == Closed(b[j].pc[t])
    ensures forall l | i <= l <= j && ts[l] == t && Event(b, ts, l) :: l == k
  {
    hide Scheduled, Open, Closed;
    Lengths(b, sh, ts, cs);
    OpenOrClosed(Idle);
    PcStep(b, sh, ts, cs, t, i);
    PcStep(b, sh, ts, cs, t, j);
    OpenOrClosed(b[j].pc[t]);
    k := i + 1;
    while Open(b[k + 1].pc[t]).Some?
      invariant i < k < j && Open(b[k].pc[t]) == Open(b[i + 1].pc[t]) && Open(b[k].pc[t]).Some?
      invariant forall l | i < l <= k :: Open(b[l].pc[t]).Some?
      decreases j - k
    {
      PcStep(b, sh, ts, cs, t, k);
      OpenOrClosed(b[k + 1].pc[t]);
      k := k + 1;
    }
    PcStep(b, sh, ts, cs, t, k);
    KeepsAnswer(b, sh, ts, cs, t, k + 1, j);
    forall l | i <= l <= j && ts[l] == t && Event(b, ts, l)
      ensures l == k
    {
      OpenOrClosed(b[l].pc[t]);
      OpenOrClosed(b[l + 1].pc[t]);
    }
  }
}
