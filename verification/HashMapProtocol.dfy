/** Node lifetime in the concurrent hash map.
 *
 *  Any number of threads run find, insert, release, erase(accessor) and erase(key) on one map.  A shard
 *  lock or element lock is taken and released in one step each (RwLock shows that the spin lock gives
 *  the exclusion assumed here); a thread that cannot take a lock stays where it is.  Nodes are named by
 *  numbers; `sh` maps a key to its shard.
 */
module HashMapProtocol {

  type Tid = nat
  type Nid = nat   // node address
  type Aid = nat   // accessor object
  type Key = int

  const MAX_ATTEMPTS: nat := 8

  datatype Mode = Shared | Exclusive

  datatype Hold = Empty | Held(n: Nid, m: Mode)

  /** An accessor belongs to one thread and holds at most one element lock. */
  datatype Accessor = Accessor(owner: Tid, hold: Hold)

  datatype Pc =
    | Idle
      // acquire (find) and do_insert; `ins` tells which, and so the mode of the shard lock
    | Want(a: Aid, k: Key, m: Mode, ins: bool)
    | Search(a: Aid, k: Key, m: Mode, ins: bool)
    | Try(a: Aid, k: Key, m: Mode, ins: bool, n: Nid, i: nat)
    | Drop(a: Aid, k: Key, m: Mode, ins: bool)
    | Miss(k: Key)
    | Got(a: Aid, k: Key, m: Mode, n: Nid)
    | Adopt(a: Aid, m: Mode, n: Nid)
    | New(a: Aid, k: Key, m: Mode)
    | LockNew(a: Aid, k: Key, m: Mode, n: Nid)
    | InsDone(k: Key, n: Nid, made: bool)
      // insert(value)
    | PutWant(k: Key)
    | PutSearch(k: Key)
    | PutNew(k: Key)
    | PutDone(k: Key, made: bool)
      // erase(accessor)
    | EraWant(a: Aid, n: Nid)
    | EraUnlink(a: Aid, n: Nid, k: Key)
    | EraDone(a: Aid, n: Nid, k: Key, removed: bool)
    | EraRelease(a: Aid, n: Nid, removed: bool)
    | EraFree(n: Nid)
      // erase(key)
    | DelWant(k: Key)
    | DelUnlink(k: Key)
    | DelMiss(k: Key)
    | DelDone(k: Key, n: Nid)
    | DelDrain(n: Nid)
    | DelDrained(n: Nid)
    | DelFree(n: Nid)

  /** `nodes` holds every node ever allocated with its key; `unlinker` records who unlinked a node. */
  datatype State = State(nodes: map<Nid, Key>, linked: set<Nid>, freed: set<Nid>, unlinker: map<Nid, Tid>,
                         acc: map<Aid, Accessor>, pc: map<Tid, Pc>)

  /** What the scheduler or the caller picks; in Go, `n` names the node found or allocated and `fail`
   *  makes a try_lock fail although the lock is free. */
  datatype Choice =
    | Find(a: Aid, k: Key, m: Mode)
    | Insert(a: Aid, k: Key, m: Mode)
    | Put(k: Key)
    | Erase(a: Aid)
    | Delete(k: Key)
    | Release(a: Aid)
    | Use(a: Aid)
    | Go(n: Nid, fail: bool)

  // ----- who holds what

  datatype ShardHold = NoShard | OnShard(k: Key, excl: bool)

  function ShardHeld(pc: Pc): ShardHold {
    match pc
    case Search(_, k, _, ins) => OnShard(k, ins)
    case Try(_, k, _, ins, _, _) => OnShard(k, ins)
    case Drop(_, k, _, ins) => OnShard(k, ins)
    case Miss(k) => OnShard(k, false)
    case Got(_, k, _, _) => OnShard(k, false)
    case New(_, k, _) => OnShard(k, true)
    case LockNew(_, k, _, _) => OnShard(k, true)
    case InsDone(k, _, _) => OnShard(k, true)
    case PutSearch(k) => OnShard(k, true)
    case PutNew(k) => OnShard(k, true)
    case PutDone(k, _) => OnShard(k, true)
    case EraUnlink(_, _, k) => OnShard(k, true)
    case EraDone(_, _, k, _) => OnShard(k, true)
    case DelUnlink(k) => OnShard(k, true)
    case DelMiss(k) => OnShard(k, true)
    case DelDone(k, _) => OnShard(k, true)
    case _ => NoShard
  }

  /** The element lock a thread holds outside its accessors. */
  function LocalHold(pc: Pc): Hold {
    match pc
    case Got(_, _, m, n) => Held(n, m)
    case Adopt(_, m, n) => Held(n, m)
    case DelDrained(n) => Held(n, Exclusive)
    case _ => Empty
  }

  datatype Holder = ByAccessor(a: Aid) | ByThread(t: Tid)

  function HoldOf(s: State, h: Holder): Hold {
    match h
    case ByAccessor(a) => if a in s.acc then s.acc[a].hold else Empty
    case ByThread(t) => if t in s.pc then LocalHold(s.pc[t]) else Empty
  }

  ghost predicate Holds(s: State, h: Holder, n: Nid) { HoldOf(s, h).Held? && HoldOf(s, h).n == n }

  // ----- when a lock can be taken

  predicate SameShard(sh: Key -> nat, h: ShardHold, k: Key) { h.OnShard? && sh(h.k) == sh(k) }

  predicate ShardFree(s: State, sh: Key -> nat, t: Tid, k: Key, excl: bool) {
    forall u | u in s.pc && u != t && SameShard(sh, ShardHeld(s.pc[u]), k) :: !excl && !ShardHeld(s.pc[u]).excl
  }

  ghost predicate ElementFree(s: State, n: Nid, m: Mode) {
    forall h | Holds(s, h, n) :: m == Shared && HoldOf(s, h).m == Shared
  }

  ghost predicate HasKey(s: State, n: Nid, k: Key) { n in s.linked && n in s.nodes && s.nodes[n] == k }

  ghost predicate Present(s: State, k: Key) { exists n :: HasKey(s, n, k) }

  // ----- steps

  function To(s: State, t: Tid, pc: Pc): State { s.(pc := s.pc[t := pc]) }

  function SetHold(s: State, a: Aid, h: Hold): State
    requires a in s.acc
  {
    s.(acc := s.acc[a := s.acc[a].(hold := h)])
  }

  predicate Owns(s: State, t: Tid, a: Aid) { a in s.acc && s.acc[a].owner == t }

  /** A new call, or release() and use of an accessor, from a thread that is between calls. */
  function StepIdle(s: State, t: Tid, c: Choice): (s': State)
    requires t in s.pc
    ensures t in s'.pc
  {
    match c
    case Find(a, k, m) => if Owns(s, t, a) then To(SetHold(s, a, Empty), t, Want(a, k, m, false)) else s
    case Insert(a, k, m) => if Owns(s, t, a) then To(SetHold(s, a, Empty), t, Want(a, k, m, true)) else s
    case Put(k) => To(s, t, PutWant(k))
    case Erase(a) =>
      if Owns(s, t, a) && s.acc[a].hold.Held? && s.acc[a].hold.m == Exclusive
      then To(s, t, EraWant(a, s.acc[a].hold.n)) else s
    case Delete(k) => To(s, t, DelWant(k))
    case Release(a) => if Owns(s, t, a) then SetHold(s, a, Empty) else s
    case Use(_) => s
    case Go(_, _) => s
  }

  ghost function StepAcquire(s: State, sh: Key -> nat, t: Tid, n: Nid, fail: bool): (s': State)
    requires t in s.pc
    ensures t in s'.pc
  {
    match s.pc[t]
    case Want(a, k, m, ins) => if ShardFree(s, sh, t, k, ins) then To(s, t, Search(a, k, m, ins)) else s
    case Search(a, k, m, ins) =>
      if HasKey(s, n, k) then To(s, t, Try(a, k, m, ins, n, 0))
      else if Present(s, k) then s
      else To(s, t, if ins then New(a, k, m) else Miss(k))
    case Try(a, k, m, ins, x, i) =>
      if i >= MAX_ATTEMPTS then To(s, t, Drop(a, k, m, ins))
      else if fail || !ElementFree(s, x, m) then To(s, t, Try(a, k, m, ins, x, i + 1))
      else if ins && a in s.acc then To(SetHold(s, a, Held(x, m)), t, InsDone(k, x, false))
      else To(s, t, Got(a, k, m, x))
    case Drop(a, k, m, ins) => To(s, t, Want(a, k, m, ins))
    case Miss(_) => To(s, t, Idle)
    case Got(a, _, m, x) => To(s, t, Adopt(a, m, x))
    case Adopt(a, m, x) => if a in s.acc then To(SetHold(s, a, Held(x, m)), t, Idle) else s
    case New(a, k, m) =>
      if n in s.nodes then s
      else To(s.(nodes := s.nodes[n := k], linked := s.linked + {n}), t, LockNew(a, k, m, n))
    case LockNew(a, k, m, x) =>
      if a in s.acc && ElementFree(s, x, m) then To(SetHold(s, a, Held(x, m)), t, InsDone(k, x, true)) else s
    case InsDone(_, _, _) => To(s, t, Idle)
    case _ => s
  }

  ghost function StepPut(s: State, sh: Key -> nat, t: Tid, n: Nid): (s': State)
    requires t in s.pc
    ensures t in s'.pc
  {
    match s.pc[t]
    case PutWant(k) => if ShardFree(s, sh, t, k, true) then To(s, t, PutSearch(k)) else s
    case PutSearch(k) => To(s, t, if Present(s, k) then PutDone(k, false) else PutNew(k))
    case PutNew(k) =>
      if n in s.nodes then s
      else To(s.(nodes := s.nodes[n := k], linked := s.linked + {n}), t, PutDone(k, true))
    case PutDone(_, _) => To(s, t, Idle)
    case _ => s
  }

  function Unlink(s: State, t: Tid, n: Nid): State {
    s.(linked := s.linked - {n}, unlinker := s.unlinker[n := t])
  }

  ghost function StepErase(s: State, sh: Key -> nat, t: Tid, n: Nid): (s': State)
    requires t in s.pc
    ensures t in s'.pc
  {
    match s.pc[t]
    case EraWant(a, x) =>
      if x in s.nodes && ShardFree(s, sh, t, s.nodes[x], true) then To(s, t, EraUnlink(a, x, s.nodes[x])) else s
    case EraUnlink(a, x, k) =>
      if x in s.linked then To(Unlink(s, t, x), t, EraDone(a, x, k, true)) else To(s, t, EraDone(a, x, k, false))
    case EraDone(a, x, _, removed) => To(s, t, EraRelease(a, x, removed))
    case EraRelease(a, x, removed) =>
      if a in s.acc then To(SetHold(s, a, Empty), t, if removed then EraFree(x) else Idle) else s
    case EraFree(x) => To(s.(freed := s.freed + {x}), t, Idle)
    case DelWant(k) => if ShardFree(s, sh, t, k, true) then To(s, t, DelUnlink(k)) else s
    case DelUnlink(k) =>
      if HasKey(s, n, k) then To(Unlink(s, t, n), t, DelDone(k, n))
      else if Present(s, k) then s
      else To(s, t, DelMiss(k))
    case DelMiss(_) => To(s, t, Idle)
    case DelDone(_, x) => To(s, t, DelDrain(x))
    case DelDrain(x) => if ElementFree(s, x, Exclusive) then To(s, t, DelDrained(x)) else s
    case DelDrained(x) => To(s, t, DelFree(x))
    case DelFree(x) => To(s.(freed := s.freed + {x}), t, Idle)
    case _ => s
  }

  ghost function Step(s: State, sh: Key -> nat, t: Tid, c: Choice): (s': State)
    requires t in s.pc
    ensures t in s'.pc
  {
    if s.pc[t].Idle? then StepIdle(s, t, c)
    else if !c.Go? then s
    else if IsErase(s.pc[t]) then StepErase(s, sh, t, c.n)
    else if IsPut(s.pc[t]) then StepPut(s, sh, t, c.n)
    else StepAcquire(s, sh, t, c.n, c.fail)
  }

  predicate IsPut(pc: Pc) { pc.PutWant? || pc.PutSearch? || pc.PutNew? || pc.PutDone? }

  predicate IsErase(pc: Pc) {
    || pc.EraWant? || pc.EraUnlink? || pc.EraDone? || pc.EraRelease? || pc.EraFree?
    || pc.DelWant? || pc.DelUnlink? || pc.DelMiss? || pc.DelDone? || pc.DelDrain? || pc.DelDrained? || pc.DelFree?
  }

  /** The nodes a step dereferences: reads a field, works on the element lock, or frees. */
  function Touches(s: State, sh: Key -> nat, t: Tid, c: Choice): set<Nid>
    requires t in s.pc
  {
    match s.pc[t]
    case Idle =>
      (match c
       case Find(a, _, _) => HeldNode(s, a)
       case Insert(a, _, _) => HeldNode(s, a)
       case Release(a) => HeldNode(s, a)
       case Use(a) => HeldNode(s, a)
       case _ => {})
    case Search(_, k, _, _) => Chain(s, sh, k)
    case Try(_, _, _, _, n, _) => {n}
    case Adopt(_, _, n) => {n}
    case New(_, k, _) => Chain(s, sh, k)
    case LockNew(_, _, _, n) => {n}
    case PutSearch(k) => Chain(s, sh, k)
    case PutNew(k) => Chain(s, sh, k)
    case EraWant(_, n) => {n}
    case EraUnlink(_, n, k) => Chain(s, sh, k) + {n}
    case EraRelease(_, n, _) => {n}
    case EraFree(n) => {n}
    case DelUnlink(k) => Chain(s, sh, k)
    case DelDrain(n) => {n}
    case DelDrained(n) => {n}
    case DelFree(n) => {n}
    case _ => {}
  }

  function HeldNode(s: State, a: Aid): set<Nid> {
    if a in s.acc && s.acc[a].hold.Held? then {s.acc[a].hold.n} else {}
  }

  /** Every node a walk or a growth of k's shard may visit. */
  function Chain(s: State, sh: Key -> nat, k: Key): set<Nid> {
    set n | n in s.linked && n in s.nodes && sh(s.nodes[n]) == sh(k)
  }
}
