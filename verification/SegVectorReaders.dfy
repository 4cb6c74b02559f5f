/** The segmented vector while some threads append and others read, one access to shared memory per step.
 *
 *  Appenders hold the append lock; readers take no lock.  Memory orders are not modelled.
 */
module SegVectorReaders {
  import opened Basics
  import opened SegVectors

  type Tid = nat

  datatype Pc<V> =
    | Idle
    | Locked(value: V)             // append: about to load the size
    | Sized(value: V, n: nat)      // about to look at the spill table
    | Spilled(value: V, n: nat)    // about to look at the segment
    | Placed(value: V, n: nat)     // about to construct the element
    | Built(n: nat)                // about to publish the new size
    | Published                    // about to unlock
    | Seen(k: nat)                 // a reader that saw size k
    | Routed(k: nat, i: nat)       // past the spill table, about to load the segment
    | Pointed(k: nat, i: nat)      // has the address, about to read
    | Got(k: nat, i: nat, v: V)
    | Fault                        // went through a null pointer, read bare memory or built over an element

  /** cells holds the numbers of the segments whose pointer is set. */
  datatype State<V> = State(spill: bool, cells: set<nat>, elems: map<nat, V>, size: nat, owner: set<Tid>,
      pc: map<Tid, Pc<V>>)

  datatype Choice<V> = Append(value: V) | Look | Read(i: nat) | Leave

  function At<V>(s: State<V>, t: Tid, pc: Pc<V>): State<V> { s.(pc := s.pc[t := pc]) }

  predicate NeedsSpill(n: nat) { SegmentOf(n) >= EMBEDDED_SEGMENTS }

  function Step<V>(s: State<V>, t: Tid, c: Choice<V>): State<V>
    requires t in s.pc
  {
    match s.pc[t]
    case Idle =>
      (match c
       case Append(v) => if s.owner == {} then At(s, t, Locked(v)).(owner := {t}) else s
       case Look => At(s, t, Seen(s.size))
       case _ => s)
    case Locked(v) => At(s, t, Sized(v, s.size))
    case Sized(v, n) =>
      if SegmentOf(n) >= MAX_SEGMENTS then At(s, t, Published)
      else At(s, t, Spilled(v, n)).(spill := s.spill || NeedsSpill(n))
    case Spilled(v, n) =>
      if NeedsSpill(n) && !s.spill then At(s, t, Fault)
      else At(s, t, Placed(v, n)).(cells := s.cells + {SegmentOf(n)})
    case Placed(v, n) =>
      if SegmentOf(n) !in s.cells || n in s.elems then At(s, t, Fault)
      else At(s, t, Built(n)).(elems := s.elems[n := v])
    case Built(n) => At(s, t, Published).(size := n + 1)
    case Published => At(s, t, Idle).(owner := {})
    case Seen(k) =>
      (match c
       case Read(i) =>
         if i >= k then s
         else if NeedsSpill(i) && !s.spill then At(s, t, Fault)
         else At(s, t, Routed(k, i))
       case Leave => At(s, t, Idle)
       case _ => s)
    case Routed(k, i) => At(s, t, if SegmentOf(i) in s.cells then Pointed(k, i) else Fault)
    case Pointed(k, i) => At(s, t, if i in s.elems then Got(k, i, s.elems[i]) else Fault)
    case Got(k, _, _) => At(s, t, Seen(k))
    case Fault => s
  }

  ghost predicate Init<V>(s: State<V>) {
    && !s.spill && s.cells == {} && s.elems == map[] && s.size == 0 && s.owner == {}
    && forall t | t in s.pc :: s.pc[t] == Idle
  }

  ghost predicate Follows<V(!new)>(s: State<V>, s': State<V>) {
    exists t, c :: t in s.pc && s' == Step(s, t, c)
  }

  ghost predicate Run<V(!new)>(b: seq<State<V>>) {
    |b| > 0 && Init(b[0]) && forall k | 0 <= k < |b| - 1 :: Follows(b[k], b[k + 1])
  }

  predicate Appending<V>(pc: Pc<V>) {
    pc.Locked? || pc.Sized? || pc.Spilled? || pc.Placed? || pc.Built? || pc.Published?
  }

  /** Where thread t stands is justified by the shared state. */
  ghost predicate Justified<V>(s: State<V>, t: Tid, pc: Pc<V>) {
    && (Appending(pc) <==> t in s.owner)
    && match pc
       case Sized(_, n) => n == s.size && n !in s.elems
       case Spilled(_, n) => n == s.size && n !in s.elems && SegmentOf(n) < MAX_SEGMENTS && (NeedsSpill(n) ==> s.spill)
       case Placed(_, n) => n == s.size && n !in s.elems && Housed(s, n)
       case Built(n) => n == s.size && n in s.elems
       case Locked(_) => s.size !in s.elems
       case Published => s.size !in s.elems
       case Seen(k) => k <= s.size
       case Routed(k, i) => i < k <= s.size
       case Pointed(k, i) => i < k <= s.size
       case Got(k, i, v) => i < k <= s.size && i in s.elems && s.elems[i] == v
       case Fault => false
       case _ => true
  }

  /** The storage of element n can be reached. */
  ghost predicate Housed<V>(s: State<V>, n: nat) {
    SegmentOf(n) in s.cells && SegmentOf(n) < MAX_SEGMENTS && (NeedsSpill(n) ==> s.spill)
  }

  ghost predicate Inv<V>(s: State<V>) {
    Shared(s) && forall t | t in s.pc :: Justified(s, t, s.pc[t])
  }

  lemma StepKeepsInv<V>(s: State<V>, t: Tid, c: Choice<V>)
    requires Inv(s) && t in s.pc
    ensures Inv(Step(s, t, c)) && Grows(s, Step(s, t, c))
  {
    hide SegmentOf, Housed, Justified;
    var s' := Step(s, t, c);
    StepShared(s, t, c);
    forall u | u in s'.pc
      ensures Justified(s', u, s'.pc[u])
    {
      if u == t { StepOwn(s, t, c); } else { StepOther(s, t, c, u); }
    }
  }

  ghost predicate Shared<V>(s: State<V>) {
    && (forall n | n in s.elems :: n <= s.size && Housed(s, n))
    && (forall n | 0 <= n < s.size :: n in s.elems)
    && (forall t, u | t in s.owner && u in s.owner :: t == u)
    && (s.owner == {} ==> s.size !in s.elems)
    && (forall t | t in s.owner :: t in s.pc)
  }

  lemma StepShared<V>(s: State<V>, t: Tid, c: Choice<V>)
    requires Shared(s) && t in s.pc && Justified(s, t, s.pc[t])
    ensures Shared(Step(s, t, c)) && Grows(s, Step(s, t, c))
  {
    hide SegmentOf;
  }

  lemma StepOwn<V>(s: State<V>, t: Tid, c: Choice<V>)
    requires Shared(s) && t in s.pc && Justified(s, t, s.pc[t])
    ensures Justified(Step(s, t, c), t, Step(s, t, c).pc[t])
  {
    hide SegmentOf;
    if s.pc[t].Routed? { assert s.pc[t].i in s.elems; }
    if s.pc[t].Seen? && c.Read? { assert c.i < s.pc[t].k ==> c.i in s.elems; }
  }

  lemma StepOther<V>(s: State<V>, t: Tid, c: Choice<V>, u: Tid)
    requires Shared(s) && t in s.pc && Justified(s, t, s.pc[t]) && u in s.pc && u != t && Justified(s, u, s.pc[u])
    ensures Justified(Step(s, t, c), u, Step(s, t, c).pc[u])
  {
    hide SegmentOf;
  }

  /** What a step never takes back. */
  ghost predicate Grows<V>(s: State<V>, s': State<V>) {
    s.size <= s'.size && forall n | n in s.elems :: n in s'.elems && s'.elems[n] == s.elems[n]
  }

  lemma {:induction false} RunKeepsInv<V(!new)>(b: seq<State<V>>, k: nat)
    requires Run(b) && k < |b|
    ensures Inv(b[k])
  {
    hide Inv, Step, Grows;
    if k == 0 {
      InitInv(b[0]);
    } else {
      RunKeepsInv(b, k - 1);
      assert Follows(b[k - 1], b[k]);
      var t, c :| t in b[k - 1].pc && b[k] == Step(b[k - 1], t, c);
      StepKeepsInv(b[k - 1], t, c);
    }
  }

  lemma InitInv<V>(s: State<V>)
    requires Init(s)
    ensures Inv(s)
  {
  }

  lemma {:induction false} RunGrows<V(!new)>(b: seq<State<V>>, j: nat, k: nat)
    requires Run(b) && j <= k < |b|
    ensures Grows(b[j], b[k])
    decreases k
  {
    hide Inv, Step;
    if j < k {
      RunGrows(b, j, k - 1);
      RunKeepsInv(b, k - 1);
      assert Follows(b[k - 1], b[k]);
      var t, c :| t in b[k - 1].pc && b[k] == Step(b[k - 1], t, c);
      StepKeepsInv(b[k - 1], t, c);
    }
  }

  /** No thread ever goes through a null pointer, reads bare memory or builds over an element. */
  lemma NeverFaults<V(!new)>(b: seq<State<V>>, k: nat, t: Tid)
    requires Run(b) && k < |b| && t in b[k].pc
    ensures b[k].pc[t] != Fault
  {
    hide Run, Housed, SegmentOf;
    RunKeepsInv(b, k);
    assert Justified(b[k], t, b[k].pc[t]);
  }

  /** What a reader gets from an index below a size it saw is what stays there for good. */
  lemma ReadsAreFinal<V(!new)>(b: seq<State<V>>, j: nat, k: nat, t: Tid)
    requires Run(b) && j <= k < |b| && t in b[j].pc && b[j].pc[t].Got?
    ensures b[j].pc[t].i < b[k].size && b[j].pc[t].i in b[k].elems && b[k].elems[b[j].pc[t].i] == b[j].pc[t].v
  {
    hide Run, Housed, SegmentOf;
    RunKeepsInv(b, j);
    assert Justified(b[j], t, b[j].pc[t]);
    RunGrows(b, j, k);
  }

  /** Every index below the size holds an element, and at most one more does, the one being appended. */
  lemma SizeCountsElements<V(!new)>(b: seq<State<V>>, k: nat, n: nat)
    requires Run(b) && k < |b|
    ensures n < b[k].size ==> n in b[k].elems
    ensures n in b[k].elems ==> n < b[k].size || (n == b[k].size && exists t | t in b[k].pc :: b[k].pc[t] == Built(n))
  {
    hide Run, Housed, SegmentOf;
    RunKeepsInv(b, k);
    var s := b[k];
    if n == s.size && n in s.elems {
      var t :| t in s.owner;
      assert Justified(s, t, s.pc[t]);
    }
  }

  // ----- what is appended and what is read

  const CAPACITY: nat := 0x400_0000_0000

  /** A run with its schedule: in step k thread ts[k] moves with choice cs[k]. */
  ghost predicate Scheduled<V>(b: seq<State<V>>, ts: seq<Tid>, cs: seq<Choice<V>>) {
    && |b| == |ts| + 1 == |cs| + 1 && Init(b[0])
    && forall k | 0 <= k < |ts| :: ts[k] in b[k].pc && b[k + 1] == Step(b[k], ts[k], cs[k])
  }

  lemma ScheduledRun<V(!new)>(b: seq<State<V>>, ts: seq<Tid>, cs: seq<Choice<V>>)
    requires Scheduled(b, ts, cs)
    ensures Run(b)
  {
    hide Step, Init;
    forall k | 0 <= k < |b| - 1 ensures Follows(b[k], b[k + 1]) { assert b[k + 1] == Step(b[k], ts[k], cs[k]); }
  }

  /** Thread t calls append and gets the lock. */
  predicate Starts<V>(s: State<V>, t: Tid, c: Choice<V>) {
    t in s.pc && s.pc[t].Idle? && c.Append? && s.owner == {}
  }

  /** The values callers gave to append, in the order in which the calls got the lock. */
  ghost function Appended<V>(b: seq<State<V>>, ts: seq<Tid>, cs: seq<Choice<V>>, k: nat): seq<V>
    requires |b| == |ts| + 1 == |cs| + 1 && k <= |ts|
  {
    if k == 0 then []
    else if Starts(b[k - 1], ts[k - 1], cs[k - 1]) then Appended(b, ts, cs, k - 1) + [cs[k - 1].value]
    else Appended(b, ts, cs, k - 1)
  }

  /** An append whose element is not published yet. */
  predicate Unpublished<V>(pc: Pc<V>) { Appending(pc) && !pc.Published? }

  /** Thread t is about to store v, or has stored it beyond the size. */
  ghost predicate Carries<V>(s: State<V>, pc: Pc<V>, v: V) {
    match pc
    case Locked(w) => w == v
    case Sized(w, _) => w == v
    case Spilled(w, _) => w == v
    case Placed(w, _) => w == v
    case Built(n) => n in s.elems && s.elems[n] == v
    case _ => true
  }

  function Fitting(n: int): int { if n < CAPACITY then n else CAPACITY }

  /** h is what was appended: the last value still on its way, or all of it in place as far as there is room. */
  ghost predicate Tells<V>(s: State<V>, h: seq<V>) {
    && (forall n | 0 <= n < s.size :: n < |h| && n in s.elems && s.elems[n] == h[n])
    && (forall t | t in s.pc && Unpublished(s.pc[t]) ::
          h != [] && s.size == Fitting(|h| - 1) && Carries(s, s.pc[t], h[|h| - 1]))
    && (Quiet(s) ==> s.size == Fitting(|h|))
  }

  ghost predicate Quiet<V>(s: State<V>) { forall t | t in s.pc :: !Unpublished(s.pc[t]) }

  /** At most one thread appends. */
  lemma OneAppender<V>(s: State<V>, t: Tid)
    requires Inv(s)
    ensures s.owner == {} ==> forall u | u in s.pc :: !Appending(s.pc[u])
    ensures t in s.pc && Appending(s.pc[t]) ==> forall u | u in s.pc && u != t :: !Appending(s.pc[u])
  {
    hide SegmentOf, Housed;
    forall u | u in s.pc && Appending(s.pc[u]) ensures u in s.owner { assert Justified(s, u, s.pc[u]); }
  }

  lemma StartTells<V>(s: State<V>, t: Tid, c: Choice<V>, h: seq<V>)
    requires Inv(s) && t in s.pc && Tells(s, h) && Starts(s, t, c)
    ensures Tells(Step(s, t, c), h + [c.value])
  {
    hide SegmentOf, Housed, Inv;
    OneAppender(s, t);
    var s' := Step(s, t, c);
    assert Unpublished(s'.pc[t]);
  }

  lemma AppendTells<V>(s: State<V>, t: Tid, c: Choice<V>, h: seq<V>)
    requires Inv(s) && t in s.pc && Tells(s, h) && Unpublished(s.pc[t])
    ensures Tells(Step(s, t, c), h)
  {
    hide SegmentOf;
    OneAppender(s, t);
    Capacity(s.size);
    assert Justified(s, t, s.pc[t]);
    var s' := Step(s, t, c);
    assert s'.pc[t].Published? || Unpublished(s'.pc[t]);
    if s.pc[t].Built? { assert Housed(s, s.size) && s.size == |h| - 1; }
  }

  lemma OtherTells<V>(s: State<V>, t: Tid, c: Choice<V>, h: seq<V>)
    requires t in s.pc && Tells(s, h) && !Unpublished(s.pc[t]) && !Starts(s, t, c)
    ensures Tells(Step(s, t, c), h)
  {
    hide SegmentOf, Step;
    var s' := Step(s, t, c);
    OtherStep(s, t, c);
    forall u | u in s.pc
      ensures u in s'.pc && (Unpublished(s'.pc[u]) <==> Unpublished(s.pc[u]))
      ensures Unpublished(s'.pc[u]) ==> s'.pc[u] == s.pc[u]
    {
      StepMoves(s, t, c, u);
    }
  }

  lemma OtherStep<V>(s: State<V>, t: Tid, c: Choice<V>)
    requires t in s.pc && !Unpublished(s.pc[t]) && !Starts(s, t, c)
    ensures var s' := Step(s, t, c); s'.size == s.size && s'.elems == s.elems && s'.pc.Keys == s.pc.Keys
    ensures t in Step(s, t, c).pc && !Unpublished(Step(s, t, c).pc[t])
  {
    hide SegmentOf;
  }

  lemma StepTells<V>(s: State<V>, t: Tid, c: Choice<V>, h: seq<V>)
    requires Inv(s) && t in s.pc && Tells(s, h)
    ensures Tells(Step(s, t, c), if Starts(s, t, c) then h + [c.value] else h)
  {
    hide Inv, Step, Tells;
    if Starts(s, t, c) { StartTells(s, t, c, h); }
    else if Unpublished(s.pc[t]) { AppendTells(s, t, c, h); }
    else { OtherTells(s, t, c, h); }
  }

  /** In every state of every run the vector holds, below its size, the appended values in order: all of them, up
   *  to the capacity, but the one still on its way. */
  lemma {:induction false} HoldsWhatWasAppended<V(!new)>(b: seq<State<V>>, ts: seq<Tid>, cs: seq<Choice<V>>, k: nat)
    requires Scheduled(b, ts, cs) && k < |b|
    ensures Tells(b[k], Appended(b, ts, cs, k))
  {
    hide Inv, Step, Tells;
    if k == 0 {
      NothingTold(b[0]);
    } else {
      HoldsWhatWasAppended(b, ts, cs, k - 1);
      ScheduledRun(b, ts, cs);
      RunKeepsInv(b, k - 1);
      StepTells(b[k - 1], ts[k - 1], cs[k - 1], Appended(b, ts, cs, k - 1));
    }
  }

  lemma NothingTold<V>(s: State<V>)
    requires Init(s)
    ensures Tells(s, [])
  {
  }

  /** What a reader got from index i is the value of the append with that number. */
  lemma ReadsWhatWasAppended<V(!new)>(b: seq<State<V>>, ts: seq<Tid>, cs: seq<Choice<V>>, k: nat, t: Tid)
    requires Scheduled(b, ts, cs) && k < |b| && t in b[k].pc && b[k].pc[t].Got?
    ensures b[k].pc[t].i < |Appended(b, ts, cs, k)| && b[k].pc[t].v == Appended(b, ts, cs, k)[b[k].pc[t].i]
  {
    hide Scheduled, Housed, SegmentOf, Step;
    ScheduledRun(b, ts, cs);
    RunKeepsInv(b, k);
    assert Justified(b[k], t, b[k].pc[t]);
    HoldsWhatWasAppended(b, ts, cs, k);
  }

  // ----- nobody waits

  lemma StepMoves<V>(s: State<V>, t: Tid, c: Choice<V>, u: Tid)
    requires t in s.pc && u in s.pc
    ensures u in Step(s, t, c).pc && (u == t || Step(s, t, c).pc[u] == s.pc[u])
  {
    hide SegmentOf;
  }

  /** A thread that does not move stays where it is. */
  lemma {:induction false} Rests<V>(b: seq<State<V>>, ts: seq<Tid>, cs: seq<Choice<V>>, t: Tid, i: nat, j: nat)
    requires Scheduled(b, ts, cs) && i <= j < |b| && t in b[i].pc && forall k | i <= k < j :: ts[k] != t
    ensures t in b[j].pc && b[j].pc[t] == b[i].pc[t]
    decreases j - i
  {
    hide Step, Init;
    if i < j {
      Rests(b, ts, cs, t, i, j - 1);
      StepMoves(b[j - 1], ts[j - 1], cs[j - 1], t);
    }
  }

  /** Steps i and j are thread t's, and none between them. */
  ghost predicate Consecutive(ts: seq<Tid>, t: Tid, i: nat, j: nat) {
    i < j < |ts| && ts[i] == t && ts[j] == t && forall k | i < k < j :: ts[k] != t
  }

  /** A reader sees the size of the moment, and with its next three steps, whatever others do meanwhile, gets the
   *  value appended at the index it asked for. */
  lemma ReadCompletes<V(!new)>(b: seq<State<V>>, ts: seq<Tid>, cs: seq<Choice<V>>, t: Tid, w: nat, x: nat, y: nat,
      z: nat, i: nat)
    requires Scheduled(b, ts, cs) && Consecutive(ts, t, w, x) && Consecutive(ts, t, x, y) && Consecutive(ts, t, y, z)
    requires b[w].pc[t] == Idle && cs[w] == Look && cs[x] == Read(i) && i < b[w].size
    ensures t in b[z + 1].pc && b[z + 1].pc[t].Got? && b[z + 1].pc[t].i == i
    ensures i < |Appended(b, ts, cs, z + 1)| && b[z + 1].pc[t].v == Appended(b, ts, cs, z + 1)[i]
  {
    hide Scheduled, SegmentOf, Step, Appended;
    ReadStep(b, ts, cs, t, w);
    Rests(b, ts, cs, t, w + 1, x);
    ReadStep(b, ts, cs, t, x);
    Rests(b, ts, cs, t, x + 1, y);
    ReadStep(b, ts, cs, t, y);
    Rests(b, ts, cs, t, y + 1, z);
    ReadStep(b, ts, cs, t, z);
    ReadsWhatWasAppended(b, ts, cs, z + 1, t);
  }

  /** Where a reader's step takes it: on. */
  lemma ReadStep<V(!new)>(b: seq<State<V>>, ts: seq<Tid>, cs: seq<Choice<V>>, t: Tid, k: nat)
    requires Scheduled(b, ts, cs) && k < |ts| && ts[k] == t
    ensures |b| == |ts| + 1 && t in b[k].pc && t in b[k + 1].pc
    ensures b[k].pc[t].Idle? && cs[k].Look? ==> b[k + 1].pc[t] == Seen(b[k].size)
    ensures b[k].pc[t].Seen? && cs[k].Read? && cs[k].i < b[k].pc[t].k ==>
      b[k + 1].pc[t] == Routed(b[k].pc[t].k, cs[k].i)
    ensures b[k].pc[t].Routed? ==> b[k + 1].pc[t] == Pointed(b[k].pc[t].k, b[k].pc[t].i)
    ensures b[k].pc[t].Pointed? ==> b[k + 1].pc[t].Got? && b[k + 1].pc[t].i == b[k].pc[t].i
  {
    hide SegmentOf, Housed, Justified, Init;
    ScheduledRun(b, ts, cs);
    StepMoves(b[k], t, cs[k], t);
    NeverFaults(b, k + 1, t);
  }

  /** How many steps an append still needs. */
  function Rank<V>(pc: Pc<V>): nat {
    match pc
    case Locked(_) => 6
    case Sized(_, _) => 5
    case Spilled(_, _) => 4
    case Placed(_, _) => 3
    case Built(_) => 2
    case Published => 1
    case _ => 0
  }

  lemma SomeRank<V>(pc: Pc<V>)
    requires Appending(pc)
    ensures 1 <= Rank(pc) <= 6
  {
  }

  lemma RankFalls<V>(s: State<V>, t: Tid, c: Choice<V>)
    requires t in s.pc && Appending(s.pc[t])
    ensures t in Step(s, t, c).pc && Rank(Step(s, t, c).pc[t]) < Rank(s.pc[t])
  {
    hide SegmentOf;
  }

  /** An append that has the lock returns with its sixth step, whatever others do meanwhile. */
  lemma {:induction false} AppendCompletes<V(!new)>(b: seq<State<V>>, ts: seq<Tid>, cs: seq<Choice<V>>, t: Tid, i: nat,
      j: nat)
    requires Scheduled(b, ts, cs) && i <= j < |b| && forall k | i <= k <= j :: t in b[k].pc && Appending(b[k].pc[t])
    ensures Rank(b[j].pc[t]) + OwnSteps(ts, t, i, j) <= 6 && OwnSteps(ts, t, i, j) < 6
    decreases j - i
  {
    hide SegmentOf, Init, Step, Rank;
    SomeRank(b[j].pc[t]);
    if i < j {
      AppendCompletes(b, ts, cs, t, i, j - 1);
      StepMoves(b[j - 1], ts[j - 1], cs[j - 1], t);
      if ts[j - 1] == t { RankFalls(b[j - 1], t, cs[j - 1]); }
    }
  }
}
