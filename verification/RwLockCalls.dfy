/** What the calls on the spin lock do: who gets the lock, what a try returns, and why a writer gets its turn. */
module RwLockCalls {
  import opened Basics
  import opened RwLock

  /** A run with its schedule: in step k thread ts[k] moves with choice cs[k]. */
  ghost predicate Scheduled(b: seq<State>, ts: seq<Tid>, cs: seq<Choice>) {
    && |b| == |ts| + 1 == |cs| + 1 && Init(b[0])
    && forall k | 0 <= k < |ts| :: ts[k] in b[k].pc && b[k + 1] == Step(b[k], ts[k], cs[k])
  }

  lemma ScheduledRun(b: seq<State>, ts: seq<Tid>, cs: seq<Choice>)
    requires Scheduled(b, ts, cs)
    ensures Run(b)
  {
    hide Step, Init;
    forall k | 0 <= k < |b| - 1 ensures Follows(b[k], b[k + 1]) { assert b[k + 1] == Step(b[k], ts[k], cs[k]); }
  }

  /** A step moves one thread. */
  lemma StepMoves(s: State, t: Tid, c: Choice)
    requires t in s.pc
    ensures Step(s, t, c).pc.Keys == s.pc.Keys && forall u | u in s.pc && u != t :: Step(s, t, c).pc[u] == s.pc[u]
  {
    hide Pending, Busy, Writer, OrPending, AndNotWriter, AddReader, SubReader;
  }

  // ----- the pending bit

  /** The bits of the word, as the threads make them. */
  lemma WordBits(s: State)
    requires Inv(s)
    ensures Writer(s.word) <==> NumWriting(s) == 1
    ensures Readers(s.word) == NumReading(s) + NumBacking(s)
    ensures s.word == Word(NumWriting(s), Pending(s.word), NumReading(s) + NumBacking(s))
    ensures 4 * (NumReading(s) + NumBacking(s)) + 3 < WORD_SIZE
  {
    hide Pending, Word, Writer, Readers, NumWriting, NumReading, NumBacking, PendingOk, CasOk;
    Decode(NumWriting(s), Pending(s.word), NumReading(s) + NumBacking(s));
    NoWrap(s);
  }

  /** The bit survives every step but the one that lets a writer in. */
  lemma PendingStays(s: State, t: Tid, c: Choice)
    requires Inv(s) && t in s.pc && Pending(s.word)
    ensures Pending(Step(s, t, c).word) || (s.pc[t] != HoldWrite && Step(s, t, c).pc[t] == HoldWrite)
  {
    hide Inv, Pending, Word, Busy, Writer, Readers, OrPending, AndNotWriter, AddReader, SubReader;
    hide NumWriting, NumReading, NumBacking;
    StepKeepsInv(s, t, c);
    WordBits(s);
    WordBits(Step(s, t, c));
    Operations(s, t);
  }

  lemma Operations(s: State, t: Tid)
    requires Inv(s) && t in s.pc && Pending(s.word)
    ensures Pending(OrPending(s.word)) && Pending(AndNotWriter(s.word))
    ensures !Counted(s.pc[t]) ==> Pending(AddReader(s.word))
    ensures s.pc[t].HoldRead? || s.pc[t].BackOut? ==> Pending(SubReader(s.word))
  {
    hide Inv, Pending, Word, Busy, Writer, Readers, OrPending, AndNotWriter, AddReader, SubReader;
    hide NumWriting, NumReading, NumBacking;
    var n := NumReading(s) + NumBacking(s);
    WordBits(s);
    AtMostOne(s);
    WordOps(NumWriting(s), true, n);
    Decode(NumWriting(s), true, n);
    Decode(0, true, n);
    Decode(NumWriting(s), true, n + 1);
    if !Counted(s.pc[t]) { OneMoreFits(s, t); }
    if s.pc[t].HoldRead? || s.pc[t].BackOut? {
      SomeCounted(s, t);
      Decode(NumWriting(s), true, n - 1);
    }
  }

  lemma AtMostOne(s: State)
    requires Inv(s)
    ensures NumWriting(s) <= 1
  {
  }

  lemma OneMoreFits(s: State, t: Tid)
    requires Inv(s) && t in s.pc && !Counted(s.pc[t])
    ensures 4 * (NumReading(s) + NumBacking(s)) + 7 < WORD_SIZE
  {
    hide Pending, Word, PendingOk, CasOk;
    MoveCounts(s, t, HoldRead, 0);
    NoWrap(At(s, t, HoldRead).(word := 0));
  }

  lemma SomeCounted(s: State, t: Tid)
    requires t in s.pc && (s.pc[t].HoldRead? || s.pc[t].BackOut?)
    ensures NumReading(s) + NumBacking(s) > 0
  {
    assert t in Reading(s) + Backing(s);
  }

  /** Step k lets no writer in. */
  ghost predicate NoEntry(b: seq<State>, k: nat)
    requires k + 1 < |b|
  {
    forall t | t in b[k].pc && t in b[k + 1].pc && b[k + 1].pc[t] == HoldWrite :: b[k].pc[t] == HoldWrite
  }

  /** Once the bit is set it stays set until a writer enters, and until then no reader joins. */
  lemma {:induction false} WriterComesNext(b: seq<State>, i: nat, j: nat)
    requires Run(b) && i <= j < |b| && Pending(b[i].word) && forall k | i <= k < j :: NoEntry(b, k)
    ensures Pending(b[j].word) && Joined(b[j]) <= Joined(b[i])
    decreases j - i
  {
    hide Pending, Joined, Step, Inv;
    if i < j {
      WriterComesNext(b, i, j - 1);
      RunInv(b, j - 1);
      assert Follows(b[j - 1], b[j]);
      var t, c :| t in b[j - 1].pc && b[j] == Step(b[j - 1], t, c);
      StepMoves(b[j - 1], t, c);
      assert NoEntry(b, j - 1);
      PendingStays(b[j - 1], t, c);
      NoNewReader(b[j - 1], t, c);
    }
  }

  /** How many of its own steps a thread inside lock() is away from having the bit set, if the word stays busy. */
  function Debt(pc: Pc, w: nat): nat {
    if Pending(w) then 0 else if pc.LockAnnounce? then 1 else if pc.LockLoad? then 2 else 3
  }

  lemma DebtFalls(s: State, t: Tid, c: Choice)
    requires Inv(s) && t in s.pc && InLock(s.pc[t]) && Busy(s.word) && InLock(Step(s, t, c).pc[t])
    ensures var d := Debt(s.pc[t], s.word); Debt(Step(s, t, c).pc[t], Step(s, t, c).word) <= if d == 0 then 0 else d - 1
  {
    hide Inv, Pending, Busy, Writer, Readers, OrPending, AndNotWriter, AddReader, SubReader;
    SeenIdle(s, t);
    OrPendingSets(s.word);
    if Pending(s.word) { PendingStays(s, t, c); }
  }

  lemma OrPendingSets(w: nat)
    ensures Pending(OrPending(w)) && (Pending(w) ==> OrPending(w) == w)
  {
  }

  /** Three own steps inside lock() while the word stays busy and nobody enters: the bit is set. */
  lemma {:induction false} Announced(b: seq<State>, ts: seq<Tid>, cs: seq<Choice>, t: Tid, i: nat, j: nat)
    requires Scheduled(b, ts, cs) && i <= j < |b|
    requires forall k | i <= k <= j :: t in b[k].pc && InLock(b[k].pc[t])
    requires forall k | i <= k < j :: Busy(b[k].word) && NoEntry(b, k)
    ensures Debt(b[j].pc[t], b[j].word) + OwnSteps(ts, t, i, j) <= 3 || Pending(b[j].word)
    ensures OwnSteps(ts, t, i, j) >= 3 ==> Pending(b[j].word)
    decreases j - i
  {
    hide Pending, Step, Inv, Busy;
    if i < j {
      Announced(b, ts, cs, t, i, j - 1);
      ScheduledRun(b, ts, cs);
      RunInv(b, j - 1);
      var s, u, c := b[j - 1], ts[j - 1], cs[j - 1];
      assert b[j] == Step(s, u, c);
      StepMoves(s, u, c);
      if u == t {
        DebtFalls(s, t, c);
      } else if Pending(s.word) {
        assert NoEntry(b, j - 1);
        PendingStays(s, u, c);
      }
    }
  }

  /** A load of a busy word without the bit is followed by the step that sets it. */
  lemma {:induction false} LoadThenAnnounce(b: seq<State>, ts: seq<Tid>, cs: seq<Choice>, t: Tid, i: nat, j: nat)
    requires Scheduled(b, ts, cs) && i < j < |ts| && ts[i] == t && ts[j] == t && forall k | i < k < j :: ts[k] != t
    requires b[i].pc[t] == LockLoad && Busy(b[i].word) && !Pending(b[i].word)
    ensures t in b[j + 1].pc && InLock(b[j + 1].pc[t]) && Pending(b[j + 1].word)
  {
    hide Pending, Busy, Init, OrPending;
    assert b[i + 1] == Step(b[i], t, cs[i]);
    Rests(b, ts, cs, t, i + 1, j);
    OrPendingSets(b[j].word);
  }

  /** A thread that does not move stays where it is. */
  lemma {:induction false} Rests(b: seq<State>, ts: seq<Tid>, cs: seq<Choice>, t: Tid, i: nat, j: nat)
    requires Scheduled(b, ts, cs) && i <= j < |b| && t in b[i].pc && forall k | i <= k < j :: ts[k] != t
    ensures t in b[j].pc && b[j].pc[t] == b[i].pc[t]
    decreases j - i
  {
    hide Step, Init;
    if i < j {
      Rests(b, ts, cs, t, i, j - 1);
      StepMoves(b[j - 1], ts[j - 1], cs[j - 1]);
    }
  }

  // ----- what a call comes to

  /** Where the thread stands that got what it asked for. */
  function Granted(op: Op): Pc { if op.Lock? || op.TryLock? then HoldWrite else HoldRead }

  predicate Inside(op: Op, pc: Pc) {
    match op
    case Lock => InLock(pc)
    case TryLock => pc.TryLoad? || pc.TryCas?
    case LockShared => (pc.SharedLoad? || pc.SharedAdd? || pc.BackOut?) && !pc.once
    case TryLockShared => (pc.SharedLoad? || pc.SharedAdd? || pc.BackOut?) && pc.once
  }

  predicate Tries(op: Op) { op.TryLock? || op.TryLockShared? }

  /** A word that turns the call away; w is the word at its start. */
  predicate Denies(op: Op, w: nat, now: nat) {
    if op == TryLock then Busy(now) || now != w else Writer(now) || Pending(now)
  }

  ghost predicate Denied(b: seq<State>, op: Op, i: nat, j: nat)
    requires i < j <= |b|
  {
    exists k | i <= k < j :: Denies(op, b[i].word, b[k].word)
  }

  /** What a thread remembers of the words it has read since state i. */
  ghost predicate Remembers(b: seq<State>, op: Op, pc: Pc, i: nat, j: nat)
    requires i <= j < |b|
  {
    && (pc.TryCas? ==> exists k | i <= k < j :: b[k].word == pc.seen)
    && (pc.BackOut? && op == TryLockShared ==> i < j && Denied(b, op, i, j))
  }

  /** From the start of its call in step i - 1, thread t has not returned in any state before j. */
  ghost predicate Underway(b: seq<State>, ts: seq<Tid>, cs: seq<Choice>, t: Tid, op: Op, i: nat, j: nat) {
    && Scheduled(b, ts, cs) && 0 < i <= j < |b| && ts[i - 1] == t && b[i - 1].pc[t] == Idle && cs[i - 1] == Begin(op)
    && forall k | i <= k < j :: t in b[k].pc && b[k].pc[t] != Idle && b[k].pc[t] != Granted(op)
  }

  /** The blocking forms return only with the lock; a try returns with the lock or, without it, for a reason:
   *  at some moment of the call a word that excludes it, or, for try_lock, one that had changed. */
  lemma {:induction false} CallReturns(b: seq<State>, ts: seq<Tid>, cs: seq<Choice>, t: Tid, op: Op, i: nat, j: nat)
    requires Underway(b, ts, cs, t, op, i, j)
    ensures t in b[j].pc
    ensures (Inside(op, b[j].pc[t]) && Remembers(b, op, b[j].pc[t], i, j)) || b[j].pc[t] == Granted(op)
      || (Tries(op) && b[j].pc[t] == Idle && i < j && Denied(b, op, i, j))
    decreases j
  {
    hide Step, Init, Inside, Remembers, Denied;
    if i == j {
      StepMoves(b[i - 1], t, cs[i - 1]);
      Enters(b, t, op, i, cs[i - 1]);
    } else {
      CallReturns(b, ts, cs, t, op, i, j - 1);
      var s, u, c := b[j - 1], ts[j - 1], cs[j - 1];
      StepMoves(s, u, c);
      if u == t { Goes(b, t, op, i, j, c); } else { StillRemembers(b, op, s.pc[t], i, j); }
    }
  }

  lemma Enters(b: seq<State>, t: Tid, op: Op, i: nat, c: Choice)
    requires 0 < i < |b| && t in b[i - 1].pc && b[i - 1].pc[t] == Idle && c == Begin(op) && b[i] == Step(b[i - 1], t, c)
    ensures Inside(op, b[i].pc[t]) && Remembers(b, op, b[i].pc[t], i, i)
  {
  }

  lemma StillRemembers(b: seq<State>, op: Op, pc: Pc, i: nat, j: nat)
    requires i < j < |b| && Remembers(b, op, pc, i, j - 1)
    ensures Remembers(b, op, pc, i, j)
  {
    hide Busy, Writer, Pending;
  }

  lemma Goes(b: seq<State>, t: Tid, op: Op, i: nat, j: nat, c: Choice)
    requires i < j < |b| && t in b[j - 1].pc && b[j] == Step(b[j - 1], t, c)
    requires Inside(op, b[j - 1].pc[t]) && Remembers(b, op, b[j - 1].pc[t], i, j - 1)
    ensures (Inside(op, b[j].pc[t]) && Remembers(b, op, b[j].pc[t], i, j)) || b[j].pc[t] == Granted(op)
      || (Tries(op) && b[j].pc[t] == Idle && Denied(b, op, i, j))
  {
    hide Busy, Writer, Pending, OrPending, AddReader, SubReader, Readers;
    var s := b[j - 1];
    StillRemembers(b, op, s.pc[t], i, j);
    assert Denies(op, b[i].word, s.word) ==> Denied(b, op, i, j);
    if s.pc[t].TryCas? {
      var k :| i <= k < j && b[k].word == s.pc[t].seen;
      assert s.word != s.pc[t].seen ==> b[k].word != b[i].word || s.word != b[i].word;
      assert b[k].word != b[i].word ==> Denies(op, b[i].word, b[k].word);
    }
  }

  // ----- a thread by itself

  /** Thread t takes n steps and nobody else moves. */
  function Alone(s: State, t: Tid, n: nat): State
    requires t in s.pc
    decreases n
  {
    if n == 0 || t !in Step(s, t, Go).pc then s else Alone(Step(s, t, Go), t, n - 1)
  }

  function Call(s: State, t: Tid, op: Op, n: nat): State
    requires t in s.pc
  {
    var s' := Step(s, t, Begin(op));
    if t in s'.pc then Alone(s', t, n) else s'
  }

  /** When the lock can be had at once. */
  predicate Free(op: Op, w: nat) {
    if op.Lock? || op.TryLock? then !Busy(w) else !Writer(w) && !Pending(w)
  }

  /** From s the call left s': granted if and only if the lock can be had; otherwise a try has returned and left
   *  the whole state as it was, lock_shared has changed no word, and lock has set the bit. */
  ghost predicate Outcome(s: State, t: Tid, op: Op, s': State)
    requires t in s.pc
  {
    && (t in s'.pc && s'.pc[t] == Granted(op) <==> Free(op, s.word))
    && (Free(op, s.word) ==> s' == At(s, t, Granted(op)).(word := if Granted(op) == HoldWrite then 1 else s.word + 4))
    && (!Free(op, s.word) && Tries(op) ==> s' == s)
    && (!Free(op, s.word) && op == LockShared ==> s'.word == s.word)
    && (!Free(op, s.word) && op == Lock ==> s'.word == OrPending(s.word))
  }

  /** In every reachable state a call made alone comes to that in two steps. */
  lemma AloneGranted(b: seq<State>, k: nat, t: Tid, op: Op)
    requires Run(b) && k < |b| && t in b[k].pc && b[k].pc[t] == Idle
    ensures Outcome(b[k], t, op, Call(b[k], t, op, 2))
  {
    hide Inv, Outcome, AddReader, Step;
    RunInv(b, k);
    AddsFour(b[k], t);
    StepMoves(b[k], t, Begin(op));
    TwoSteps(Step(b[k], t, Begin(op)), t);
    if op.Lock? || op.TryLock? { AloneExclusive(b[k], t, op); } else { AloneShared(b[k], t, op); }
  }

  lemma AloneExclusive(s: State, t: Tid, op: Op)
    requires t in s.pc && s.pc[t] == Idle && (op.Lock? || op.TryLock?)
    requires var s1 := Step(s, t, Begin(op)); t in s1.pc && t in Step(s1, t, Go).pc
    ensures Outcome(s, t, op, Step(Step(Step(s, t, Begin(op)), t, Go), t, Go))
  {
    hide Busy, Writer, Pending, OrPending, AndNotWriter, AddReader, SubReader;
    OrPendingSets(s.word);
    assert Step(s, t, Begin(op)).pc[t := Idle] == s.pc;
  }

  lemma AloneShared(s: State, t: Tid, op: Op)
    requires t in s.pc && s.pc[t] == Idle && (op.LockShared? || op.TryLockShared?) && AddReader(s.word) == s.word + 4
    requires var s1 := Step(s, t, Begin(op)); t in s1.pc && t in Step(s1, t, Go).pc
    ensures Outcome(s, t, op, Step(Step(Step(s, t, Begin(op)), t, Go), t, Go))
  {
    hide Busy, Writer, Pending, OrPending, AndNotWriter, AddReader, SubReader;
    assert Step(s, t, Begin(op)).pc[t := Idle] == s.pc;
  }

  lemma TwoSteps(s: State, t: Tid)
    requires t in s.pc
    ensures t in Step(s, t, Go).pc && Alone(s, t, 2) == Step(Step(s, t, Go), t, Go)
    ensures t in Step(Step(s, t, Go), t, Go).pc
  {
    hide Busy, Writer, Pending, OrPending, AndNotWriter, AddReader, SubReader;
    StepMoves(s, t, Go);
    StepMoves(Step(s, t, Go), t, Go);
  }

  lemma AddsFour(s: State, t: Tid)
    requires Inv(s) && t in s.pc && s.pc[t] == Idle
    ensures AddReader(s.word) == s.word + 4
  {
    hide Inv, Pending, Writer, Readers, Busy, NumWriting, NumReading, NumBacking;
    WordBits(s);
    AtMostOne(s);
    OneMoreFits(s, t);
    WordOps(NumWriting(s), Pending(s.word), NumReading(s) + NumBacking(s));
  }

  /** Unlocking takes this holder, and nothing else, out of the word: a waiting writer stays announced. */
  lemma Unlocks(b: seq<State>, k: nat, t: Tid, c: Choice)
    requires Run(b) && k < |b| && t in b[k].pc && (b[k].pc[t] == HoldWrite || b[k].pc[t] == HoldRead)
    ensures var w, s' := b[k].word, Step(b[k], t, c);
      && s' == At(b[k], t, Idle).(word := s'.word) && (Pending(s'.word) <==> Pending(w))
      && (b[k].pc[t] == HoldWrite ==> Writer(w) && !Writer(s'.word) && Readers(s'.word) == Readers(w))
      && (b[k].pc[t] == HoldRead ==> !Writer(w) && !Writer(s'.word) && Readers(s'.word) == Readers(w) - 1)
  {
    hide Inv, Pending, Word, Writer, Readers, Busy, AndNotWriter, SubReader, NumWriting, NumReading, NumBacking;
    RunInv(b, k);
    var s := b[k];
    var n := NumReading(s) + NumBacking(s);
    WordBits(s);
    HolderCounts(s, t);
    WordOps(NumWriting(s), Pending(s.word), n);
    Decode(0, Pending(s.word), n);
    if s.pc[t] == HoldRead { Decode(0, Pending(s.word), n - 1); }
  }

  lemma HolderCounts(s: State, t: Tid)
    requires Inv(s) && t in s.pc
    ensures s.pc[t] == HoldWrite ==> NumWriting(s) == 1
    ensures s.pc[t] == HoldRead ==> NumWriting(s) == 0 && NumReading(s) > 0
  {
    hide Pending, Word, PendingOk, CasOk;
    assert s.pc[t] == HoldWrite ==> t in Writing(s);
    assert s.pc[t] == HoldRead ==> t in Reading(s);
  }

  lemma WordFits(s: State)
    requires Inv(s)
    ensures s.word < WORD_SIZE
  {
    hide Inv, Pending, NumWriting, NumReading, NumBacking;
    WordBits(s);
    AtMostOne(s);
  }

  /** Locking and unlocking alone gives the state back; only an exclusive turn uses up the pending bit. */
  lemma ThereAndBack(b: seq<State>, k: nat, t: Tid, op: Op)
    requires Run(b) && k < |b| && t in b[k].pc && b[k].pc[t] == Idle && Free(op, b[k].word)
    ensures var s := b[k];
      Call(s, t, op, 3) == s.(word := if Granted(op) == HoldWrite then 0 else s.word)
  {
    hide Inv, Busy, Pending, OrPending, AddReader;
    var s := b[k];
    AloneGranted(b, k, t, op);
    var s1 := Step(s, t, Begin(op));
    TwoSteps(s1, t);
    TwoSteps(Step(s1, t, Go), t);
    var s3 := Alone(s1, t, 2);
    assert s3.pc[t := Idle] == s.pc;
    RunInv(b, k);
    WordFits(s);
    assert Alone(s1, t, 3) == Step(s3, t, Go);
  }

  /** A thread that is already waiting gets the lock within three steps once it can be had and nobody interferes. */
  lemma WaiterEnters(b: seq<State>, k: nat, t: Tid, op: Op) returns (n: nat)
    requires Run(b) && k < |b| && t in b[k].pc && !Tries(op) && Inside(op, b[k].pc[t]) && Free(op, b[k].word)
    ensures n <= 3 && t in Alone(b[k], t, n).pc && Alone(b[k], t, n).pc[t] == Granted(op)
  {
    hide Inv, Busy, Writer, Pending, OrPending, AndNotWriter, AddReader, SubReader;
    RunInv(b, k);
    var s := b[k];
    var s1 := Step(s, t, Go);
    TwoSteps(s, t);
    if s1.pc[t] == Granted(op) { return 1; }
    if Step(s1, t, Go).pc[t] == Granted(op) { return 2; }
    BackAtStart(s, t, op);
    TwoSteps(s1, t);
    n := 3;
  }

  /** Otherwise its step took it back to the load, and the lock can still be had. */
  lemma BackAtStart(s: State, t: Tid, op: Op)
    requires Inv(s) && t in s.pc && !Tries(op) && Inside(op, s.pc[t]) && Free(op, s.word)
    ensures var s1 := Step(s, t, Go);
      s1.pc[t] == Granted(op) || Step(s1, t, Go).pc[t] == Granted(op)
      || (Free(op, s1.word) && s1.pc[t] == if op == Lock then LockLoad else SharedLoad(false))
  {
    hide Inv, Busy, Writer, Pending, OrPending, AndNotWriter, AddReader, SubReader;
    StepMoves(s, t, Go);
    if s.pc[t].LockAnnounce? { StillIdle(s); }
    if s.pc[t].BackOut? { StillFree(s, t); }
  }

  lemma StillIdle(s: State)
    requires Inv(s) && !Busy(s.word)
    ensures !Busy(OrPending(s.word))
  {
    hide Inv, Pending, Writer, Readers, NumWriting, NumReading, NumBacking, OrPending;
    WordBits(s);
    AtMostOne(s);
    WordOps(NumWriting(s), Pending(s.word), NumReading(s) + NumBacking(s));
    Decode(NumWriting(s), true, NumReading(s) + NumBacking(s));
  }

  lemma StillFree(s: State, t: Tid)
    requires Inv(s) && t in s.pc && s.pc[t].BackOut? && !Writer(s.word) && !Pending(s.word)
    ensures !Writer(SubReader(s.word)) && !Pending(SubReader(s.word))
  {
    hide Inv, Pending, Writer, Readers, NumWriting, NumReading, NumBacking, SubReader;
    WordBits(s);
    AtMostOne(s);
    SomeCounted(s, t);
    WordOps(NumWriting(s), false, NumReading(s) + NumBacking(s));
    Decode(NumWriting(s), false, NumReading(s) + NumBacking(s) - 1);
  }
}
