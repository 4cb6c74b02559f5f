/** The one-word reader/writer spin lock, as atomic steps of any number of threads.
 *
 *  Each step is one access to the word; the code between two accesses is part of the step that
 *  precedes it.  Memory orders and backoff are not modelled.
 */
module RwLock {
  import opened Basics

  type Tid = nat

  const WORD_SIZE: nat := 0x1_0000_0000

  // Bit 0 is the active writer, bit 1 a waiting writer, the rest counts readers.
  predicate Writer(w: nat) { w % 2 == 1 }
  predicate Pending(w: nat) { (w / 2) % 2 == 1 }
  function Readers(w: nat): nat { w / 4 }
  predicate Busy(w: nat) { Writer(w) || Readers(w) != 0 }

  function OrPending(w: nat): nat { if Pending(w) then w else w + 2 }
  function AndNotWriter(w: nat): nat { w - w % 2 }
  function AddReader(w: nat): nat { (w + 4) % WORD_SIZE }
  function SubReader(w: nat): nat { (w - 4) % WORD_SIZE }

  /** Where a thread stands.  `once` distinguishes the try_ forms, which do not loop. */
  datatype Pc =
    | Idle
    | LockLoad                 // lock: about to load
    | LockCas(seen: nat)       // lock: saw an idle word, about to compare-exchange
    | LockAnnounce             // lock: saw a busy word without the pending bit, about to set it
    | TryLoad                  // try_lock
    | TryCas(seen: nat)
    | HoldWrite
    | SharedLoad(once: bool)   // lock_shared, try_lock_shared
    | SharedAdd(once: bool)    // saw no writer bit, about to count itself in
    | BackOut(once: bool)      // met a writer, about to count itself out
    | HoldRead

  datatype Op = Lock | TryLock | LockShared | TryLockShared

  /** What the scheduler picks: begin an operation, take the next step, or fail a weak exchange. */
  datatype Choice = Begin(op: Op) | Go | Spurious

  datatype State = State(word: nat, pc: map<Tid, Pc>)

  function At(s: State, t: Tid, pc: Pc): State { s.(pc := s.pc[t := pc]) }

  function Step(s: State, t: Tid, c: Choice): State
    requires t in s.pc
  {
    match s.pc[t]
    case Idle =>
      (match c
       case Begin(Lock) => At(s, t, LockLoad)
       case Begin(TryLock) => At(s, t, TryLoad)
       case Begin(LockShared) => At(s, t, SharedLoad(false))
       case Begin(TryLockShared) => At(s, t, SharedLoad(true))
       case _ => s)
    case LockLoad =>
      if !Busy(s.word) then At(s, t, LockCas(s.word))
      else if !Pending(s.word) then At(s, t, LockAnnounce)
      else s
    case LockCas(seen) =>
      if s.word == seen && c != Spurious then At(s, t, HoldWrite).(word := 1) else At(s, t, LockLoad)
    case LockAnnounce => At(s, t, LockLoad).(word := OrPending(s.word))
    case TryLoad => if !Busy(s.word) then At(s, t, TryCas(s.word)) else At(s, t, Idle)
    case TryCas(seen) => if s.word == seen then At(s, t, HoldWrite).(word := 1) else At(s, t, Idle)
    case HoldWrite => At(s, t, Idle).(word := AndNotWriter(s.word))
    case SharedLoad(once) =>
      if !Writer(s.word) && !Pending(s.word) then At(s, t, SharedAdd(once))
      else if once then At(s, t, Idle) else s
    case SharedAdd(once) =>
      At(s, t, if Writer(s.word) then BackOut(once) else HoldRead).(word := AddReader(s.word))
    case BackOut(once) => At(s, t, if once then Idle else SharedLoad(false)).(word := SubReader(s.word))
    case HoldRead => At(s, t, Idle).(word := SubReader(s.word))
  }

  ghost predicate Init(s: State) {
    s.word == 0 && |s.pc| < 0x4000_0000 && forall t | t in s.pc :: s.pc[t] == Idle
  }

  /** A run: every state follows from the one before by a step of some thread. */
  ghost predicate Run(b: seq<State>) {
    && |b| > 0 && Init(b[0])
    && forall k | 0 <= k < |b| - 1 :: Follows(b[k], b[k + 1])
  }

  ghost predicate Follows(s: State, s': State) {
    exists t, c | t in s.pc :: s' == Step(s, t, c)
  }

  // ----- the threads a word stands for

  function Writing(s: State): set<Tid> { set t | t in s.pc && s.pc[t].HoldWrite? }
  function Reading(s: State): set<Tid> { set t | t in s.pc && s.pc[t].HoldRead? }
  function Backing(s: State): set<Tid> { set t | t in s.pc && s.pc[t].BackOut? }

  function Word(writers: nat, pending: bool, counted: nat): nat {
    writers + (if pending then 2 else 0) + 4 * counted
  }

  predicate InLock(pc: Pc) { pc.LockLoad? || pc.LockCas? || pc.LockAnnounce? }

  /** Readers holding the lock, backing out, or between their load and their increment. */
  function Joined(s: State): set<Tid> {
    set t | t in s.pc && (s.pc[t].HoldRead? || s.pc[t].BackOut? || s.pc[t].SharedAdd?)
  }

  function NumWriting(s: State): nat { |Writing(s)| }
  function NumReading(s: State): nat { |Reading(s)| }
  function NumBacking(s: State): nat { |Backing(s)| }

  /** The word is what the threads' positions say, and writers are alone. */
  ghost predicate WordOk(s: State) {
    && s.word == Word(NumWriting(s), Pending(s.word), NumReading(s) + NumBacking(s))
    && NumWriting(s) <= 1
    && (NumWriting(s) == 1 ==> NumReading(s) == 0)
  }

  ghost predicate PendingOk(s: State) {
    Pending(s.word) ==> exists t | t in s.pc :: InLock(s.pc[t])
  }

  /** An exchange is only ever attempted against an idle word. */
  ghost predicate CasOk(s: State) {
    && (forall t | t in s.pc && s.pc[t].LockCas? :: !Busy(s.pc[t].seen))
    && (forall t | t in s.pc && s.pc[t].TryCas? :: !Busy(s.pc[t].seen))
  }

  ghost predicate Inv(s: State) {
    |s.pc| < 0x4000_0000 && WordOk(s) && PendingOk(s) && CasOk(s)
  }

  // ----- bookkeeping

  lemma MoveCounts(s: State, t: Tid, pc: Pc, w: nat)
    requires t in s.pc
    ensures var s' := At(s, t, pc).(word := w);
      && |s'.pc| == |s.pc|
      && NumWriting(s') == NumWriting(s) - One(s.pc[t].HoldWrite?) + One(pc.HoldWrite?)
      && NumReading(s') == NumReading(s) - One(s.pc[t].HoldRead?) + One(pc.HoldRead?)
      && NumBacking(s') == NumBacking(s) - One(s.pc[t].BackOut?) + One(pc.BackOut?)
  {
    var s' := At(s, t, pc).(word := w);
    assert s'.pc.Keys == s.pc.Keys;
    assert |s'.pc.Keys| == |s.pc.Keys|;
    MoveSets(s, t, pc, w);
  }

  lemma MoveSets(s: State, t: Tid, pc: Pc, w: nat)
    requires t in s.pc
    ensures var s' := At(s, t, pc).(word := w);
      && NumWriting(s') == NumWriting(s) - One(s.pc[t].HoldWrite?) + One(pc.HoldWrite?)
      && NumReading(s') == NumReading(s) - One(s.pc[t].HoldRead?) + One(pc.HoldRead?)
      && NumBacking(s') == NumBacking(s) - One(s.pc[t].BackOut?) + One(pc.BackOut?)
  {
    var s' := At(s, t, pc).(word := w);
    SetMove(Writing(s), Writing(s'), t);
    SetMove(Reading(s), Reading(s'), t);
    SetMove(Backing(s), Backing(s'), t);
  }

  lemma SetMove(a: set<Tid>, b: set<Tid>, t: Tid)
    requires a - {t} == b - {t}
    ensures |b| == |a| - One(t in a) + One(t in b)
  {
    assert t in a ==> a == (a - {t}) + {t};
    assert t in b ==> b == (b - {t}) + {t};
    assert t !in a ==> a == a - {t};
    assert t !in b ==> b == b - {t};
  }

  /** Readers and threads backing out are distinct threads, so the count never reaches the top bits. */
  lemma NoWrap(s: State)
    requires |s.pc| < 0x4000_0000
    ensures 4 * (NumReading(s) + NumBacking(s)) + 3 < WORD_SIZE
  {
    var both := Reading(s) + Backing(s);
    assert Reading(s) !! Backing(s);
    assert |both| == |Reading(s)| + |Backing(s)|;
    assert both <= s.pc.Keys;
    SubsetSize(both, s.pc.Keys);
    assert |s.pc.Keys| == |s.pc|;
  }

  lemma SubsetSize(a: set<Tid>, b: set<Tid>)
    requires a <= b
    ensures |a| <= |b|
  {
    assert b == a + (b - a);
  }

  lemma Decode(w: nat, p: bool, n: nat)
    requires w <= 1
    ensures Writer(Word(w, p, n)) <==> w == 1
    ensures Pending(Word(w, p, n)) <==> p
    ensures Readers(Word(w, p, n)) == n
  {
    assert Word(w, p, n) == w + 2 * (2 * n + One(p));
    assert Word(w, p, n) / 2 == 2 * n + One(p);
  }

  lemma WordOps(w: nat, p: bool, n: nat)
    requires w <= 1
    ensures OrPending(Word(w, p, n)) == Word(w, true, n)
    ensures AndNotWriter(Word(w, p, n)) == Word(0, p, n)
    ensures 4 * n + 7 < WORD_SIZE ==> AddReader(Word(w, p, n)) == Word(w, p, n + 1)
    ensures 0 < n && 4 * n + 3 < WORD_SIZE ==> SubReader(Word(w, p, n)) == Word(w, p, n - 1)
  {
    hide Pending, Readers;
    Decode(w, p, n);
    LowBit(Word(w, p, n), w);
  }

  lemma LowBit(x: nat, w: nat)
    requires w <= 1 && (Writer(x) <==> w == 1)
    ensures x % 2 == w
  {
  }

  // ----- steps, by their effect on the counts

  lemma PendingKept(s: State, t: Tid, pc: Pc, w: nat)
    requires PendingOk(s) && t in s.pc
    requires Pending(w) ==> InLock(pc) || (Pending(s.word) && !InLock(s.pc[t]))
    ensures PendingOk(At(s, t, pc).(word := w))
  {
    hide Pending;
    var s' := At(s, t, pc).(word := w);
    if Pending(w) {
      if InLock(pc) {
        assert InLock(s'.pc[t]);
      } else {
        var u :| u in s.pc && InLock(s.pc[u]);
        assert InLock(s'.pc[u]);
      }
    }
  }

  lemma CasKept(s: State, t: Tid, pc: Pc, w: nat)
    requires CasOk(s) && t in s.pc && (pc.LockCas? ==> !Busy(pc.seen)) && (pc.TryCas? ==> !Busy(pc.seen))
    ensures CasOk(At(s, t, pc).(word := w))
  {
    hide Busy;
  }

  predicate Counted(pc: Pc) { pc.HoldWrite? || pc.HoldRead? || pc.BackOut? }

  /** Moves that leave the counts alone. */
  lemma Quiet(s: State, t: Tid, pc: Pc, w: nat)
    requires Inv(s) && t in s.pc && !Counted(s.pc[t]) && !Counted(pc)
    requires w == s.word || (w == OrPending(s.word) && InLock(pc))
    requires InLock(s.pc[t]) ==> InLock(pc)
    requires (pc.LockCas? ==> !Busy(pc.seen)) && (pc.TryCas? ==> !Busy(pc.seen))
    ensures Inv(At(s, t, pc).(word := w))
  {
    hide Pending, Word, OrPending, Busy, NumWriting, NumReading, NumBacking, PendingOk, CasOk;
    WordOps(NumWriting(s), Pending(s.word), NumReading(s) + NumBacking(s));
    Decode(NumWriting(s), true, NumReading(s) + NumBacking(s));
    MoveCounts(s, t, pc, w);
    PendingKept(s, t, pc, w);
    CasKept(s, t, pc, w);
  }

  /** A successful exchange: the word was idle, so nobody holds or counts. */
  lemma WriterEnters(s: State, t: Tid)
    requires Inv(s) && t in s.pc && !Busy(s.word) && !Counted(s.pc[t])
    ensures Inv(At(s, t, HoldWrite).(word := 1))
  {
    hide Pending, Writer, Readers, NumWriting, NumReading, NumBacking, PendingOk, CasOk;
    Decode(NumWriting(s), Pending(s.word), NumReading(s) + NumBacking(s));
    Decode(1, false, 0);
    MoveCounts(s, t, HoldWrite, 1);
    PendingKept(s, t, HoldWrite, 1);
    CasKept(s, t, HoldWrite, 1);
  }

  lemma WriterLeaves(s: State, t: Tid)
    requires Inv(s) && t in s.pc && s.pc[t].HoldWrite?
    ensures Inv(At(s, t, Idle).(word := AndNotWriter(s.word)))
  {
    hide Pending, Word, AndNotWriter, NumWriting, NumReading, NumBacking, PendingOk, CasOk;
    var w := AndNotWriter(s.word);
    MoveCounts(s, t, Idle, w);
    WordOps(NumWriting(s), Pending(s.word), NumReading(s) + NumBacking(s));
    Decode(0, Pending(s.word), NumReading(s) + NumBacking(s));
    PendingKept(s, t, Idle, w);
    CasKept(s, t, Idle, w);
  }

  lemma ReaderCountsIn(s: State, t: Tid, once: bool)
    requires Inv(s) && t in s.pc && !Counted(s.pc[t]) && !InLock(s.pc[t])
    ensures Inv(At(s, t, if Writer(s.word) then BackOut(once) else HoldRead).(word := AddReader(s.word)))
  {
    hide Pending, Word, AddReader, Writer, NumWriting, NumReading, NumBacking, PendingOk, CasOk;
    var pc, w := if Writer(s.word) then BackOut(once) else HoldRead, AddReader(s.word);
    var n := NumReading(s) + NumBacking(s);
    MoveCounts(s, t, pc, w);
    NoWrap(At(s, t, pc).(word := w));
    Decode(NumWriting(s), Pending(s.word), n);
    WordOps(NumWriting(s), Pending(s.word), n);
    Decode(NumWriting(s), Pending(s.word), n + 1);
    PendingKept(s, t, pc, w);
    CasKept(s, t, pc, w);
  }

  lemma ReaderCountsOut(s: State, t: Tid, pc: Pc)
    requires Inv(s) && t in s.pc && (s.pc[t].HoldRead? || s.pc[t].BackOut?) && (pc.Idle? || pc.SharedLoad?)
    ensures Inv(At(s, t, pc).(word := SubReader(s.word)))
  {
    hide Pending, Word, SubReader, NumWriting, NumReading, NumBacking, PendingOk, CasOk;
    var w := SubReader(s.word);
    var n := NumReading(s) + NumBacking(s);
    MoveCounts(s, t, pc, w);
    NoWrap(s);
    WordOps(NumWriting(s), Pending(s.word), n);
    Decode(NumWriting(s), Pending(s.word), n - 1);
    PendingKept(s, t, pc, w);
    CasKept(s, t, pc, w);
  }

  /** Every step of every thread keeps the invariant. */
  lemma StepKeepsInv(s: State, t: Tid, c: Choice)
    requires Inv(s) && t in s.pc
    ensures Inv(Step(s, t, c))
  {
    hide Inv, Pending, Writer, Readers, OrPending, AndNotWriter, AddReader, SubReader, Busy;
    match s.pc[t]
    case Idle =>
      if c.Begin? {
        Quiet(s, t, Step(s, t, c).pc[t], s.word);
      }
    case LockLoad =>
      Quiet(s, t, Step(s, t, c).pc[t], s.word);
      assert s.pc[t := LockLoad] == s.pc;
    case LockCas(seen) =>
      SeenIdle(s, t);
      if s.word == seen && c != Spurious { WriterEnters(s, t); } else { Quiet(s, t, LockLoad, s.word); }
    case LockAnnounce => Quiet(s, t, LockLoad, OrPending(s.word));
    case TryLoad => Quiet(s, t, if !Busy(s.word) then TryCas(s.word) else Idle, s.word);
    case TryCas(seen) =>
      SeenIdle(s, t);
      if s.word == seen { WriterEnters(s, t); } else { Quiet(s, t, Idle, s.word); }
    case HoldWrite => WriterLeaves(s, t);
    case SharedLoad(once) =>
      Quiet(s, t, Step(s, t, c).pc[t], s.word);
      assert s.pc[t := SharedLoad(once)] == s.pc;
    case SharedAdd(once) => ReaderCountsIn(s, t, once);
    case BackOut(once) => ReaderCountsOut(s, t, if once then Idle else SharedLoad(false));
    case HoldRead => ReaderCountsOut(s, t, Idle);
  }

  lemma SeenIdle(s: State, t: Tid)
    requires Inv(s) && t in s.pc
    ensures (s.pc[t].LockCas? ==> !Busy(s.pc[t].seen)) && (s.pc[t].TryCas? ==> !Busy(s.pc[t].seen))
  {
  }

  lemma InitInv(s: State)
    requires Init(s)
    ensures Inv(s)
  {
    assert Writing(s) == {} && Reading(s) == {} && Backing(s) == {};
  }

  lemma {:induction false} RunInv(b: seq<State>, k: nat)
    requires Run(b) && k < |b|
    ensures Inv(b[k])
  {
    if k == 0 {
      InitInv(b[0]);
    } else {
      RunInv(b, k - 1);
      assert Follows(b[k - 1], b[k]);
      var t, c :| t in b[k - 1].pc && b[k] == Step(b[k - 1], t, c);
      StepKeepsInv(b[k - 1], t, c);
    }
  }

  // ----- the guarantees

  /** In every state of every run: the word is exactly the writer bit, the pending bit and the count of
   *  holding and backing-out readers; at most one thread writes, and none reads meanwhile; the word
   *  stays below 2^32, so no count ever wraps. */
  lemma Exclusion(b: seq<State>, k: nat, t: Tid, u: Tid)
    requires Run(b) && k < |b| && t in b[k].pc && u in b[k].pc && t != u
    ensures b[k].word == Word(|Writing(b[k])|, Pending(b[k].word), |Reading(b[k])| + |Backing(b[k])|) < WORD_SIZE
    ensures b[k].pc[t].HoldWrite? ==> !b[k].pc[u].HoldWrite? && !b[k].pc[u].HoldRead?
  {
    hide Pending;
    RunInv(b, k);
    NoWrap(b[k]);
    if b[k].pc[t].HoldWrite? {
      Alone(b[k], t, u);
    }
  }

  lemma Alone(s: State, t: Tid, u: Tid)
    requires WordOk(s) && t in s.pc && s.pc[t].HoldWrite? && u in s.pc && u != t
    ensures !s.pc[u].HoldWrite? && !s.pc[u].HoldRead?
  {
    hide Pending, Word;
    assert t in Writing(s);
    assert |Writing(s) - {t}| == |Writing(s)| - 1;
    assert u !in Writing(s) - {t} && u !in Reading(s);
  }

  /** The pending bit is set only while some thread is inside lock(). */
  lemma PendingHasOwner(b: seq<State>, k: nat)
    requires Run(b) && k < |b| && Pending(b[k].word)
    ensures exists t | t in b[k].pc :: InLock(b[k].pc[t])
  {
    RunInv(b, k);
  }

  lemma NoNewReader(s: State, t: Tid, c: Choice)
    requires t in s.pc && Pending(s.word)
    ensures Joined(Step(s, t, c)) <= Joined(s)
  {
    hide Pending, Busy, Writer, OrPending, AndNotWriter, AddReader, SubReader;
  }

  /** While the pending bit stays set, no reader joins: a stream of readers cannot starve a writer. */
  lemma {:induction false} PendingDrains(b: seq<State>, i: nat, j: nat)
    requires Run(b) && i <= j < |b| && forall k | i <= k < j :: Pending(b[k].word)
    ensures Joined(b[j]) <= Joined(b[i])
    decreases j - i
  {
    hide Pending, Joined, Step;
    if i < j {
      PendingDrains(b, i, j - 1);
      assert Follows(b[j - 1], b[j]);
      var t, c :| t in b[j - 1].pc && b[j] == Step(b[j - 1], t, c);
      NoNewReader(b[j - 1], t, c);
    }
  }

  /** Once those readers and the writer are gone, a waiting writer's next load finds the word idle. */
  lemma DrainedIsIdle(b: seq<State>, k: nat)
    requires Run(b) && k < |b| && Joined(b[k]) == {} && Writing(b[k]) == {}
    ensures !Busy(b[k].word)
  {
    RunInv(b, k);
    assert Reading(b[k]) <= Joined(b[k]) && Backing(b[k]) <= Joined(b[k]);
    Decode(0, Pending(b[k].word), 0);
  }
}
