/** The reusable barrier, as steps of any number of threads under its mutex. */
module Barrier {

  type Tid = nat

  const WORD_SIZE: nat := 0x1_0000_0000

  /** Waiting keeps the generation the code remembers; `round` says which arrival round that was. */
  datatype Pc = Idle | Waiting(generation: nat, round: nat) | Returned(last: bool, round: nat)

  /** count and generation are the code's words.  arrived and closers record the run: who arrived in each
   *  round, the current one last, and whose wait() returned true for each completed round. */
  datatype State = State(threshold: nat, count: nat, generation: nat, pc: map<Tid, Pc>, arrived: seq<seq<Tid>>,
      closers: seq<Tid>)

  /** How many arrivals complete a round: counting down from 0 goes once around the word. */
  function Full(s: State): nat { if s.threshold == 0 then WORD_SIZE else s.threshold }

  /** How many of them are still to come. */
  function Awaited(s: State): nat { if s.count == 0 then WORD_SIZE else s.count }

  function At(s: State, t: Tid, pc: Pc): State { s.(pc := s.pc[t := pc]) }

  /** The round that is being filled. */
  function Round(s: State): nat { |s.closers| }

  function Joins(s: State, t: Tid): seq<seq<Tid>>
    requires s.arrived != []
  {
    s.arrived[|s.arrived| - 1 := s.arrived[|s.arrived| - 1] + [t]]
  }

  /** The part of wait() before the condition variable. */
  function Arrive(s: State, t: Tid): State
    requires s.arrived != []
  {
    var count := (s.count - 1) % WORD_SIZE;
    if count == 0 then
      At(s, t, Returned(true, Round(s))).(count := s.threshold, generation := (s.generation + 1) % WORD_SIZE,
        arrived := Joins(s, t) + [[]], closers := s.closers + [t])
    else
      At(s, t, Waiting(s.generation, Round(s))).(count := count, arrived := Joins(s, t))
  }

  /** A thread calls wait(), looks at the generation again after a wake-up, or goes on after wait(). */
  function Step(s: State, t: Tid): State
    requires t in s.pc && s.arrived != []
  {
    match s.pc[t]
    case Idle => Arrive(s, t)
    case Waiting(g, r) => if g != s.generation then At(s, t, Returned(false, r)) else s
    case Returned(_, _) => At(s, t, Idle)
  }

  ghost predicate Init(s: State) {
    && s.threshold < WORD_SIZE && s.count == s.threshold && s.generation == 0
    && (forall t | t in s.pc :: s.pc[t] == Idle) && s.arrived == [[]] && s.closers == []
  }

  ghost predicate Follows(s: State, s': State) {
    s.arrived != [] && exists t | t in s.pc :: s' == Step(s, t)
  }

  ghost predicate Run(b: seq<State>) {
    |b| > 0 && Init(b[0]) && forall k | 0 <= k < |b| - 1 :: Follows(b[k], b[k + 1])
  }

  /** Completed rounds took exactly the arrivals they need, and the last arrival closed them. */
  ghost predicate Tallied(s: State) {
    && s.threshold < WORD_SIZE && s.count < WORD_SIZE && Awaited(s) <= Full(s) && s.generation == Round(s) % WORD_SIZE
    && |s.arrived| == Round(s) + 1 && |s.arrived[Round(s)]| == Full(s) - Awaited(s)
    && forall r | 0 <= r < Round(s) :: |s.arrived[r]| == Full(s) && s.arrived[r][Full(s) - 1] == s.closers[r]
  }

  ghost predicate Placed(s: State, t: Tid, pc: Pc) {
    match pc
    case Idle => true
    case Waiting(g, r) => r <= Round(s) < |s.arrived| && g == r % WORD_SIZE && t in s.arrived[r]
    case Returned(last, r) => r < Round(s) < |s.arrived| && t in s.arrived[r] && (last ==> s.closers[r] == t)
  }

  ghost predicate Inv(s: State) {
    Tallied(s) && forall t | t in s.pc :: Placed(s, t, s.pc[t])
  }

  /** The record of the run only ever grows. */
  ghost predicate Grows(s: State, s': State) {
    && s'.threshold == s.threshold && s.closers <= s'.closers && |s.arrived| <= |s'.arrived|
    && forall r | 0 <= r < |s.arrived| :: s.arrived[r] <= s'.arrived[r]
  }

  lemma StepTallied(s: State, t: Tid)
    requires Tallied(s) && t in s.pc
    ensures Tallied(Step(s, t)) && Grows(s, Step(s, t))
  {
    if s.pc[t].Idle? {
      assert (s.count - 1) % WORD_SIZE == Awaited(s) - 1;
      if s.count == 1 { NextRound(Round(s)); }
    }
  }

  lemma NextRound(r: nat)
    ensures (r % WORD_SIZE + 1) % WORD_SIZE == (r + 1) % WORD_SIZE
  {
  }

  lemma StepPlaced(s: State, t: Tid, u: Tid)
    requires Tallied(s) && t in s.pc && u in s.pc && Placed(s, u, s.pc[u]) && Placed(s, t, s.pc[t])
    ensures Placed(Step(s, t), u, Step(s, t).pc[u])
  {
    if s.pc[t].Idle? {
      assert (s.count - 1) % WORD_SIZE == Awaited(s) - 1;
      assert t in Joins(s, t)[Round(s)];
    }
  }

  lemma StepKeepsInv(s: State, t: Tid)
    requires Inv(s) && t in s.pc
    ensures Inv(Step(s, t)) && Grows(s, Step(s, t))
  {
    hide Tallied, Placed, Grows;
    assert s.arrived != [] by { TalliedShape(s); }
    StepTallied(s, t);
    forall u | u in s.pc ensures Placed(Step(s, t), u, Step(s, t).pc[u]) { StepPlaced(s, t, u); }
  }

  lemma TalliedShape(s: State)
    requires Tallied(s)
    ensures s.arrived != []
  {
  }

  lemma {:induction false} RunKeepsInv(b: seq<State>, k: nat)
    requires Run(b) && k < |b|
    ensures Inv(b[k])
  {
    hide Step, Tallied, Placed, Grows;
    if k == 0 {
      InitInv(b[0]);
    } else {
      RunKeepsInv(b, k - 1);
      assert Follows(b[k - 1], b[k]);
      var t :| t in b[k - 1].pc && b[k] == Step(b[k - 1], t);
      StepKeepsInv(b[k - 1], t);
    }
  }

  lemma InitInv(s: State)
    requires Init(s)
    ensures Inv(s)
  {
  }

  lemma {:induction false} RoundsGrow(b: seq<State>, j: nat, k: nat)
    requires Run(b) && j <= k < |b|
    ensures Round(b[j]) <= Round(b[k])
    decreases k
  {
    hide Step, Tallied, Placed;
    if j < k {
      RoundsGrow(b, j, k - 1);
      RunKeepsInv(b, k - 1);
      assert Follows(b[k - 1], b[k]);
      var t :| t in b[k - 1].pc && b[k] == Step(b[k - 1], t);
      StepKeepsInv(b[k - 1], t);
    }
  }

  /** wait() returns false only to a thread of a round that has had all its arrivals. */
  lemma FalseAfterFullRound(b: seq<State>, k: nat, t: Tid)
    requires Run(b) && k < |b| && t in b[k].pc && b[k].pc[t].Returned? && !b[k].pc[t].last
    ensures b[k].pc[t].round < |b[k].arrived| && t in b[k].arrived[b[k].pc[t].round]
    ensures |b[k].arrived[b[k].pc[t].round]| == Full(b[k])
  {
    hide Run;
    RunKeepsInv(b, k);
    assert Placed(b[k], t, b[k].pc[t]);
  }

  /** In step k thread t's wait() returns true for round r. */
  ghost predicate Closes(b: seq<State>, k: nat, t: Tid, r: nat) {
    && k + 1 < |b| && t in b[k].pc && t in b[k + 1].pc
    && b[k].pc[t] == Idle && b[k + 1].pc[t] == Returned(true, r)
  }

  lemma ClosesRound(b: seq<State>, k: nat, t: Tid, r: nat)
    requires Run(b) && Closes(b, k, t, r)
    ensures Round(b[k]) == r && Round(b[k + 1]) == r + 1 && b[k + 1].closers[r] == t
  {
    RunKeepsInv(b, k);
    assert Follows(b[k], b[k + 1]);
  }

  /** No round gives true twice ... */
  lemma AtMostOneTrue(b: seq<State>, j: nat, t: Tid, k: nat, u: Tid, r: nat)
    requires Run(b) && Closes(b, j, t, r) && Closes(b, k, u, r)
    ensures j == k && t == u
  {
    hide Run, Closes;
    ClosesRound(b, j, t, r);
    ClosesRound(b, k, u, r);
    assert j + 1 < |b| && k + 1 < |b| by { InRun(b, j, t, r); InRun(b, k, u, r); }
    if j < k { RoundsGrow(b, j + 1, k); }
    if k < j { RoundsGrow(b, k + 1, j); }
  }

  lemma InRun(b: seq<State>, k: nat, t: Tid, r: nat)
    requires Closes(b, k, t, r)
    ensures k + 1 < |b|
  {
  }

  /** ... and every completed round gives it once. */
  lemma {:induction false} SomeTrue(b: seq<State>, k: nat, r: nat) returns (j: nat, t: Tid)
    requires Run(b) && k < |b| && r < Round(b[k])
    ensures j < k && Closes(b, j, t, r)
    decreases k
  {
    hide Step, Inv;
    assert Follows(b[k - 1], b[k]);
    if r < Round(b[k - 1]) {
      j, t := SomeTrue(b, k - 1, r);
    } else {
      t :| t in b[k - 1].pc && b[k] == Step(b[k - 1], t);
      j := k - 1;
      RoundEnds(b[k - 1], t);
    }
  }

  lemma RoundEnds(s: State, t: Tid)
    requires t in s.pc && s.arrived != []
    ensures t in Step(s, t).pc
    ensures Round(Step(s, t)) == Round(s)
      || (s.pc[t] == Idle && Step(s, t).pc[t] == Returned(true, Round(s)) && Round(Step(s, t)) == Round(s) + 1)
  {
  }

  /** A waiter that looks again leaves unless the rounds completed since it came are a multiple of 2^32. */
  lemma WakesUnlessWrapped(b: seq<State>, k: nat, t: Tid)
    requires Run(b) && k < |b| && t in b[k].pc && b[k].pc[t].Waiting?
    ensures b[k].pc[t].round <= Round(b[k]) && b[k].arrived != []
    ensures Step(b[k], t).pc[t].Returned? <==> (Round(b[k]) - b[k].pc[t].round) % WORD_SIZE != 0
  {
    hide Run;
    RunKeepsInv(b, k);
    assert Placed(b[k], t, b[k].pc[t]);
    SameRemainder(b[k].pc[t].round, Round(b[k]));
  }

  lemma SameRemainder(r: nat, n: nat)
    requires r <= n
    ensures r % WORD_SIZE == n % WORD_SIZE <==> (n - r) % WORD_SIZE == 0
  {
  }
}
