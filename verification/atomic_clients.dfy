/** Two clients of the atomic increment: the sequence number of base/atomic_sequence_num.h and the
    barrier of base/barrier_closure.cc. */
module AtomicClients {
  import opened AtomicOps

  /** Every call in the run is a call of this one operation. */
  predicate Uses(run: seq<Step>, op: Operation) {
    forall i :: 0 <= i < |run| && run[i].action.Begin? ==> run[i].action.op == op
  }

  predicate AllAre(s: State, op: Operation) {
    && (forall i :: 0 <= i < |s.threads| && s.threads[i].Busy? ==> s.threads[i].op == op)
    && (forall i :: 0 <= i < |s.history| ==> s.history[i].op == op)
  }

  lemma {:induction false} RunUses(s: State, run: seq<Step>, op: Operation)
    requires Legal(s, run) && Uses(run, op) && AllAre(s, op)
    ensures AllAre(Run(s, run), op)
    decreases |run|
  {
    if run != [] {
      RunUses(Apply(s, run[0].tid, run[0].action), run[1..], op);
    }
  }

  // ---------------------------------------------------------------- sequence numbers

  function Signed(w: Word): int {
    if w < 0x8000_0000 then w else w - MODULUS
  }

  /** GetNext() subtracts one from what the increment returned. */
  function GetNextValue(c: Commit): int {
    Signed(c.result) - 1
  }

  predicate CountsByOne(history: seq<Commit>) {
    forall i :: 0 <= i < |history| ==> history[i].op == AtomicIncrement(1)
  }

  lemma {:induction false} UnitDeltas(history: seq<Commit>)
    requires CountsByOne(history)
    ensures TotalDelta(history) == |history|
  {
    if history != [] {
      UnitDeltas(history[..|history| - 1]);
    }
  }

  lemma ResultAt(history: seq<Commit>, i: nat)
    requires Linear(0, history) && CountsByOne(history) && i < |history| && i + 1 < MODULUS
    ensures history[i].result == i + 1
  {
    var before := history[..i];
    assert history[i].op == AtomicIncrement(1) && CountsByOne(before);
    LinearAt(0, history, i);
    hide Linear, CountsByOne, Replay, TotalDelta;
    ReplayUnits(before);
  }

  lemma LinearAt(word: Word, history: seq<Commit>, i: nat)
    requires Linear(word, history) && i < |history|
    ensures history[i].result == SpecResult(Replay(word, history[..i]), history[i].op)
  {
  }

  lemma ReplayUnits(history: seq<Commit>)
    requires CountsByOne(history) && |history| < MODULUS
    ensures Replay(0, history) == |history|
  {
    IncrementsAddUp(0, history);
    UnitDeltas(history);
    hide Replay, TotalDelta;
  }

  /** However many threads call GetNext, and however their loops interleave, the calls hand out
      0, 1, 2, ... in the order in which they take effect, so no number is given twice. */
  lemma SequenceNumbersAreConsecutive(flavour: Flavour, n: nat, run: seq<Step>)
    requires Legal(Start(flavour, 0, n), run) && Uses(run, AtomicIncrement(1))
    ensures var h := Run(Start(flavour, 0, n), run).history;
            forall i :: 0 <= i < |h| && i < 0x7FFF_FFFF ==> GetNextValue(h[i]) == i
  {
    RunUses(Start(flavour, 0, n), run, AtomicIncrement(1));
    RunsAreLinear(Start(flavour, 0, n), run, 0);
    AllNumbered(Run(Start(flavour, 0, n), run).history);
  }

  lemma AllNumbered(h: seq<Commit>)
    requires Linear(0, h) && CountsByOne(h)
    ensures forall i :: 0 <= i < |h| && i < 0x7FFF_FFFF ==> GetNextValue(h[i]) == i
  {
    forall i | 0 <= i < |h| && i < 0x7FFF_FFFF
      ensures GetNextValue(h[i]) == i
    {
      ResultAt(h, i);
    }
  }

  // ---------------------------------------------------------------- the barrier

  /** How far one Run() of the barrier closure has got. */
  datatype Phase = Ready | Checked | Decrementing | MustRun | MustReset | Finished

  /** The count and the threads running its decrement loops; each thread runs the closure once.
      `executed` counts the executions of done_closure_, `reset` says it has been reset, `fired`
      that the check for a zero count failed; `last` is the thread whose decrement returned zero, or
      -1 before there is one. */
  datatype Barrier = Barrier(atomic: State, phases: seq<Phase>, executed: nat, reset: bool, fired: bool, last: int)

  datatype Move =
    | Check(tid: nat)
    | Decrement(tid: nat)
    | Loop(tid: nat, action: Action)
    | RunDone(tid: nat)
    | Reset(tid: nat)

  const DECREMENT := AtomicIncrement(-1)

  predicate CanMove(b: Barrier, m: Move) {
    m.tid < |b.phases| && m.tid < |b.atomic.threads| &&
    match m
    case Check(t) => b.phases[t].Ready?
    case Decrement(t) => b.phases[t].Checked? && b.atomic.threads[t].Idle?
    case Loop(t, a) => b.phases[t].Decrementing? && !a.Begin? && Enabled(b.atomic, t, a)
    case RunDone(t) => b.phases[t].MustRun?
    case Reset(t) => b.phases[t].MustReset?
  }

  function Moved(b: Barrier, m: Move): Barrier
    requires CanMove(b, m)
  {
    match m
    case Check(t) => b.(phases := b.phases[t := Checked], fired := b.fired || b.atomic.word == 0)
    case Decrement(t) => b.(phases := b.phases[t := Decrementing], atomic := Apply(b.atomic, t, Begin(DECREMENT)))
    case Loop(t, a) =>
      var after := Apply(b.atomic, t, a);
      var phase :=
        if after.threads[t].Busy? then Decrementing
        else if after.history[|after.history| - 1].result != 0 then Finished
        else MustRun;
      b.(phases := b.phases[t := phase], atomic := after, last := if phase.MustRun? then t else b.last)
    case RunDone(t) => b.(phases := b.phases[t := MustReset], executed := b.executed + if b.reset then 0 else 1)
    case Reset(t) => b.(phases := b.phases[t := Finished], reset := true)
  }

  predicate CanRun(b: Barrier, moves: seq<Move>)
    decreases |moves|
  {
    moves == [] || (CanMove(b, moves[0]) && CanRun(Moved(b, moves[0]), moves[1..]))
  }

  function RunBarrier(b: Barrier, moves: seq<Move>): Barrier
    requires CanRun(b, moves)
    decreases |moves|
  {
    if moves == [] then b else RunBarrier(Moved(b, moves[0]), moves[1..])
  }

  /** A barrier for n closures of which `runs` are run; for none, done_closure is run at once. */
  function NewBarrier(flavour: Flavour, n: Word, runs: nat): Barrier {
    Barrier(Start(flavour, n, runs), seq(runs, i => Ready), if n == 0 then 1 else 0, false, false, -1)
  }

  predicate Decremented(p: Phase) {
    p.MustRun? || p.MustReset? || p.Finished?
  }

  function CountDecremented(phases: seq<Phase>): nat {
    if phases == [] then 0 else (if Decremented(phases[0]) then 1 else 0) + CountDecremented(phases[1..])
  }

  lemma {:induction false} CountUpdate(phases: seq<Phase>, i: nat, p: Phase)
    requires i < |phases|
    ensures CountDecremented(phases[i := p])
            == CountDecremented(phases) - (if Decremented(phases[i]) then 1 else 0) + (if Decremented(p) then 1 else 0)
  {
    if i > 0 {
      assert phases[i := p][1..] == phases[1..][i - 1 := p];
      CountUpdate(phases[1..], i - 1, p);
    }
  }

  lemma {:induction false} CountBound(phases: seq<Phase>)
    ensures CountDecremented(phases) <= |phases|
    ensures forall i :: 0 <= i < |phases| && !Decremented(phases[i]) ==> CountDecremented(phases) < |phases|
    ensures (forall i :: 0 <= i < |phases| ==> Decremented(phases[i])) ==> CountDecremented(phases) == |phases|
  {
    if phases != [] {
      CountBound(phases[1..]);
    }
  }

  predicate Running(p: Phase) {
    p.MustRun? || p.MustReset?
  }

  ghost predicate ThreadsInv(b: Barrier) {
    && |b.atomic.threads| == |b.phases|
    && (forall t :: 0 <= t < |b.phases| ==> (b.phases[t].Decrementing? <==> b.atomic.threads[t].Busy?))
    && (forall t :: 0 <= t < |b.phases| && b.atomic.threads[t].Busy? ==> b.atomic.threads[t].op == DECREMENT)
  }

  /** The count is n minus the decrements that have taken effect.  The thread that brought it to zero
      runs and resets the closure; nobody else does. */
  ghost predicate BarrierInv(b: Barrier, n: Word) {
    && ThreadsInv(b)
    && |b.phases| <= n
    && !b.fired
    && b.atomic.word == n - CountDecremented(b.phases)
    && (forall t :: 0 <= t < |b.phases| && Running(b.phases[t]) ==> t == b.last)
    && (if b.last == -1 then b.executed == 0 && !b.reset && CountDecremented(b.phases) < n
        else
          && 0 <= b.last < |b.phases| && CountDecremented(b.phases) == n
          && Decremented(b.phases[b.last])
          && b.executed == (if b.phases[b.last].MustRun? then 0 else 1)
          && (b.reset <==> b.phases[b.last].Finished?))
  }

  lemma LoopThreads(b: Barrier, m: Move)
    requires ThreadsInv(b) && m.Loop? && CanMove(b, m)
    ensures ThreadsInv(Moved(b, m))
    ensures var c := Moved(b, m);
            if c.atomic.threads[m.tid].Busy?
            then c.phases == b.phases && c.atomic.word == b.atomic.word && c.last == b.last
            else
              var word := Wrap(b.atomic.word - 1);
              && c.atomic.word == word
              && c.phases == b.phases[m.tid := if word != 0 then Finished else MustRun]
              && c.last == if word != 0 then b.last else m.tid
  {
    StepRefines(b.atomic, m.tid, m.action);
  }

  lemma LoopKeeps(b: Barrier, n: Word, m: Move)
    requires BarrierInv(b, n) && 1 <= n && m.Loop? && CanMove(b, m)
    ensures BarrierInv(Moved(b, m), n)
  {
    LoopThreads(b, m);
    CountBound(b.phases);
    CountUpdate(b.phases, m.tid, Finished);
    CountUpdate(b.phases, m.tid, MustRun);
  }

  lemma MoveKeeps(b: Barrier, n: Word, m: Move)
    requires BarrierInv(b, n) && 1 <= n && CanMove(b, m)
    ensures BarrierInv(Moved(b, m), n)
  {
    var t := m.tid;
    var c := Moved(b, m);
    if m.Loop? {
      LoopKeeps(b, n, m);
    } else {
      CountUpdate(b.phases, t, c.phases[t]);
      CountBound(b.phases);
      assert forall u :: 0 <= u < |b.phases| && u != t ==>
          c.phases[u] == b.phases[u] && c.atomic.threads[u] == b.atomic.threads[u];
    }
  }

  lemma {:induction false} RunKeeps(b: Barrier, n: Word, moves: seq<Move>)
    requires BarrierInv(b, n) && 1 <= n && CanRun(b, moves)
    ensures BarrierInv(RunBarrier(b, moves), n)
    decreases |moves|
  {
    if moves != [] {
      MoveKeeps(b, n, moves[0]);
      RunKeeps(Moved(b, moves[0]), n, moves[1..]);
    }
  }

  lemma {:induction false} NothingDecremented(phases: seq<Phase>)
    requires forall i :: 0 <= i < |phases| ==> phases[i].Ready?
    ensures CountDecremented(phases) == 0
  {
    if phases != [] {
      NothingDecremented(phases[1..]);
    }
  }

  /** At most n runs of a barrier for n closures, however they and their decrement loops interleave:
      the check for zero never fires, done_closure is executed at most once and only after n
      decrements, nobody is about to execute or reset it once it has been reset, and once n runs have
      finished it has been executed and reset. */
  lemma BarrierRunsOnce(flavour: Flavour, n: Word, runs: nat, moves: seq<Move>)
    requires runs <= n && CanRun(NewBarrier(flavour, n, runs), moves)
    ensures var b := RunBarrier(NewBarrier(flavour, n, runs), moves);
            && !b.fired
            && b.executed <= 1
            && (b.reset ==> forall t :: 0 <= t < |b.phases| ==> !Running(b.phases[t]))
            && (b.executed == 1 ==> CountDecremented(b.phases) == n && b.atomic.word == 0)
            && (runs == n && (forall t :: 0 <= t < |b.phases| ==> b.phases[t].Finished?) ==>
                  b.executed == 1 && (n > 0 ==> b.reset))
  {
    var start := NewBarrier(flavour, n, runs);
    NothingDecremented(start.phases);
    if n == 0 {
      assert moves == [];
      return;
    }
    assert BarrierInv(start, n);
    RunKeeps(start, n, moves);
    RunLength(start, moves);
    CountBound(RunBarrier(start, moves).phases);
  }

  /** Nobody's check for a zero count would fail, now or at any moment of any run. */
  lemma ChecksPass(flavour: Flavour, n: Word, runs: nat, moves: seq<Move>, t: nat)
    requires runs <= n && CanRun(NewBarrier(flavour, n, runs), moves)
    requires CanMove(RunBarrier(NewBarrier(flavour, n, runs), moves), Check(t))
    ensures RunBarrier(NewBarrier(flavour, n, runs), moves).atomic.word != 0
  {
    var start := NewBarrier(flavour, n, runs);
    NothingDecremented(start.phases);
    RunLength(start, moves);
    RunKeeps(start, n, moves);
    CountBound(RunBarrier(start, moves).phases);
  }

  /** What a thread that has not finished does next. */
  function NextMove(b: Barrier, t: nat): Move
    requires t < |b.phases|
  {
    match b.phases[t]
    case Ready => Check(t)
    case Checked => Decrement(t)
    case Decrementing => Loop(t, Act)
    case MustRun => RunDone(t)
    case _ => Reset(t)
  }

  /** A bound on the moves that a thread which runs alone still makes. */
  function MovesLeft(b: Barrier, t: nat): nat
    requires t < |b.phases| == |b.atomic.threads|
  {
    match b.phases[t]
    case Ready => 6
    case Checked => 5
    case Decrementing => if b.atomic.threads[t].Busy? then 2 + StepsLeft(b.atomic, t) else 2
    case MustRun => 2
    case MustReset => 1
    case Finished => 0
  }

  lemma NextMoveAdvances(b: Barrier, n: Word, t: nat)
    requires BarrierInv(b, n) && 1 <= n && t < |b.phases| && !b.phases[t].Finished?
    ensures CanMove(b, NextMove(b, t))
    ensures var c := Moved(b, NextMove(b, t));
            BarrierInv(c, n) && |c.phases| == |b.phases| && MovesLeft(c, t) < MovesLeft(b, t)
  {
    MoveKeeps(b, n, NextMove(b, t));
    if b.phases[t].Decrementing? {
      if StepsLeft(b.atomic, t) > 1 {
        SoloStep(b.atomic, t);
      } else {
        SoloLast(b.atomic, t);
      }
    }
  }

  /** Wherever the others have stopped, a thread that runs alone finishes its run of the barrier in at
      most six moves. */
  lemma {:induction false} AloneFinishes(b: Barrier, n: Word, t: nat) returns (moves: seq<Move>)
    requires BarrierInv(b, n) && 1 <= n && t < |b.phases|
    ensures |moves| <= MovesLeft(b, t) <= 6 && forall i :: 0 <= i < |moves| ==> moves[i].tid == t
    ensures CanRun(b, moves) && |RunBarrier(b, moves).phases| == |b.phases|
    ensures RunBarrier(b, moves).phases[t].Finished?
    decreases MovesLeft(b, t)
  {
    if b.phases[t].Finished? {
      moves := [];
    } else {
      var m := NextMove(b, t);
      NextMoveAdvances(b, n, t);
      var rest := AloneFinishes(Moved(b, m), n, t);
      moves := [m] + rest;
      assert moves[1..] == rest;
      RunLength(b, moves);
    }
  }

  lemma {:induction false} RunLength(b: Barrier, moves: seq<Move>)
    requires CanRun(b, moves)
    ensures |RunBarrier(b, moves).phases| == |b.phases|
    decreases |moves|
  {
    if moves != [] {
      RunLength(Moved(b, moves[0]), moves[1..]);
    }
  }
}
