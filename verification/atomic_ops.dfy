/** The retry loops of base/atomicops_internals_gcc.h and base/atomicops_internals_arm_gcc.h, run by
    any number of threads on one word.  Each shared access is one step; memory is sequentially
    consistent.  Every interleaving refines the one-step operations of base/atomicops.h. */
module AtomicOps {

  const MODULUS := 0x1_0000_0000

  /** A 32-bit word, as its bit pattern read without a sign. */
  type Word = x: int | 0 <= x < MODULUS

  function Wrap(x: int): Word {
    x % MODULUS
  }

  datatype Operation =
    | CompareAndSwap(old_: Word, new_: Word)
    | AtomicExchange(value: Word)
    | AtomicIncrement(delta: int)
    | Store(word: Word)

  // ---------------------------------------------------------------- the specification

  /** What the operation leaves in the word when it is executed as one step. */
  function SpecWord(word: Word, op: Operation): Word {
    match op
    case CompareAndSwap(o, n) => if word == o then n else word
    case AtomicExchange(v) => v
    case AtomicIncrement(d) => Wrap(word + d)
    case Store(v) => v
  }

  /** What it returns: the word before, except that an increment returns the word after. */
  function SpecResult(word: Word, op: Operation): Word {
    if op.AtomicIncrement? then Wrap(word + op.delta) else word
  }

  predicate Writes(word: Word, op: Operation) {
    op.CompareAndSwap? ==> word == op.old_
  }

  // ---------------------------------------------------------------- the loops

  /** `Gcc` swaps first and reads when that fails; `Arm` reads first and its swap may fail for no
      reason. */
  datatype Flavour = Gcc | Arm

  datatype Pc = AtRead | AtSwap

  /** A call in progress: what it does next, what it last read, how often it has gone round the loop
      again, and how many operations had taken effect when it began. */
  datatype Thread = Idle | Busy(op: Operation, pc: Pc, seen: Word, retries: nat, start: nat)

  /** An operation that has taken effect, and what its caller was given. */
  datatype Commit = Commit(thread: nat, op: Operation, result: Word, wrote: bool)

  datatype State = State(flavour: Flavour, word: Word, threads: seq<Thread>, history: seq<Commit>)

  datatype Action = Begin(op: Operation) | Act | FailSpuriously

  predicate SwapFirst(f: Flavour, op: Operation) {
    f.Gcc? && op.CompareAndSwap?
  }

  /** The value a swap expects to find, and the value it would store. */
  function Expected(t: Thread): Word
    requires t.Busy?
  {
    if t.op.CompareAndSwap? then t.op.old_ else t.seen
  }

  function Replacement(t: Thread): Word
    requires t.Busy?
  {
    match t.op
    case CompareAndSwap(_, n) => n
    case AtomicExchange(v) => v
    case AtomicIncrement(d) => Wrap(t.seen + d)
    case Store(v) => v
  }

  function ReturnAfterSwap(t: Thread): Word
    requires t.Busy?
  {
    if t.op.AtomicIncrement? then Replacement(t) else Expected(t)
  }

  predicate Enabled(s: State, tid: nat, action: Action) {
    tid < |s.threads| &&
    match action
    case Begin(_) => s.threads[tid].Idle?
    case Act => s.threads[tid].Busy?
    case FailSpuriously =>
      s.flavour.Arm? && s.threads[tid].Busy? && s.threads[tid].pc.AtSwap? && !s.threads[tid].op.Store?
  }

  function SetThread(s: State, tid: nat, t: Thread): State
    requires tid < |s.threads|
  {
    s.(threads := s.threads[tid := t])
  }

  /** The call returns `result` and the word becomes `word`. */
  function Finish(s: State, tid: nat, result: Word, word: Word, wrote: bool): State
    requires tid < |s.threads| && s.threads[tid].Busy?
  {
    SetThread(s, tid, Idle).(word := word, history := s.history + [Commit(tid, s.threads[tid].op, result, wrote)])
  }

  function Apply(s: State, tid: nat, action: Action): State
    requires Enabled(s, tid, action)
  {
    var t := s.threads[tid];
    match action
    case Begin(op) =>
      SetThread(s, tid, Busy(op, if SwapFirst(s.flavour, op) || op.Store? then AtSwap else AtRead, 0, 0, |s.history|))
    case FailSpuriously =>
      SetThread(s, tid, t.(pc := AtRead, retries := t.retries + 1))
    case Act =>
      if t.op.Store? then
        Finish(s, tid, s.word, t.op.word, true)
      else if t.pc.AtSwap? then
        if s.word == Expected(t) then Finish(s, tid, ReturnAfterSwap(t), Replacement(t), true)
        else SetThread(s, tid, t.(pc := AtRead, retries := t.retries + if SwapFirst(s.flavour, t.op) then 0 else 1))
      else
        if t.op.CompareAndSwap? && s.word != t.op.old_ then Finish(s, tid, s.word, s.word, false)
        else
          var again := if SwapFirst(s.flavour, t.op) then 1 else 0;
          SetThread(s, tid, t.(pc := AtSwap, seen := s.word, retries := t.retries + again))
  }

  datatype Step = Step(tid: nat, action: Action)

  predicate Legal(s: State, run: seq<Step>)
    decreases |run|
  {
    run == [] || (Enabled(s, run[0].tid, run[0].action) && Legal(Apply(s, run[0].tid, run[0].action), run[1..]))
  }

  function Run(s: State, run: seq<Step>): State
    requires Legal(s, run)
    decreases |run|
  {
    if run == [] then s else Run(Apply(s, run[0].tid, run[0].action), run[1..])
  }

  function Start(flavour: Flavour, word: Word, n: nat): State {
    State(flavour, word, seq(n, i => Idle), [])
  }

  // ---------------------------------------------------------------- refinement of the specification

  /** The word after executing the recorded operations one after the other. */
  function Replay(word: Word, history: seq<Commit>): Word {
    if history == [] then word else SpecWord(Replay(word, history[..|history| - 1]), history[|history| - 1].op)
  }

  /** Every recorded result is what the specification returns at that place. */
  ghost predicate Linear(word: Word, history: seq<Commit>) {
    forall i :: 0 <= i < |history| ==>
      && history[i].result == SpecResult(Replay(word, history[..i]), history[i].op)
      && history[i].wrote == Writes(Replay(word, history[..i]), history[i].op)
  }

  /** One step either changes neither the word nor the history, or is the one-step operation. */
  lemma StepRefines(s: State, tid: nat, action: Action)
    requires Enabled(s, tid, action)
    ensures var t := Apply(s, tid, action);
            if t.history == s.history then t.word == s.word
            else
              var op := s.threads[tid].op;
              && t.history == s.history + [Commit(tid, op, SpecResult(s.word, op), Writes(s.word, op))]
              && t.word == SpecWord(s.word, op)
              && t.threads[tid].Idle?
  {
  }

  lemma LinearSnoc(word: Word, history: seq<Commit>, c: Commit)
    requires Linear(word, history)
    requires c.result == SpecResult(Replay(word, history), c.op) && c.wrote == Writes(Replay(word, history), c.op)
    ensures Linear(word, history + [c]) && Replay(word, history + [c]) == SpecWord(Replay(word, history), c.op)
  {
    var longer := history + [c];
    assert longer[..|history|] == history;
    forall i | 0 <= i < |longer|
      ensures longer[i].result == SpecResult(Replay(word, longer[..i]), longer[i].op)
      ensures longer[i].wrote == Writes(Replay(word, longer[..i]), longer[i].op)
    {
      assert i < |history| ==> longer[..i] == history[..i];
    }
  }

  /** Whatever the interleaving, the word is the result of executing the completed calls one after
      the other, in the order in which they took effect, and each caller got what that order gives
      it.  A call takes effect in the step in which it returns: its successful swap, or the read
      that shows a comparison to have failed. */
  lemma {:induction false} RunsAreLinear(s: State, run: seq<Step>, word: Word)
    requires Legal(s, run) && Linear(word, s.history) && s.word == Replay(word, s.history)
    ensures Linear(word, Run(s, run).history) && Run(s, run).word == Replay(word, Run(s, run).history)
    decreases |run|
  {
    if run != [] {
      var t := Apply(s, run[0].tid, run[0].action);
      StepRefines(s, run[0].tid, run[0].action);
      if t.history != s.history {
        LinearSnoc(word, s.history, t.history[|s.history|]);
      }
      RunsAreLinear(t, run[1..], word);
    }
  }

  // ---------------------------------------------------------------- retries

  /** The writes of other threads among some commits. */
  function OthersWrites(history: seq<Commit>, tid: nat): nat {
    if history == [] then 0
    else OthersWrites(history[..|history| - 1], tid)
         + (if history[|history| - 1].wrote && history[|history| - 1].thread != tid then 1 else 0)
  }

  /** The retries of a call so far, and the one that is already certain because the word has changed
      under it, are paid for by writes of other threads since the call began. */
  ghost predicate Paid(s: State, tid: nat)
    requires tid < |s.threads|
  {
    var t := s.threads[tid];
    t.Busy? ==>
      && t.start <= |s.history|
      && var paid := OthersWrites(s.history[t.start..], tid);
         if t.op.Store? then t.retries == 0
         else if SwapFirst(s.flavour, t.op)
         then t.retries + (if t.pc.AtRead? && s.word == t.op.old_ then 1 else 0) <= paid
         else t.retries + (if t.pc.AtSwap? && s.word != Expected(t) then 1 else 0) <= paid
  }

  ghost predicate AllPaid(s: State) {
    forall tid :: 0 <= tid < |s.threads| ==> Paid(s, tid)
  }

  lemma OthersWritesSnoc(history: seq<Commit>, start: nat, c: Commit, tid: nat)
    requires start <= |history|
    ensures OthersWrites((history + [c])[start..], tid)
            == OthersWrites(history[start..], tid) + (if c.wrote && c.thread != tid then 1 else 0)
  {
    var longer := (history + [c])[start..];
    assert longer == history[start..] + [c];
    assert longer[..|longer| - 1] == history[start..];
  }

  /** A step of this thread keeps its account, provided its swap does not fail for no reason. */
  lemma OwnStepPaid(s: State, tid: nat, action: Action)
    requires Enabled(s, tid, action) && !action.FailSpuriously? && Paid(s, tid)
    ensures Paid(Apply(s, tid, action), tid)
  {
    if action.Begin? {
      assert s.history[|s.history|..] == [];
    }
  }

  /** A step of another thread pays for the change it makes. */
  lemma OtherStepPaid(s: State, tid: nat, other: nat, action: Action)
    requires Enabled(s, other, action) && tid < |s.threads| && tid != other && Paid(s, tid)
    ensures Paid(Apply(s, other, action), tid)
  {
    var t := Apply(s, other, action);
    assert t.threads[tid] == s.threads[tid];
    StepRefines(s, other, action);
    if t.history != s.history && s.threads[tid].Busy? {
      OthersWritesSnoc(s.history, s.threads[tid].start, t.history[|s.history|], tid);
    }
  }

  predicate NoSpuriousFailures(run: seq<Step>) {
    forall i :: 0 <= i < |run| ==> !run[i].action.FailSpuriously?
  }

  lemma {:induction false} AllStayPaid(s: State, run: seq<Step>)
    requires Legal(s, run) && NoSpuriousFailures(run) && AllPaid(s)
    ensures AllPaid(Run(s, run))
    decreases |run|
  {
    if run != [] {
      var step := run[0];
      var t := Apply(s, step.tid, step.action);
      forall tid | 0 <= tid < |t.threads|
        ensures Paid(t, tid)
      {
        assert Paid(s, tid);
        if tid == step.tid {
          OwnStepPaid(s, tid, step.action);
        } else {
          OtherStepPaid(s, tid, step.tid, step.action);
        }
      }
      AllStayPaid(t, run[1..]);
    }
  }

  /** If swaps fail only for a reason, then at every moment of every run each call has gone round its
      loop at most as often as other threads have written the word since it began. */
  lemma RetriesArePaid(flavour: Flavour, word: Word, n: nat, run: seq<Step>, tid: nat)
    requires Legal(Start(flavour, word, n), run) && NoSpuriousFailures(run)
    ensures var s := Run(Start(flavour, word, n), run);
            tid < |s.threads| && s.threads[tid].Busy? ==>
              && s.threads[tid].start <= |s.history|
              && s.threads[tid].retries <= OthersWrites(s.history[s.threads[tid].start..], tid)
  {
    AllStayPaid(Start(flavour, word, n), run);
    var s := Run(Start(flavour, word, n), run);
    assert tid < |s.threads| ==> Paid(s, tid);
  }

  // ---------------------------------------------------------------- progress

  function Solo(tid: nat, steps: nat): (run: seq<Step>)
    ensures |run| == steps && forall i :: 0 <= i < steps ==> run[i] == Step(tid, Act)
  {
    seq(steps, i => Step(tid, Act))
  }

  /** How many steps a call still takes when nobody else takes one. */
  function StepsLeft(s: State, tid: nat): nat
    requires tid < |s.threads| && s.threads[tid].Busy?
  {
    var t := s.threads[tid];
    if t.op.Store? then 1
    else if t.pc.AtRead? then if t.op.CompareAndSwap? && s.word != t.op.old_ then 1 else 2
    else if s.word == Expected(t) then 1
    else if t.op.CompareAndSwap? then 2
    else 3
  }

  lemma SoloStep(s: State, tid: nat)
    requires tid < |s.threads| && s.threads[tid].Busy? && StepsLeft(s, tid) > 1
    ensures var t := Apply(s, tid, Act);
            && t.word == s.word && t.history == s.history && t.threads[tid := Idle] == s.threads[tid := Idle]
            && t.threads[tid].Busy? && t.threads[tid].op == s.threads[tid].op
            && StepsLeft(t, tid) == StepsLeft(s, tid) - 1
  {
  }

  lemma SoloLast(s: State, tid: nat)
    requires tid < |s.threads| && s.threads[tid].Busy? && StepsLeft(s, tid) == 1
    ensures var (t, op) := (Apply(s, tid, Act), s.threads[tid].op);
            && t.word == SpecWord(s.word, op) && t.threads == s.threads[tid := Idle]
            && t.history == s.history + [Commit(tid, op, SpecResult(s.word, op), Writes(s.word, op))]
  {
  }

  /** A call that runs alone, from wherever the others have left it, takes effect in at most three
      steps. */
  lemma {:induction false} AloneCommits(s: State, tid: nat)
    requires tid < |s.threads| && s.threads[tid].Busy?
    ensures 1 <= StepsLeft(s, tid) <= 3 && Legal(s, Solo(tid, StepsLeft(s, tid)))
    ensures var (t, op) := (Run(s, Solo(tid, StepsLeft(s, tid))), s.threads[tid].op);
            && t.word == SpecWord(s.word, op) && t.threads == s.threads[tid := Idle]
            && t.history == s.history + [Commit(tid, op, SpecResult(s.word, op), Writes(s.word, op))]
    decreases StepsLeft(s, tid)
  {
    var run := Solo(tid, StepsLeft(s, tid));
    assert run[1..] == Solo(tid, StepsLeft(s, tid) - 1);
    if StepsLeft(s, tid) > 1 {
      SoloStep(s, tid);
      AloneCommits(Apply(s, tid, Act), tid);
    } else {
      SoloLast(s, tid);
    }
  }

  /** How many of the steps of a run are those of a thread. */
  function Turns(run: seq<Step>, tid: nat): nat {
    if run == [] then 0 else (if run[0].tid == tid then 1 else 0) + Turns(run[1..], tid)
  }

  predicate NoCommits(history: seq<Commit>, start: nat, tid: nat) {
    forall i :: start <= i < |history| ==> history[i].thread != tid
  }

  /** How many steps of its own a call has taken; each time round the loop takes two. */
  function Taken(s: State, tid: nat): nat
    requires tid < |s.threads| && s.threads[tid].Busy?
  {
    var t := s.threads[tid];
    2 * t.retries + if t.pc.AtSwap? == SwapFirst(s.flavour, t.op) then 0 else 1
  }

  lemma StepTaken(s: State, step: Step, tid: nat)
    requires Enabled(s, step.tid, step.action) && tid < |s.threads| && s.threads[tid].Busy?
    ensures var t := Apply(s, step.tid, step.action);
            && |t.threads| == |s.threads| && t.flavour == s.flavour && s.history <= t.history
            && (NoCommits(t.history, |s.history|, tid) ==>
                  && t.threads[tid].Busy? && t.threads[tid].start == s.threads[tid].start
                  && Taken(t, tid) == Taken(s, tid) + (if step.tid == tid then 1 else 0))
  {
    var t := Apply(s, step.tid, step.action);
    if step.tid == tid && t.history != s.history {
      assert t.history[|s.history|].thread == tid;
    }
  }

  lemma {:induction false} RunTaken(s: State, run: seq<Step>, tid: nat)
    requires Legal(s, run) && tid < |s.threads| && s.threads[tid].Busy?
    requires NoCommits(Run(s, run).history, |s.history|, tid)
    ensures var t := Run(s, run);
            && |t.threads| == |s.threads| && t.threads[tid].Busy? && t.threads[tid].start == s.threads[tid].start
            && Taken(t, tid) == Taken(s, tid) + Turns(run, tid)
    decreases |run|
  {
    if run != [] {
      var t := Apply(s, run[0].tid, run[0].action);
      RunHistory(t, run[1..]);
      StepTaken(s, run[0], tid);
      hide Apply, Taken, Enabled;
      RunTaken(t, run[1..], tid);
    }
  }

  lemma {:induction false} RunHistory(s: State, run: seq<Step>)
    requires Legal(s, run)
    ensures s.history <= Run(s, run).history
    decreases |run|
  {
    if run != [] {
      StepRefines(s, run[0].tid, run[0].action);
      RunHistory(Apply(s, run[0].tid, run[0].action), run[1..]);
    }
  }

  /** In every run without swaps that fail for no reason, a call that has not returned yet has taken
      at most one step more than twice the number of writes by other threads since it began: it is
      only ever delayed by calls that succeed. */
  lemma CallsAreLockFree(flavour: Flavour, word: Word, n: nat, run: seq<Step>, tid: nat, op: Operation, more: seq<Step>)
    requires Legal(Start(flavour, word, n), run) && NoSpuriousFailures(run) && NoSpuriousFailures(more)
    requires var s := Run(Start(flavour, word, n), run);
             Enabled(s, tid, Begin(op)) && Legal(Apply(s, tid, Begin(op)), more)
    ensures var (s, t) := (Run(Start(flavour, word, n), run), Apply(Run(Start(flavour, word, n), run), tid, Begin(op)));
            && |s.history| <= |Run(t, more).history|
            && var since := Run(t, more).history[|s.history|..];
               Turns(more, tid) > 2 * OthersWrites(since, tid) + 1 ==> exists c :: c in since && c.thread == tid
  {
    var s := Run(Start(flavour, word, n), run);
    var t := Apply(s, tid, Begin(op));
    var e := Run(t, more);
    AllStayPaid(Start(flavour, word, n), run);
    BeginIsPaid(s, tid, op);
    RunHistory(t, more);
    AllStayPaid(t, more);
    hide Apply, Enabled, Legal, AllPaid;
    if NoCommits(e.history, |t.history|, tid) {
      RunTaken(t, more, tid);
      PaidRetries(e, tid);
    } else {
      var i :| |t.history| <= i < |e.history| && e.history[i].thread == tid;
      assert e.history[|s.history|..][i - |s.history|] == e.history[i];
    }
  }

  lemma BeginIsPaid(s: State, tid: nat, op: Operation)
    requires Enabled(s, tid, Begin(op)) && AllPaid(s)
    ensures var t := Apply(s, tid, Begin(op));
            && AllPaid(t) && t.history == s.history && |t.threads| == |s.threads|
            && t.threads[tid].Busy? && t.threads[tid].start == |s.history| && Taken(t, tid) <= 1
  {
    var t := Apply(s, tid, Begin(op));
    forall u | 0 <= u < |t.threads|
      ensures Paid(t, u)
    {
      assert Paid(s, u);
      if u == tid {
        OwnStepPaid(s, u, Begin(op));
      } else {
        OtherStepPaid(s, u, tid, Begin(op));
      }
    }
  }

  lemma PaidRetries(s: State, tid: nat)
    requires AllPaid(s) && tid < |s.threads| && s.threads[tid].Busy?
    ensures s.threads[tid].start <= |s.history|
    ensures Taken(s, tid) <= 2 * OthersWrites(s.history[s.threads[tid].start..], tid) + 1
  {
    assert Paid(s, tid);
  }

  // ---------------------------------------------------------------- exchanges and comparisons alone

  /** Exchanges pass the values on: each is given what the one before it left, the first what was in
      the word, and the last value stays. */
  lemma {:induction false} ExchangesHandOver(word: Word, history: seq<Commit>)
    requires Linear(word, history) && forall i :: 0 <= i < |history| ==> history[i].op.AtomicExchange?
    ensures forall i :: 0 <= i < |history| ==> history[i].result == if i == 0 then word else history[i - 1].op.value
    ensures history != [] ==> Replay(word, history) == history[|history| - 1].op.value
  {
    forall i | 0 <= i < |history|
      ensures history[i].result == if i == 0 then word else history[i - 1].op.value
    {
      assert i > 0 ==> history[..i][..i - 1] == history[..i - 1];
    }
  }

  /** When everybody tries to swap the same value out, exactly the first call to take effect writes,
      and all the later ones are given what it wrote. */
  lemma {:induction false} OneSwapWins(word: Word, history: seq<Commit>)
    requires Linear(word, history) && history != []
    requires forall i :: 0 <= i < |history| ==>
               history[i].op.CompareAndSwap? && history[i].op.old_ == word && history[i].op.new_ != word
    ensures Replay(word, history) == history[0].op.new_
    ensures forall i :: 0 <= i < |history| ==>
              && (history[i].wrote <==> i == 0)
              && history[i].result == if i == 0 then word else history[0].op.new_
    decreases |history|
  {
    var n := |history| - 1;
    var init := history[..n];
    if n > 0 {
      LinearPrefix(word, history, n);
      OneSwapWins(word, init);
      assert forall i :: 0 <= i < n ==> init[i] == history[i];
    }
  }

  lemma LinearPrefix(word: Word, history: seq<Commit>, n: nat)
    requires Linear(word, history) && n <= |history|
    ensures Linear(word, history[..n])
  {
    assert forall i :: 0 <= i < n ==> history[..n][..i] == history[..i];
  }

  /** A compare-and-swap has written exactly when it returns the value that it expected, an exchange,
      an increment and a store always. */
  lemma WroteIsVisible(word: Word, history: seq<Commit>, i: nat)
    requires Linear(word, history) && i < |history|
    ensures history[i].wrote <==> !history[i].op.CompareAndSwap? || history[i].result == history[i].op.old_
    ensures !history[i].wrote ==> Replay(word, history[..i + 1]) == Replay(word, history[..i])
  {
    assert history[..i + 1][..i] == history[..i];
  }

  // ---------------------------------------------------------------- increments alone

  function TotalDelta(history: seq<Commit>): int
    requires forall i :: 0 <= i < |history| ==> history[i].op.AtomicIncrement?
  {
    if history == [] then 0 else TotalDelta(history[..|history| - 1]) + history[|history| - 1].op.delta
  }

  lemma WrapAdd(x: int, y: int)
    ensures Wrap(Wrap(x) + y) == Wrap(x + y)
  {
    var q := x / MODULUS;
    assert x == q * MODULUS + Wrap(x);
    WrapShift(Wrap(x) + y, q);
  }

  lemma {:induction false} WrapShift(x: int, q: int)
    ensures Wrap(x + q * MODULUS) == Wrap(x)
    decreases if q < 0 then -q else q
  {
    if q > 0 {
      WrapShift(x, q - 1);
      assert x + q * MODULUS == (x + (q - 1) * MODULUS) + MODULUS;
    } else if q < 0 {
      WrapShift(x, q + 1);
      assert x + (q + 1) * MODULUS == (x + q * MODULUS) + MODULUS;
    }
  }

  /** Under increments alone, the word is where it started plus everything that was added, modulo
      2^32: no increment is lost. */
  lemma {:induction false} IncrementsAddUp(word: Word, history: seq<Commit>)
    requires forall i :: 0 <= i < |history| ==> history[i].op.AtomicIncrement?
    ensures Replay(word, history) == Wrap(word + TotalDelta(history))
  {
    if history != [] {
      var init := history[..|history| - 1];
      IncrementsAddUp(word, init);
      WrapAdd(word + TotalDelta(init), history[|history| - 1].op.delta);
    }
  }

  predicate OnlyIncrements(run: seq<Step>) {
    forall i :: 0 <= i < |run| && run[i].action.Begin? ==> run[i].action.op.AtomicIncrement?
  }

  predicate Incrementing(s: State) {
    && (forall i :: 0 <= i < |s.threads| && s.threads[i].Busy? ==> s.threads[i].op.AtomicIncrement?)
    && (forall i :: 0 <= i < |s.history| ==> s.history[i].op.AtomicIncrement?)
  }

  lemma {:induction false} StaysIncrementing(s: State, run: seq<Step>)
    requires Legal(s, run) && OnlyIncrements(run) && Incrementing(s)
    ensures Incrementing(Run(s, run))
    decreases |run|
  {
    if run != [] {
      StaysIncrementing(Apply(s, run[0].tid, run[0].action), run[1..]);
    }
  }

  /** Whatever the interleaving and the amounts, a run of increments leaves the word at its start plus
      everything that the completed calls added, modulo 2^32. */
  lemma WordIsTheSum(flavour: Flavour, word: Word, n: nat, run: seq<Step>)
    requires Legal(Start(flavour, word, n), run) && OnlyIncrements(run)
    ensures var s := Run(Start(flavour, word, n), run);
            && (forall i :: 0 <= i < |s.history| ==> s.history[i].op.AtomicIncrement?)
            && s.word == Wrap(word + TotalDelta(s.history))
  {
    StaysIncrementing(Start(flavour, word, n), run);
    RunsAreLinear(Start(flavour, word, n), run, word);
    IncrementsAddUp(word, Run(Start(flavour, word, n), run).history);
  }
}
