/** LazyInstance::Pointer() of base/lazy_instance.h with NeedsLazyInstance and CompleteLazyInstance
    of base/lazy_instance.cc, called any number of times by any number of threads in any
    interleaving of their steps on the word private_instance_. */
module LazyInstances {

  const CREATING := 1

  /** The steps of one call. */
  datatype Pc =
    | Idle          // outside Pointer()
    | FastLoad      // about to load the word
    | Swap          // about to try 0 -> CREATING
    | Spin          // waiting for the word to leave CREATING
    | New           // about to enter the constructor
    | Constructing  // inside the constructor
    | Publish       // about to store the new instance
    | Register      // about to register the destructor
    | Return        // about to load the result

  datatype Result = Result(thread: nat, value: int, built: bool)

  /** `instance` is the address the constructor returns; `creator` is the thread that won the swap,
      or -1 while nobody has. */
  datatype State = State(
    instance: int,
    leaky: bool,
    word: int,
    pcs: seq<Pc>,
    constructions: nat,
    built: bool,
    registrations: nat,
    results: seq<Result>,
    creator: int)

  function Start(instance: int, leaky: bool, n: nat): State {
    State(instance, leaky, 0, seq(n, i => Idle), 0, false, 0, [], -1)
  }

  function Goto(s: State, t: nat, pc: Pc): State
    requires t < |s.pcs|
  {
    s.(pcs := s.pcs[t := pc])
  }

  /** The next step of thread t; a thread outside Pointer() calls it. */
  function Step(s: State, t: nat): State
    requires t < |s.pcs|
  {
    match s.pcs[t]
    case Idle => Goto(s, t, FastLoad)
    case FastLoad => Goto(s, t, if s.word != 0 && s.word != CREATING then Return else Swap)
    case Swap => if s.word == 0 then Goto(s, t, New).(word := CREATING, creator := t) else Goto(s, t, Spin)
    case Spin => if s.word == CREATING then s else Goto(s, t, Return)
    case New => Goto(s, t, Constructing).(constructions := s.constructions + 1)
    case Constructing => Goto(s, t, Publish).(built := true)
    case Publish => Goto(s, t, if s.leaky then Return else Register).(word := s.instance)
    case Register => Goto(s, t, Return).(registrations := s.registrations + 1)
    case Return => Goto(s, t, Idle).(results := s.results + [Result(t, s.word, s.built)])
  }

  function Run(s: State, schedule: seq<nat>): State
    requires forall i :: 0 <= i < |schedule| ==> schedule[i] < |s.pcs|
    decreases |schedule|
  {
    if schedule == [] then s else Run(Step(s, schedule[0]), schedule[1..])
  }

  predicate Creating(pc: Pc) {
    pc.New? || pc.Constructing? || pc.Publish?
  }

  ghost predicate ThreadInv(s: State, t: nat)
    requires t < |s.pcs|
  {
    && (Creating(s.pcs[t]) ==> s.word == CREATING && t == s.creator)
    && (s.pcs[t].Spin? ==> s.word != 0)
    && (s.pcs[t].Register? ==> s.word == s.instance && t == s.creator && !s.leaky)
    && (s.pcs[t].Return? ==> s.word == s.instance)
  }

  ghost predicate WordInv(s: State) {
    && s.instance != 0 && s.instance != CREATING
    && (s.word == 0 || s.word == CREATING || s.word == s.instance)
    && (if s.word == 0 then s.creator == -1 else 0 <= s.creator < |s.pcs|)
    && (s.word == CREATING ==> Creating(s.pcs[s.creator]))
    && s.constructions == (if s.word == 0 || s.pcs[s.creator].New? then 0 else 1)
    && (s.built <==> s.word == s.instance || (s.word == CREATING && s.pcs[s.creator].Publish?))
    && s.registrations == (if s.word != s.instance || s.leaky || s.pcs[s.creator].Register? then 0 else 1)
  }

  ghost predicate ResultsInv(s: State) {
    forall i :: 0 <= i < |s.results| ==> s.results[i].value == s.instance && s.results[i].built && s.word == s.instance
  }

  /** The word tells how far creation has got: it is CREATING exactly while one thread is between
      its swap and its store; until then nobody is past the swap, and afterwards the instance is
      fully constructed, once, and is what every call returns. */
  ghost predicate Inv(s: State) {
    && WordInv(s)
    && (forall t :: 0 <= t < |s.pcs| ==> ThreadInv(s, t))
    && ResultsInv(s)
  }

  lemma StepKeepsWord(s: State, t: nat)
    requires WordInv(s) && t < |s.pcs| && ThreadInv(s, t) && (s.word != 0 ==> ThreadInv(s, s.creator))
    ensures WordInv(Step(s, t))
  {
  }

  lemma StepKeepsThread(s: State, t: nat, u: nat)
    requires WordInv(s) && t < |s.pcs| && u < |s.pcs| && ThreadInv(s, t) && ThreadInv(s, u)
    ensures ThreadInv(Step(s, t), u)
  {
  }

  lemma StepKeepsResults(s: State, t: nat)
    requires WordInv(s) && ResultsInv(s) && t < |s.pcs| && ThreadInv(s, t)
    ensures ResultsInv(Step(s, t))
  {
  }

  lemma StepKeepsInv(s: State, t: nat)
    requires Inv(s) && t < |s.pcs|
    ensures Inv(Step(s, t))
  {
    var e := Step(s, t);
    assert ThreadInv(s, t) && (s.word != 0 ==> 0 <= s.creator < |s.pcs| && ThreadInv(s, s.creator));
    assert |e.pcs| == |s.pcs|;
    hide WordInv, ThreadInv, ResultsInv, Step;
    StepKeepsWord(s, t);
    StepKeepsResults(s, t);
    forall u | 0 <= u < |e.pcs|
      ensures ThreadInv(e, u)
    {
      StepKeepsThread(s, t, u);
    }
  }

  /** The word only ever goes from 0 to CREATING and from CREATING to the instance. */
  lemma WordOnlyAdvances(s: State, t: nat)
    requires Inv(s) && t < |s.pcs|
    ensures var w := Step(s, t).word;
            || w == s.word
            || (s.word == 0 && w == CREATING)
            || (s.word == CREATING && w == s.instance && t == s.creator)
  {
    assert ThreadInv(s, t);
  }

  lemma StepFrame(s: State, t: nat)
    requires t < |s.pcs|
    ensures var e := Step(s, t);
            e.instance == s.instance && e.leaky == s.leaky && |e.pcs| == |s.pcs|
  {
  }

  lemma {:induction false} RunKeepsInv(s: State, schedule: seq<nat>)
    requires Inv(s) && forall i :: 0 <= i < |schedule| ==> schedule[i] < |s.pcs|
    ensures Inv(Run(s, schedule))
    ensures Run(s, schedule).instance == s.instance && Run(s, schedule).leaky == s.leaky
    decreases |schedule|
  {
    if schedule != [] {
      hide Inv, Step;
      StepKeepsInv(s, schedule[0]);
      StepFrame(s, schedule[0]);
      RunKeepsInv(Step(s, schedule[0]), schedule[1..]);
    }
  }

  /** In every run the constructor is entered at most once and the destructor registered at most
      once; every call that has returned got the same, fully constructed instance, and then the
      constructor had been entered exactly once. */
  lemma OneInstanceForAll(instance: int, leaky: bool, n: nat, schedule: seq<nat>)
    requires instance != 0 && instance != CREATING
    requires forall i :: 0 <= i < |schedule| ==> schedule[i] < n
    ensures var s := Run(Start(instance, leaky, n), schedule);
            && s.constructions <= 1 && s.registrations <= 1 && (leaky ==> s.registrations == 0)
            && (forall i :: 0 <= i < |s.results| ==> s.results[i].value == instance && s.results[i].built)
            && (s.results != [] ==> s.constructions == 1)
  {
    RunKeepsInv(Start(instance, leaky, n), schedule);
    var s := Run(Start(instance, leaky, n), schedule);
    if s.results != [] {
      assert s.results[0].value == instance;
      assert ThreadInv(s, s.creator);
    }
  }

  // ---------------------------------------------------------------- progress

  /** How many steps of its creator the word is away from the instance. */
  function Distance(s: State): nat {
    if s.word != CREATING || !(0 <= s.creator < |s.pcs|) then 0
    else match s.pcs[s.creator]
         case New => 3
         case Constructing => 2
         case Publish => 1
         case _ => 0
  }

  /** A spinning thread that has to wait is waiting for another thread, which can take a step; each
      step of that thread brings the word closer to the instance, no step of any other thread moves
      it away, and at distance zero the spinning thread's next step takes it out of the loop. */
  lemma SpinnersAreNotStuck(s: State, t: nat, u: nat)
    requires Inv(s) && t < |s.pcs| && u < |s.pcs| && s.pcs[t].Spin?
    ensures s.word == CREATING <==> Distance(s) > 0
    ensures s.word == CREATING ==> s.creator != t && Distance(Step(s, s.creator)) == Distance(s) - 1
    ensures s.word == CREATING && u != s.creator ==>
              Distance(Step(s, u)) == Distance(s) && Step(s, u).creator == s.creator
    ensures Distance(s) == 0 ==> Step(s, t).pcs[t].Return?
  {
    assert ThreadInv(s, u) && ThreadInv(s, t);
  }

  function Alone(t: nat, steps: nat): (schedule: seq<nat>)
    ensures |schedule| == steps && forall i :: 0 <= i < steps ==> schedule[i] == t
  {
    seq(steps, i => t)
  }

  lemma AloneFirst(t: nat, steps: nat)
    requires steps > 0
    ensures Alone(t, steps)[0] == t && Alone(t, steps)[1..] == Alone(t, steps - 1)
  {
  }

  /** Left to run alone, the creator publishes the instance in at most three steps. */
  lemma {:induction false} CreatorPublishes(s: State)
    requires Inv(s) && s.word == CREATING
    ensures Distance(s) <= 3
    ensures Run(s, Alone(s.creator, Distance(s))).word == s.instance
    decreases Distance(s)
  {
    var t := Step(s, s.creator);
    StepKeepsInv(s, s.creator);
    AloneFirst(s.creator, Distance(s));
    if t.word == CREATING {
      CreatorPublishes(t);
    }
  }

  /** How many steps a call of t takes that runs alone, from wherever it is to its answer. */
  function StepsLeft(s: State, t: nat): nat
    requires t < |s.pcs|
  {
    var built := if s.leaky then 1 else 2;
    match s.pcs[t]
    case Idle => if s.word == 0 then built + 6 else 3
    case FastLoad => if s.word == 0 then built + 5 else 2
    case Swap => if s.word == 0 then built + 4 else 3
    case Spin => 2
    case New => built + 3
    case Constructing => built + 2
    case Publish => built + 1
    case Register => 2
    case Return => 1
  }

  lemma AloneStep(s: State, t: nat)
    requires Inv(s) && t < |s.pcs| && (s.word == CREATING ==> t == s.creator) && !s.pcs[t].Return?
    ensures var e := Step(s, t);
            && Inv(e) && (e.word == CREATING ==> t == e.creator) && e.instance == s.instance
            && e.pcs[t := Idle] == s.pcs[t := Idle] && e.results == s.results
            && StepsLeft(e, t) == StepsLeft(s, t) - 1
  {
    StepKeepsInv(s, t);
    assert ThreadInv(s, t);
  }

  /** A call that runs alone while nobody else is creating the instance returns the instance, fully
      constructed, in at most eight steps. */
  lemma {:induction false} AloneReturns(s: State, t: nat)
    requires Inv(s) && t < |s.pcs| && (s.word == CREATING ==> t == s.creator)
    ensures StepsLeft(s, t) <= 8
    ensures var e := Run(s, Alone(t, StepsLeft(s, t)));
            && e.results == s.results + [Result(t, s.instance, true)]
            && e.pcs == s.pcs[t := Idle] && e.word == s.instance
    decreases StepsLeft(s, t)
  {
    AloneFirst(t, StepsLeft(s, t));
    if s.pcs[t].Return? {
      assert ThreadInv(s, t);
    } else {
      AloneStep(s, t);
      AloneReturns(Step(s, t), t);
    }
  }

  // ---------------------------------------------------------------- progress in every interleaving

  /** How many of the steps of a schedule are t's. */
  function Takes(schedule: seq<nat>, t: nat): nat {
    if schedule == [] then 0 else (if schedule[0] == t then 1 else 0) + Takes(schedule[1..], t)
  }

  /** How many calls of t have returned. */
  function Answers(results: seq<Result>, t: nat): nat {
    if results == [] then 0
    else Answers(results[..|results| - 1], t) + (if results[|results| - 1].thread == t then 1 else 0)
  }

  lemma AnswersSnoc(results: seq<Result>, r: Result, t: nat)
    ensures Answers(results + [r], t) == Answers(results, t) + (if r.thread == t then 1 else 0)
  {
    assert (results + [r])[..|results|] == results;
  }

  /** Exactly the last step of a call answers it. */
  lemma StepAnswers(s: State, u: nat, t: nat)
    requires u < |s.pcs|
    ensures Answers(Step(s, u).results, t) == Answers(s.results, t) + (if u == t && s.pcs[t].Return? then 1 else 0)
  {
    AnswersSnoc(s.results, Result(u, s.word, s.built), t);
  }

  lemma {:induction false} RunAnswers(s: State, schedule: seq<nat>, t: nat)
    requires forall i :: 0 <= i < |schedule| ==> schedule[i] < |s.pcs|
    ensures Answers(Run(s, schedule).results, t) >= Answers(s.results, t)
    decreases |schedule|
  {
    if schedule != [] {
      StepAnswers(s, schedule[0], t);
      StepFrame(s, schedule[0]);
      hide Step;
      RunAnswers(Step(s, schedule[0]), schedule[1..], t);
    }
  }

  /** How many steps of its own a call needs once the instance is published. */
  function OwnSteps(pc: Pc): nat {
    match pc
    case Idle => 3
    case FastLoad => 2
    case Swap => 3
    case Return => 1
    case _ => 2
  }

  lemma PublishedStep(s: State, u: nat, t: nat)
    requires Inv(s) && s.word == s.instance && t < |s.pcs| && u < |s.pcs|
    ensures Inv(Step(s, u)) && Step(s, u).word == Step(s, u).instance
    ensures u != t ==> OwnSteps(Step(s, u).pcs[t]) == OwnSteps(s.pcs[t])
    ensures u == t && !s.pcs[t].Return? ==> OwnSteps(Step(s, u).pcs[t]) == OwnSteps(s.pcs[t]) - 1
  {
    StepKeepsInv(s, u);
    assert ThreadInv(s, u);
  }

  /** Once the instance is published nobody waits for anybody: whatever the other threads do, three
      steps of its own complete a call. */
  lemma {:induction false} PublishedCallsReturn(s: State, schedule: seq<nat>, t: nat)
    requires Inv(s) && s.word == s.instance && t < |s.pcs|
    requires forall i :: 0 <= i < |schedule| ==> schedule[i] < |s.pcs|
    requires Takes(schedule, t) >= OwnSteps(s.pcs[t])
    ensures Answers(Run(s, schedule).results, t) > Answers(s.results, t)
    decreases |schedule|
  {
    var u, rest := schedule[0], schedule[1..];
    PublishedStep(s, u, t);
    StepAnswers(s, u, t);
    StepFrame(s, u);
    hide Inv, Step;
    if u == t && s.pcs[t].Return? {
      RunAnswers(Step(s, u), rest, t);
    } else {
      PublishedCallsReturn(Step(s, u), rest, t);
    }
  }

  lemma CreatorStep(s: State, u: nat)
    requires Inv(s) && s.word != 0 && u < |s.pcs|
    ensures var e := Step(s, u);
            && Inv(e) && e.word != 0 && e.creator == s.creator
            && Distance(e) == (if u == s.creator && Distance(s) > 0 then Distance(s) - 1 else Distance(s))
    ensures s.word == CREATING <==> Distance(s) > 0
  {
    StepKeepsInv(s, u);
    assert ThreadInv(s, u);
  }

  /** Whatever the other threads do, the instance is published once its creator has taken its
      steps. */
  lemma {:induction false} CreatorIsEnough(s: State, schedule: seq<nat>)
    requires Inv(s) && s.word != 0
    requires forall i :: 0 <= i < |schedule| ==> schedule[i] < |s.pcs|
    requires Takes(schedule, s.creator) >= Distance(s)
    ensures Run(s, schedule).word == s.instance
    decreases |schedule|
  {
    if schedule != [] {
      CreatorStep(s, schedule[0]);
      StepFrame(s, schedule[0]);
      hide Inv, Step, Distance;
      CreatorIsEnough(Step(s, schedule[0]), schedule[1..]);
    }
  }

  /** A caller that finds the instance under construction gets its answer, in every interleaving,
      from three steps of its own after the creator has taken the steps that it lacks. */
  lemma WaitingCallsReturn(s: State, creation: seq<nat>, after: seq<nat>, t: nat)
    requires Inv(s) && s.word != 0 && t < |s.pcs|
    requires forall i :: 0 <= i < |creation| ==> creation[i] < |s.pcs|
    requires forall i :: 0 <= i < |after| ==> after[i] < |s.pcs|
    requires Takes(creation, s.creator) >= Distance(s) && Takes(after, t) >= 3
    ensures |Run(s, creation).pcs| == |s.pcs|
    ensures Answers(Run(Run(s, creation), after).results, t) > Answers(s.results, t)
  {
    RunFrame(s, creation);
    RunKeepsInv(s, creation);
    RunAnswers(s, creation, t);
    CreatorIsEnough(s, creation);
    PublishedCallsReturn(Run(s, creation), after, t);
  }

  lemma {:induction false} RunFrame(s: State, schedule: seq<nat>)
    requires forall i :: 0 <= i < |schedule| ==> schedule[i] < |s.pcs|
    ensures |Run(s, schedule).pcs| == |s.pcs|
    decreases |schedule|
  {
    if schedule != [] {
      StepFrame(s, schedule[0]);
      RunFrame(Step(s, schedule[0]), schedule[1..]);
    }
  }

  /** How many steps the creator is away from having registered the destructor. */
  function ToRegister(s: State): nat {
    if s.word == CREATING then Distance(s) + 1
    else if 0 <= s.creator < |s.pcs| && s.pcs[s.creator].Register? then 1
    else 0
  }

  lemma RegisterStep(s: State, u: nat)
    requires Inv(s) && s.word != 0 && !s.leaky && u < |s.pcs|
    ensures var e := Step(s, u);
            && Inv(e) && e.word != 0 && e.creator == s.creator
            && ToRegister(e) == (if u == s.creator && ToRegister(s) > 0 then ToRegister(s) - 1 else ToRegister(s))
    ensures ToRegister(s) == 0 ==> s.registrations == 1
  {
    StepKeepsInv(s, u);
    assert ThreadInv(s, u);
  }

  /** An instance that is not leaky has its destructor registered once its creator has taken at most
      four steps, whatever the other threads do. */
  lemma {:induction false} CreatorRegisters(s: State, schedule: seq<nat>)
    requires Inv(s) && s.word != 0 && !s.leaky
    requires forall i :: 0 <= i < |schedule| ==> schedule[i] < |s.pcs|
    requires Takes(schedule, s.creator) >= ToRegister(s)
    ensures ToRegister(s) <= 4 && Run(s, schedule).registrations == 1
    decreases |schedule|
  {
    RegisterStep(s, s.creator);
    if schedule != [] {
      RegisterStep(s, schedule[0]);
      StepFrame(s, schedule[0]);
      hide Inv, Step, ToRegister;
      CreatorRegisters(Step(s, schedule[0]), schedule[1..]);
    }
  }
}
