/** The exit managers of base/at_exit.cc together with lazily built instances that register their
    own destruction (base/lazy_instance.h, base/lazy_instance.cc), in one thread. */
module AtExit {
  import opened Basics

  /** Instance i's constructor uses the instances deps[i], all with smaller numbers, since a
      constructor that comes back to itself never returns.  A leaky instance does not register. */
  datatype Config = Config(deps: seq<seq<nat>>, leaky: seq<bool>) {
    ghost predicate Wf() {
      && |deps| == |leaky|
      && forall i, k :: 0 <= i < |deps| && 0 <= k < |deps[i]| ==> deps[i][k] < i
    }
  }

  datatype Status = Absent | Creating | Created

  datatype Task = Destroy(instance: nat) | Other(id: nat)

  /** `dependenciesAlive` is what the destructor sees of the registering instances it may use. */
  datatype Event = Constructed(instance: nat) | Destroyed(instance: nat, dependenciesAlive: bool) | Ran(id: nat)

  /** The managers, the most recent last, each with its tasks, the most recent last. */
  datatype World = World(managers: seq<seq<Task>>, status: seq<Status>, log: seq<Event>)

  function Top(w: World): seq<Task>
    requires w.managers != []
  {
    w.managers[|w.managers| - 1]
  }

  function SetTop(w: World, tasks: seq<Task>): World
    requires w.managers != []
  {
    w.(managers := w.managers[..|w.managers| - 1] + [tasks])
  }

  function RegisterTask(w: World, task: Task): World
    requires w.managers != []
  {
    SetTop(w, Top(w) + [task])
  }

  predicate IsInstance(c: Config, w: World, i: nat) {
    i < |c.deps| == |c.leaky| == |w.status|
  }

  ghost predicate DependenciesAlive(c: Config, status: seq<Status>, i: nat)
    requires c.Wf() && i < |c.deps| == |status|
  {
    forall k :: 0 <= k < |c.deps[i]| && !c.leaky[c.deps[i][k]] ==> status[c.deps[i][k]].Created?
  }

  // ---------------------------------------------------------------- operations on values

  /** Pointer(): builds the instance if it is absent, registering its destruction afterwards. */
  ghost function Pointer(c: Config, w: World, i: nat): World
    requires c.Wf() && IsInstance(c, w, i) && w.managers != []
    ensures |Pointer(c, w, i).status| == |w.status| && Pointer(c, w, i).managers != []
    decreases i, |c.deps| + 1, 0
  {
    if !w.status[i].Absent? then w
    else
      Publish(c, UseAll(c, w.(status := w.status[i := Creating]), c.deps[i], i), i)
  }

  /** The constructor has returned: the instance becomes visible, then its destruction is registered. */
  function Publish(c: Config, w: World, i: nat): World
    requires IsInstance(c, w, i) && w.managers != []
  {
    var done := w.(status := w.status[i := Created], log := w.log + [Constructed(i)]);
    if c.leaky[i] then done else RegisterTask(done, Destroy(i))
  }

  ghost function UseAll(c: Config, w: World, ds: seq<nat>, i: nat): World
    requires c.Wf() && IsInstance(c, w, i) && w.managers != []
    requires forall k :: 0 <= k < |ds| ==> ds[k] < i
    ensures |UseAll(c, w, ds, i).status| == |w.status| && UseAll(c, w, ds, i).managers != []
    decreases i, |c.deps|, |ds|
  {
    if ds == [] then w
    else UseAll(c, Pointer(c, w, ds[0]), ds[1..], i)
  }

  ghost function RunTask(c: Config, w: World, task: Task): World
    requires c.Wf() && |w.status| == |c.deps|
    requires task.Destroy? ==> task.instance < |c.deps|
  {
    match task
    case Destroy(i) =>
      w.(status := w.status[i := Absent], log := w.log + [Destroyed(i, DependenciesAlive(c, w.status, i))])
    case Other(k) => w.(log := w.log + [Ran(k)])
  }

  predicate TasksKnown(c: Config, tasks: seq<Task>) {
    forall k :: 0 <= k < |tasks| && tasks[k].Destroy? ==> tasks[k].instance < |c.deps|
  }

  /** Runs the newest task, then takes it off, until none is left. */
  ghost function ProcessAll(c: Config, w: World): World
    requires c.Wf() && |w.status| == |c.deps| && w.managers != [] && TasksKnown(c, Top(w))
    ensures |ProcessAll(c, w).status| == |w.status| && ProcessAll(c, w).managers != []
    decreases if w.managers == [] then 0 else |Top(w)|
  {
    var tasks := Top(w);
    if tasks == [] then w
    else
      var n := |tasks| - 1;
      ProcessAll(c, SetTop(RunTask(c, w, tasks[n]), tasks[..n]))
  }

  // ---------------------------------------------------------------- what holds outside every constructor

  /** All tasks, in the order in which they were registered. */
  function Flat(managers: seq<seq<Task>>): seq<Task> {
    if managers == [] then [] else Flat(managers[..|managers| - 1]) + managers[|managers| - 1]
  }

  ghost predicate Once(f: seq<Task>) {
    forall j, k :: 0 <= j < k < |f| && f[j].Destroy? ==> f[j] != f[k]
  }

  /** Every instance is registered after the registering instances that its constructor used. */
  ghost predicate InOrder(c: Config, f: seq<Task>)
    requires c.Wf()
  {
    forall k :: 0 <= k < |f| && f[k].Destroy? && f[k].instance < |c.deps| ==> Supported(c, f[..k], f[k].instance)
  }

  ghost predicate Supported(c: Config, f: seq<Task>, i: nat)
    requires c.Wf() && i < |c.deps|
  {
    forall m :: 0 <= m < |c.deps[i]| && !c.leaky[c.deps[i][m]] ==> Destroy(c.deps[i][m]) in f
  }

  /** The tasks are, in a workable order, one for each instance alive that is not leaky. */
  ghost predicate Accounted(c: Config, status: seq<Status>, f: seq<Task>) {
    && c.Wf() && |status| == |c.deps|
    && TasksKnown(c, f) && Once(f) && InOrder(c, f)
    && forall i :: 0 <= i < |status| ==> (Destroy(i) in f <==> status[i].Created? && !c.leaky[i])
  }

  ghost predicate Inv(c: Config, w: World) {
    Accounted(c, w.status, Flat(w.managers))
  }

  lemma FlatTop(w: World, tasks: seq<Task>)
    requires w.managers != []
    ensures Flat(w.managers) == Flat(w.managers[..|w.managers| - 1]) + Top(w)
    ensures Flat(SetTop(w, tasks).managers) == Flat(w.managers[..|w.managers| - 1]) + tasks
    ensures Top(SetTop(w, tasks)) == tasks
  {
    var rest := w.managers[..|w.managers| - 1];
    assert (rest + [tasks])[..|rest|] == rest;
  }

  lemma RegisterFlat(w: World, task: Task)
    requires w.managers != []
    ensures Flat(RegisterTask(w, task).managers) == Flat(w.managers) + [task]
  {
    FlatTop(w, Top(w) + [task]);
  }

  lemma UseAllStep(c: Config, w: World, ds: seq<nat>, k: nat, i: nat)
    requires c.Wf() && IsInstance(c, w, i) && w.managers != [] && k < |ds|
    requires forall m :: 0 <= m < |ds| ==> ds[m] < i
    ensures UseAll(c, w, ds[k..], i) == UseAll(c, Pointer(c, w, ds[k]), ds[k + 1..], i)
  {
    assert ds[k..][1..] == ds[k + 1..];
  }

  lemma PointerIs(c: Config, w: World, i: nat)
    requires c.Wf() && IsInstance(c, w, i) && w.managers != []
    ensures var started := w.(status := w.status[i := Creating]);
            Pointer(c, w, i) ==
            if !w.status[i].Absent? then w else Publish(c, UseAll(c, started, c.deps[i], i), i)
    ensures UseAll(c, w, [], i) == w
  {
  }

  lemma PushKeeps(c: Config, status: seq<Status>, f: seq<Task>, i: nat)
    requires Accounted(c, status, f) && i < |status| && status[i].Creating?
    requires forall m :: 0 <= m < |c.deps[i]| ==> status[c.deps[i][m]].Created?
    ensures Accounted(c, status[i := Created], if c.leaky[i] then f else f + [Destroy(i)])
  {
    if !c.leaky[i] {
      var g := f + [Destroy(i)];
      assert Supported(c, f, i);
      assert forall k :: 0 <= k < |f| ==> g[k] == f[k] && g[..k] == f[..k];
      assert g[..|f|] == f;
      assert forall x :: x in g <==> x in f || x == Destroy(i);
    }
  }

  lemma PopOrder(c: Config, g: seq<Task>, task: Task)
    requires c.Wf() && TasksKnown(c, g + [task]) && Once(g + [task]) && InOrder(c, g + [task])
    ensures TasksKnown(c, g) && Once(g) && InOrder(c, g) && (task.Destroy? ==> task !in g)
    ensures task.Destroy? ==> task.instance < |c.deps| && Supported(c, g, task.instance)
  {
    var f := g + [task];
    assert forall k :: 0 <= k < |g| ==> f[k] == g[k] && f[..k] == g[..k];
    assert f[..|g|] == g && f[|g|] == task;
  }

  lemma PopKeeps(c: Config, status: seq<Status>, g: seq<Task>, task: Task)
    requires Accounted(c, status, g + [task])
    ensures task.Destroy? ==> task.instance < |status| && DependenciesAlive(c, status, task.instance)
    ensures Accounted(c, if task.Destroy? then status[task.instance := Absent] else status, g)
  {
    PopOrder(c, g, task);
    assert forall x :: x in g + [task] <==> x in g || x == task;
  }

  /** From w to v nothing that existed was touched, and no instance above `bound`; tasks were only
      added, and only to the newest manager. */
  ghost predicate Grew(w: World, v: World, bound: int) {
    && |v.status| == |w.status| && |v.managers| == |w.managers| && w.managers != []
    && (forall j :: 0 <= j < |w.status| && (j > bound || w.status[j].Created?) ==> v.status[j] == w.status[j])
    && Flat(w.managers) <= Flat(v.managers)
    && w.log <= v.log && (forall k :: |w.log| <= k < |v.log| ==> v.log[k].Constructed?)
    && v.managers[..|v.managers| - 1] == w.managers[..|w.managers| - 1]
  }

  ghost predicate NoneCreating(w: World, bound: int) {
    forall j :: 0 <= j < |w.status| && j <= bound ==> !w.status[j].Creating?
  }

  lemma PublishKeeps(c: Config, w: World, i: nat)
    requires Inv(c, w) && i < |w.status| && w.managers != [] && w.status[i].Creating?
    requires forall m :: 0 <= m < |c.deps[i]| ==> w.status[c.deps[i][m]].Created?
    ensures var v := Publish(c, w, i);
            && Inv(c, v) && v.status == w.status[i := Created] && v.log == w.log + [Constructed(i)]
            && Flat(w.managers) <= Flat(v.managers)
            && |v.managers| == |w.managers| && v.managers[..|v.managers| - 1] == w.managers[..|w.managers| - 1]
  {
    PushKeeps(c, w.status, Flat(w.managers), i);
    RegisterFlat(w, Destroy(i));
  }

  lemma StartCreating(c: Config, w: World, i: nat)
    requires Inv(c, w) && i < |w.status| && w.status[i].Absent? && NoneCreating(w, i)
    ensures var started := w.(status := w.status[i := Creating]);
            Inv(c, started) && NoneCreating(started, i - 1)
  {
  }

  /** What one use of an instance does: the instance exists afterwards. */
  lemma {:induction false} PointerKeeps(c: Config, w: World, i: nat)
    requires Inv(c, w) && i < |w.status| && w.managers != [] && NoneCreating(w, i)
    ensures var v := Pointer(c, w, i);
            Inv(c, v) && v.status[i].Created? && NoneCreating(v, i) && Grew(w, v, i)
    decreases i, |c.deps| + 1, 0
  {
    if w.status[i].Absent? {
      var w1 := w.(status := w.status[i := Creating]);
      UseAllKeeps(c, w1, c.deps[i], i);
      PublishKeeps(c, UseAll(c, w1, c.deps[i], i), i);
    }
  }

  lemma {:induction false} UseAllKeeps(c: Config, w: World, ds: seq<nat>, i: nat)
    requires Inv(c, w) && i < |w.status| && w.managers != [] && NoneCreating(w, i - 1)
    requires forall k :: 0 <= k < |ds| ==> ds[k] < i
    ensures var v := UseAll(c, w, ds, i);
            && Inv(c, v) && NoneCreating(v, i - 1) && Grew(w, v, i - 1)
            && (forall k :: 0 <= k < |ds| ==> v.status[ds[k]].Created?)
    decreases i, |c.deps|, |ds|
  {
    if ds != [] {
      PointerKeeps(c, w, ds[0]);
      UseAllKeeps(c, Pointer(c, w, ds[0]), ds[1..], i);
    }
  }

  // ---------------------------------------------------------------- destruction

  function EventOf(task: Task): Event {
    match task
    case Destroy(i) => Destroyed(i, true)
    case Other(k) => Ran(k)
  }

  /** The events of running these tasks from the newest to the oldest, every destructor finding the
      instances it may use alive. */
  function Unwound(tasks: seq<Task>): seq<Event> {
    if tasks == [] then [] else [EventOf(tasks[|tasks| - 1])] + Unwound(tasks[..|tasks| - 1])
  }

  lemma KnownPart(c: Config, below: seq<Task>, tasks: seq<Task>)
    requires TasksKnown(c, below + tasks)
    ensures TasksKnown(c, tasks)
  {
    assert forall k :: 0 <= k < |tasks| ==> tasks[k] == (below + tasks)[|below| + k];
  }

  lemma TopTask(c: Config, w: World)
    requires Inv(c, w) && w.managers != []
    ensures TasksKnown(c, Top(w))
    ensures Top(w) != [] ==>
              var n := |Top(w)| - 1;
              Flat(w.managers) == Flat(SetTop(w, Top(w)[..n]).managers) + [Top(w)[n]]
  {
    var below, tasks := Flat(w.managers[..|w.managers| - 1]), Top(w);
    assert TasksKnown(c, Flat(w.managers));
    hide Inv, TasksKnown, Flat, SetTop, Top;
    FlatTop(w, tasks);
    KnownPart(c, below, tasks);
    if tasks != [] {
      var n := |tasks| - 1;
      FlatTop(w, tasks[..n]);
      Associative(below, tasks[..n], [tasks[n]]);
      assert tasks == tasks[..n] + [tasks[n]];
    }
  }

  lemma SameManagers(c: Config, w: World)
    requires c.Wf() && |w.status| == |c.deps| && w.managers != [] && Top(w) != [] && TasksKnown(c, Top(w))
    ensures var (n, tasks) := (|Top(w)| - 1, Top(w));
            SetTop(RunTask(c, w, tasks[n]), tasks[..n]).managers == SetTop(w, tasks[..n]).managers
  {
  }

  /** The newest task: what it destroys is alive, and so is everything it may use. */
  lemma RunTopKeeps(c: Config, w: World)
    requires Inv(c, w) && w.managers != [] && Top(w) != [] && TasksKnown(c, Top(w))
    ensures var (n, tasks) := (|Top(w)| - 1, Top(w));
            var v := SetTop(RunTask(c, w, tasks[n]), tasks[..n]);
            && Inv(c, v) && v.log == w.log + [EventOf(tasks[n])]
  {
    hide Flat, TasksKnown, Once, InOrder, Supported, DependenciesAlive;
    var n := |Top(w)| - 1;
    TopTask(c, w);
    SameManagers(c, w);
    PopKeeps(c, w.status, Flat(SetTop(w, Top(w)[..n]).managers), Top(w)[n]);
  }

  /** One turn of the processing loop. */
  ghost function PopNewest(c: Config, w: World): World
    requires c.Wf() && |w.status| == |c.deps| && w.managers != [] && Top(w) != [] && TasksKnown(c, Top(w))
  {
    var n := |Top(w)| - 1;
    SetTop(RunTask(c, w, Top(w)[n]), Top(w)[..n])
  }

  lemma PopNewestTop(c: Config, w: World)
    requires c.Wf() && |w.status| == |c.deps| && w.managers != [] && Top(w) != [] && TasksKnown(c, Top(w))
    ensures var v := PopNewest(c, w);
            && v.managers == w.managers[..|w.managers| - 1] + [Top(w)[..|Top(w)| - 1]]
            && |v.managers| == |w.managers| && Top(v) == Top(w)[..|Top(w)| - 1]
            && TasksKnown(c, Top(v)) && ProcessAll(c, v) == ProcessAll(c, w)
  {
  }

  lemma ProcessNothing(c: Config, w: World)
    requires c.Wf() && |w.status| == |c.deps| && w.managers != [] && Top(w) == []
    ensures ProcessAll(c, w) == w && w.managers == w.managers[..|w.managers| - 1] + [[]]
    ensures w.log + Unwound([]) == w.log
  {
  }

  lemma UnwoundStep(log: seq<Event>, tasks: seq<Task>)
    requires tasks != []
    ensures var n := |tasks| - 1;
            (log + [EventOf(tasks[n])]) + Unwound(tasks[..n]) == log + Unwound(tasks)
  {
    var n := |tasks| - 1;
    Associative(log, [EventOf(tasks[n])], Unwound(tasks[..n]));
  }

  /** Processing runs every registered task once, the newest first, and every destructor finds the
      registering instances that its constructor used still alive. */
  lemma {:induction false} ProcessUnwinds(c: Config, w: World)
    requires Inv(c, w) && w.managers != []
    ensures TasksKnown(c, Top(w))
    ensures var v := ProcessAll(c, w);
            && Inv(c, v) && v.log == w.log + Unwound(Top(w))
            && v.managers == w.managers[..|w.managers| - 1] + [[]]
    decreases |Top(w)|
  {
    assert c.Wf() && |w.status| == |c.deps|;
    hide Inv, ProcessAll, TasksKnown, Unwound, EventOf;
    TopTask(c, w);
    if Top(w) == [] {
      ProcessNothing(c, w);
    } else {
      RunTopKeeps(c, w);
      PopNewestTop(c, w);
      UnwoundStep(w.log, Top(w));
      ProcessUnwinds(c, PopNewest(c, w));
    }
  }

  /** When the only manager has processed its tasks, no registering instance is left, so the next
      use of one builds a fresh instance. */
  lemma NothingLeft(c: Config, w: World, i: nat)
    requires Inv(c, w) && |w.managers| == 1 && Top(w) == [] && i < |w.status| && !c.leaky[i] && NoneCreating(w, i)
    ensures w.status[i].Absent?
    ensures Pointer(c, w, i).status[i].Created?
    ensures w.log < Pointer(c, w, i).log && Pointer(c, w, i).log[|Pointer(c, w, i).log| - 1] == Constructed(i)
  {
    FlatTop(w, []);
    assert Flat(w.managers) == [];
    var w1 := w.(status := w.status[i := Creating]);
    UseAllKeeps(c, w1, c.deps[i], i);
    PublishKeeps(c, UseAll(c, w1, c.deps[i], i), i);
  }

  // ---------------------------------------------------------------- whole runs

  datatype Op = NewManager | DestroyManager | Process | Use(instance: nat) | Register(id: nat)

  ghost predicate Enabled(c: Config, w: World, op: Op)
    requires Inv(c, w)
  {
    (op != NewManager ==> w.managers != []) && (op.Use? ==> op.instance < |w.status|)
  }

  ghost function Apply(c: Config, w: World, op: Op): World
    requires Inv(c, w) && Enabled(c, w, op)
  {
    if w.managers != [] then TopTask(c, w); ApplyManaged(c, w, op) else w.(managers := [[]])
  }

  ghost function ApplyManaged(c: Config, w: World, op: Op): World
    requires Inv(c, w) && Enabled(c, w, op) && w.managers != [] && TasksKnown(c, Top(w))
  {
    match op
    case NewManager => w.(managers := w.managers + [[]])
    case DestroyManager => var v := ProcessAll(c, w); v.(managers := w.managers[..|w.managers| - 1])
    case Process => ProcessAll(c, w)
    case Use(i) => Pointer(c, w, i)
    case Register(k) => RegisterTask(w, Other(k))
  }

  /** No destructor ever found an instance that it may use already destroyed. */
  ghost predicate LogSafe(log: seq<Event>) {
    forall k :: 0 <= k < |log| && log[k].Destroyed? ==> log[k].dependenciesAlive
  }

  ghost predicate Quiet(c: Config, w: World) {
    Inv(c, w) && NoneCreating(w, |w.status|) && LogSafe(w.log)
  }

  lemma {:induction false} UnwoundSafe(tasks: seq<Task>)
    ensures LogSafe(Unwound(tasks))
  {
    if tasks != [] {
      UnwoundSafe(tasks[..|tasks| - 1]);
    }
  }

  lemma AddOther(c: Config, status: seq<Status>, f: seq<Task>, k: nat)
    requires Accounted(c, status, f)
    ensures Accounted(c, status, f + [Other(k)])
  {
    var g := f + [Other(k)];
    assert forall j :: 0 <= j < |f| ==> g[j] == f[j] && g[..j] == f[..j];
    assert forall x :: x in g <==> x in f || x == Other(k);
  }

  lemma ProcessKeepsQuiet(c: Config, w: World)
    requires Quiet(c, w) && w.managers != []
    ensures TasksKnown(c, Top(w)) && Quiet(c, ProcessAll(c, w))
  {
    ProcessUnwinds(c, w);
    UnwoundSafe(Top(w));
    ProcessOnlyDestroys(c, w);
  }

  lemma PopOnlyDestroys(c: Config, w: World)
    requires Inv(c, w) && w.managers != [] && Top(w) != [] && TasksKnown(c, Top(w))
    ensures var v := PopNewest(c, w);
            && Inv(c, v) && |v.status| == |w.status|
            && forall j :: 0 <= j < |w.status| ==> v.status[j] == w.status[j] || v.status[j].Absent?
  {
    RunTopKeeps(c, w);
  }

  lemma {:induction false} ProcessOnlyDestroys(c: Config, w: World)
    requires Inv(c, w) && w.managers != [] && TasksKnown(c, Top(w))
    ensures forall j :: 0 <= j < |w.status| ==>
              ProcessAll(c, w).status[j] == w.status[j] || ProcessAll(c, w).status[j].Absent?
    decreases |Top(w)|
  {
    if Top(w) != [] {
      PopOnlyDestroys(c, w);
      PopNewestTop(c, w);
      hide PopNewest, ProcessAll, TasksKnown;
      ProcessOnlyDestroys(c, PopNewest(c, w));
    }
  }

  lemma NewManagerFlat(managers: seq<seq<Task>>)
    ensures Flat(managers + [[]]) == Flat(managers)
  {
    assert (managers + [[]])[..|managers|] == managers;
    assert Flat(managers) + [] == Flat(managers);
  }

  lemma DestroyManagerFlat(c: Config, w: World)
    requires Inv(c, w) && w.managers != [] && TasksKnown(c, Top(w))
    ensures Flat(ProcessAll(c, w).managers) == Flat(w.managers[..|w.managers| - 1])
  {
    ProcessUnwinds(c, w);
    NewManagerFlat(w.managers[..|w.managers| - 1]);
  }

  lemma StepKeepsQuiet(c: Config, w: World, op: Op)
    requires Quiet(c, w) && Enabled(c, w, op)
    ensures Quiet(c, Apply(c, w, op))
  {
    if w.managers == [] {
      NewManagerFlat(w.managers);
      assert w.managers + [[]] == [[]];
    } else {
      TopTask(c, w);
      match op
      case NewManager => NewManagerFlat(w.managers);
      case DestroyManager =>
        ProcessKeepsQuiet(c, w);
        DestroyManagerFlat(c, w);
      case Process => ProcessKeepsQuiet(c, w);
      case Use(i) => PointerKeeps(c, w, i);
      case Register(k) =>
        RegisterFlat(w, Other(k));
        AddOther(c, w.status, Flat(w.managers), k);
    }
  }

  ghost predicate Legal(c: Config, w: World, ops: seq<Op>)
    requires Quiet(c, w)
    decreases |ops|
  {
    ops == [] || (Enabled(c, w, ops[0]) && (StepKeepsQuiet(c, w, ops[0]); Legal(c, Apply(c, w, ops[0]), ops[1..])))
  }

  ghost function Run(c: Config, w: World, ops: seq<Op>): (v: World)
    requires Quiet(c, w) && Legal(c, w, ops)
    decreases |ops|
  {
    if ops == [] then w else
      StepKeepsQuiet(c, w, ops[0]);
      Run(c, Apply(c, w, ops[0]), ops[1..])
  }

  /** In every run with any number of shadowing managers, whatever the instances use: no destructor
      finds a registering instance that its constructor used already destroyed. */
  lemma {:induction false} DependenciesOutliveDependents(c: Config, w: World, ops: seq<Op>)
    requires Quiet(c, w) && Legal(c, w, ops)
    ensures Quiet(c, Run(c, w, ops))
    decreases |ops|
  {
    if ops != [] {
      StepKeepsQuiet(c, w, ops[0]);
      DependenciesOutliveDependents(c, Apply(c, w, ops[0]), ops[1..]);
    }
  }

  function Fresh(n: nat): World {
    World([], seq(n, i => Absent), [])
  }

  lemma FreshIsQuiet(c: Config)
    requires c.Wf()
    ensures Quiet(c, Fresh(|c.deps|))
  {
  }

  // ---------------------------------------------------------------- conservation over whole runs

  /** How often callback k has run. */
  function Runs(log: seq<Event>, k: nat): nat {
    multiset(log)[Ran(k)]
  }

  /** How often callback k is waiting to run. */
  function Waits(tasks: seq<Task>, k: nat): nat {
    multiset(tasks)[Other(k)]
  }

  /** How often instance i has been built. */
  function Builds(log: seq<Event>, i: nat): nat {
    multiset(log)[Constructed(i)]
  }

  /** How often instance i has been destroyed, its dependencies being alive. */
  function Deaths(log: seq<Event>, i: nat): nat {
    multiset(log)[Destroyed(i, true)]
  }

  function Owed(w: World, k: nat): nat {
    Runs(w.log, k) + Waits(Flat(w.managers), k)
  }

  function Alive(status: seq<Status>, i: nat): nat
    requires i < |status|
  {
    if status[i].Created? then 1 else 0
  }

  /** Each instance has been destroyed as often as it has been built, but for the one that is alive. */
  ghost predicate Balanced(w: World) {
    forall i :: 0 <= i < |w.status| ==> Builds(w.log, i) == Deaths(w.log, i) + Alive(w.status, i)
  }

  lemma EventCounts(log: seq<Event>, e: Event, k: nat, j: nat)
    ensures Runs(log + [e], k) == Runs(log, k) + (if e == Ran(k) then 1 else 0)
    ensures Builds(log + [e], j) == Builds(log, j) + (if e == Constructed(j) then 1 else 0)
    ensures Deaths(log + [e], j) == Deaths(log, j) + (if e == Destroyed(j, true) then 1 else 0)
  {
  }

  lemma TaskCounts(tasks: seq<Task>, task: Task, k: nat)
    ensures Waits(tasks + [task], k) == Waits(tasks, k) + (if task == Other(k) then 1 else 0)
  {
  }

  lemma PublishAdds(c: Config, w: World, i: nat)
    requires IsInstance(c, w, i) && w.managers != []
    ensures var v := Publish(c, w, i);
            && v.status == w.status[i := Created] && v.log == w.log + [Constructed(i)]
            && Flat(v.managers) == if c.leaky[i] then Flat(w.managers) else Flat(w.managers) + [Destroy(i)]
  {
    RegisterFlat(w, Destroy(i));
  }

  lemma PublishBalances(c: Config, w: World, i: nat, k: nat)
    requires IsInstance(c, w, i) && w.managers != [] && !w.status[i].Created? && Balanced(w)
    ensures Balanced(Publish(c, w, i)) && Owed(Publish(c, w, i), k) == Owed(w, k)
  {
    PublishAdds(c, w, i);
    var v := Publish(c, w, i);
    hide Publish, Flat, Runs, Waits, Builds, Deaths;
    EventCounts(w.log, Constructed(i), k, i);
    TaskCounts(Flat(w.managers), Destroy(i), k);
    forall j | 0 <= j < |w.status|
      ensures Builds(v.log, j) == Deaths(v.log, j) + Alive(v.status, j)
    {
      EventCounts(w.log, Constructed(i), k, j);
    }
  }

  lemma StartBalances(w: World, i: nat, k: nat)
    requires i < |w.status| && w.status[i].Absent? && Balanced(w)
    ensures var started := w.(status := w.status[i := Creating]);
            Balanced(started) && Owed(started, k) == Owed(w, k)
  {
    hide Flat, Runs, Waits, Builds, Deaths;
  }

  lemma {:induction false} PointerBalances(c: Config, w: World, i: nat, k: nat)
    requires Inv(c, w) && i < |w.status| && w.managers != [] && NoneCreating(w, i) && Balanced(w)
    ensures Balanced(Pointer(c, w, i)) && Owed(Pointer(c, w, i), k) == Owed(w, k)
    decreases i, |c.deps| + 1, 0
  {
    PointerIs(c, w, i);
    if w.status[i].Absent? {
      var w1 := w.(status := w.status[i := Creating]);
      StartCreating(c, w, i);
      StartBalances(w, i, k);
      UseAllKeeps(c, w1, c.deps[i], i);
      hide Balanced, Owed, Publish, Pointer, UseAll, NoneCreating;
      UseAllBalances(c, w1, c.deps[i], i, k);
      PublishBalances(c, UseAll(c, w1, c.deps[i], i), i, k);
    }
  }

  lemma {:induction false} UseAllBalances(c: Config, w: World, ds: seq<nat>, i: nat, k: nat)
    requires Inv(c, w) && i < |w.status| && w.managers != [] && NoneCreating(w, i - 1) && Balanced(w)
    requires forall m :: 0 <= m < |ds| ==> ds[m] < i
    ensures Balanced(UseAll(c, w, ds, i)) && Owed(UseAll(c, w, ds, i), k) == Owed(w, k)
    decreases i, |c.deps|, |ds|
  {
    if ds != [] {
      PointerKeeps(c, w, ds[0]);
      hide Balanced, Owed, Pointer;
      PointerBalances(c, w, ds[0], k);
      UseAllBalances(c, Pointer(c, w, ds[0]), ds[1..], i, k);
    }
  }

  lemma PopTakes(c: Config, w: World)
    requires Inv(c, w) && w.managers != [] && Top(w) != [] && TasksKnown(c, Top(w))
    ensures var (v, task) := (PopNewest(c, w), Top(w)[|Top(w)| - 1]);
            && Flat(w.managers) == Flat(v.managers) + [task] && v.log == w.log + [EventOf(task)]
            && (task.Destroy? ==> task.instance < |w.status| && w.status[task.instance].Created?)
            && v.status == if task.Destroy? then w.status[task.instance := Absent] else w.status
  {
    var n := |Top(w)| - 1;
    RunTopKeeps(c, w);
    TopTask(c, w);
    SameManagers(c, w);
    hide Flat, Once, InOrder, DependenciesAlive;
    assert Top(w)[n] in Flat(w.managers);
  }

  lemma PopBalances(c: Config, w: World, k: nat)
    requires Inv(c, w) && w.managers != [] && Top(w) != [] && TasksKnown(c, Top(w)) && Balanced(w)
    ensures Balanced(PopNewest(c, w)) && Owed(PopNewest(c, w), k) == Owed(w, k)
  {
    assert c.Wf() && |w.status| == |c.deps|;
    hide PopNewest, Flat, TasksKnown, Inv;
    PopTakes(c, w);
    TakingBalances(w, PopNewest(c, w), Top(w)[|Top(w)| - 1], k);
  }

  lemma TakingBalances(w: World, v: World, task: Task, k: nat)
    requires Balanced(w) && Flat(w.managers) == Flat(v.managers) + [task] && v.log == w.log + [EventOf(task)]
    requires task.Destroy? ==> task.instance < |w.status| && w.status[task.instance].Created?
    requires v.status == if task.Destroy? then w.status[task.instance := Absent] else w.status
    ensures Balanced(v) && Owed(v, k) == Owed(w, k)
  {
    hide Flat, Runs, Waits, Builds, Deaths;
    EventCounts(w.log, EventOf(task), k, 0);
    TaskCounts(Flat(v.managers), task, k);
    forall j | 0 <= j < |w.status|
      ensures Builds(v.log, j) == Deaths(v.log, j) + Alive(v.status, j)
    {
      EventCounts(w.log, EventOf(task), k, j);
    }
  }

  lemma {:induction false} ProcessBalances(c: Config, w: World, k: nat)
    requires Inv(c, w) && w.managers != [] && TasksKnown(c, Top(w)) && Balanced(w)
    ensures Balanced(ProcessAll(c, w)) && Owed(ProcessAll(c, w), k) == Owed(w, k)
    decreases |Top(w)|
  {
    assert c.Wf() && |w.status| == |c.deps|;
    hide Inv, PopNewest, ProcessAll, TasksKnown, Balanced, Owed, Flat;
    if Top(w) == [] {
      ProcessNothing(c, w);
    } else {
      PopIsKept(c, w);
      PopBalances(c, w, k);
      PopNewestTop(c, w);
      ProcessBalances(c, PopNewest(c, w), k);
    }
  }

  lemma PopIsKept(c: Config, w: World)
    requires Inv(c, w) && w.managers != [] && Top(w) != [] && TasksKnown(c, Top(w))
    ensures Inv(c, PopNewest(c, w))
  {
    RunTopKeeps(c, w);
  }

  lemma RegisterOwes(w: World, n: nat, k: nat)
    requires w.managers != []
    ensures var v := RegisterTask(w, Other(n));
            && v.status == w.status && v.log == w.log && Owed(v, k) == Owed(w, k) + (if n == k then 1 else 0)
  {
    RegisterFlat(w, Other(n));
    TaskCounts(Flat(w.managers), Other(n), k);
  }

  lemma StepBalances(c: Config, w: World, op: Op, k: nat)
    requires Quiet(c, w) && Enabled(c, w, op) && Balanced(w)
    ensures var v := Apply(c, w, op);
            Balanced(v) && Owed(v, k) == Owed(w, k) + (if op == Register(k) then 1 else 0)
  {
    hide Inv, TasksKnown, ProcessAll, Pointer, Flat, RegisterTask, LogSafe, Runs, Waits, Builds, Deaths;
    if w.managers == [] {
      NewManagerFlat(w.managers);
      assert w.managers + [[]] == [[]];
    } else {
      TopTask(c, w);
      match op
      case NewManager => NewManagerFlat(w.managers);
      case DestroyManager =>
        ProcessBalances(c, w, k);
        DestroyManagerFlat(c, w);
      case Process => ProcessBalances(c, w, k);
      case Use(i) =>
        NoneBelow(w, i);
        PointerBalances(c, w, i, k);
      case Register(n) => RegisterOwes(w, n, k);
    }
  }

  lemma NoneBelow(w: World, i: nat)
    requires NoneCreating(w, |w.status|) && i < |w.status|
    ensures NoneCreating(w, i)
  {
  }

  lemma {:induction false} RunBalances(c: Config, w: World, ops: seq<Op>, k: nat)
    requires Quiet(c, w) && Legal(c, w, ops) && Balanced(w)
    ensures Balanced(Run(c, w, ops)) && Owed(Run(c, w, ops), k) == Owed(w, k) + multiset(ops)[Register(k)]
    decreases |ops|
  {
    hide Apply, Balanced, Owed, Inv, NoneCreating, LogSafe;
    if ops != [] {
      StepKeepsQuiet(c, w, ops[0]);
      StepBalances(c, w, ops[0], k);
      RunBalances(c, Apply(c, w, ops[0]), ops[1..], k);
      RegisteredFirst(ops, k);
    }
  }

  lemma RegisteredFirst(ops: seq<Op>, k: nat)
    requires ops != []
    ensures multiset(ops)[Register(k)] == (if ops[0] == Register(k) then 1 else 0) + multiset(ops[1..])[Register(k)]
  {
    assert ops == [ops[0]] + ops[1..];
  }

  /** In every run of a fresh process each registered callback has run exactly as often as it was
      registered, but for the registrations that are still waiting, and each instance has been
      destroyed exactly as often as it has been built, but for the one that is alive. */
  lemma NothingIsLost(c: Config, ops: seq<Op>, k: nat, i: nat)
    requires c.Wf() && Quiet(c, Fresh(|c.deps|)) && Legal(c, Fresh(|c.deps|), ops) && i < |c.deps|
    ensures var v := Run(c, Fresh(|c.deps|), ops);
            && Runs(v.log, k) + Waits(Flat(v.managers), k) == multiset(ops)[Register(k)]
            && |v.status| == |c.deps|
            && Builds(v.log, i) == Deaths(v.log, i) + if v.status[i].Created? then 1 else 0
  {
    RunBalances(c, Fresh(|c.deps|), ops, k);
    DependenciesOutliveDependents(c, Fresh(|c.deps|), ops);
    hide Legal, Run;
  }
}
