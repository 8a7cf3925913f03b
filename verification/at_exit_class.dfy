/** The exit managers and lazy instances as they are updated in place, against AtExit. */
module AtExitObjects {
  import opened AtExit

  class Process {
    const deps: seq<seq<nat>>
    const leaky: seq<bool>
    var managers: seq<seq<Task>>
    var status: seq<Status>
    ghost var log: seq<Event>

    ghost function Conf(): Config {
      Config(deps, leaky)
    }

    ghost function View(): World
      reads this
    {
      World(managers, status, log)
    }

    ghost predicate Valid()
      reads this
    {
      Inv(Conf(), View())
    }

    constructor (deps: seq<seq<nat>>, leaky: seq<bool>)
      requires Config(deps, leaky).Wf()
      ensures Conf() == Config(deps, leaky) && View() == Fresh(|deps|) && Quiet(Conf(), View())
    {
      this.deps, this.leaky := deps, leaky;
      managers, log := [], [];
      status := seq(|deps|, i => Absent);
      new;
      assert View() == Fresh(|deps|);
      FreshIsQuiet(Conf());
    }

    method NewManager()
      requires Valid()
      modifies this
      ensures View() == old(View()).(managers := old(managers) + [[]])
    {
      managers := managers + [[]];
    }

    method RegisterTask(task: Task)
      requires managers != []
      modifies this`managers
      ensures View() == AtExit.RegisterTask(old(View()), task)
    {
      var top := |managers| - 1;
      managers := managers[..top] + [managers[top] + [task]];
    }

    /** Runs one task; for an instance this is OnExit: delete it, then reset the word to zero. */
    method RunTask(task: Task)
      requires Conf().Wf() && |status| == |deps| && (task.Destroy? ==> task.instance < |deps|)
      modifies this`status, this`log
      ensures View() == AtExit.RunTask(Conf(), old(View()), task)
    {
      match task {
        case Destroy(i) =>
          log := log + [Destroyed(i, DependenciesAlive(Conf(), status, i))];
          status := status[i := Absent];
        case Other(k) =>
          log := log + [Ran(k)];
      }
    }

    /** One turn of the loop below: run the newest task, then take it off. */
    method RunNewest()
      requires Valid() && managers != [] && Top(View()) != [] && TasksKnown(Conf(), Top(View()))
      modifies this
      ensures Valid() && managers != [] && TasksKnown(Conf(), Top(View())) && |Top(View())| < |Top(old(View()))|
      ensures ProcessAll(Conf(), View()) == ProcessAll(Conf(), old(View()))
      ensures |managers| == |old(managers)|
    {
      ghost var start := View();
      RunTopKeeps(Conf(), start);
      PopNewestTop(Conf(), start);
      hide Inv, Flat, TasksKnown, ProcessAll, AtExit.RunTask;
      var top := |managers| - 1;
      var n := |managers[top]| - 1;
      var task := managers[top][n];
      RunTask(task);
      managers := managers[..top] + [managers[top][..n]];
      assert View() == PopNewest(Conf(), start);
    }

    method ProcessCallbacksNow()
      requires Valid() && managers != []
      modifies this
      ensures Valid() && TasksKnown(Conf(), Top(old(View()))) && View() == ProcessAll(Conf(), old(View()))
      ensures log == old(log) + Unwound(Top(old(View())))
    {
      ghost var start := View();
      ProcessUnwinds(Conf(), start);
      var top := |managers| - 1;
      while managers[top] != []
        invariant Valid() && managers != [] && top == |managers| - 1 && TasksKnown(Conf(), Top(View()))
        invariant ProcessAll(Conf(), View()) == ProcessAll(Conf(), start)
        decreases |managers[top]|
      {
        RunNewest();
      }
    }

    method DestroyManager()
      requires Valid() && managers != []
      modifies this
      ensures Valid() && managers == old(managers)[..|old(managers)| - 1]
      ensures log == old(log) + Unwound(Top(old(View())))
    {
      ghost var start := View();
      ProcessCallbacksNow();
      ProcessUnwinds(Conf(), start);
      FlatTop(View(), []);
      managers := managers[..|managers| - 1];
      assert Flat(managers) + [] == Flat(managers);
    }

    /** What the constructor of instance i uses. */
    method UseDependencies(i: nat)
      requires Valid() && i < |status| && managers != [] && NoneCreating(View(), i - 1)
      modifies this
      ensures Valid() && |status| == |deps| && managers != []
      ensures View() == UseAll(Conf(), old(View()), deps[i], i)
      decreases i, 0
    {
      assert Conf().Wf() && |status| == |deps|;
      hide Inv, UseAll, AtExit.Pointer, Grew;
      ghost var started := View();
      UseAllKeeps(Conf(), started, deps[i], i);
      assert deps[i][0..] == deps[i];
      var k := 0;
      while k < |deps[i]|
        invariant 0 <= k <= |deps[i]|
        invariant Valid() && i < |status| == |deps| && managers != [] && NoneCreating(View(), i - 1)
        invariant UseAll(Conf(), View(), deps[i][k..], i) == UseAll(Conf(), started, deps[i], i)
      {
        UseAllStep(Conf(), View(), deps[i], k, i);
        Pointer(deps[i][k]);
        k := k + 1;
      }
      PointerIs(Conf(), View(), i);
      assert deps[i][k..] == [];
    }

    /** The constructor has returned: publish the instance, then register its destruction. */
    method Complete(i: nat)
      requires i < |status| == |deps| == |leaky| && managers != []
      modifies this
      ensures View() == Publish(Conf(), old(View()), i)
    {
      status := status[i := Created];
      log := log + [Constructed(i)];
      if !leaky[i] {
        RegisterTask(Destroy(i));
      }
    }

    /** Pointer(): `i` is not under construction, nor is anything that it may use. */
    method Pointer(i: nat)
      requires Valid() && i < |status| && managers != [] && NoneCreating(View(), i)
      modifies this
      ensures Valid() && View() == AtExit.Pointer(Conf(), old(View()), i)
      ensures status[i].Created? && NoneCreating(View(), i) && Grew(old(View()), View(), i)
      decreases i, 1
    {
      assert Conf().Wf() && |status| == |deps| == |leaky|;
      PointerKeeps(Conf(), View(), i);
      PointerIs(Conf(), View(), i);
      if !status[i].Absent? {
        return;
      }
      StartCreating(Conf(), View(), i);
      hide Inv, UseAll, Publish, AtExit.Pointer, Grew;
      status := status[i := Creating];
      UseDependencies(i);
      Complete(i);
    }
  }
}
