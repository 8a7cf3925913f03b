/** The class of base/callback_list.h over the steps of CallbackLists, with a Notify whose callbacks
    may add, unsubscribe and notify again. */
module CallbackListObjects {
  import opened Basics
  import opened CallbackLists
  import opened CallbackScripts
  import opened CallbackValues

  class CallbackList {
    var callbacks: seq<Cell>
    var activeIteratorCount: int
    // The live Iterator objects' list_iter_ fields and the live Subscription objects' iter_ fields.
    var iterators: map<nat, Position>
    var subscriptions: set<nat>
    var nextNode: nat
    var nextIterator: nat

    ghost function View(): State
      reads this
    {
      State(callbacks, activeIteratorCount, iterators, subscriptions, nextNode, nextIterator)
    }

    ghost predicate Valid()
      reads this
    {
      Inv(View())
    }

    constructor ()
      ensures Valid() && View() == EMPTY
    {
      callbacks, activeIteratorCount := [], 0;
      iterators, subscriptions := map[], {};
      nextNode, nextIterator := 0, 0;
    }

    /** The result names the subscription. */
    method AddCallback(cb: Callback) returns (subscription: nat)
      requires Valid()
      modifies this
      ensures Valid() && View() == Apply(old(View()), Add(cb)) && subscription == old(nextNode)
      ensures CallbackOf(callbacks, subscription) == Some(cb) && subscription !in old(subscriptions)
      ensures forall n :: n in old(subscriptions) ==> CallbackOf(callbacks, n) == CallbackOf(old(callbacks), n)
    {
      ghost var s := View();
      StepKeepsInv(s, Add(cb));
      AddedCarries(s, cb);
      hide Inv, CallbackOf;
      subscription := nextNode;
      callbacks := callbacks + [Cell(nextNode, Some(cb))];
      subscriptions := subscriptions + {nextNode};
      nextNode := nextNode + 1;
    }

    method DestroySubscription(n: nat)
      requires Valid() && n in subscriptions
      modifies this
      ensures Valid() && View() == Apply(old(View()), Unsubscribe(n))
    {
      hide Inv, Apply, Index;
      StepKeepsInv(View(), Unsubscribe(n));
      UnsubscribeIs(View(), n);
      var i := Index(callbacks, n);
      if activeIteratorCount != 0 {
        callbacks := callbacks[i := Cell(n, None)];
      } else {
        callbacks := callbacks[..i] + callbacks[i + 1..];
      }
      subscriptions := subscriptions - {n};
    }

    method GetIterator() returns (it: nat)
      requires Valid()
      modifies this
      ensures Valid() && View() == Apply(old(View()), Open) && it == old(nextIterator) && it in iterators
    {
      StepKeepsInv(View(), Open);
      hide Inv;
      it := nextIterator;
      iterators := iterators[it := PositionAt(callbacks, 0)];
      nextIterator := nextIterator + 1;
      activeIteratorCount := activeIteratorCount + 1;
    }

    method CopyIterator(source: nat) returns (it: nat)
      requires Valid() && source in iterators
      modifies this
      ensures Valid() && View() == Apply(old(View()), Copy(source)) && it == old(nextIterator)
      ensures it in iterators && Pending(View(), it) == old(Pending(View(), source))
    {
      hide Inv, Pending, Apply;
      StepKeepsInv(View(), Copy(source));
      CopyPending(View(), source);
      CopyIs(View(), source);
      it := nextIterator;
      iterators := iterators[it := iterators[source]];
      nextIterator := nextIterator + 1;
      activeIteratorCount := activeIteratorCount + 1;
    }

    method Compact()
      modifies this`callbacks
      ensures callbacks == Compacted(old(callbacks))
    {
      var i := 0;
      ghost var all := Compacted(callbacks);
      CompactStart(callbacks);
      hide Compacting, Compacted;
      while i < |callbacks|
        invariant i <= |callbacks| && Compacting(callbacks, i, all)
        decreases |callbacks| - i
      {
        CompactStep(callbacks, i, all);
        if callbacks[i].callback.None? {
          callbacks := callbacks[..i] + callbacks[i + 1..];
        } else {
          i := i + 1;
        }
      }
      CompactEnd(callbacks, all);
    }

    method DestroyIterator(it: nat)
      requires Valid() && it in iterators
      modifies this
      ensures Valid() && View() == Apply(old(View()), Close(it))
    {
      StepKeepsInv(View(), Close(it));
      hide Inv;
      iterators := iterators - {it};
      activeIteratorCount := activeIteratorCount - 1;
      if activeIteratorCount == 0 {
        Compact();
      }
    }

    /** The node and its callback, which in the source is the pointer that GetNext returns. */
    method Next(it: nat) returns (node: Option<nat>, cb: Option<Callback>)
      requires Valid() && it in iterators
      modifies this`iterators
      ensures Valid() && View() == Apply(old(View()), GetNext(it)) && node == Returned(old(View()), it)
      ensures cb == if node.Some? then CallbackOf(callbacks, node.value) else None
      ensures node.Some? <==> cb.Some?
    {
      ghost var s := View();
      StepKeepsInv(s, GetNext(it));
      var i := FirstWithCallback(IndexOf(callbacks, iterators[it]));
      GetNextIs(s, it, i);
      hide Inv, Apply, Returned, IndexOf, SkipNull, PositionAt, CallbackOf;
      if i < |callbacks| {
        node, cb := Some(callbacks[i].id), callbacks[i].callback;
        iterators := iterators[it := PositionAt(callbacks, i + 1)];
      } else {
        node, cb := None, None;
        iterators := iterators[it := PositionAt(callbacks, i)];
      }
    }

    method FirstWithCallback(from: nat) returns (i: nat)
      requires from <= |callbacks|
      ensures i == SkipNull(callbacks, from)
    {
      i := from;
      while i < |callbacks| && callbacks[i].callback.None?
        invariant from <= i <= |callbacks|
        invariant SkipNull(callbacks, from) == SkipNull(callbacks, i)
      {
        i := i + 1;
      }
    }

    /** One turn of the loop in Notify: take the next callback and run it. */
    method RunNext(it: nat, script: Script)
      returns (node: Option<nat>, cb: Option<Callback>, rest: Script, ghost more: seq<Op>)
      requires Valid() && it in iterators && it < nextIterator
      modifies this
      ensures Valid() && it in iterators && it < nextIterator
      ensures TakesTurn(old(View()), it, script, node, cb, rest, more)
      ensures View() == Run(Apply(old(View()), GetNext(it)), more)
      ensures node.None? ==> Pending(View(), it) == []
      ensures node.Some? ==> AddsIn(rest) + |Pending(View(), it)| < AddsIn(script) + |Pending(old(View()), it)|
      ensures CountAdds(more) + AddsIn(rest) <= AddsIn(script)
      ensures rest == script || rest < script
      decreases script, 0
    {
      ghost var s := View();
      JustOne(s, it);
      node, cb := Next(it);
      rest, more := script, [];
      ghost var t := View();
      hide Inv, Legal, Pending, Run, Returned, CountAdds, Performs, CallbackOf;
      if node.Some? && script.Turn? {
        more := Perform(script.actions);
        rest := script.rest;
        TurnLemma(s, t, more, it);
      }
    }

    /** The loop in Notify. */
    method RunAll(it: nat, script: Script) returns (runs: seq<nat>, ran: seq<Callback>, ghost mid: seq<Op>)
      requires Valid() && it in iterators && it < nextIterator
      modifies this
      ensures Valid() && it in iterators && it < nextIterator
      ensures OnPass(old(View()), mid, it, runs, ran) && View() == Run(old(View()), mid)
      ensures Follows(old(View()), it, script, mid)
      ensures Pending(View(), it) == []
      ensures CountAdds(mid) <= AddsIn(script)
      decreases script, 1
    {
      ghost var s := View();
      StartPass(s, it, script);
      runs, ran, mid := [], [], [];
      var rest := script;
      var node := Some(0);
      hide Passing, OnPass, Follows, Pending, CountAdds, AddsIn, Inv, Apply, TakesTurn, Run, Legal, CallbackOf;
      while node.Some?
        invariant Valid() && it in iterators && it < nextIterator
        invariant Passing(s, it, script, mid, runs, ran, View(), rest, node.Some?)
        invariant node.None? ==> Pending(View(), it) == []
        invariant rest == script || rest < script
        decreases AddsIn(rest) + |Pending(View(), it)|, if node.Some? then 1 else 0
      {
        ghost var more, before, turns := [], View(), rest;
        var cb;
        node, cb, rest, more := RunNext(it, rest);
        PassOn(s, it, script, mid, runs, ran, before, turns, node, cb, rest, more, View());
        mid := mid + ([GetNext(it)] + more);
        if node.Some? {
          runs, ran := runs + [node.value], ran + [cb.value];
        }
      }
      PassDone(s, it, script, mid, runs, ran, View(), rest);
    }

    /** One pass.  `mid` is every step taken between creating the iterator and destroying it, by
        the pass itself and by the callbacks; `runs` are the nodes whose callbacks this pass ran,
        and `ran` those callbacks. */
    method Notify(script: Script) returns (runs: seq<nat>, ran: seq<Callback>, ghost mid: seq<Op>)
      requires Valid()
      modifies this
      ensures Valid() && old(nextIterator) < nextIterator
      ensures OnPass(Apply(old(View()), Open), mid, old(nextIterator), runs, ran)
      ensures var (s, it) := (Apply(old(View()), Open), old(nextIterator));
              && it in Run(s, mid).iterators && View() == Apply(Run(s, mid), Close(it))
              && Follows(s, it, script, mid)
      ensures RanExactly(old(View()), mid, runs, ran)
      ensures CountAdds(mid) <= AddsIn(script)
      decreases script, 2
    {
      ghost var s := View();
      var it := GetIterator();
      runs, ran, mid := RunAll(it, script);
      hide OnPass, RanExactly, Follows, Inv, Apply;
      NotifyRuns(s, mid, runs, ran);
      DestroyIterator(it);
    }

    /** What a running callback does. */
    method Perform(actions: Actions) returns (ghost ops: seq<Op>)
      requires Valid()
      modifies this
      ensures Valid()
      ensures Legal(old(View()), ops) && View() == Run(old(View()), ops)
      ensures Performs(old(View()), actions, ops)
      ensures Foreign(ops, old(nextIterator)) && nextIterator >= old(nextIterator)
      ensures CountAdds(ops) <= AddsOf(actions)
      decreases actions, 3
    {
      ghost var s := View();
      ops := [];
      var left := actions;
      NoneDone(s, actions);
      hide LeftTo, Performs, Did, Inv;
      while left.Then?
        invariant Valid() && Legal(s, ops) && View() == Run(s, ops)
        invariant LeftTo(s, actions, ops, View(), left)
        invariant Foreign(ops, s.nextIterator) && nextIterator >= s.nextIterator
        invariant CountAdds(ops) + AddsOf(left) <= AddsOf(actions)
        invariant left == actions || left < actions
        decreases left
      {
        ghost var before := View();
        ghost var more := PerformOne(left.action);
        RunConcat(s, ops, more);
        CountAddsConcat(ops, more);
        OneDone(s, actions, ops, before, left, more);
        ops := ops + more;
        left := left.rest;
      }
      AllDone(s, actions, ops, View());
    }

    method PerformOne(action: Action) returns (ghost ops: seq<Op>)
      requires Valid()
      modifies this
      ensures Valid()
      ensures Legal(old(View()), ops) && View() == Run(old(View()), ops)
      ensures Did(old(View()), action, ops)
      ensures Foreign(ops, old(nextIterator)) && nextIterator >= old(nextIterator)
      ensures CountAdds(ops) <= AddsOf(Then(action, NoMore))
      decreases action, 4
    {
      hide Inv, Apply, Legal, Run, Did, Follows, OnPass, RanExactly, Foreign, CountAdds, AddsOf, AddsIn, CallbackOf;
      ghost var s := View();
      ops := [];
      match action {
        case AddOne(cb) =>
          var _ := AddCallback(cb);
          ops := [Add(cb)];
          AddDone(s, cb);
        case Remove(n) =>
          RemoveDone(s, n);
          if n in subscriptions {
            DestroySubscription(n);
            ops := [Unsubscribe(n)];
          }
        case Nested(inner) =>
          var runs, ran, mid := Notify(inner);
          ops := [Open] + (mid + [Close(s.nextIterator)]);
          NestedDone(s, inner, mid, runs, ran);
      }
    }
  }

  /** What is before `i` stays, what comes after is still to be compacted. */
  ghost predicate Compacting(cells: seq<Cell>, i: nat, all: seq<Cell>)
    requires i <= |cells|
  {
    cells[..i] + Compacted(cells[i..]) == all
  }

  lemma CompactStart(cells: seq<Cell>)
    ensures Compacting(cells, 0, Compacted(cells))
  {
    assert cells[0..] == cells;
  }

  lemma CompactStep(cells: seq<Cell>, i: nat, all: seq<Cell>)
    requires i < |cells| && Compacting(cells, i, all)
    ensures if cells[i].callback.None? then Compacting(cells[..i] + cells[i + 1..], i, all)
            else Compacting(cells, i + 1, all)
  {
    assert cells[i..][1..] == cells[i + 1..];
    if cells[i].callback.None? {
      var erased := cells[..i] + cells[i + 1..];
      assert erased[..i] == cells[..i] && erased[i..] == cells[i + 1..];
    } else {
      assert cells[..i + 1] == cells[..i] + [cells[i]];
    }
  }

  lemma CompactEnd(cells: seq<Cell>, all: seq<Cell>)
    requires Compacting(cells, |cells|, all)
    ensures cells == all
  {
    assert cells[|cells|..] == [];
  }

  lemma GetNextIs(s: State, it: nat, i: nat)
    requires Inv(s) && it in s.iterators && i == SkipNull(s.cells, IndexOf(s.cells, s.iterators[it]))
    ensures i < |s.cells| ==>
              && Returned(s, it) == Some(s.cells[i].id)
              && s.cells[i].callback.Some? && CallbackOf(s.cells, s.cells[i].id) == s.cells[i].callback
              && Apply(s, GetNext(it)) == s.(iterators := s.iterators[it := PositionAt(s.cells, i + 1)])
    ensures i == |s.cells| ==>
              && Returned(s, it) == None
              && Apply(s, GetNext(it)) == s.(iterators := s.iterators[it := PositionAt(s.cells, i)])
  {
    if i < |s.cells| {
      IndexFound(s.cells, s.nextNode, i);
    }
  }

  lemma CopyIs(s: State, source: nat)
    requires source in s.iterators
    ensures Apply(s, Copy(source)) == s.(
              count := s.count + 1, nextIterator := s.nextIterator + 1,
              iterators := s.iterators[s.nextIterator := s.iterators[source]])
  {
  }

  lemma UnsubscribeIs(s: State, n: nat)
    requires Inv(s) && n in s.subscriptions
    ensures var i := Index(s.cells, n);
            && i < |s.cells|
            && Apply(s, Unsubscribe(n)) == s.(
                 cells := if s.count != 0 then s.cells[i := Cell(n, None)] else s.cells[..i] + s.cells[i + 1..],
                 subscriptions := s.subscriptions - {n})
  {
    assert LiveNode(s.cells, n);
  }

  /** `mid` is a legal run in which the iterator survives and returns the nodes `runs`, whose
      callbacks are `ran`. */
  ghost predicate OnPass(s: State, mid: seq<Op>, it: nat, runs: seq<nat>, ran: seq<Callback>) {
    && Inv(s) && it in s.iterators && Legal(s, mid) && Foreign(mid, it) && Close(it) !in mid
    && runs == Visited(s, mid, it) && ran == Ran(s, mid, it)
  }

  lemma AddedCarries(s: State, cb: Callback)
    requires Inv(s)
    ensures CallbackOf(s.cells + [Cell(s.nextNode, Some(cb))], s.nextNode) == Some(cb)
    ensures s.nextNode !in s.subscriptions
    ensures forall n :: n in s.subscriptions ==>
              CallbackOf(s.cells + [Cell(s.nextNode, Some(cb))], n) == CallbackOf(s.cells, n)
  {
    AddCarries(s, cb);
    if s.nextNode in s.subscriptions {
      SubscribedIsOld(s, s.nextNode);
    }
    forall n | n in s.subscriptions
      ensures CallbackOf(s.cells + [Cell(s.nextNode, Some(cb))], n) == CallbackOf(s.cells, n)
    {
      StepKeepsCallback(s, Add(cb), n);
    }
  }

  /** A pass on its way: what it has done so far, and the turns that it has yet to take. */
  ghost predicate Passing(s: State, it: nat, script: Script, mid: seq<Op>, runs: seq<nat>, ran: seq<Callback>,
                          now: State, rest: Script, goesOn: bool)
  {
    && OnPass(s, mid, it, runs, ran) && now == Run(s, mid)
    && (if goesOn then PassTo(s, it, script, mid, now, rest) else Follows(s, it, script, mid))
    && CountAdds(mid) + AddsIn(rest) <= AddsIn(script)
  }

  lemma StartPass(s: State, it: nat, script: Script)
    requires Inv(s) && it in s.iterators
    ensures Passing(s, it, script, [], [], [], s, script, true)
  {
    NoneTaken(s, it, script);
  }

  lemma PassOn(s: State, it: nat, script: Script, mid: seq<Op>, runs: seq<nat>, ran: seq<Callback>, before: State,
               turns: Script, node: Option<nat>, cb: Option<Callback>, rest: Script, more: seq<Op>, after: State)
    requires Passing(s, it, script, mid, runs, ran, before, turns, true) && it < before.nextIterator
    requires TakesTurn(before, it, turns, node, cb, rest, more) && after == Run(Apply(before, GetNext(it)), more)
    requires CountAdds(more) + AddsIn(rest) <= AddsIn(turns)
    ensures node.Some? ==>
              && cb.Some?
              && Passing(s, it, script, mid + ([GetNext(it)] + more), runs + [node.value], ran + [cb.value],
                         after, rest, true)
    ensures node.None? ==> Passing(s, it, script, mid + ([GetNext(it)] + more), runs, ran, after, rest, false)
  {
    ExtendPass(s, mid, runs, ran, it, before, script, turns, node, cb, rest, more);
    SomeOrNone(before, it, turns, node, cb, rest, more);
    hide OnPass, TakesTurn, PassTo, Follows, CountAdds, AddsIn, Run;
    assert runs + [] == runs && ran + [] == ran;
  }

  lemma SomeOrNone(s: State, it: nat, script: Script, node: Option<nat>, cb: Option<Callback>, rest: Script,
                   more: seq<Op>)
    requires TakesTurn(s, it, script, node, cb, rest, more)
    ensures node.Some? <==> cb.Some?
  {
  }

  lemma PassDone(s: State, it: nat, script: Script, mid: seq<Op>, runs: seq<nat>, ran: seq<Callback>, now: State,
                 rest: Script)
    requires Passing(s, it, script, mid, runs, ran, now, rest, false)
    ensures OnPass(s, mid, it, runs, ran) && now == Run(s, mid) && Follows(s, it, script, mid)
    ensures CountAdds(mid) <= AddsIn(script)
  {
  }

  /** The next callback performs its turn, or there is none. */
  ghost predicate TakesTurn(s: State, it: nat, script: Script, node: Option<nat>, cb: Option<Callback>,
                            rest: Script, more: seq<Op>)
  {
    && Inv(s) && it in s.iterators && node == Returned(s, it)
    && cb == (if node.Some? then CallbackOf(s.cells, node.value) else None) && (node.Some? <==> cb.Some?)
    && Legal(Apply(s, GetNext(it)), more) && Foreign(more, s.nextIterator)
    && if node.Some?
       then Performs(Apply(s, GetNext(it)), FirstTurn(script), more) && rest == LaterTurns(script)
       else more == [] && rest == script
  }

  lemma JustOne(s: State, it: nat)
    requires Inv(s) && it in s.iterators && it < s.nextIterator
    ensures var t := Apply(s, GetNext(it));
            && it in t.iterators && t.cells == s.cells
            && Legal(t, []) && Run(t, []) == t && Performs(t, NoMore, []) && CountAdds([]) == 0
            && (Returned(s, it).None? ==> Pending(t, it) == [])
            && (Returned(s, it).Some? ==> |Pending(t, it)| < |Pending(s, it)|)
  {
    PassStep(s, GetNext(it), it);
  }

  /** After the callback has returned, the pass has made progress by one node, whatever was added. */
  lemma TurnLemma(s: State, t: State, more: seq<Op>, it: nat)
    requires Inv(t) && it in s.iterators && t == Apply(s, GetNext(it))
    requires Legal(t, more) && Foreign(more, t.nextIterator) && it < t.nextIterator
    ensures it in Run(t, more).iterators
    ensures |Pending(Run(t, more), it)| <= |Pending(t, it)| + CountAdds(more)
  {
    PendingGrowth(t, more, it);
  }

  /** What one turn adds to the nodes visited and to the callbacks run. */
  lemma TurnVisits(s: State, it: nat, script: Script, node: Option<nat>, cb: Option<Callback>,
                   rest: Script, more: seq<Op>)
    requires TakesTurn(s, it, script, node, cb, rest, more) && it < s.nextIterator
    ensures var ops := [GetNext(it)] + more;
            && Legal(s, ops) && Close(it) !in ops && Foreign(ops, it)
            && Run(s, ops) == Run(Apply(s, GetNext(it)), more)
            && Visited(s, ops, it) == (if node.Some? then [node.value] else [])
            && Ran(s, ops, it) == (if cb.Some? then [cb.value] else [])
            && CountAdds(ops) == CountAdds(more)
  {
    var ops, t := [GetNext(it)] + more, Apply(s, GetNext(it));
    assert ops[0] == GetNext(it) && ops[1..] == more;
    StepKeepsInv(s, GetNext(it));
    ForeignVisitsNothing(t, more, it);
    ForeignRunsNothing(t, more, it);
    FirstReturned(s, ops, it);
  }

  lemma ExtendPass(s: State, mid: seq<Op>, runs: seq<nat>, ran: seq<Callback>, it: nat, before: State,
                   script: Script, turns: Script, node: Option<nat>, cb: Option<Callback>, rest: Script,
                   more: seq<Op>)
    requires OnPass(s, mid, it, runs, ran) && before == Run(s, mid) && it < before.nextIterator
    requires TakesTurn(before, it, turns, node, cb, rest, more) && PassTo(s, it, script, mid, before, turns)
    ensures var all := mid + ([GetNext(it)] + more);
            && OnPass(s, all, it, runs + (if node.Some? then [node.value] else []),
                      ran + (if cb.Some? then [cb.value] else []))
            && Run(s, all) == Run(Apply(before, GetNext(it)), more)
            && CountAdds(all) == CountAdds(mid) + CountAdds(more)
            && (node.Some? ==> PassTo(s, it, script, all, Run(s, all), rest))
            && (node.None? ==> Follows(s, it, script, all))
  {
    var turn := [GetNext(it)] + more;
    TurnVisits(before, it, turns, node, cb, rest, more);
    PassExtended(s, mid, turn, it);
    if node.Some? {
      OneTaken(s, it, script, mid, before, turns, more);
    } else {
      AllTaken(s, it, script, mid, before, turns);
      assert turn == [GetNext(it)];
    }
  }

  lemma PassExtended(s: State, mid: seq<Op>, more: seq<Op>, it: nat)
    requires Inv(s) && it in s.iterators && Legal(s, mid) && Foreign(mid, it) && Close(it) !in mid
    requires Legal(Run(s, mid), more) && Foreign(more, it) && Close(it) !in more
    ensures Inv(Run(s, mid)) && it in Run(s, mid).iterators
    ensures Legal(s, mid + more) && Foreign(mid + more, it) && Close(it) !in mid + more
    ensures Run(s, mid + more) == Run(Run(s, mid), more)
    ensures Visited(s, mid + more, it) == Visited(s, mid, it) + Visited(Run(s, mid), more, it)
    ensures Ran(s, mid + more, it) == Ran(s, mid, it) + Ran(Run(s, mid), more, it)
    ensures CountAdds(mid + more) == CountAdds(mid) + CountAdds(more)
  {
    RunConcat(s, mid, more);
    VisitedConcat(s, mid, more, it);
    RanConcat(s, mid, more, it);
    CountAddsConcat(mid, more);
  }

  lemma EndPass(s: State, mid: seq<Op>, it: nat)
    requires Legal(s, mid) && it in Run(s, mid).iterators
    ensures Legal(s, mid + [Close(it)]) && Run(s, mid + [Close(it)]) == Apply(Run(s, mid), Close(it))
  {
    RunConcat(s, mid, [Close(it)]);
  }

  lemma BeginPass(now: State, ops: seq<Op>)
    requires Legal(Apply(now, Open), ops)
    ensures Legal(now, [Open] + ops) && Run(now, [Open] + ops) == Run(Apply(now, Open), ops)
  {
    assert ([Open] + ops)[1..] == ops;
  }

  lemma PassOps(mid: seq<Op>, it: nat)
    requires Foreign(mid, it)
    ensures var ops := [Open] + (mid + [Close(it)]);
            Foreign(ops, it) && CountAdds(ops) == CountAdds(mid)
  {
    CountAddsConcat(mid, [Close(it)]);
    CountAddsConcat([Open], mid + [Close(it)]);
  }

  lemma AddDone(s: State, cb: Callback)
    ensures var (ops, action) := ([Add(cb)], AddOne(cb));
            && Legal(s, ops) && Run(s, ops) == Apply(s, Add(cb)) && Did(s, action, ops)
            && Foreign(ops, s.nextIterator) && CountAdds(ops) <= AddsOf(Then(action, NoMore))
            && Apply(s, Add(cb)).nextIterator == s.nextIterator
  {
    hide Follows;
  }

  lemma RemoveDone(s: State, n: nat)
    ensures var action := Remove(n);
            && (n !in s.subscriptions ==>
                  && Legal(s, []) && Run(s, []) == s && Did(s, action, [])
                  && Foreign([], s.nextIterator) && CountAdds([]) <= AddsOf(Then(action, NoMore)))
            && (n in s.subscriptions ==>
                  var ops := [Unsubscribe(n)];
                  && Legal(s, ops) && Run(s, ops) == Apply(s, Unsubscribe(n)) && Did(s, action, ops)
                  && Foreign(ops, s.nextIterator) && CountAdds(ops) <= AddsOf(Then(action, NoMore))
                  && Apply(s, Unsubscribe(n)).nextIterator == s.nextIterator)
  {
    hide Follows, Index;
  }

  lemma NestedDone(s: State, inner: Script, mid: seq<Op>, runs: seq<nat>, ran: seq<Callback>)
    requires OnPass(Apply(s, Open), mid, s.nextIterator, runs, ran) && CountAdds(mid) <= AddsIn(inner)
    requires s.nextIterator in Run(Apply(s, Open), mid).iterators
    requires Follows(Apply(s, Open), s.nextIterator, inner, mid)
    ensures var (it, action) := (s.nextIterator, Nested(inner));
            var ops := [Open] + (mid + [Close(it)]);
            && Legal(s, ops) && Run(s, ops) == Apply(Run(Apply(s, Open), mid), Close(it)) && Did(s, action, ops)
            && Foreign(ops, it) && CountAdds(ops) <= AddsOf(Then(action, NoMore))
  {
    hide Inv, Apply, Run, Legal, Follows, Visited, Ran, Foreign;
    var ops := [Open] + (mid + [Close(s.nextIterator)]);
    EndPass(Apply(s, Open), mid, s.nextIterator);
    BeginPass(s, mid + [Close(s.nextIterator)]);
    PassOps(mid, s.nextIterator);
    assert ops[1..|ops| - 1] == mid;
  }

  /** The callbacks run by a pass that starts in `s0`: in list order, once each, exactly those that
      were subscribed when it started, or were added while its saved position was not the end, and
      were not unsubscribed before their turn; and each is the callback that was handed to the Add
      of its node. */
  ghost predicate RanExactly(s0: State, mid: seq<Op>, runs: seq<nat>, ran: seq<Callback>)
    requires OnPass(Apply(s0, Open), mid, s0.nextIterator, runs, ran)
  {
    var s, it := Apply(s0, Open), s0.nextIterator;
    && Increasing(runs)
    && (forall n :: n in runs <==> (n in s0.subscriptions || n in Joined(s, mid, it)) && !RemovedFirst(s, mid, it, n))
    && Belong(s, mid, runs, ran)
  }

  lemma NotifyRuns(s0: State, mid: seq<Op>, runs: seq<nat>, ran: seq<Callback>)
    requires Inv(s0) && OnPass(Apply(s0, Open), mid, s0.nextIterator, runs, ran)
    requires var (s, it) := (Apply(s0, Open), s0.nextIterator);
             it in Run(s, mid).iterators && Pending(Run(s, mid), it) == []
    ensures RanExactly(s0, mid, runs, ran)
  {
    var s, it := Apply(s0, Open), s0.nextIterator;
    FinishedPass(s, mid, it);
    PassRunsTheGiven(s, mid, it);
    PositionRoundTrip(s0, 0);
    assert s.cells[0..] == s.cells;
    LiveIdsOrdered(s.cells, s.nextNode);
  }
}
