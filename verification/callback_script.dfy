/** What the callbacks of a CallbackList do while a pass runs them, as scripts, and which runs of
    CallbackLists carry a script out. */
module CallbackScripts {
  import opened Basics
  import opened CallbackLists

  /** What the callbacks of one pass do: the k-th callback that the pass runs performs the k-th turn;
      after the last turn they do nothing more. */
  datatype Script = Done | Turn(actions: Actions, rest: Script)
  datatype Actions = NoMore | Then(action: Action, rest: Actions)
  datatype Action = AddOne(callback: Callback) | Remove(node: nat) | Nested(script: Script)

  function AddsIn(script: Script): nat {
    if script.Done? then 0 else AddsOf(script.actions) + AddsIn(script.rest)
  }

  function AddsOf(actions: Actions): nat {
    if actions.NoMore? then 0
    else (match actions.action
          case AddOne(_) => 1
          case Remove(_) => 0
          case Nested(inner) => AddsIn(inner)) + AddsOf(actions.rest)
  }

  function FirstTurn(script: Script): Actions {
    if script.Turn? then script.actions else NoMore
  }

  function LaterTurns(script: Script): Script {
    if script.Turn? then script.rest else Done
  }

  /** Exactly this action: an addition, the end of a subscription if it is still alive, or a whole
      pass with its own iterator. */
  ghost predicate Did(s: State, action: Action, ops: seq<Op>)
    decreases |ops|, 0
  {
    match action
    case AddOne(cb) => ops == [Add(cb)]
    case Remove(n) => ops == if n in s.subscriptions then [Unsubscribe(n)] else []
    case Nested(script) =>
      && |ops| >= 2 && ops[0] == Open && ops[|ops| - 1] == Close(s.nextIterator)
      && Follows(Apply(s, Open), s.nextIterator, script, ops[1..|ops| - 1])
  }

  /** Exactly these actions, one after the other. */
  ghost predicate Performs(s: State, actions: Actions, ops: seq<Op>)
    decreases |ops|, 1, actions
  {
    if actions.NoMore? then ops == []
    else exists k :: 0 <= k <= |ops| && FirstThen(s, actions, ops, k)
  }

  ghost predicate FirstThen(s: State, actions: Actions, ops: seq<Op>, k: nat)
    requires actions.Then? && k <= |ops|
    decreases |ops|, 1, actions, 0
  {
    && Legal(s, ops[..k]) && Did(s, actions.action, ops[..k])
    && Performs(Run(s, ops[..k]), actions.rest, ops[k..])
  }

  /** A pass from here on: it takes the next callback, which performs its turn, and so on until
      there is none. */
  ghost predicate Follows(s: State, it: nat, script: Script, ops: seq<Op>)
    decreases |ops|, 2
  {
    && it in s.iterators && ops != [] && ops[0] == GetNext(it)
    && if Returned(s, it).None? then |ops| == 1
       else exists k :: 1 <= k <= |ops| && TurnThen(Apply(s, GetNext(it)), it, script, ops, k)
  }

  ghost predicate TurnThen(t: State, it: nat, script: Script, ops: seq<Op>, k: nat)
    requires 1 <= k <= |ops|
    decreases |ops|, 1
  {
    && Legal(t, ops[1..k]) && Performs(t, FirstTurn(script), ops[1..k])
    && Follows(Run(t, ops[1..k]), it, LaterTurns(script), ops[k..])
  }

  // ---------------------------------------------------------------- one more action

  /** Whatever completes the actions that are left completes all of them. */
  ghost predicate LeftTo(s: State, actions: Actions, ops: seq<Op>, now: State, left: Actions) {
    forall later :: Performs(now, left, later) ==> Performs(s, actions, ops + later)
  }

  lemma NoneDone(s: State, actions: Actions)
    ensures LeftTo(s, actions, [], s, actions)
  {
    forall later | Performs(s, actions, later)
      ensures Performs(s, actions, [] + later)
    {
      assert [] + later == later;
    }
  }

  lemma PerformsFirst(s: State, actions: Actions, first: seq<Op>, later: seq<Op>)
    requires actions.Then? && Legal(s, first) && Did(s, actions.action, first)
    requires Performs(Run(s, first), actions.rest, later)
    ensures Performs(s, actions, first + later)
  {
    var all := first + later;
    assert all[..|first|] == first && all[|first|..] == later;
    assert FirstThen(s, actions, all, |first|);
  }

  lemma OneDone(s: State, actions: Actions, ops: seq<Op>, now: State, left: Actions, first: seq<Op>)
    requires LeftTo(s, actions, ops, now, left)
    requires left.Then? && Legal(now, first) && Did(now, left.action, first)
    ensures LeftTo(s, actions, ops + first, Run(now, first), left.rest)
  {
    forall later | Performs(Run(now, first), left.rest, later)
      ensures Performs(s, actions, (ops + first) + later)
    {
      PerformsFirst(now, left, first, later);
      Associative(ops, first, later);
    }
  }

  lemma AllDone(s: State, actions: Actions, ops: seq<Op>, now: State)
    requires LeftTo(s, actions, ops, now, NoMore)
    ensures Performs(s, actions, ops)
  {
    assert Performs(now, NoMore, []);
    assert ops + [] == ops;
  }

  // ---------------------------------------------------------------- one more turn

  /** Whatever completes the pass from now on completes it from the start. */
  ghost predicate PassTo(s: State, it: nat, script: Script, ops: seq<Op>, now: State, rest: Script) {
    forall later :: Follows(now, it, rest, later) ==> Follows(s, it, script, ops + later)
  }

  lemma NoneTaken(s: State, it: nat, script: Script)
    ensures PassTo(s, it, script, [], s, script)
  {
    forall later | Follows(s, it, script, later)
      ensures Follows(s, it, script, [] + later)
    {
      assert [] + later == later;
    }
  }

  lemma FollowsFirst(s: State, it: nat, script: Script, more: seq<Op>, later: seq<Op>)
    requires it in s.iterators && Returned(s, it).Some?
    requires var t := Apply(s, GetNext(it));
             && Legal(t, more) && Performs(t, FirstTurn(script), more)
             && Follows(Run(t, more), it, LaterTurns(script), later)
    ensures Follows(s, it, script, ([GetNext(it)] + more) + later)
  {
    var all, k := ([GetNext(it)] + more) + later, |more| + 1;
    assert all[1..k] == more && all[k..] == later;
    assert TurnThen(Apply(s, GetNext(it)), it, script, all, k);
  }

  lemma OneTaken(s: State, it: nat, script: Script, ops: seq<Op>, now: State, rest: Script, more: seq<Op>)
    requires PassTo(s, it, script, ops, now, rest)
    requires it in now.iterators && Returned(now, it).Some?
    requires var t := Apply(now, GetNext(it));
             Legal(t, more) && Performs(t, FirstTurn(rest), more)
    ensures PassTo(s, it, script, ops + ([GetNext(it)] + more),
                   Run(Apply(now, GetNext(it)), more), LaterTurns(rest))
  {
    var turn := [GetNext(it)] + more;
    forall later | Follows(Run(Apply(now, GetNext(it)), more), it, LaterTurns(rest), later)
      ensures Follows(s, it, script, (ops + turn) + later)
    {
      FollowsFirst(now, it, rest, more, later);
      Associative(ops, turn, later);
    }
  }

  lemma AllTaken(s: State, it: nat, script: Script, ops: seq<Op>, now: State, rest: Script)
    requires PassTo(s, it, script, ops, now, rest)
    requires it in now.iterators && Returned(now, it).None?
    ensures Follows(s, it, script, ops + [GetNext(it)])
  {
    assert Follows(now, it, rest, [GetNext(it)]);
  }
}
