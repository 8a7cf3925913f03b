/** Which callbacks the nodes of a CallbackLists state carry, and so which callbacks a pass runs: a
    node keeps for life the callback that was handed to the Add that made it. */
module CallbackValues {
  import opened Basics
  import opened CallbackLists

  /** The callback that a node carries, if it is in the list and has not been reset. */
  function CallbackOf(cells: seq<Cell>, n: nat): Option<Callback> {
    var i := Index(cells, n);
    if i < |cells| then cells[i].callback else None
  }

  /** The callbacks handed to the Adds of a run, in order. */
  function Handed(ops: seq<Op>): seq<Callback> {
    if ops == [] then [] else (if ops[0].Add? then [ops[0].callback] else []) + Handed(ops[1..])
  }

  /** The callback that belongs to a node in a run from `s`: the one that it carried at the start, or
      the one handed to the Add that made it.  Nodes are numbered in the order of the Adds. */
  function Given(s: State, ops: seq<Op>, n: nat): Option<Callback> {
    if n < s.nextNode then CallbackOf(s.cells, n)
    else if n - s.nextNode < |Handed(ops)| then Some(Handed(ops)[n - s.nextNode])
    else None
  }

  lemma CarriesCell(cells: seq<Cell>, bound: nat, n: nat, cb: Callback)
    requires Ordered(cells, bound)
    ensures CallbackOf(cells, n) == Some(cb) <==> Cell(n, Some(cb)) in cells
  {
    if Cell(n, Some(cb)) in cells {
      var i :| 0 <= i < |cells| && cells[i] == Cell(n, Some(cb));
      IndexFound(cells, bound, i);
    }
  }

  lemma CarriesLive(cells: seq<Cell>, bound: nat, n: nat)
    requires Ordered(cells, bound)
    ensures CallbackOf(cells, n).Some? <==> LiveNode(cells, n)
  {
    if LiveNode(cells, n) {
      var c :| c in cells && c.id == n && c.callback.Some?;
      CarriesCell(cells, bound, n, c.callback.value);
    }
    if CallbackOf(cells, n).Some? {
      CarriesCell(cells, bound, n, CallbackOf(cells, n).value);
    }
  }

  /** Exactly the subscribed nodes carry a callback. */
  lemma SubscribedCarry(s: State, n: nat)
    requires Inv(s)
    ensures CallbackOf(s.cells, n).Some? <==> n in s.subscriptions
  {
    CarriesLive(s.cells, s.nextNode, n);
  }

  lemma AddCarries(s: State, cb: Callback)
    requires Inv(s)
    ensures CallbackOf(Apply(s, Add(cb)).cells, s.nextNode) == Some(cb)
  {
    var t := Apply(s, Add(cb));
    StepKeepsInv(s, Add(cb));
    assert t.cells[|s.cells|] == Cell(s.nextNode, Some(cb));
    CarriesCell(t.cells, t.nextNode, s.nextNode, cb);
  }

  lemma CellsAfter(s: State, op: Op, c: Cell)
    requires Inv(s) && Enabled(s, op) && c in s.cells && c.callback.Some?
    requires op.Unsubscribe? ==> op.node != c.id
    ensures c in Apply(s, op).cells
  {
    match op
    case Unsubscribe(n) =>
      var k := Index(s.cells, n);
      if k < |s.cells| {
        EraseAt(s.cells, s.nextNode, k);
        NullAt(s.cells, s.nextNode, k);
      }
    case Close(_) => CompactedMembers(s.cells);
    case _ =>
  }

  /** No step changes the callback of a node that stays subscribed. */
  lemma StepKeepsCallback(s: State, op: Op, n: nat)
    requires Inv(s) && Enabled(s, op) && n in s.subscriptions && op != Unsubscribe(n)
    ensures n in Apply(s, op).subscriptions
    ensures CallbackOf(Apply(s, op).cells, n) == CallbackOf(s.cells, n)
  {
    var t, cb := Apply(s, op), CallbackOf(s.cells, n);
    SubscribedCarry(s, n);
    CarriesCell(s.cells, s.nextNode, n, cb.value);
    CellsAfter(s, op, Cell(n, cb));
    StepKeepsInv(s, op);
    CarriesCell(t.cells, t.nextNode, n, cb.value);
    SubscribedCarry(t, n);
  }

  lemma StepSubscriptions(s: State, op: Op, n: nat)
    requires Inv(s) && Enabled(s, op) && n in Apply(s, op).subscriptions
    ensures (n in s.subscriptions && op != Unsubscribe(n)) || (op.Add? && n == s.nextNode)
  {
    assert op.Unsubscribe? ==> LiveNode(s.cells, op.node);
  }

  lemma SubscribedIsOld(s: State, n: nat)
    requires Inv(s) && n in s.subscriptions
    ensures n < s.nextNode
  {
    assert LiveNode(s.cells, n);
  }

  lemma StepCount(s: State, op: Op)
    requires Enabled(s, op)
    ensures Apply(s, op).nextNode == s.nextNode + if op.Add? then 1 else 0
  {
  }

  lemma HandedStep(ops: seq<Op>)
    requires ops != []
    ensures Handed(ops) == (if ops[0].Add? then [ops[0].callback] else []) + Handed(ops[1..])
  {
  }

  /** A node that carries a callback after the first step belongs to the same callback before it. */
  lemma GivenStep(s: State, ops: seq<Op>, n: nat)
    requires Inv(s) && Legal(s, ops) && ops != [] && Given(Apply(s, ops[0]), ops[1..], n).Some?
    ensures Given(s, ops, n) == Given(Apply(s, ops[0]), ops[1..], n)
  {
    var op, t := ops[0], Apply(s, ops[0]);
    StepCount(s, op);
    HandedStep(ops);
    StepKeepsInv(s, op);
    if n < t.nextNode {
      SubscribedCarry(t, n);
      StepSubscriptions(s, op, n);
      if n in s.subscriptions {
        SubscribedIsOld(s, n);
        StepKeepsCallback(s, op, n);
      } else {
        AddCarries(s, op.callback);
      }
    }
  }

  /** Over every run: a node that is still subscribed carries the callback that it was given. */
  lemma {:induction false} RunCarries(s: State, ops: seq<Op>, n: nat)
    requires Inv(s) && Legal(s, ops) && n in Run(s, ops).subscriptions
    ensures CallbackOf(Run(s, ops).cells, n) == Given(s, ops, n) && Given(s, ops, n).Some?
    decreases |ops|
  {
    if ops == [] {
      SubscribedCarry(s, n);
      SubscribedIsOld(s, n);
    } else {
      StepKeepsInv(s, ops[0]);
      RunCarries(Apply(s, ops[0]), ops[1..], n);
      GivenStep(s, ops, n);
    }
  }

  // ---------------------------------------------------------------- what a pass runs

  /** The callbacks that an iterator returns during a run. */
  function Ran(s: State, ops: seq<Op>, it: nat): seq<Callback>
    requires Inv(s) && Legal(s, ops) && it in s.iterators && Close(it) !in ops
    decreases |ops|
  {
    if ops == [] then []
    else
      StepKeepsInv(s, ops[0]);
      (if ops[0] == GetNext(it) && Returned(s, it).Some? then [RanOne(s, it)] else [])
      + Ran(Apply(s, ops[0]), ops[1..], it)
  }

  function RanOne(s: State, it: nat): Callback
    requires Inv(s) && it in s.iterators && Returned(s, it).Some?
  {
    ReturnedIsLive(s, it);
    SubscribedCarry(s, Returned(s, it).value);
    CallbackOf(s.cells, Returned(s, it).value).value
  }

  lemma RanOneIsGiven(s: State, ops: seq<Op>, it: nat)
    requires Inv(s) && Legal(s, ops) && it in s.iterators && Returned(s, it).Some?
    ensures Given(s, ops, Returned(s, it).value) == Some(RanOne(s, it))
  {
    ReturnedIsLive(s, it);
    SubscribedIsOld(s, Returned(s, it).value);
    SubscribedCarry(s, Returned(s, it).value);
  }

  /** `ran` are the callbacks that belong to the nodes `runs`. */
  ghost predicate Belong(s: State, ops: seq<Op>, runs: seq<nat>, ran: seq<Callback>) {
    |ran| == |runs| && forall i :: 0 <= i < |runs| ==> Given(s, ops, runs[i]) == Some(ran[i])
  }

  lemma BelongStep(s: State, ops: seq<Op>, runs: seq<nat>, ran: seq<Callback>)
    requires Inv(s) && Legal(s, ops) && ops != [] && Belong(Apply(s, ops[0]), ops[1..], runs, ran)
    ensures Belong(s, ops, runs, ran)
  {
    forall i | 0 <= i < |runs|
      ensures Given(s, ops, runs[i]) == Some(ran[i])
    {
      GivenStep(s, ops, runs[i]);
    }
  }

  /** The callbacks that a pass runs are, one for one, those handed to Add for the nodes that it
      returns. */
  lemma {:induction false} PassRunsTheGiven(s: State, ops: seq<Op>, it: nat)
    requires Inv(s) && Legal(s, ops) && it in s.iterators && Close(it) !in ops
    ensures Belong(s, ops, Visited(s, ops, it), Ran(s, ops, it))
    decreases |ops|
  {
    if ops != [] {
      var t, rest := Apply(s, ops[0]), ops[1..];
      StepKeepsInv(s, ops[0]);
      FirstReturned(s, ops, it);
      hide Inv, Apply, Given, Belong, Visited, Ran, Returned;
      PassRunsTheGiven(t, rest, it);
      BelongStep(s, ops, Visited(t, rest, it), Ran(t, rest, it));
      if ops[0] == GetNext(it) && Returned(s, it).Some? {
        RanOneIsGiven(s, ops, it);
        BelongCons(s, ops, Returned(s, it).value, RanOne(s, it), Visited(t, rest, it), Ran(t, rest, it));
      }
    }
  }

  lemma FirstReturned(s: State, ops: seq<Op>, it: nat)
    requires Inv(s) && Legal(s, ops) && it in s.iterators && Close(it) !in ops && ops != []
    ensures Inv(Apply(s, ops[0])) && it in Apply(s, ops[0]).iterators
    ensures var (t, rest) := (Apply(s, ops[0]), ops[1..]);
            if ops[0] == GetNext(it) && Returned(s, it).Some?
            then Visited(s, ops, it) == [Returned(s, it).value] + Visited(t, rest, it)
                 && Ran(s, ops, it) == [RanOne(s, it)] + Ran(t, rest, it)
            else Visited(s, ops, it) == Visited(t, rest, it) && Ran(s, ops, it) == Ran(t, rest, it)
  {
    StepKeepsInv(s, ops[0]);
    hide Inv;
    var t, rest := Apply(s, ops[0]), ops[1..];
    assert [] + Visited(t, rest, it) == Visited(t, rest, it) && [] + Ran(t, rest, it) == Ran(t, rest, it);
  }

  lemma BelongCons(s: State, ops: seq<Op>, n: nat, cb: Callback, runs: seq<nat>, ran: seq<Callback>)
    requires Given(s, ops, n) == Some(cb) && Belong(s, ops, runs, ran)
    ensures Belong(s, ops, [n] + runs, [cb] + ran)
  {
    hide Given;
    forall i | 0 <= i < |runs| + 1
      ensures Given(s, ops, ([n] + runs)[i]) == Some(([cb] + ran)[i])
    {
    }
  }

  // ---------------------------------------------------------------- composing runs

  lemma {:induction false} RanConcat(s: State, a: seq<Op>, b: seq<Op>, it: nat)
    requires Inv(s) && Legal(s, a) && Legal(Run(s, a), b)
    requires it in s.iterators && Close(it) !in a && Close(it) !in b
    ensures it in Run(s, a).iterators && Legal(s, a + b) && Inv(Run(s, a))
    ensures Ran(s, a + b, it) == Ran(s, a, it) + Ran(Run(s, a), b, it)
    decreases |a|
  {
    RunKeepsIterator(s, a, it);
    RunKeepsInv(s, a);
    RunConcat(s, a, b);
    if a == [] {
      assert a + b == b;
      assert [] + Ran(s, b, it) == Ran(s, b, it);
    } else {
      assert (a + b)[0] == a[0] && (a + b)[1..] == a[1..] + b;
      FirstReturned(s, a, it);
      FirstReturned(s, a + b, it);
      hide Inv, Apply, Ran, Visited, Returned;
      RanConcat(Apply(s, a[0]), a[1..], b, it);
      if a[0] == GetNext(it) && Returned(s, it).Some? {
        Associative([RanOne(s, it)], Ran(Apply(s, a[0]), a[1..], it), Ran(Run(s, a), b, it));
      }
    }
  }

  lemma {:induction false} ForeignRunsNothing(s: State, ops: seq<Op>, it: nat)
    requires Inv(s) && Legal(s, ops) && it in s.iterators && Foreign(ops, it + 1)
    ensures Close(it) !in ops && Ran(s, ops, it) == []
    decreases |ops|
  {
    ForeignVisitsNothing(s, ops, it);
    PassRunsTheGiven(s, ops, it);
  }
}
