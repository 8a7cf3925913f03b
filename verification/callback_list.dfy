/** The callback list of base/callback_list.h, which may be changed while it is being iterated:
    removal is delayed while iterators are alive and the list is compacted when the last one dies. */
module CallbackLists {
  import opened Basics

  type Callback = nat

  /** A node of the linked list.  Its identity survives every change to the list around it; a
      callback that was reset is None. */
  datatype Cell = Cell(id: nat, callback: Option<Callback>)

  datatype Position = At(id: nat) | End

  /** The list, the iterator count it keeps, and the live objects that point into it: the iterators
      with their positions and the subscriptions, each named by the node it stands for. */
  datatype State = State(
    cells: seq<Cell>,
    count: int,
    iterators: map<nat, Position>,
    subscriptions: set<nat>,
    nextNode: nat,
    nextIterator: nat)

  datatype Op =
    | Add(callback: Callback)
    | Unsubscribe(node: nat)
    | Open
    | Copy(source: nat)
    | GetNext(it: nat)
    | Close(it: nat)

  const EMPTY := State([], 0, map[], {}, 0, 0)

  // ---------------------------------------------------------------- operations on values

  function Index(cells: seq<Cell>, id: nat): (i: nat)
    ensures i <= |cells|
    ensures i < |cells| ==> cells[i].id == id
    ensures forall j :: 0 <= j < i ==> cells[j].id != id
  {
    if cells == [] || cells[0].id == id then 0 else 1 + Index(cells[1..], id)
  }

  function IndexOf(cells: seq<Cell>, pos: Position): nat {
    if pos.End? then |cells| else Index(cells, pos.id)
  }

  function PositionAt(cells: seq<Cell>, i: nat): Position {
    if i < |cells| then At(cells[i].id) else End
  }

  /** The first node at or after index i that still has its callback. */
  function SkipNull(cells: seq<Cell>, i: nat): (j: nat)
    requires i <= |cells|
    ensures i <= j <= |cells|
    ensures forall k :: i <= k < j ==> cells[k].callback.None?
    ensures j < |cells| ==> cells[j].callback.Some?
    decreases |cells| - i
  {
    if i < |cells| && cells[i].callback.None? then SkipNull(cells, i + 1) else i
  }

  function Compacted(cells: seq<Cell>): seq<Cell> {
    if cells == [] then []
    else (if cells[0].callback.Some? then [cells[0]] else []) + Compacted(cells[1..])
  }

  predicate Enabled(s: State, op: Op) {
    match op
    case Unsubscribe(n) => n in s.subscriptions
    case Copy(it) => it in s.iterators
    case GetNext(it) => it in s.iterators
    case Close(it) => it in s.iterators
    case _ => true
  }

  /** The node that GetNext on this iterator would return. */
  function Returned(s: State, it: nat): Option<nat>
    requires it in s.iterators
  {
    var j := SkipNull(s.cells, IndexOf(s.cells, s.iterators[it]));
    if j < |s.cells| then Some(s.cells[j].id) else None
  }

  function Opened(s: State, pos: Position): State {
    s.(count := s.count + 1, iterators := s.iterators[s.nextIterator := pos], nextIterator := s.nextIterator + 1)
  }

  function Apply(s: State, op: Op): State
    requires Enabled(s, op)
  {
    match op
    case Add(cb) =>
      s.(
        cells := s.cells + [Cell(s.nextNode, Some(cb))],
        subscriptions := s.subscriptions + {s.nextNode},
        nextNode := s.nextNode + 1)
    case Unsubscribe(n) =>
      var i := Index(s.cells, n);
      if i == |s.cells| then s
      else s.(
        cells := if s.count != 0 then s.cells[i := Cell(n, None)] else s.cells[..i] + s.cells[i + 1..],
        subscriptions := s.subscriptions - {n})
    case Open => Opened(s, PositionAt(s.cells, 0))
    case Copy(it) => Opened(s, s.iterators[it])
    case GetNext(it) =>
      var j := SkipNull(s.cells, IndexOf(s.cells, s.iterators[it]));
      s.(iterators := s.iterators[it := PositionAt(s.cells, if j < |s.cells| then j + 1 else j)])
    case Close(it) =>
      s.(count := s.count - 1, iterators := s.iterators - {it},
         cells := if s.count - 1 == 0 then Compacted(s.cells) else s.cells)
  }

  // ---------------------------------------------------------------- what every reachable state satisfies

  predicate Ordered(cells: seq<Cell>, bound: nat) {
    && (forall i :: 0 <= i < |cells| ==> cells[i].id < bound)
    && (forall i, j :: 0 <= i < j < |cells| ==> cells[i].id < cells[j].id)
  }

  predicate HasNode(cells: seq<Cell>, id: nat) {
    exists c :: c in cells && c.id == id
  }

  predicate LiveNode(cells: seq<Cell>, id: nat) {
    exists c :: c in cells && c.id == id && c.callback.Some?
  }

  /** Nodes are in the order of their insertion.  The nodes with a callback are exactly the nodes of
      live subscriptions, a node without one exists only while an iterator is alive, the count is the
      number of live iterators, and none of them refers to an erased node. */
  ghost predicate Inv(s: State) {
    && Ordered(s.cells, s.nextNode)
    && s.count == |s.iterators|
    && (forall it :: it in s.iterators ==> it < s.nextIterator)
    && (forall n :: n in s.subscriptions <==> LiveNode(s.cells, n))
    && (s.count == 0 ==> forall c :: c in s.cells ==> c.callback.Some?)
    && (forall it :: it in s.iterators && s.iterators[it].At? ==> HasNode(s.cells, s.iterators[it].id))
  }

  lemma IndexFound(s: seq<Cell>, bound: nat, i: nat)
    requires Ordered(s, bound) && i < |s|
    ensures Index(s, s[i].id) == i
  {
  }

  lemma {:induction false} CompactedMembers(cells: seq<Cell>)
    ensures forall c :: c in Compacted(cells) <==> c in cells && c.callback.Some?
  {
    if cells != [] {
      CompactedMembers(cells[1..]);
      assert cells == [cells[0]] + cells[1..];
    }
  }

  lemma OrderedCons(c: Cell, rest: seq<Cell>, bound: nat)
    requires Ordered(rest, bound) && c.id < bound && forall k :: 0 <= k < |rest| ==> c.id < rest[k].id
    ensures Ordered([c] + rest, bound)
  {
  }

  lemma FirstIsLeast(cells: seq<Cell>, bound: nat, d: Cell)
    requires Ordered(cells, bound) && cells != [] && d in cells[1..]
    ensures cells[0].id < d.id
  {
    var i :| 0 <= i < |cells[1..]| && cells[1..][i] == d;
    assert cells[i + 1] == d;
  }

  lemma OrderedRest(cells: seq<Cell>, bound: nat)
    requires Ordered(cells, bound) && cells != []
    ensures Ordered(cells[1..], bound)
  {
  }

  lemma {:induction false} CompactedKeeps(cells: seq<Cell>, bound: nat)
    requires Ordered(cells, bound)
    ensures Ordered(Compacted(cells), bound)
    ensures forall c :: c in Compacted(cells) <==> c in cells && c.callback.Some?
  {
    CompactedMembers(cells);
    if cells != [] {
      OrderedRest(cells, bound);
      CompactedKeeps(cells[1..], bound);
      var kept := Compacted(cells[1..]);
      if cells[0].callback.None? {
        assert Compacted(cells) == kept;
      } else {
        hide Compacted;
        forall k | 0 <= k < |kept|
          ensures cells[0].id < kept[k].id
        {
          FirstIsLeast(cells, bound, kept[k]);
        }
        OrderedCons(cells[0], kept, bound);
      }
    }
  }

  lemma AddKeepsInv(s: State, op: Op)
    requires Inv(s) && op.Add?
    ensures Inv(Apply(s, op))
  {
    var t, added := Apply(s, op), Cell(s.nextNode, Some(op.callback));
    assert forall c :: c in t.cells <==> c in s.cells || c == added;
    assert added in t.cells && LiveNode(t.cells, s.nextNode);
    forall n | n != s.nextNode
      ensures LiveNode(t.cells, n) <==> LiveNode(s.cells, n)
    {
    }
  }

  lemma ErasedAt(cells: seq<Cell>, k: nat, i: nat)
    requires k < |cells| && i < |cells| - 1
    ensures (cells[..k] + cells[k + 1..])[i] == cells[if i < k then i else i + 1]
  {
  }

  lemma EraseOrdered(cells: seq<Cell>, bound: nat, k: nat)
    requires Ordered(cells, bound) && k < |cells|
    ensures Ordered(cells[..k] + cells[k + 1..], bound)
  {
    var t := cells[..k] + cells[k + 1..];
    forall i, j | 0 <= i < j < |t|
      ensures t[i].id < t[j].id
    {
      ErasedAt(cells, k, i);
      ErasedAt(cells, k, j);
    }
    forall i | 0 <= i < |t|
      ensures t[i].id < bound
    {
      ErasedAt(cells, k, i);
    }
  }

  lemma EraseMembers(cells: seq<Cell>, bound: nat, k: nat, c: Cell)
    requires Ordered(cells, bound) && k < |cells|
    ensures c in cells[..k] + cells[k + 1..] <==> c in cells && c.id != cells[k].id
  {
    var t := cells[..k] + cells[k + 1..];
    if c in t {
      var i :| 0 <= i < |t| && t[i] == c;
      ErasedAt(cells, k, i);
    }
    if c in cells && c.id != cells[k].id {
      var j :| 0 <= j < |cells| && cells[j] == c;
      ErasedAt(cells, k, if j < k then j else j - 1);
    }
  }

  lemma EraseAt(cells: seq<Cell>, bound: nat, k: nat)
    requires Ordered(cells, bound) && k < |cells|
    ensures var t := cells[..k] + cells[k + 1..];
            Ordered(t, bound) && forall c :: c in t <==> c in cells && c.id != cells[k].id
  {
    EraseOrdered(cells, bound, k);
    forall c
      ensures c in cells[..k] + cells[k + 1..] <==> c in cells && c.id != cells[k].id
    {
      EraseMembers(cells, bound, k, c);
    }
  }

  lemma NullAt(cells: seq<Cell>, bound: nat, k: nat)
    requires Ordered(cells, bound) && k < |cells|
    ensures var (n, t) := (cells[k].id, cells[k := Cell(cells[k].id, None)]);
            Ordered(t, bound) && forall c :: c in t <==> c == Cell(n, None) || (c in cells && c.id != n)
  {
    var n, t := cells[k].id, cells[k := Cell(cells[k].id, None)];
    assert forall i :: 0 <= i < |cells| && i != k ==> t[i] == cells[i];
    assert t[k] == Cell(n, None);
  }

  lemma UnsubscribeKeepsInv(s: State, op: Op)
    requires Inv(s) && op.Unsubscribe? && Enabled(s, op)
    ensures Inv(Apply(s, op))
  {
    var t, n := Apply(s, op), op.node;
    assert LiveNode(s.cells, n);
    var k := Index(s.cells, n);
    assert k < |s.cells|;
    if s.count == 0 {
      EraseAt(s.cells, s.nextNode, k);
      assert |s.iterators| == 0;
    } else {
      NullAt(s.cells, s.nextNode, k);
    }
    forall m
      ensures m in t.subscriptions <==> LiveNode(t.cells, m)
    {
      assert m != n ==> (LiveNode(t.cells, m) <==> LiveNode(s.cells, m));
    }
    forall it | it in t.iterators && t.iterators[it].At?
      ensures HasNode(t.cells, t.iterators[it].id)
    {
      assert HasNode(s.cells, s.iterators[it].id);
      assert Cell(n, None) in t.cells;
    }
  }

  lemma OpenKeepsInv(s: State, pos: Position)
    requires Inv(s) && (pos.At? ==> HasNode(s.cells, pos.id))
    ensures Inv(Opened(s, pos))
  {
    assert s.nextIterator !in s.iterators;
  }

  lemma CloseKeepsInv(s: State, op: Op)
    requires Inv(s) && op.Close? && Enabled(s, op)
    ensures Inv(Apply(s, op))
  {
    var t := Apply(s, op);
    assert t.iterators.Keys == s.iterators.Keys - {op.it};
    if t.count == 0 {
      CompactedKeeps(s.cells, s.nextNode);
      assert |t.iterators| == 0;
      forall n
        ensures LiveNode(t.cells, n) <==> LiveNode(s.cells, n)
      {
      }
    }
  }

  /** Every step keeps the structure: no operation leaves a live object pointing at an erased node. */
  lemma StepKeepsInv(s: State, op: Op)
    requires Inv(s) && Enabled(s, op)
    ensures Inv(Apply(s, op))
  {
    match op
    case Add(_) => AddKeepsInv(s, op);
    case Unsubscribe(_) => UnsubscribeKeepsInv(s, op);
    case Open => OpenKeepsInv(s, PositionAt(s.cells, 0));
    case Copy(it) => OpenKeepsInv(s, s.iterators[it]);
    case GetNext(it) =>
      var t := Apply(s, op);
      assert t.iterators.Keys == s.iterators.Keys;
    case Close(_) => CloseKeepsInv(s, op);
  }

  /** The destructor's two checks hold once every subscription and iterator is gone. */
  lemma NothingLeftBehind(s: State)
    requires Inv(s) && s.iterators == map[] && s.subscriptions == {}
    ensures s.count == 0 && s.cells == []
  {
    if s.cells != [] {
      assert s.cells[0] in s.cells && LiveNode(s.cells, s.cells[0].id);
    }
  }

  // ---------------------------------------------------------------- runs

  predicate Legal(s: State, ops: seq<Op>)
    decreases |ops|
  {
    ops == [] || (Enabled(s, ops[0]) && Legal(Apply(s, ops[0]), ops[1..]))
  }

  function Run(s: State, ops: seq<Op>): State
    requires Legal(s, ops)
    decreases |ops|
  {
    if ops == [] then s else Run(Apply(s, ops[0]), ops[1..])
  }

  lemma {:induction false} RunKeepsInv(s: State, ops: seq<Op>)
    requires Inv(s) && Legal(s, ops)
    ensures Inv(Run(s, ops))
    decreases |ops|
  {
    if ops != [] {
      StepKeepsInv(s, ops[0]);
      RunKeepsInv(Apply(s, ops[0]), ops[1..]);
    }
  }

  /** The nodes of a stretch of the list that still have their callbacks, in list order. */
  function LiveIds(cells: seq<Cell>): seq<nat> {
    if cells == [] then []
    else (if cells[0].callback.Some? then [cells[0].id] else []) + LiveIds(cells[1..])
  }

  /** What an iterator has yet to return. */
  function Pending(s: State, it: nat): seq<nat>
    requires it in s.iterators
  {
    LiveIds(s.cells[IndexOf(s.cells, s.iterators[it])..])
  }

  function Without(ids: seq<nat>, n: nat): seq<nat> {
    if ids == [] then []
    else (if ids[0] == n then [] else [ids[0]]) + Without(ids[1..], n)
  }

  lemma {:induction false} LiveIdsConcat(a: seq<Cell>, b: seq<Cell>)
    ensures LiveIds(a + b) == LiveIds(a) + LiveIds(b)
  {
    if a == [] {
      assert a + b == b;
    } else {
      assert (a + b)[1..] == a[1..] + b;
      LiveIdsConcat(a[1..], b);
      var one := if a[0].callback.Some? then [a[0].id] else [];
      assert one + (LiveIds(a[1..]) + LiveIds(b)) == (one + LiveIds(a[1..])) + LiveIds(b);
    }
  }

  predicate Increasing(ids: seq<nat>) {
    forall i, j :: 0 <= i < j < |ids| ==> ids[i] < ids[j]
  }

  lemma IncreasingCons(n: nat, rest: seq<nat>)
    requires Increasing(rest) && forall m :: m in rest ==> n < m
    ensures Increasing([n] + rest) && Increasing([] + rest)
  {
    assert forall i :: 0 <= i < |rest| ==> rest[i] in rest;
  }

  lemma {:induction false} LiveIdsMembers(cells: seq<Cell>)
    ensures forall n :: n in LiveIds(cells) <==> LiveNode(cells, n)
  {
    if cells != [] {
      var c, rest := cells[0], cells[1..];
      LiveIdsMembers(rest);
      assert cells == [c] + rest;
      forall n
        ensures n in LiveIds(cells) <==> LiveNode(cells, n)
      {
        assert c in cells;
        assert LiveNode(cells, n) <==> LiveNode(rest, n) || (c.id == n && c.callback.Some?);
      }
    }
  }

  lemma {:induction false} LiveIdsOrdered(cells: seq<Cell>, bound: nat)
    requires Ordered(cells, bound)
    ensures forall n :: n in LiveIds(cells) <==> LiveNode(cells, n)
    ensures Increasing(LiveIds(cells))
  {
    LiveIdsMembers(cells);
    if cells != [] {
      var c, rest := cells[0], cells[1..];
      LiveIdsOrdered(rest, bound);
      forall n | n in LiveIds(rest)
        ensures c.id < n
      {
        var d :| d in rest && d.id == n;
        var i :| 0 <= i < |rest| && rest[i] == d;
        assert cells[i + 1] == d;
      }
      IncreasingCons(c.id, LiveIds(rest));
    }
  }

  // ---------------------------------------------------------------- one step, seen by one iterator

  /** A copied iterator has yet to return what the one that it was copied from has. */
  lemma CopyPending(s: State, source: nat)
    requires Inv(s) && source in s.iterators
    ensures var t := Apply(s, Copy(source));
            && s.nextIterator !in s.iterators && s.nextIterator in t.iterators && source in t.iterators
            && Pending(t, s.nextIterator) == Pending(s, source) == Pending(t, source)
  {
  }

  lemma {:induction false} SkipNullLive(cells: seq<Cell>, i: nat)
    requires i <= |cells|
    ensures var j := SkipNull(cells, i);
            LiveIds(cells[i..]) == if j < |cells| then [cells[j].id] + LiveIds(cells[j + 1..]) else []
    decreases |cells| - i
  {
    if i < |cells| {
      assert cells[i..][0] == cells[i] && cells[i..][1..] == cells[i + 1..];
      if cells[i].callback.None? {
        SkipNullLive(cells, i + 1);
      }
    }
  }

  lemma {:induction false} WithoutAbsent(ids: seq<nat>, n: nat)
    requires n !in ids
    ensures Without(ids, n) == ids
  {
    if ids != [] {
      WithoutAbsent(ids[1..], n);
    }
  }

  lemma {:induction false} WithoutConcat(a: seq<nat>, b: seq<nat>, n: nat)
    ensures Without(a + b, n) == Without(a, n) + Without(b, n)
  {
    if a == [] {
      assert a + b == b;
    } else {
      assert (a + b)[1..] == a[1..] + b;
      WithoutConcat(a[1..], b, n);
      var one := if a[0] == n then [] else [a[0]];
      assert one + (Without(a[1..], n) + Without(b, n)) == (one + Without(a[1..], n)) + Without(b, n);
    }
  }

  lemma LiveIdsMiddle(a: seq<Cell>, x: Cell, b: seq<Cell>)
    ensures LiveIds(a + ([x] + b)) == LiveIds(a) + (LiveIds([x]) + LiveIds(b))
  {
    LiveIdsConcat(a, [x] + b);
    LiveIdsConcat([x], b);
  }

  lemma LiveIdsOne(x: Cell)
    ensures LiveIds([x]) == if x.callback.Some? then [x.id] else []
  {
    assert [x][1..] == [];
  }

  lemma WithoutMiddle(p: seq<nat>, one: seq<nat>, q: seq<nat>, n: nat)
    requires n !in p && n !in q && (one == [] || one == [n])
    ensures Without(p + (one + q), n) == p + ([] + q)
  {
    WithoutConcat(p, one + q, n);
    WithoutConcat(one, q, n);
    WithoutAbsent(p, n);
    WithoutAbsent(q, n);
    assert [n][1..] == [];
    assert Without(one, n) == [];
  }

  lemma OutsideIds(cells: seq<Cell>, bound: nat, k: nat)
    requires Ordered(cells, bound) && k < |cells|
    ensures cells[k].id !in LiveIds(cells[..k]) && cells[k].id !in LiveIds(cells[k + 1..])
  {
    LiveIdsMembers(cells[..k]);
    LiveIdsMembers(cells[k + 1..]);
  }

  lemma AroundMiddle(cells: seq<Cell>, k: nat, x: Cell)
    requires k < |cells|
    ensures cells[k := x] == cells[..k] + ([x] + cells[k + 1..])
  {
  }

  lemma NullOne(cells: seq<Cell>, bound: nat, k: nat)
    requires Ordered(cells, bound) && k < |cells|
    ensures LiveIds(cells[k := Cell(cells[k].id, None)]) == Without(LiveIds(cells), cells[k].id)
  {
    var x, gone, a, b := cells[k], Cell(cells[k].id, None), cells[..k], cells[k + 1..];
    OutsideIds(cells, bound, k);
    hide LiveIds, Without, Ordered;
    AroundMiddle(cells, k, x);
    AroundMiddle(cells, k, gone);
    assert cells[k := x] == cells;
    LiveIdsMiddle(a, x, b);
    LiveIdsMiddle(a, gone, b);
    LiveIdsOne(x);
    LiveIdsOne(gone);
    WithoutMiddle(LiveIds(a), LiveIds([x]), LiveIds(b), x.id);
  }

  lemma IndexStays(cells: seq<Cell>, added: Cell, id: nat)
    requires HasNode(cells, id)
    ensures Index(cells, id) < |cells| && Index(cells + [added], id) == Index(cells, id)
  {
    var c :| c in cells && c.id == id;
    var i := Index(cells, id);
    assert forall k :: 0 <= k <= i ==> (cells + [added])[k] == cells[k];
  }

  lemma LiveIdsSnoc(cells: seq<Cell>, added: Cell, i: nat)
    requires i <= |cells| && added.callback.Some?
    ensures LiveIds((cells + [added])[i..]) == LiveIds(cells[i..]) + [added.id]
  {
    assert (cells + [added])[i..] == cells[i..] + [added];
    LiveIdsConcat(cells[i..], [added]);
    LiveIdsOne(added);
  }

  lemma AddPending(s: State, op: Op, it: nat)
    requires Inv(s) && op.Add? && it in s.iterators
    ensures Pending(Apply(s, op), it) == Pending(s, it) + (if s.iterators[it].At? then [s.nextNode] else [])
  {
    var added := Cell(s.nextNode, Some(op.callback));
    var all, pos := s.cells + [added], s.iterators[it];
    assert Apply(s, op).cells == all && Apply(s, op).iterators == s.iterators;
    hide Inv, LiveIds, Ordered;
    if pos.At? {
      HasNodeOf(s, it);
      IndexStays(s.cells, added, pos.id);
      LiveIdsSnoc(s.cells, added, Index(s.cells, pos.id));
    } else {
      assert s.cells[|s.cells|..] == [] && all[|all|..] == [];
      NoLiveIds();
    }
  }

  lemma HasNodeOf(s: State, it: nat)
    requires Inv(s) && it in s.iterators && s.iterators[it].At?
    ensures HasNode(s.cells, s.iterators[it].id)
  {
  }

  lemma NoLiveIds()
    ensures LiveIds([]) == []
  {
  }

  lemma NullKeepsIndex(s: State, k: nat, pos: Position)
    requires Inv(s) && k < |s.cells| && (pos.At? ==> HasNode(s.cells, pos.id))
    ensures IndexOf(s.cells[k := Cell(s.cells[k].id, None)], pos) == IndexOf(s.cells, pos)
  {
    var from, cells := IndexOf(s.cells, pos), s.cells[k := Cell(s.cells[k].id, None)];
    NullAt(s.cells, s.nextNode, k);
    if pos.At? {
      assert cells[from].id == s.cells[from].id;
      IndexFound(cells, s.nextNode, from);
    }
  }

  lemma NullSuffix(cells: seq<Cell>, bound: nat, k: nat, from: nat)
    requires Ordered(cells, bound) && k < |cells| && from <= |cells|
    ensures LiveIds(cells[k := Cell(cells[k].id, None)][from..]) == Without(LiveIds(cells[from..]), cells[k].id)
  {
    var n, suffix := cells[k].id, cells[from..];
    var nulled := cells[k := Cell(n, None)];
    if k < from {
      assert nulled[from..] == suffix;
      LiveIdsOrdered(suffix, bound);
      assert forall c :: c in suffix ==> n < c.id;
      WithoutAbsent(LiveIds(suffix), n);
    } else {
      assert nulled[from..] == suffix[k - from := Cell(n, None)];
      NullOne(suffix, bound, k - from);
    }
  }

  lemma UnsubscribePending(s: State, op: Op, it: nat)
    requires Inv(s) && op.Unsubscribe? && Enabled(s, op) && it in s.iterators
    ensures Pending(Apply(s, op), it) == Without(Pending(s, it), op.node)
  {
    assert LiveNode(s.cells, op.node);
    var k, from := Index(s.cells, op.node), IndexOf(s.cells, s.iterators[it]);
    assert s.count != 0 by {
      assert s.iterators.Keys != {};
    }
    NullKeepsIndex(s, k, s.iterators[it]);
    NullSuffix(s.cells, s.nextNode, k, from);
  }

  lemma GetNextPending(s: State, it: nat)
    requires Inv(s) && it in s.iterators
    ensures match Returned(s, it)
            case Some(n) => Pending(s, it) == [n] + Pending(Apply(s, GetNext(it)), it)
            case None => Pending(s, it) == [] && Pending(Apply(s, GetNext(it)), it) == []
  {
    var from := IndexOf(s.cells, s.iterators[it]);
    SkipNullLive(s.cells, from);
    var j := SkipNull(s.cells, from);
    var next := if j < |s.cells| then j + 1 else j;
    PositionRoundTrip(s, next);
    assert j == |s.cells| ==> s.cells[j..] == [];
  }

  lemma PositionRoundTrip(s: State, i: nat)
    requires Inv(s) && i <= |s.cells|
    ensures IndexOf(s.cells, PositionAt(s.cells, i)) == i
  {
    if i < |s.cells| {
      IndexFound(s.cells, s.nextNode, i);
    }
  }

  /** Steps that do not concern this iterator leave it alone; in particular the list is not
      compacted under it. */
  lemma OtherPending(s: State, op: Op, it: nat)
    requires Inv(s) && Enabled(s, op) && it in s.iterators
    requires op.Open? || op.Copy? || (op.GetNext? && op.it != it) || (op.Close? && op.it != it)
    ensures it in Apply(s, op).iterators && Pending(Apply(s, op), it) == Pending(s, it)
    ensures Apply(s, op).iterators[it] == s.iterators[it]
  {
    if op.Close? {
      var left := s.iterators - {op.it};
      assert it in left.Keys && |left| == |s.iterators| - 1 by {
        assert left.Keys == s.iterators.Keys - {op.it};
      }
      assert |left| != 0;
    } else {
      assert s.nextIterator != it;
    }
  }

  // ---------------------------------------------------------------- a whole pass

  /** The nodes this iterator returns during a run. */
  function Visited(s: State, ops: seq<Op>, it: nat): seq<nat>
    requires Legal(s, ops) && it in s.iterators && Close(it) !in ops
    decreases |ops|
  {
    if ops == [] then []
    else
      (if ops[0] == GetNext(it) && Returned(s, it).Some? then [Returned(s, it).value] else [])
      + Visited(Apply(s, ops[0]), ops[1..], it)
  }

  /** The nodes added during a run while this iterator's saved position was not the end. */
  function Joined(s: State, ops: seq<Op>, it: nat): seq<nat>
    requires Legal(s, ops) && it in s.iterators && Close(it) !in ops
    decreases |ops|
  {
    if ops == [] then []
    else
      (if ops[0].Add? && s.iterators[it].At? then [s.nextNode] else [])
      + Joined(Apply(s, ops[0]), ops[1..], it)
  }

  /** The node is unsubscribed before this iterator has returned it. */
  predicate RemovedFirst(s: State, ops: seq<Op>, it: nat, n: nat)
    requires Legal(s, ops) && it in s.iterators && Close(it) !in ops
    decreases |ops|
  {
    ops != [] && (
      || ops[0] == Unsubscribe(n)
      || (!(ops[0] == GetNext(it) && Returned(s, it) == Some(n)) && RemovedFirst(Apply(s, ops[0]), ops[1..], it, n)))
  }

  function Kept(s: State, ops: seq<Op>, it: nat, ids: seq<nat>): seq<nat>
    requires Legal(s, ops) && it in s.iterators && Close(it) !in ops
    decreases |ids|
  {
    if ids == [] then []
    else (if RemovedFirst(s, ops, it, ids[0]) then [] else [ids[0]]) + Kept(s, ops, it, ids[1..])
  }

  lemma {:induction false} RunKeepsIterator(s: State, ops: seq<Op>, it: nat)
    requires Legal(s, ops) && it in s.iterators && Close(it) !in ops
    ensures it in Run(s, ops).iterators
    decreases |ops|
  {
    if ops != [] {
      RunKeepsIterator(Apply(s, ops[0]), ops[1..], it);
    }
  }

  lemma {:induction false} JoinedFresh(s: State, ops: seq<Op>, it: nat)
    requires Legal(s, ops) && it in s.iterators && Close(it) !in ops
    ensures forall i :: 0 <= i < |Joined(s, ops, it)| ==> s.nextNode <= Joined(s, ops, it)[i]
    ensures Increasing(Joined(s, ops, it))
    decreases |ops|
  {
    if ops != [] {
      JoinedFresh(Apply(s, ops[0]), ops[1..], it);
    }
  }

  /** Filtering with the rest of the run gives the same as filtering with the whole run, once the
      node that the first step removes is dropped. */
  lemma {:induction false} KeptStep(s: State, ops: seq<Op>, it: nat, ids: seq<nat>)
    requires Legal(s, ops) && it in s.iterators && Close(it) !in ops && ops != []
    requires ops[0] == GetNext(it) ==> Returned(s, it).None? || Returned(s, it).value !in ids
    ensures Kept(s, ops, it, ids)
            == Kept(Apply(s, ops[0]), ops[1..], it, if ops[0].Unsubscribe? then Without(ids, ops[0].node) else ids)
    decreases |ids|
  {
    if ids != [] {
      KeptStep(s, ops, it, ids[1..]);
      if ops[0].Unsubscribe? {
        var others := Without(ids[1..], ops[0].node);
        if ids[0] == ops[0].node {
          assert Without(ids, ops[0].node) == others;
          assert RemovedFirst(s, ops, it, ids[0]);
        } else {
          assert Without(ids, ops[0].node) == [ids[0]] + others;
          assert Without(ids, ops[0].node)[1..] == others;
        }
      } else {
        assert ids[0] in ids;
      }
    }
  }

  /** What a pass does, exactly: the nodes it has returned, then those it still has to return, are
      the nodes that were live when it stood at its starting position, followed by the nodes added
      while it was not at the end, minus the ones unsubscribed before their turn. */
  lemma {:induction false} PassLaw(s: State, ops: seq<Op>, it: nat)
    requires Inv(s) && Legal(s, ops) && it in s.iterators && Close(it) !in ops
    ensures it in Run(s, ops).iterators
    ensures Visited(s, ops, it) + Pending(Run(s, ops), it) == Kept(s, ops, it, Pending(s, it) + Joined(s, ops, it))
    decreases |ops|
  {
    RunKeepsIterator(s, ops, it);
    if ops == [] {
      var p := Pending(s, it);
      assert p + Joined(s, ops, it) == p && Visited(s, ops, it) + p == p;
      KeptNothingRemoved(s, it, p);
    } else {
      StepKeepsInv(s, ops[0]);
      PassStep(s, ops[0], it);
      PassLaw(Apply(s, ops[0]), ops[1..], it);
      NoRepeats(s, ops, it);
      if ops[0] == GetNext(it) && Pending(s, it) != [] {
        PassLawReturns(s, ops, it);
      } else {
        PassLawWaits(s, ops, it);
      }
    }
  }

  /** No node is both still to be returned and yet to be added. */
  ghost predicate Fresh(s: State, ops: seq<Op>, it: nat)
    requires Legal(s, ops) && it in s.iterators && Close(it) !in ops && ops != []
  {
    && (Pending(s, it) != [] ==> Pending(s, it)[0] !in Pending(s, it)[1..] + Joined(s, ops, it))
    && (ops[0].Unsubscribe? ==> ops[0].node !in Joined(Apply(s, ops[0]), ops[1..], it))
  }

  lemma NoRepeats(s: State, ops: seq<Op>, it: nat)
    requires Inv(s) && Legal(s, ops) && it in s.iterators && Close(it) !in ops && ops != []
    ensures Fresh(s, ops, it)
  {
    if Pending(s, it) != [] {
      FrontIsUnique(s, ops, it);
    }
    if ops[0].Unsubscribe? {
      UnsubscribedIsOld(s, ops[0]);
      JoinedFresh(Apply(s, ops[0]), ops[1..], it);
    }
  }

  /** The law holds for the run after its first step. */
  ghost predicate LawAfter(s: State, ops: seq<Op>, it: nat)
    requires Legal(s, ops) && it in s.iterators && Close(it) !in ops && ops != []
  {
    var t, rest := Apply(s, ops[0]), ops[1..];
    && it in Run(t, rest).iterators
    && Visited(t, rest, it) + Pending(Run(t, rest), it) == Kept(t, rest, it, Pending(t, it) + Joined(t, rest, it))
  }

  lemma PassLawReturns(s: State, ops: seq<Op>, it: nat)
    requires Legal(s, ops) && it in s.iterators && Close(it) !in ops && ops != []
    requires Fresh(s, ops, it) && StepSeen(s, ops[0], it) && LawAfter(s, ops, it)
    requires ops[0] == GetNext(it) && Pending(s, it) != []
    ensures it in Run(s, ops).iterators
    ensures Visited(s, ops, it) + Pending(Run(s, ops), it) == Kept(s, ops, it, Pending(s, it) + Joined(s, ops, it))
  {
    ComesAfter(s, ops, it);
    VisitedReturns(s, ops, it);
    var p, t, rest := Pending(s, it), Apply(s, ops[0]), ops[1..];
    var joined, v, r := Joined(s, ops, it), Visited(t, rest, it), Pending(Run(t, rest), it);
    PassReturns(s, ops, it, p, joined, p[1..] + joined, v, r);
  }

  lemma ComesAfter(s: State, ops: seq<Op>, it: nat)
    requires Legal(s, ops) && it in s.iterators && Close(it) !in ops && ops != []
    requires ops[0] == GetNext(it) && Pending(s, it) != [] && StepSeen(s, ops[0], it)
    ensures Pending(s, it)[1..] + Joined(s, ops, it)
            == Pending(Apply(s, ops[0]), it) + Joined(Apply(s, ops[0]), ops[1..], it)
  {
    JoinedStep(s, ops, it);
  }

  lemma PassLawWaits(s: State, ops: seq<Op>, it: nat)
    requires Legal(s, ops) && it in s.iterators && Close(it) !in ops && ops != []
    requires Fresh(s, ops, it) && StepSeen(s, ops[0], it) && LawAfter(s, ops, it)
    requires !(ops[0] == GetNext(it) && Pending(s, it) != [])
    ensures it in Run(s, ops).iterators
    ensures Visited(s, ops, it) + Pending(Run(s, ops), it) == Kept(s, ops, it, Pending(s, it) + Joined(s, ops, it))
  {
    JoinedStep(s, ops, it);
    var p, q, t, rest := Pending(s, it), Pending(Apply(s, ops[0]), it), Apply(s, ops[0]), ops[1..];
    var extra := if ops[0].Add? && s.iterators[it].At? then [s.nextNode] else [];
    VisitedStep(s, ops, it);
    assert q == p ==> q == p + [];
    PassWaits(s, ops, it, p, q, extra, Joined(t, rest, it), Visited(t, rest, it) + Pending(Run(t, rest), it));
  }

  lemma PassWaits(s: State, ops: seq<Op>, it: nat,
                  p: seq<nat>, q: seq<nat>, extra: seq<nat>, later: seq<nat>, kept: seq<nat>)
    requires Legal(s, ops) && it in s.iterators && Close(it) !in ops && ops != []
    requires ops[0] == GetNext(it) ==> Returned(s, it).None?
    requires ops[0].Unsubscribe? ==> extra == [] && q == Without(p, ops[0].node) && ops[0].node !in later
    requires !ops[0].Unsubscribe? ==> q == p + extra
    requires kept == Kept(Apply(s, ops[0]), ops[1..], it, q + later)
    ensures kept == Kept(s, ops, it, p + (extra + later))
  {
    StillToCome(ops[0], p, q, extra, later);
    KeptStep(s, ops, it, p + (extra + later));
  }

  lemma PassReturns(s: State, ops: seq<Op>, it: nat,
                    p: seq<nat>, joined: seq<nat>, after: seq<nat>, v: seq<nat>, r: seq<nat>)
    requires Legal(s, ops) && it in s.iterators && Close(it) !in ops && ops != []
    requires p != [] && ops[0] == GetNext(it) && Returned(s, it) == Some(p[0])
    requires after == p[1..] + joined && p[0] !in after
    requires v + r == Kept(Apply(s, ops[0]), ops[1..], it, after)
    ensures ([p[0]] + v) + r == Kept(s, ops, it, p + joined)
  {
    KeptReturns(s, ops, it, p[0], after);
    FrontOf(p, joined);
    Associative([p[0]], v, r);
  }

  lemma FrontOf(p: seq<nat>, joined: seq<nat>)
    requires p != []
    ensures p + joined == [p[0]] + (p[1..] + joined)
  {
  }

  lemma VisitedReturns(s: State, ops: seq<Op>, it: nat)
    requires Legal(s, ops) && it in s.iterators && Close(it) !in ops && ops != []
    requires ops[0] == GetNext(it) && Returned(s, it).Some?
    ensures Visited(s, ops, it) == [Returned(s, it).value] + Visited(Apply(s, ops[0]), ops[1..], it)
  {
  }

  lemma VisitedStep(s: State, ops: seq<Op>, it: nat)
    requires Legal(s, ops) && it in s.iterators && Close(it) !in ops && ops != []
    requires ops[0] == GetNext(it) ==> Returned(s, it).None?
    ensures Visited(s, ops, it) == Visited(Apply(s, ops[0]), ops[1..], it)
  {
  }

  lemma FrontIsUnique(s: State, ops: seq<Op>, it: nat)
    requires Inv(s) && Legal(s, ops) && it in s.iterators && Close(it) !in ops
    requires Pending(s, it) != []
    ensures Pending(s, it)[0] !in Pending(s, it)[1..] + Joined(s, ops, it)
  {
    PendingBounds(s, it);
    JoinedFresh(s, ops, it);
  }

  lemma KeptFront(s: State, ops: seq<Op>, it: nat, n: nat, ids: seq<nat>)
    requires Legal(s, ops) && it in s.iterators && Close(it) !in ops
    requires !RemovedFirst(s, ops, it, n)
    ensures Kept(s, ops, it, [n] + ids) == [n] + Kept(s, ops, it, ids)
  {
    assert ([n] + ids)[1..] == ids;
  }

  /** The node that a step returns comes off the front of what is kept. */
  lemma KeptReturns(s: State, ops: seq<Op>, it: nat, n: nat, ids: seq<nat>)
    requires Legal(s, ops) && it in s.iterators && Close(it) !in ops && ops != []
    requires ops[0] == GetNext(it) && Returned(s, it) == Some(n) && n !in ids
    ensures Kept(s, ops, it, [n] + ids) == [n] + Kept(Apply(s, ops[0]), ops[1..], it, ids)
  {
    KeptStep(s, ops, it, ids);
    KeptFront(s, ops, it, n, ids);
  }

  lemma JoinedStep(s: State, ops: seq<Op>, it: nat)
    requires Legal(s, ops) && it in s.iterators && Close(it) !in ops && ops != []
    ensures Joined(s, ops, it)
            == (if ops[0].Add? && s.iterators[it].At? then [s.nextNode] else [])
               + Joined(Apply(s, ops[0]), ops[1..], it)
  {
  }

  /** How what is still to come, `p` and `joined`, changes to `q` and `later` when no node is returned. */
  lemma StillToCome(op: Op, p: seq<nat>, q: seq<nat>, extra: seq<nat>, later: seq<nat>)
    requires op.Unsubscribe? ==> extra == [] && q == Without(p, op.node) && op.node !in later
    requires !op.Unsubscribe? ==> q == p + extra
    ensures q + later == if op.Unsubscribe? then Without(p + (extra + later), op.node) else p + (extra + later)
  {
    if op.Unsubscribe? {
      WithoutConcat(p, later, op.node);
      WithoutAbsent(later, op.node);
      assert extra + later == later;
    } else {
      assert (p + extra) + later == p + (extra + later);
    }
  }

  lemma {:induction false} KeptNothingRemoved(s: State, it: nat, ids: seq<nat>)
    requires it in s.iterators
    ensures Kept(s, [], it, ids) == ids
  {
    if ids != [] {
      KeptNothingRemoved(s, it, ids[1..]);
    }
  }

  lemma PendingBounds(s: State, it: nat)
    requires Inv(s) && it in s.iterators
    ensures forall i :: 0 <= i < |Pending(s, it)| ==> Pending(s, it)[i] < s.nextNode
    ensures Increasing(Pending(s, it))
  {
    var suffix := s.cells[IndexOf(s.cells, s.iterators[it])..];
    LiveIdsOrdered(suffix, s.nextNode);
    assert forall i :: 0 <= i < |Pending(s, it)| ==> LiveNode(suffix, Pending(s, it)[i]);
  }

  lemma UnsubscribedIsOld(s: State, op: Op)
    requires Inv(s) && op.Unsubscribe? && Enabled(s, op)
    ensures op.node < s.nextNode
  {
    assert LiveNode(s.cells, op.node);
  }

  /** What one step does to what this iterator has yet to return. */
  ghost predicate StepSeen(s: State, op: Op, it: nat)
    requires Enabled(s, op) && it in s.iterators && op != Close(it)
  {
    var p, q := Pending(s, it), Pending(Apply(s, op), it);
    match op
    case Add(_) => q == p + (if s.iterators[it].At? then [s.nextNode] else [])
    case Unsubscribe(n) => q == Without(p, n)
    case GetNext(i) =>
      if i != it then q == p
      else if p == [] then Returned(s, it).None? && q == []
      else Returned(s, it) == Some(p[0]) && q == p[1..]
    case _ => q == p
  }

  lemma PassStep(s: State, op: Op, it: nat)
    requires Inv(s) && Enabled(s, op) && it in s.iterators && op != Close(it)
    ensures StepSeen(s, op, it)
  {
    match op
    case Add(_) => AddPending(s, op, it);
    case Unsubscribe(_) => UnsubscribePending(s, op, it);
    case GetNext(i) =>
      if i == it {
        GetNextPending(s, it);
      } else {
        OtherPending(s, op, it);
      }
    case _ => OtherPending(s, op, it);
  }

  lemma {:induction false} KeptMembers(s: State, ops: seq<Op>, it: nat, ids: seq<nat>)
    requires Legal(s, ops) && it in s.iterators && Close(it) !in ops
    ensures forall n :: n in Kept(s, ops, it, ids) <==> n in ids && !RemovedFirst(s, ops, it, n)
    decreases |ids|
  {
    if ids != [] {
      KeptMembers(s, ops, it, ids[1..]);
      assert ids == [ids[0]] + ids[1..];
    }
  }

  lemma {:induction false} KeptIncreasing(s: State, ops: seq<Op>, it: nat, ids: seq<nat>)
    requires Legal(s, ops) && it in s.iterators && Close(it) !in ops
    requires Increasing(ids)
    ensures Increasing(Kept(s, ops, it, ids))
    decreases |ids|
  {
    if ids != [] {
      KeptIncreasing(s, ops, it, ids[1..]);
      KeptMembers(s, ops, it, ids[1..]);
      IncreasingCons(ids[0], Kept(s, ops, it, ids[1..]));
    }
  }

  /** A finished pass: in list order and without repetition, it returned exactly the nodes that were
      live when it started or were added while it was not at the end, and that were not
      unsubscribed before their turn. */
  lemma FinishedPass(s: State, ops: seq<Op>, it: nat)
    requires Inv(s) && Legal(s, ops) && it in s.iterators && Close(it) !in ops
    requires it in Run(s, ops).iterators && Pending(Run(s, ops), it) == []
    ensures Increasing(Visited(s, ops, it))
    ensures forall n :: n in Visited(s, ops, it)
              <==> (n in Pending(s, it) || n in Joined(s, ops, it)) && !RemovedFirst(s, ops, it, n)
  {
    PassLaw(s, ops, it);
    PendingBounds(s, it);
    JoinedFresh(s, ops, it);
    KeptMembers(s, ops, it, Pending(s, it) + Joined(s, ops, it));
    KeptIncreasing(s, ops, it, Pending(s, it) + Joined(s, ops, it));
    assert Visited(s, ops, it) + [] == Visited(s, ops, it);
  }

  /** The node was in the list once and has been unsubscribed. */
  predicate Gone(s: State, n: nat) {
    n < s.nextNode && n !in s.subscriptions
  }

  /** Some GetNext of the run, on whatever iterator, returns the node. */
  predicate EverReturned(s: State, ops: seq<Op>, n: nat)
    requires Legal(s, ops)
    decreases |ops|
  {
    ops != [] && (
      || (ops[0].GetNext? && Returned(s, ops[0].it) == Some(n))
      || EverReturned(Apply(s, ops[0]), ops[1..], n))
  }

  lemma ReturnedIsLive(s: State, it: nat)
    requires Inv(s) && it in s.iterators
    ensures Returned(s, it).Some? ==> Returned(s, it).value in s.subscriptions
  {
    var j := SkipNull(s.cells, IndexOf(s.cells, s.iterators[it]));
    if j < |s.cells| {
      assert s.cells[j] in s.cells;
      assert LiveNode(s.cells, s.cells[j].id);
    }
  }

  /** Once unsubscribed, a callback is never run again, by any pass, nested or not. */
  lemma {:induction false} GoneForGood(s: State, ops: seq<Op>, n: nat)
    requires Inv(s) && Legal(s, ops) && Gone(s, n)
    ensures !EverReturned(s, ops, n) && Gone(Run(s, ops), n)
    decreases |ops|
  {
    if ops != [] {
      if ops[0].GetNext? {
        ReturnedIsLive(s, ops[0].it);
      }
      StepKeepsInv(s, ops[0]);
      GoneForGood(Apply(s, ops[0]), ops[1..], n);
    }
  }

  // ---------------------------------------------------------------- composing runs

  lemma {:induction false} RunConcat(s: State, a: seq<Op>, b: seq<Op>)
    requires Legal(s, a) && Legal(Run(s, a), b)
    ensures Legal(s, a + b) && Run(s, a + b) == Run(Run(s, a), b)
    decreases |a|
  {
    if a == [] {
      assert a + b == b;
    } else {
      assert (a + b)[1..] == a[1..] + b;
      RunConcat(Apply(s, a[0]), a[1..], b);
    }
  }

  lemma {:induction false} VisitedConcat(s: State, a: seq<Op>, b: seq<Op>, it: nat)
    requires Legal(s, a) && Legal(Run(s, a), b)
    requires it in s.iterators && Close(it) !in a && Close(it) !in b
    ensures it in Run(s, a).iterators && Legal(s, a + b)
    ensures Visited(s, a + b, it) == Visited(s, a, it) + Visited(Run(s, a), b, it)
    decreases |a|
  {
    RunKeepsIterator(s, a, it);
    RunConcat(s, a, b);
    if a == [] {
      assert a + b == b;
    } else {
      assert (a + b)[1..] == a[1..] + b;
      VisitedConcat(Apply(s, a[0]), a[1..], b, it);
      var one := if a[0] == GetNext(it) && Returned(s, it).Some? then [Returned(s, it).value] else [];
      Associative(one, Visited(Apply(s, a[0]), a[1..], it), Visited(Run(s, a), b, it));
    }
  }

  /** The run neither advances nor destroys an iterator older than `bound`. */
  predicate Foreign(ops: seq<Op>, bound: nat) {
    forall op :: op in ops ==> (op.GetNext? || op.Close?) ==> bound <= op.it
  }

  lemma {:induction false} ForeignVisitsNothing(s: State, ops: seq<Op>, it: nat)
    requires Legal(s, ops) && it in s.iterators && Foreign(ops, it + 1)
    ensures Close(it) !in ops && Visited(s, ops, it) == []
    decreases |ops|
  {
    if ops != [] {
      assert ops[0] in ops;
      ForeignVisitsNothing(Apply(s, ops[0]), ops[1..], it);
    }
  }

  function CountAdds(ops: seq<Op>): nat {
    if ops == [] then 0 else (if ops[0].Add? then 1 else 0) + CountAdds(ops[1..])
  }

  lemma {:induction false} CountAddsConcat(a: seq<Op>, b: seq<Op>)
    ensures CountAdds(a + b) == CountAdds(a) + CountAdds(b)
  {
    if a == [] {
      assert a + b == b;
    } else {
      assert (a + b)[1..] == a[1..] + b;
      CountAddsConcat(a[1..], b);
    }
  }

  lemma {:induction false} WithoutShrinks(ids: seq<nat>, n: nat)
    ensures |Without(ids, n)| <= |ids|
  {
    if ids != [] {
      WithoutShrinks(ids[1..], n);
    }
  }

  lemma {:induction false} PendingGrowth(s: State, ops: seq<Op>, it: nat)
    requires Inv(s) && Legal(s, ops) && it in s.iterators && Foreign(ops, it + 1)
    ensures it in Run(s, ops).iterators
    ensures |Pending(Run(s, ops), it)| <= |Pending(s, it)| + CountAdds(ops)
    decreases |ops|
  {
    if ops != [] {
      assert ops[0] in ops;
      StepKeepsInv(s, ops[0]);
      PassStep(s, ops[0], it);
      if ops[0].Unsubscribe? {
        WithoutShrinks(Pending(s, it), ops[0].node);
      }
      PendingGrowth(Apply(s, ops[0]), ops[1..], it);
    }
  }
}
