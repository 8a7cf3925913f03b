/** The IDMap of base/id_map.h: a table that may lose entries while it is iterated.  Removal is
    recorded and carried out when the last iterator dies; an owning map also deletes the pointers. */
module IdMaps {
  import opened Basics

  /** A pointer; zero is NULL, which deleting leaves alone. */
  type Pointer = nat
  const NULL: Pointer := 0
  const MAX_ID := 0x7FFF_FFFF

  datatype Position = At(key: int) | End

  /** The hash table, with the order in which it is enumerated; the ids waiting to be removed; the
      live iterators; the pointers ever handed to the map and the pointers it has deleted. */
  datatype State = State(
    owning: bool,
    data: map<int, Pointer>,
    order: seq<int>,
    removed: set<int>,
    depth: int,
    iterators: map<nat, Position>,
    nextIterator: nat,
    nextId: int,
    added: multiset<Pointer>,
    deleted: multiset<Pointer>)

  function Start(owning: bool): State {
    State(owning, map[], [], {}, 0, map[], 0, 1, multiset{}, multiset{})
  }

  /** A new entry may land anywhere and, since the table may be rebuilt, move the others. */
  datatype Op =
    | Add(value: Pointer, newOrder: seq<int>)
    | AddWithID(value: Pointer, id: int, newOrder: seq<int>)
    | Remove(id: int)
    | Clear
    | Open
    | Copy(source: nat)
    | Advance(it: nat)
    | Close(it: nat)

  // ---------------------------------------------------------------- enumerations

  predicate Distinct(ids: seq<int>) {
    forall i, j :: 0 <= i < j < |ids| ==> ids[i] != ids[j]
  }

  predicate Enumerates(ids: seq<int>, keys: set<int>) {
    Distinct(ids) && (forall k :: k in keys ==> k in ids) && (forall i :: 0 <= i < |ids| ==> ids[i] in keys)
  }

  function Index(ids: seq<int>, key: int): (i: nat)
    ensures i <= |ids|
    ensures i < |ids| ==> ids[i] == key
    ensures key !in ids[..i]
    ensures key in ids ==> i < |ids|
  {
    if ids == [] || ids[0] == key then 0 else
      var i := Index(ids[1..], key);
      assert ids[..i + 1] == [ids[0]] + ids[1..][..i];
      1 + i
  }

  function IndexOf(ids: seq<int>, pos: Position): nat {
    if pos.End? then |ids| else Index(ids, pos.key)
  }

  function PositionAt(ids: seq<int>, i: nat): Position {
    if i < |ids| then At(ids[i]) else End
  }

  function Drop(ids: seq<int>, keys: set<int>): seq<int> {
    if ids == [] then []
    else (if ids[0] in keys then [] else [ids[0]]) + Drop(ids[1..], keys)
  }

  function Pick(ids: seq<int>, keys: set<int>): seq<int> {
    if ids == [] then []
    else (if ids[0] in keys then [ids[0]] else []) + Pick(ids[1..], keys)
  }

  function Real(p: Pointer): multiset<Pointer> {
    if p == NULL then multiset{} else multiset{p}
  }

  function Value(data: map<int, Pointer>, id: int): Pointer {
    if id in data then data[id] else NULL
  }

  /** The pointers stored under these ids. */
  function Held(ids: seq<int>, data: map<int, Pointer>): multiset<Pointer> {
    if ids == [] then multiset{} else Real(Value(data, ids[0])) + Held(ids[1..], data)
  }

  // ---------------------------------------------------------------- operations on values

  /** The first index at or after i whose id is not waiting to be removed. */
  function SkipRemoved(ids: seq<int>, removed: set<int>, i: nat): (j: nat)
    requires i <= |ids|
    ensures i <= j <= |ids|
    ensures forall k :: i <= k < j ==> ids[k] in removed
    ensures j < |ids| ==> ids[j] !in removed
    decreases |ids| - i
  {
    if i < |ids| && ids[i] in removed then SkipRemoved(ids, removed, i + 1) else i
  }

  function Settled(s: State, i: nat): Position {
    PositionAt(s.order, if i <= |s.order| then SkipRemoved(s.order, s.removed, i) else i)
  }

  /** Takes entries out of the table; an owning map deletes what they hold. */
  function Erase(s: State, keys: set<int>): State {
    s.(data := s.data - keys,
       order := Drop(s.order, keys),
       deleted := s.deleted + if s.owning then Held(Pick(s.order, keys), s.data) else multiset{})
  }

  predicate Enabled(s: State, op: Op) {
    match op
    case Add(_, order) =>
      s.iterators == map[] && s.nextId !in s.data && s.nextId < MAX_ID && Enumerates(order, s.data.Keys + {s.nextId})
    case AddWithID(_, id, order) => s.iterators == map[] && id !in s.data && Enumerates(order, s.data.Keys + {id})
    case Copy(it) => it in s.iterators
    case Advance(it) => it in s.iterators && s.iterators[it].At?
    case Close(it) => it in s.iterators
    case _ => true
  }

  function Inserted(s: State, id: int, value: Pointer, order: seq<int>): State {
    s.(data := s.data[id := value], order := order, added := s.added + Real(value))
  }

  function Opened(s: State, i: nat): State {
    s.(
      depth := s.depth + 1,
      iterators := s.iterators[s.nextIterator := Settled(s, i)],
      nextIterator := s.nextIterator + 1)
  }

  function Apply(s: State, op: Op): State
    requires Enabled(s, op)
  {
    match op
    case Add(value, order) => Inserted(s, s.nextId, value, order).(nextId := s.nextId + 1)
    case AddWithID(value, id, order) => Inserted(s, id, value, order)
    case Remove(id) =>
      if id !in s.data then s
      else if s.depth == 0 then Erase(s, {id})
      else s.(removed := s.removed + {id})
    case Clear =>
      if s.depth != 0 then s.(removed := s.removed + s.data.Keys)
      else if s.owning then Erase(s, s.data.Keys)
      else s
    case Open => Opened(s, 0)
    case Copy(it) => Opened(s, IndexOf(s.order, s.iterators[it]))
    case Advance(it) => s.(iterators := s.iterators[it := Settled(s, IndexOf(s.order, s.iterators[it]) + 1)])
    case Close(it) =>
      var t := s.(depth := s.depth - 1, iterators := s.iterators - {it});
      if t.depth == 0 then Erase(s, s.removed).(depth := 0, iterators := t.iterators, removed := {}) else t
  }

  /** The map that the class stands for: what is not waiting to be removed. */
  function Abs(s: State): map<int, Pointer> {
    s.data - s.removed
  }

  // ---------------------------------------------------------------- what every reachable state satisfies

  /** Only stored ids are waiting to be removed, and only while an iterator is alive; no iterator
      refers to an erased entry; and the pointers handed to an owning map are, each as often as it
      was handed over, either still stored or deleted. */
  ghost predicate Inv(s: State) {
    && Enumerates(s.order, s.data.Keys)
    && s.removed <= s.data.Keys
    && s.depth == |s.iterators|
    && (s.depth == 0 ==> s.removed == {})
    && (forall it :: it in s.iterators ==>
          it < s.nextIterator && (s.iterators[it].At? ==> s.iterators[it].key in s.data))
    && (if s.owning then s.added == s.deleted + Held(s.order, s.data) else s.deleted == multiset{})
  }

  lemma {:induction false} DropMembers(ids: seq<int>, keys: set<int>)
    ensures forall k :: k in Drop(ids, keys) <==> k in ids && k !in keys
    ensures forall k :: k in Pick(ids, keys) <==> k in ids && k in keys
    ensures Distinct(ids) ==> Distinct(Drop(ids, keys))
  {
    if ids != [] {
      DropMembers(ids[1..], keys);
      assert ids == [ids[0]] + ids[1..];
      var rest := Drop(ids[1..], keys);
      assert forall i :: 0 <= i < |rest| ==> rest[i] in rest;
    }
  }

  lemma {:induction false} HeldFrame(ids: seq<int>, a: map<int, Pointer>, b: map<int, Pointer>)
    requires forall i :: 0 <= i < |ids| ==> Value(a, ids[i]) == Value(b, ids[i])
    ensures Held(ids, a) == Held(ids, b)
  {
    if ids != [] {
      HeldFrame(ids[1..], a, b);
    }
  }

  lemma HeldCons(k: int, ids: seq<int>, data: map<int, Pointer>)
    ensures Held([k] + ids, data) == Real(Value(data, k)) + Held(ids, data)
  {
    assert ([k] + ids)[1..] == ids;
  }

  lemma {:induction false} HeldMiddle(a: seq<int>, k: int, b: seq<int>, data: map<int, Pointer>)
    ensures Held(a + ([k] + b), data) == Real(Value(data, k)) + Held(a + b, data)
  {
    if a == [] {
      assert a + ([k] + b) == [k] + b && a + b == b;
      HeldCons(k, b, data);
    } else {
      assert (a + b)[1..] == a[1..] + b && (a + ([k] + b))[1..] == a[1..] + ([k] + b);
      HeldMiddle(a[1..], k, b, data);
    }
  }

  lemma DropPickStep(ids: seq<int>, keys: set<int>)
    requires ids != []
    ensures ids[0] in keys ==>
              Drop(ids, keys) == Drop(ids[1..], keys) && Pick(ids, keys) == [ids[0]] + Pick(ids[1..], keys)
    ensures ids[0] !in keys ==>
              Drop(ids, keys) == [ids[0]] + Drop(ids[1..], keys) && Pick(ids, keys) == Pick(ids[1..], keys)
  {
  }

  lemma {:induction false} HeldSplit(ids: seq<int>, keys: set<int>, data: map<int, Pointer>)
    ensures Held(ids, data) == Held(Drop(ids, keys), data) + Held(Pick(ids, keys), data)
  {
    if ids != [] {
      HeldSplit(ids[1..], keys, data);
      DropPickStep(ids, keys);
      HeldCons(ids[0], Drop(ids[1..], keys), data);
      HeldCons(ids[0], Pick(ids[1..], keys), data);
    }
  }

  lemma MembersOf(a: seq<int>, k: int, b: seq<int>)
    ensures forall m :: m in a + ([k] + b) <==> m == k || m in a + b
  {
  }

  lemma DistinctMiddle(b: seq<int>, i: nat)
    requires Distinct(b) && i < |b|
    ensures Distinct(b[..i] + b[i + 1..])
    ensures b[i] !in b[..i] + b[i + 1..]
  {
  }

  lemma AroundMiddle(b: seq<int>, i: nat)
    requires i < |b|
    ensures b == b[..i] + ([b[i]] + b[i + 1..])
  {
  }

  lemma RemoveMiddle(b: seq<int>, i: nat, keys: set<int>)
    requires Enumerates(b, keys) && i < |b|
    ensures b == b[..i] + ([b[i]] + b[i + 1..]) && Enumerates(b[..i] + b[i + 1..], keys - {b[i]})
  {
    AroundMiddle(b, i);
    DistinctMiddle(b, i);
    hide Distinct;
    MembersOf(b[..i], b[i], b[i + 1..]);
    var rest := b[..i] + b[i + 1..];
    forall k | 0 <= k < |rest|
      ensures rest[k] in keys - {b[i]}
    {
      assert rest[k] in rest;
      assert rest[k] in b;
    }
  }

  lemma {:induction false} EnumerationSize(ids: seq<int>, keys: set<int>)
    requires Enumerates(ids, keys)
    ensures |ids| == |keys|
    decreases |ids|
  {
    if ids == [] {
      assert forall k :: k !in keys;
    } else {
      RemoveMiddle(ids, 0, keys);
      assert ids[..0] + ids[1..] == ids[1..];
      EnumerationSize(ids[1..], keys - {ids[0]});
    }
  }

  /** What a table holds does not depend on the order of its enumeration. */
  lemma {:induction false} HeldOrder(a: seq<int>, b: seq<int>, keys: set<int>, data: map<int, Pointer>)
    requires Enumerates(a, keys) && Enumerates(b, keys) && keys <= data.Keys
    ensures Held(a, data) == Held(b, data)
    decreases |a|
  {
    if a == [] {
      EnumerationSize(a, keys);
      EnumerationSize(b, keys);
    } else {
      var k := a[0];
      assert k in a;
      var i := Index(b, k);
      RemoveMiddle(a, 0, keys);
      RemoveMiddle(b, i, keys);
      assert a[..0] + a[1..] == a[1..];
      HeldMiddle(b[..i], k, b[i + 1..], data);
      HeldOrder(a[1..], b[..i] + b[i + 1..], keys - {k}, data);
    }
  }

  lemma EraseEnumerates(ids: seq<int>, data: map<int, Pointer>, keys: set<int>)
    requires Enumerates(ids, data.Keys)
    ensures Enumerates(Drop(ids, keys), (data - keys).Keys)
  {
    DropMembers(ids, keys);
    var rest := Drop(ids, keys);
    assert forall i :: 0 <= i < |rest| ==> rest[i] in rest;
    forall i | 0 <= i < |rest|
      ensures rest[i] in (data - keys).Keys
    {
      var j :| 0 <= j < |ids| && ids[j] == rest[i];
    }
  }

  lemma EraseHeld(ids: seq<int>, data: map<int, Pointer>, keys: set<int>)
    ensures Held(ids, data) == Held(Drop(ids, keys), data - keys) + Held(Pick(ids, keys), data)
  {
    var rest := Drop(ids, keys);
    DropMembers(ids, keys);
    assert forall i :: 0 <= i < |rest| ==> rest[i] in rest;
    HeldSplit(ids, keys, data);
    HeldFrame(rest, data, data - keys);
  }

  lemma EraseKeeps(s: State, keys: set<int>)
    requires Inv(s)
    ensures var t := Erase(s, keys);
            && Enumerates(t.order, t.data.Keys)
            && (if t.owning then t.added == t.deleted + Held(t.order, t.data) else t.deleted == multiset{})
  {
    EraseEnumerates(s.order, s.data, keys);
    EraseHeld(s.order, s.data, keys);
  }

  lemma EnumeratesCons(k: int, ids: seq<int>, keys: set<int>)
    requires Enumerates(ids, keys) && k !in keys
    ensures Enumerates([k] + ids, keys + {k})
  {
    assert forall i :: 0 <= i < |ids| ==> ids[i] in ids;
  }

  lemma HeldInserted(order: seq<int>, newOrder: seq<int>, id: int, value: Pointer, data: map<int, Pointer>)
    requires Enumerates(order, data.Keys) && id !in data && Enumerates(newOrder, data.Keys + {id})
    ensures Held(newOrder, data[id := value]) == Real(value) + Held(order, data)
  {
    var longer := data[id := value];
    assert longer.Keys == data.Keys + {id};
    assert Value(longer, id) == value;
    assert forall k :: k in order ==> k in data;
    HeldFrame(order, data, longer);
    HeldCons(id, order, longer);
    EnumeratesCons(id, order, data.Keys);
    hide Held, Enumerates, Real;
    HeldOrder([id] + order, newOrder, longer.Keys, longer);
  }

  lemma InsertKeeps(s: State, id: int, value: Pointer, order: seq<int>)
    requires Inv(s) && s.iterators == map[] && id !in s.data && Enumerates(order, s.data.Keys + {id})
    ensures Inv(Inserted(s, id, value, order))
  {
    hide Held, Enumerates, Real;
    HeldInserted(s.order, order, id, value, s.data);
    assert s.data[id := value].Keys == s.data.Keys + {id};
  }

  lemma OpenKeeps(s: State, i: nat)
    requires Inv(s) && i <= |s.order|
    ensures Inv(Opened(s, i))
  {
    assert s.nextIterator !in s.iterators;
    var j := SkipRemoved(s.order, s.removed, i);
    assert j < |s.order| ==> s.order[j] in s.order;
  }

  lemma CloseKeeps(s: State, op: Op)
    requires Inv(s) && op.Close? && Enabled(s, op)
    ensures Inv(Apply(s, op))
  {
    var left := s.iterators - {op.it};
    assert left.Keys == s.iterators.Keys - {op.it};
    if s.depth - 1 == 0 {
      EraseKeeps(s, s.removed);
      assert |left| == 0;
    }
  }

  /** Every step keeps the structure and the account of pointers. */
  lemma RemoveKeeps(s: State, id: int)
    requires Inv(s)
    ensures Inv(Apply(s, Remove(id)))
  {
    if id in s.data && s.depth == 0 {
      EraseKeeps(s, {id});
      assert s.iterators == map[];
      hide Held, Pick, Drop, Enumerates;
    }
  }

  lemma ClearKeeps(s: State)
    requires Inv(s)
    ensures Inv(Apply(s, Clear))
  {
    if s.depth == 0 && s.owning {
      EraseKeeps(s, s.data.Keys);
      assert s.iterators == map[];
      hide Held, Pick, Drop, Enumerates;
    }
  }

  lemma AdvanceKeeps(s: State, it: nat)
    requires Inv(s) && Enabled(s, Advance(it))
    ensures Inv(Apply(s, Advance(it)))
  {
    var j := SkipRemoved(s.order, s.removed, IndexOf(s.order, s.iterators[it]) + 1);
    assert j < |s.order| ==> s.order[j] in s.order;
    assert Apply(s, Advance(it)).iterators.Keys == s.iterators.Keys;
  }

  lemma StepKeepsInv(s: State, op: Op)
    requires Inv(s) && Enabled(s, op)
    ensures Inv(Apply(s, op))
  {
    match op
    case Add(value, order) =>
      InsertKeeps(s, s.nextId, value, order);
      hide Enumerates, Held;
    case AddWithID(value, id, order) => InsertKeeps(s, id, value, order);
    case Remove(id) => RemoveKeeps(s, id);
    case Clear => ClearKeeps(s);
    case Open => OpenKeeps(s, 0);
    case Copy(it) => OpenKeeps(s, IndexOf(s.order, s.iterators[it]));
    case Advance(it) => AdvanceKeeps(s, it);
    case Close(_) => CloseKeeps(s, op);
  }

  // ---------------------------------------------------------------- what the operations mean

  /** size() is the size of the abstract map, during iteration too. */
  lemma SizeIsAbstract(s: State)
    requires Inv(s)
    ensures |s.data| - |s.removed| == |Abs(s)|
  {
    assert Abs(s).Keys == s.data.Keys - s.removed;
  }

  /** Lookup goes by the table: it agrees with the abstract map except on ids waiting to be removed,
      of which there are none when nothing iterates. */
  lemma LookupMeaning(s: State, id: int)
    requires Inv(s)
    ensures Value(s.data, id) == (if id in Abs(s) then Abs(s)[id] else if id in s.removed then s.data[id] else NULL)
    ensures s.depth == 0 ==> Value(s.data, id) == Value(Abs(s), id)
  {
  }

  lemma InsertAbs(s: State, id: int, value: Pointer, order: seq<int>)
    requires s.removed == {}
    ensures Abs(Inserted(s, id, value, order)) == Abs(s)[id := value]
  {
  }

  lemma EraseAbs(s: State, keys: set<int>)
    ensures s.data - keys - s.removed == Abs(s) - keys
  {
  }

  lemma MarkAbs(s: State, keys: set<int>)
    ensures s.data - (s.removed + keys) == Abs(s) - keys
  {
  }

  lemma RemoveAbs(s: State, op: Op)
    requires Inv(s) && op.Remove?
    ensures Abs(Apply(s, op)) == Abs(s) - {op.id}
  {
    if op.id !in s.data {
      assert Abs(s) - {op.id} == Abs(s);
    } else if s.depth == 0 {
      EraseAbs(s, {op.id});
    } else {
      MarkAbs(s, {op.id});
    }
  }

  lemma ClearAbs(s: State)
    requires Inv(s)
    ensures Abs(Apply(s, Clear)) == if s.owning || s.depth != 0 then map[] else Abs(s)
  {
    assert Abs(s) - s.data.Keys == map[];
    if s.depth != 0 {
      MarkAbs(s, s.data.Keys);
    } else if s.owning {
      EraseAbs(s, s.data.Keys);
    }
  }

  /** The effect of each operation on the abstract map.  Clear does not empty an external map that
      nobody iterates. */
  lemma StepAbs(s: State, op: Op)
    requires Inv(s) && Enabled(s, op)
    ensures var (m, n) := (Abs(s), Abs(Apply(s, op)));
            match op
            case Add(value, _) => n == m[s.nextId := value]
            case AddWithID(value, id, _) => n == m[id := value]
            case Remove(id) => n == m - {id}
            case Clear => n == if s.owning || s.depth != 0 then map[] else m
            case _ => n == m
  {
    match op
    case Add(value, order) => InsertAbs(s, s.nextId, value, order);
    case AddWithID(value, id, order) => InsertAbs(s, id, value, order);
    case Remove(id) => RemoveAbs(s, op);
    case Clear => ClearAbs(s);
    case Close(_) => assert s.data - s.removed - {} == Abs(s);
    case _ =>
  }

  /** Clear empties the map exactly when it owns its pointers, is being iterated, or is empty. */
  lemma ClearEmpties(s: State)
    requires Inv(s)
    ensures Abs(Apply(s, Clear)) == map[] <==> s.owning || s.depth != 0 || Abs(s) == map[]
  {
    StepAbs(s, Clear);
  }

  /** One entry, then Clear: an external map still has it. */
  lemma ClearKeepsExternalEntry(value: Pointer)
    ensures var one := Start(false);
            && Enabled(one, Add(value, [1]))
            && Abs(Apply(Apply(one, Add(value, [1])), Clear)) == map[1 := value]
  {
    var one := Start(false);
    assert one.data.Keys + {one.nextId} == {1};
  }

  // ---------------------------------------------------------------- runs

  predicate Legal(s: State, ops: seq<Op>)
    decreases |ops|
  {
    ops == [] || (Enabled(s, ops[0]) && Legal(Apply(s, ops[0]), ops[1..]))
  }

  function Run(s: State, ops: seq<Op>): State
    requires Legal(s, ops)
    decreases |ops|
  {
    if ops == [] then s else Run(Apply(s, ops[0]), ops[1..])
  }

  lemma {:induction false} RunKeepsInv(s: State, ops: seq<Op>)
    requires Inv(s) && Legal(s, ops)
    ensures Inv(Run(s, ops))
    decreases |ops|
  {
    if ops != [] {
      StepKeepsInv(s, ops[0]);
      RunKeepsInv(Apply(s, ops[0]), ops[1..]);
    }
  }

  /** The pointers handed over by the adds of a run. */
  function Handed(ops: seq<Op>): multiset<Pointer> {
    if ops == [] then multiset{}
    else (if ops[0].Add? || ops[0].AddWithID? then Real(ops[0].value) else multiset{}) + Handed(ops[1..])
  }

  lemma {:induction false} RunAdds(s: State, ops: seq<Op>)
    requires Legal(s, ops)
    ensures Run(s, ops).added == s.added + Handed(ops) && Run(s, ops).owning == s.owning
    decreases |ops|
  {
    if ops != [] {
      RunAdds(Apply(s, ops[0]), ops[1..]);
    }
  }

  /** The destructor deletes what an owning table still holds, pending removals included. */
  function Destroyed(s: State): multiset<Pointer> {
    s.deleted + if s.owning then Held(s.order, s.data) else multiset{}
  }

  /** Over a whole life an owning map deletes every non-null pointer it was handed exactly as often
      as it was handed over, and never more often on the way; an external map deletes none. */
  lemma EveryPointerIsDeletedOnce(owning: bool, ops: seq<Op>)
    requires Legal(Start(owning), ops)
    ensures var s := Run(Start(owning), ops);
            && (owning ==> s.deleted <= Handed(ops) && Destroyed(s) == Handed(ops))
            && (!owning ==> s.deleted == Destroyed(s) == multiset{})
  {
    RunAdds(Start(owning), ops);
    RunKeepsInv(Start(owning), ops);
    assert multiset{} + Handed(ops) == Handed(ops);
  }

  lemma StepNewIds(s: State, op: Op)
    requires Enabled(s, op) && !op.AddWithID? && (forall k :: k in s.data ==> k < s.nextId)
    ensures forall k :: k in Apply(s, op).data ==> k < Apply(s, op).nextId
  {
  }

  /** A map that only ever generates its ids never generates a stored one. */
  lemma {:induction false} GeneratedIdsAreNew(s: State, ops: seq<Op>)
    requires Legal(s, ops) && (forall k :: k in s.data ==> k < s.nextId)
    requires forall op :: op in ops ==> !op.AddWithID?
    ensures Run(s, ops).nextId !in Run(s, ops).data
    decreases |ops|
  {
    if ops != [] {
      assert ops[0] in ops;
      StepNewIds(s, ops[0]);
      GeneratedIdsAreNew(Apply(s, ops[0]), ops[1..]);
    }
  }

  function Additions(ops: seq<Op>): nat {
    if ops == [] then 0 else (if ops[0].Add? then 1 else 0) + Additions(ops[1..])
  }

  lemma StepNextId(s: State, op: Op)
    requires Enabled(s, op)
    ensures Apply(s, op).nextId == s.nextId + if op.Add? then 1 else 0
  {
  }

  /** The ids that a map generates are 1, 2, 3 and so on, one for each addition without an id. */
  lemma {:induction false} IdsCountUp(s: State, ops: seq<Op>)
    requires Legal(s, ops)
    ensures Run(s, ops).nextId == s.nextId + Additions(ops)
    decreases |ops|
  {
    if ops != [] {
      StepNextId(s, ops[0]);
      hide Apply, Enabled;
      IdsCountUp(Apply(s, ops[0]), ops[1..]);
    }
  }

  // ---------------------------------------------------------------- one iterator's visits

  function Arrival(pos: Position): seq<int> {
    if pos.At? then [pos.key] else []
  }

  lemma DropAt(ids: seq<int>, i: nat, keys: set<int>)
    requires i < |ids|
    ensures Drop(ids[i..], keys)
            == if ids[i] in keys then Drop(ids[i + 1..], keys) else [ids[i]] + Drop(ids[i + 1..], keys)
  {
    assert ids[i..][1..] == ids[i + 1..];
  }

  lemma {:induction false} IndexAt(ids: seq<int>, i: nat)
    requires Distinct(ids) && i < |ids|
    ensures Index(ids, ids[i]) == i
  {
    if i > 0 {
      IndexAt(ids[1..], i - 1);
    }
  }

  /** The ids after a position that are not waiting to be removed. */
  function Ahead(ids: seq<int>, removed: set<int>, pos: Position): seq<int> {
    var i := IndexOf(ids, pos);
    Drop(if i < |ids| then ids[i + 1..] else [], removed)
  }

  /** What an iterator has yet to reach. */
  function Upcoming(s: State, it: nat): seq<int>
    requires it in s.iterators
  {
    Ahead(s.order, s.removed, s.iterators[it])
  }

  lemma AheadAt(ids: seq<int>, removed: set<int>, j: nat)
    requires Distinct(ids) && j < |ids|
    ensures Ahead(ids, removed, At(ids[j])) == Drop(ids[j + 1..], removed)
  {
    IndexAt(ids, j);
  }

  /** Standing at index j, or at the end: the id arrived at, then those ahead. */
  lemma ArrivalAndAhead(ids: seq<int>, removed: set<int>, j: nat)
    requires Distinct(ids) && j <= |ids|
    ensures var pos := PositionAt(ids, j);
            Arrival(pos) + Ahead(ids, removed, pos) == if j < |ids| then [ids[j]] + Drop(ids[j + 1..], removed) else []
  {
    if j < |ids| {
      AheadAt(ids, removed, j);
    }
  }

  /** Settling at or after index i arrives at the first id that is not waiting to be removed. */
  lemma {:induction false} SettledArrives(ids: seq<int>, removed: set<int>, i: nat)
    requires Distinct(ids) && i <= |ids|
    ensures var pos := PositionAt(ids, SkipRemoved(ids, removed, i));
            Drop(ids[i..], removed) == Arrival(pos) + Ahead(ids, removed, pos)
    decreases |ids| - i
  {
    if i < |ids| {
      DropAt(ids, i, removed);
      if ids[i] in removed {
        SettledArrives(ids, removed, i + 1);
      } else {
        ArrivalAndAhead(ids, removed, i);
      }
    }
  }

  lemma SkipsOne(ids: seq<int>, removed: set<int>, i: nat)
    requires i < |ids| && ids[i] in removed
    ensures SkipRemoved(ids, removed, i) == SkipRemoved(ids, removed, i + 1)
  {
  }

  lemma CopySettles(ids: seq<int>, removed: set<int>, key: int)
    requires Distinct(ids) && key in ids
    ensures Index(ids, key) < |ids|
    ensures var to := PositionAt(ids, SkipRemoved(ids, removed, Index(ids, key)));
            if key in removed then Arrival(to) + Ahead(ids, removed, to) == Ahead(ids, removed, At(key))
            else to == At(key)
  {
    var i := Index(ids, key);
    hide Distinct, Index, Drop;
    if key in removed {
      SettledArrives(ids, removed, i + 1);
      SkipsOne(ids, removed, i);
    }
  }

  lemma CopyTo(s: State, source: nat)
    requires Inv(s) && source in s.iterators && IndexOf(s.order, s.iterators[source]) <= |s.order|
    ensures var i := IndexOf(s.order, s.iterators[source]);
            Apply(s, Copy(source)) == s.(
              depth := s.depth + 1, nextIterator := s.nextIterator + 1,
              iterators := s.iterators[s.nextIterator := PositionAt(s.order, SkipRemoved(s.order, s.removed, i))])
    ensures s.nextIterator !in s.iterators
  {
    hide SkipRemoved, PositionAt, Index, IndexOf, Enumerates;
  }

  /** A copied iterator stands where the other one stands, unless that entry is waiting to be removed:
      then it stands at the first entry that the other one has yet to reach. */
  lemma CopyStands(s: State, source: nat)
    requires Inv(s) && source in s.iterators
    ensures var (t, copy, pos) := (Apply(s, Copy(source)), s.nextIterator, s.iterators[source]);
            && copy !in s.iterators && copy in t.iterators && source in t.iterators && t.iterators[source] == pos
            && if pos.At? && pos.key in s.removed
               then Arrival(t.iterators[copy]) + Upcoming(t, copy) == Upcoming(s, source)
               else t.iterators[copy] == pos && Upcoming(t, copy) == Upcoming(s, source)
  {
    var pos := s.iterators[source];
    if pos.At? {
      AdvanceFrom(s, source, pos.key);
      CopySettles(s.order, s.removed, pos.key);
    }
    hide Inv, Distinct, Ahead, Arrival, Index, SkipRemoved, Enumerates;
    CopyTo(s, source);
    hide Apply, IndexOf;
  }

  lemma {:induction false} DropTwice(ids: seq<int>, a: set<int>, b: set<int>)
    ensures Drop(ids, a + b) == Drop(Drop(ids, a), b)
  {
    if ids != [] {
      DropTwice(ids[1..], a, b);
      if ids[0] !in a {
        DropAt(Drop(ids, a), 0, b);
        assert Drop(ids, a)[0..] == Drop(ids, a) && Drop(ids, a)[1..] == Drop(ids[1..], a);
      } else {
        assert Drop(ids, a) == Drop(ids[1..], a);
      }
    }
  }

  lemma {:induction false} DropNothing(ids: seq<int>)
    ensures Drop(ids, {}) == ids
  {
    if ids != [] {
      DropNothing(ids[1..]);
    }
  }

  function RemovedBy(s: State, op: Op): set<int> {
    match op
    case Remove(id) => {id}
    case Clear => s.data.Keys
    case _ => {}
  }

  /** What one step does to what this iterator has yet to reach. */
  ghost predicate StepSeen(s: State, op: Op, it: nat)
    requires Enabled(s, op) && it in s.iterators && op != Close(it)
  {
    var t := Apply(s, op);
    && it in t.iterators
    && if op == Advance(it) then Upcoming(s, it) == Arrival(t.iterators[it]) + Upcoming(t, it)
       else Upcoming(t, it) == Drop(Upcoming(s, it), RemovedBy(s, op))
  }

  lemma NotTheLast(iterators: map<nat, Position>, a: nat, b: nat)
    requires a in iterators && b in iterators && a != b
    ensures |iterators| > 1
  {
    var left := iterators - {a};
    assert left.Keys == iterators.Keys - {a};
    assert b in left.Keys;
    assert |left| != 0;
  }

  lemma OthersStay(s: State, op: Op, it: nat)
    requires Inv(s) && Enabled(s, op) && it in s.iterators && op != Close(it) && op != Advance(it)
    ensures var t := Apply(s, op);
            && it in t.iterators && t.iterators[it] == s.iterators[it] && t.order == s.order
            && t.removed == s.removed + (if op.Remove? && op.id !in s.data then {} else RemovedBy(s, op))
  {
    assert s.iterators != map[] && s.depth != 0;
    if op.Close? {
      NotTheLast(s.iterators, it, op.it);
    }
  }

  lemma UnknownAhead(s: State, pos: Position, id: int)
    requires Inv(s) && id !in s.data
    ensures id !in s.order
    ensures var i := IndexOf(s.order, pos);
            id !in if i < |s.order| then s.order[i + 1..] else []
  {
    hide IndexOf;
    assert forall k :: 0 <= k < |s.order| ==> s.order[k] in s.data;
  }

  lemma RemoveUnknown(s: State, pos: Position, id: int)
    requires Inv(s) && id !in s.data
    ensures Drop(Ahead(s.order, s.removed, pos), {id}) == Ahead(s.order, s.removed, pos)
  {
    hide Inv, IndexOf, Drop;
    var i := IndexOf(s.order, pos);
    var tail := if i < |s.order| then s.order[i + 1..] else [];
    UnknownAhead(s, pos, id);
    DropMembers(tail, s.removed);
    DropAbsent(Drop(tail, s.removed), id);
  }

  lemma {:induction false} DropAbsent(ids: seq<int>, id: int)
    requires id !in ids
    ensures Drop(ids, {id}) == ids
  {
    if ids != [] {
      DropAbsent(ids[1..], id);
    }
  }

  lemma AheadRemoved(ids: seq<int>, removed: set<int>, pos: Position, more: set<int>)
    ensures Ahead(ids, removed + more, pos) == Drop(Ahead(ids, removed, pos), more)
  {
    var i := IndexOf(ids, pos);
    DropTwice(if i < |ids| then ids[i + 1..] else [], removed, more);
  }

  lemma AdvanceArrives(ids: seq<int>, removed: set<int>, key: int)
    requires Distinct(ids) && key in ids
    ensures Index(ids, key) < |ids|
    ensures var to := PositionAt(ids, SkipRemoved(ids, removed, Index(ids, key) + 1));
            Ahead(ids, removed, At(key)) == Arrival(to) + Ahead(ids, removed, to)
  {
    SettledArrives(ids, removed, Index(ids, key) + 1);
  }

  lemma AdvanceFrom(s: State, it: nat, key: int)
    requires Inv(s) && it in s.iterators && s.iterators[it] == At(key)
    ensures key in s.order && Enumerates(s.order, s.data.Keys) && Distinct(s.order)
    ensures Index(s.order, key) < |s.order|
  {
    assert key in s.data;
  }

  lemma AdvanceTo(s: State, it: nat, key: int)
    requires it in s.iterators && s.iterators[it] == At(key) && Index(s.order, key) < |s.order|
    ensures var to := PositionAt(s.order, SkipRemoved(s.order, s.removed, Index(s.order, key) + 1));
            Apply(s, Advance(it)) == s.(iterators := s.iterators[it := to])
  {
    hide SkipRemoved, PositionAt, Index;
  }

  lemma AdvanceIsSeen(s: State, it: nat)
    requires Inv(s) && Enabled(s, Advance(it))
    ensures StepSeen(s, Advance(it), it)
  {
    hide Inv, Distinct, Ahead, Arrival, Index, SkipRemoved, PositionAt;
    var key := s.iterators[it].key;
    AdvanceFrom(s, it, key);
    AdvanceTo(s, it, key);
    AdvanceArrives(s.order, s.removed, key);
    hide Apply;
  }

  lemma StepIsSeen(s: State, op: Op, it: nat)
    requires Inv(s) && Enabled(s, op) && it in s.iterators && op != Close(it)
    ensures StepSeen(s, op, it)
  {
    if op == Advance(it) {
      AdvanceIsSeen(s, it);
    } else {
      OthersStay(s, op, it);
      AheadRemoved(s.order, s.removed, s.iterators[it], RemovedBy(s, op));
      if op.Remove? && op.id !in s.data {
        RemoveUnknown(s, s.iterators[it], op.id);
        assert s.removed + {} == s.removed;
      }
    }
  }

  /** The ids at which the iterator arrives during a run. */
  function Arrivals(s: State, ops: seq<Op>, it: nat): seq<int>
    requires Legal(s, ops) && it in s.iterators && Close(it) !in ops
    decreases |ops|
  {
    if ops == [] then []
    else
      var t := Apply(s, ops[0]);
      (if ops[0] == Advance(it) then Arrival(t.iterators[it]) else []) + Arrivals(t, ops[1..], it)
  }

  /** The id is removed or cleared away before this iterator arrives at it. */
  predicate RemovedFirst(s: State, ops: seq<Op>, it: nat, id: int)
    requires Legal(s, ops) && it in s.iterators && Close(it) !in ops
    decreases |ops|
  {
    ops != [] && (
      || id in RemovedBy(s, ops[0])
      || (var t := Apply(s, ops[0]);
          !(ops[0] == Advance(it) && t.iterators[it] == At(id)) && RemovedFirst(t, ops[1..], it, id)))
  }

  function Kept(s: State, ops: seq<Op>, it: nat, ids: seq<int>): seq<int>
    requires Legal(s, ops) && it in s.iterators && Close(it) !in ops
    decreases |ids|
  {
    if ids == [] then []
    else (if RemovedFirst(s, ops, it, ids[0]) then [] else [ids[0]]) + Kept(s, ops, it, ids[1..])
  }

  lemma {:induction false} KeptNow(s: State, it: nat, ids: seq<int>)
    requires it in s.iterators
    ensures Kept(s, [], it, ids) == ids
  {
    if ids != [] {
      KeptNow(s, it, ids[1..]);
    }
  }

  lemma {:induction false} KeptStep(s: State, ops: seq<Op>, it: nat, ids: seq<int>)
    requires Legal(s, ops) && it in s.iterators && Close(it) !in ops && ops != []
    requires ops[0] == Advance(it) ==>
               Apply(s, ops[0]).iterators[it].End? || Apply(s, ops[0]).iterators[it].key !in ids
    ensures Kept(s, ops, it, ids) == Kept(Apply(s, ops[0]), ops[1..], it, Drop(ids, RemovedBy(s, ops[0])))
    decreases |ids|
  {
    if ids != [] {
      var gone := RemovedBy(s, ops[0]);
      KeptStep(s, ops, it, ids[1..]);
      if ids[0] in gone {
        assert Drop(ids, gone) == Drop(ids[1..], gone);
        assert RemovedFirst(s, ops, it, ids[0]);
      } else {
        assert ids[0] in ids;
        assert Drop(ids, gone)[1..] == Drop(ids[1..], gone);
      }
    }
  }

  lemma {:induction false} RunKeepsIterator(s: State, ops: seq<Op>, it: nat)
    requires Legal(s, ops) && it in s.iterators && Close(it) !in ops
    ensures it in Run(s, ops).iterators
    decreases |ops|
  {
    if ops != [] {
      RunKeepsIterator(Apply(s, ops[0]), ops[1..], it);
    }
  }

  lemma UpcomingDistinct(s: State, it: nat)
    requires Inv(s) && it in s.iterators
    ensures Distinct(Upcoming(s, it))
  {
    var i := IndexOf(s.order, s.iterators[it]);
    DropMembers(if i < |s.order| then s.order[i + 1..] else [], s.removed);
  }

  /** The law for the run after its first step. */
  ghost predicate LawAfter(s: State, ops: seq<Op>, it: nat)
    requires Legal(s, ops) && it in s.iterators && Close(it) !in ops && ops != []
  {
    var t, rest := Apply(s, ops[0]), ops[1..];
    && it in Run(t, rest).iterators
    && Arrivals(t, rest, it) + Upcoming(Run(t, rest), it) == Kept(t, rest, it, Upcoming(t, it))
  }

  lemma KeptFront(s: State, ops: seq<Op>, it: nat, id: int, later: seq<int>)
    requires Legal(s, ops) && it in s.iterators && Close(it) !in ops && ops != []
    requires ops[0] == Advance(it) && Apply(s, ops[0]).iterators[it] == At(id)
    ensures Kept(s, ops, it, [id] + later) == [id] + Kept(s, ops, it, later)
  {
    assert ([id] + later)[1..] == later;
    assert !RemovedFirst(s, ops, it, id);
  }

  lemma AdvanceLaw(s: State, ops: seq<Op>, it: nat)
    requires Legal(s, ops) && it in s.iterators && Close(it) !in ops && ops != []
    requires ops[0] == Advance(it) && StepSeen(s, ops[0], it) && Distinct(Upcoming(s, it)) && LawAfter(s, ops, it)
    ensures it in Run(s, ops).iterators
    ensures Arrivals(s, ops, it) + Upcoming(Run(s, ops), it) == Kept(s, ops, it, Upcoming(s, it))
  {
    var t, rest := Apply(s, ops[0]), ops[1..];
    var to, later := t.iterators[it], Upcoming(t, it);
    assert Arrivals(s, ops, it) == Arrival(to) + Arrivals(t, rest, it);
    Associative(Arrival(to), Arrivals(t, rest, it), Upcoming(Run(t, rest), it));
    NotAgain(s, t, it);
    hide Arrivals, Upcoming, Kept, Drop;
    DropNothing(later);
    KeptStep(s, ops, it, later);
    if to.At? {
      KeptFront(s, ops, it, to.key, later);
    }
  }

  lemma NotAgain(s: State, t: State, it: nat)
    requires it in s.iterators && it in t.iterators
    requires Distinct(Upcoming(s, it)) && Upcoming(s, it) == Arrival(t.iterators[it]) + Upcoming(t, it)
    ensures t.iterators[it].At? ==> t.iterators[it].key !in Upcoming(t, it)
    ensures t.iterators[it].End? ==> Upcoming(s, it) == Upcoming(t, it)
  {
    var later, all := Upcoming(t, it), Upcoming(s, it);
    hide Upcoming;
    if t.iterators[it].At? {
      assert all[0] == t.iterators[it].key;
      assert forall i :: 0 <= i < |later| ==> later[i] == all[i + 1];
    }
  }

  lemma WaitLaw(s: State, ops: seq<Op>, it: nat)
    requires Legal(s, ops) && it in s.iterators && Close(it) !in ops && ops != []
    requires ops[0] != Advance(it) && StepSeen(s, ops[0], it) && LawAfter(s, ops, it)
    ensures it in Run(s, ops).iterators
    ensures Arrivals(s, ops, it) + Upcoming(Run(s, ops), it) == Kept(s, ops, it, Upcoming(s, it))
  {
    KeptStep(s, ops, it, Upcoming(s, it));
    assert Arrivals(s, ops, it) == Arrivals(Apply(s, ops[0]), ops[1..], it);
  }

  /** What an iterator does over any run, beside any number of other iterators: the ids it has
      arrived at, then those it has yet to reach, are the ids that were ahead of it, in table order,
      minus those removed before it got there. */
  lemma {:induction false} VisitLaw(s: State, ops: seq<Op>, it: nat)
    requires Inv(s) && Legal(s, ops) && it in s.iterators && Close(it) !in ops
    ensures it in Run(s, ops).iterators
    ensures Arrivals(s, ops, it) + Upcoming(Run(s, ops), it) == Kept(s, ops, it, Upcoming(s, it))
    decreases |ops|
  {
    RunKeepsIterator(s, ops, it);
    if ops == [] {
      KeptNow(s, it, Upcoming(s, it));
    } else {
      StepKeepsInv(s, ops[0]);
      StepIsSeen(s, ops[0], it);
      VisitLaw(Apply(s, ops[0]), ops[1..], it);
      if ops[0] == Advance(it) {
        UpcomingDistinct(s, it);
        AdvanceLaw(s, ops, it);
      } else {
        WaitLaw(s, ops, it);
      }
    }
  }

  /** A finished iteration over a map: it arrives, in table order and once each, at the first id and
      then at exactly those ids of the abstract map that were not removed before it got there. */
  lemma IterationVisits(s: State, ops: seq<Op>)
    requires Inv(s) && Legal(Apply(s, Open), ops) && Close(s.nextIterator) !in ops
    requires var end := Run(Apply(s, Open), ops);
             s.nextIterator in end.iterators ==> end.iterators[s.nextIterator].End?
    ensures var (t, it) := (Apply(s, Open), s.nextIterator);
            && Drop(s.order, s.removed) == Arrival(t.iterators[it]) + Upcoming(t, it)
            && Arrivals(t, ops, it) == Kept(t, ops, it, Upcoming(t, it))
    ensures Enumerates(Drop(s.order, s.removed), Abs(s).Keys)
  {
    var t, it := Apply(s, Open), s.nextIterator;
    StepKeepsInv(s, Open);
    assert s.order[0..] == s.order;
    SettledArrives(s.order, s.removed, 0);
    VisitLaw(t, ops, it);
    assert Upcoming(Run(t, ops), it) == [];
    assert Arrivals(t, ops, it) + [] == Arrivals(t, ops, it);
    EraseEnumerates(s.order, s.data, s.removed);
  }

  /** When the last iterator dies, exactly the entries not waiting to be removed are left. */
  lemma LastCloseLeaves(s: State, it: nat)
    requires Inv(s) && it in s.iterators && s.depth == 1
    ensures var t := Apply(s, Close(it));
            t.data == Abs(s) && t.order == Drop(s.order, s.removed) && t.removed == {} && t.iterators == map[]
  {
    StepKeepsInv(s, Close(it));
  }
}
