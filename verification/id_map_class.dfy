/** The class of base/id_map.h, each method proved against its step in IdMaps. */
module IdMapObjects {
  import opened IdMaps

  lemma HeldOne(id: int, data: map<int, Pointer>)
    ensures Held([id], data) == Real(Value(data, id))
  {
    HeldCons(id, [], data);
    assert [id] + [] == [id];
    assert Held([], data) == multiset{};
  }

  lemma {:induction false} PickOne(ids: seq<int>, i: nat, data: map<int, Pointer>)
    requires Distinct(ids) && i < |ids|
    ensures Held(Pick(ids, {ids[i]}), data) == Real(Value(data, ids[i]))
  {
    DropPickStep(ids, {ids[i]});
    hide Pick, Drop, Held;
    if i == 0 {
      PickNone(ids[1..], ids[0]);
      HeldOne(ids[0], data);
    } else {
      PickOne(ids[1..], i - 1, data);
    }
  }

  lemma {:induction false} PickNone(ids: seq<int>, id: int)
    requires id !in ids
    ensures Pick(ids, {id}) == []
  {
    if ids != [] {
      PickNone(ids[1..], id);
    }
  }

  lemma {:induction false} PickAll(ids: seq<int>, keys: set<int>)
    requires forall i :: 0 <= i < |ids| ==> ids[i] in keys
    ensures Pick(ids, keys) == ids && Drop(ids, keys) == []
  {
    if ids != [] {
      PickAll(ids[1..], keys);
    }
  }

  lemma Cancel(left: multiset<Pointer>, a: multiset<Pointer>, b: multiset<Pointer>)
    requires left + a == left + b
    ensures a == b
  {
    assert (left + a) - left == a && (left + b) - left == b;
  }

  lemma PickMore(ids: seq<int>, data: map<int, Pointer>, done: set<int>, id: int)
    ensures Held(Pick(ids, done + {id}), data)
            == Held(Pick(ids, done), data) + Held(Pick(Drop(ids, done), {id}), data - done)
  {
    var rest, all := Drop(ids, done), done + {id};
    DropTwice(ids, done, {id});
    assert data - done - {id} == data - all;
    EraseHeld(ids, data, done);
    EraseHeld(rest, data - done, {id});
    EraseHeld(ids, data, all);
    Cancel(Held(Drop(ids, all), data - all), Held(Pick(ids, all), data),
           Held(Pick(ids, done), data) + Held(Pick(rest, {id}), data - done));
  }

  /** Erasing one more id after some is erasing them all at once. */
  lemma EraseMore(s: State, done: set<int>, id: int)
    ensures Erase(Erase(s, done), {id}) == Erase(s, done + {id})
  {
    DropTwice(s.order, done, {id});
    assert s.data - done - {id} == s.data - (done + {id});
    PickMore(s.order, s.data, done, id);
    hide Drop, Pick, Held;
    if s.owning {
      assert Erase(Erase(s, done), {id}).deleted == Erase(s, done + {id}).deleted;
    }
  }

  lemma NonEmpty(ids: set<int>)
    requires ids != {}
    ensures exists id :: id in ids
  {
    assert (forall id :: id !in ids) ==> ids == {};
  }

  class IDMap {
    const owning: bool
    var checkOnNullData: bool
    var data: map<int, Pointer>
    var order: seq<int>
    var removedIds: set<int>
    var nextId: int
    var iterationDepth: int
    // The live Iterator objects' iter_ fields.
    var iterators: map<nat, Position>
    var nextIterator: nat
    ghost var added: multiset<Pointer>
    ghost var deleted: multiset<Pointer>

    ghost function View(): State
      reads this
    {
      State(owning, data, order, removedIds, iterationDepth, iterators, nextIterator, nextId, added, deleted)
    }

    ghost predicate Valid()
      reads this
    {
      Inv(View())
    }

    constructor (owning: bool)
      ensures Valid() && View() == Start(owning)
    {
      this.owning := owning;
      checkOnNullData := false;
      data, order, removedIds := map[], [], {};
      iterationDepth, nextId := 0, 1;
      iterators, nextIterator := map[], 0;
      added, deleted := multiset{}, multiset{};
    }

    method AddData(value: Pointer, newOrder: seq<int>) returns (id: int)
      requires Valid() && (!checkOnNullData || value != NULL)
      requires Enabled(View(), Add(value, newOrder))
      modifies this
      ensures Valid() && View() == Apply(old(View()), Add(value, newOrder)) && id == old(nextId)
      ensures data == old(data)[id := value] && nextId == old(nextId) + 1
    {
      hide Inv, Real, Enumerates;
      ghost var s := View();
      StepKeepsInv(s, Add(value, newOrder));
      AddIs(s, value, newOrder);
      hide Apply, Enabled;
      id := nextId;
      data := data[id := value];
      order := newOrder;
      added := added + Real(value);
      nextId := nextId + 1;
    }

    method AddDataWithID(value: Pointer, id: int, newOrder: seq<int>)
      requires Valid() && (!checkOnNullData || value != NULL)
      requires Enabled(View(), AddWithID(value, id, newOrder))
      modifies this
      ensures Valid() && View() == Apply(old(View()), AddWithID(value, id, newOrder))
      ensures data == old(data)[id := value] && nextId == old(nextId)
    {
      hide Inv, Real, Enumerates;
      StepKeepsInv(View(), AddWithID(value, id, newOrder));
      data := data[id := value];
      order := newOrder;
      added := added + Real(value);
    }

    method EraseOne(id: int)
      requires Enumerates(order, data.Keys) && id in data
      modifies this
      ensures View() == Erase(old(View()), {id}) && Enumerates(order, data.Keys)
    {
      PickOne(order, Index(order, id), data);
      EraseEnumerates(order, data, {id});
      if owning {
        deleted := deleted + Real(data[id]);
      }
      data := data - {id};
      order := Drop(order, {id});
    }

    /** Compact calls this while ids are still waiting, so it asks only for the enumeration. */
    method RemoveId(id: int)
      requires Enumerates(order, data.Keys)
      modifies this
      ensures View() == Apply(old(View()), Remove(id)) && Enumerates(order, data.Keys)
      ensures old(iterationDepth) == 0 && id in old(data) ==> View() == Erase(old(View()), {id})
      ensures old(Valid()) ==> Valid()
    {
      ghost var s := View();
      if Inv(s) {
        StepKeepsInv(s, Remove(id));
      }
      if id !in data {
        return;
      }
      if iterationDepth == 0 {
        EraseOne(id);
      } else {
        removedIds := removedIds + {id};
      }
    }

    method ReleaseAll()
      modifies this
      ensures View() == old(View()).(
                data := if owning then map[] else old(data),
                order := if owning then [] else old(order),
                deleted := old(deleted) + if owning then Held(old(order), old(data)) else multiset{})
    {
      if owning {
        DeleteAll();
        data, order := map[], [];
      }
    }

    method DeleteAll()
      modifies this`deleted
      ensures deleted == old(deleted) + Held(order, data)
    {
      for i := 0 to |order|
        invariant deleted + Held(order[i..], data) == old(deleted) + Held(order, data)
      {
        assert order[i..] == [order[i]] + order[i + 1..];
        HeldCons(order[i], order[i + 1..], data);
        deleted := deleted + Real(Value(data, order[i]));
      }
      assert order[|order|..] == [];
    }

    method ClearAll()
      requires Valid()
      modifies this
      ensures Valid() && View() == Apply(old(View()), Clear)
    {
      assert forall i :: 0 <= i < |order| ==> order[i] in data.Keys;
      hide Inv, Enumerates, Drop, Pick, Held;
      StepKeepsInv(View(), Clear);
      if iterationDepth == 0 {
        PickAll(order, data.Keys);
        assert data - data.Keys == map[];
        ReleaseAll();
      } else {
        MarkAll();
      }
    }

    method MarkAll()
      modifies this`removedIds
      ensures removedIds == old(removedIds) + data.Keys
    {
      var todo := data.Keys;
      while todo != {}
        invariant todo <= data.Keys && removedIds + todo == old(removedIds) + data.Keys
        decreases |todo|
      {
        NonEmpty(todo);
        var id :| id in todo;
        removedIds := removedIds + {id};
        todo := todo - {id};
      }
    }

    method Size() returns (n: int)
      requires Valid()
      ensures n == |Abs(View())|
    {
      SizeIsAbstract(View());
      n := |data| - |removedIds|;
    }

    method IsEmpty() returns (empty: bool)
      requires Valid()
      ensures empty <==> Abs(View()) == map[]
    {
      var n := Size();
      assert |Abs(View())| == 0 <==> Abs(View()) == map[];
      empty := n == 0;
    }

    method Lookup(id: int) returns (value: Pointer)
      requires Valid()
      ensures value == if id in Abs(View()) then Abs(View())[id] else if id in removedIds then data[id] else NULL
    {
      value := if id in data then data[id] else NULL;
    }

    method SkipRemovedEntries(pos: Position) returns (settled: Position)
      requires Enumerates(order, data.Keys)
      ensures settled == Settled(View(), IndexOf(order, pos))
    {
      var i := IndexOf(order, pos);
      ghost var from := i;
      while i < |order| && order[i] in removedIds
        invariant from <= i <= |order|
        invariant SkipRemoved(order, removedIds, from) == SkipRemoved(order, removedIds, i)
      {
        i := i + 1;
      }
      settled := PositionAt(order, i);
    }

    method NewIterator(start: Position) returns (it: nat)
      requires Valid()
      modifies this
      ensures View() == Opened(old(View()), IndexOf(old(order), start)) && it == old(nextIterator) && it in iterators
    {
      it := nextIterator;
      var settled := SkipRemovedEntries(start);
      iterationDepth := iterationDepth + 1;
      iterators := iterators[it := settled];
      nextIterator := nextIterator + 1;
    }

    method OpenIterator() returns (it: nat)
      requires Valid()
      modifies this
      ensures Valid() && View() == Apply(old(View()), Open) && it == old(nextIterator) && it in iterators
    {
      StepKeepsInv(View(), Open);
      hide Inv;
      PositionRoundTrip(order, 0);
      it := NewIterator(PositionAt(order, 0));
    }

    method CopyIterator(source: nat) returns (it: nat)
      requires Valid() && source in iterators
      modifies this
      ensures Valid() && View() == Apply(old(View()), Copy(source)) && it == old(nextIterator) && it in iterators
      ensures var pos := old(iterators[source]);
              if pos.At? && pos.key in removedIds
              then Arrival(iterators[it]) + Upcoming(View(), it) == old(Upcoming(View(), source))
              else iterators[it] == pos && Upcoming(View(), it) == old(Upcoming(View(), source))
    {
      StepKeepsInv(View(), Copy(source));
      CopyStands(View(), source);
      hide Inv, Upcoming, Arrival, SkipRemoved, Settled, Index, PositionAt;
      it := NewIterator(iterators[source]);
    }

    method IsAtEnd(it: nat) returns (atEnd: bool)
      requires Valid() && it in iterators
      ensures atEnd <==> iterators[it].End?
      ensures atEnd ==> Upcoming(View(), it) == []
    {
      atEnd := iterators[it].End?;
    }

    method GetCurrent(it: nat) returns (key: int, value: Pointer)
      requires Valid() && it in iterators && iterators[it].At?
      ensures iterators[it] == At(key) && key in data && value == data[key]
    {
      key := iterators[it].key;
      value := data[key];
    }

    method AdvanceIterator(it: nat)
      requires Valid() && it in iterators && iterators[it].At?
      modifies this
      ensures Valid() && View() == Apply(old(View()), Advance(it))
    {
      hide Inv, Apply, Enumerates, Distinct, SkipRemoved, PositionAt, Index, IndexOf;
      StepKeepsInv(View(), Advance(it));
      AdvanceFrom(View(), it, iterators[it].key);
      AdvanceTo(View(), it, iterators[it].key);
      var i := Index(order, iterators[it].key) + 1;
      PositionRoundTrip(order, i);
      var settled := SkipRemovedEntries(PositionAt(order, i));
      iterators := iterators[it := settled];
    }

    /** Carries out the removals that were put off. */
    method Compact()
      requires iterationDepth == 0 && removedIds <= data.Keys && Enumerates(order, data.Keys)
      modifies this
      ensures View() == Erase(old(View()), old(removedIds)).(removed := {})
    {
      ghost var s := View();
      EraseNothing(s);
      var todo := removedIds;
      assert removedIds - todo == {};
      hide Erase, Apply, Enumerates, Inv;
      while todo != {}
        invariant View() == Erase(s, removedIds - todo) && Enumerates(order, data.Keys)
        invariant todo <= data.Keys && todo <= removedIds == s.removed && iterationDepth == 0
        decreases |todo|
      {
        NonEmpty(todo);
        var id :| id in todo;
        EraseMore(s, removedIds - todo, id);
        EraseFields(View(), {id});
        assert removedIds - (todo - {id}) == removedIds - todo + {id};
        RemoveId(id);
        todo := todo - {id};
      }
      assert removedIds - todo == removedIds;
      removedIds := {};
    }

    method CloseIterator(it: nat)
      requires Valid() && it in iterators
      modifies this
      ensures Valid() && View() == Apply(old(View()), Close(it))
    {
      ghost var s := View();
      StepKeepsInv(s, Close(it));
      CloseIs(s, it);
      hide Apply, Erase, Held, Enumerates;
      iterators := iterators - {it};
      iterationDepth := iterationDepth - 1;
      if iterationDepth == 0 {
        Compact();
      }
    }

    /** The destructor. */
    method Destroy()
      requires Valid()
      modifies this
      ensures deleted == Destroyed(old(View())) && added == old(added)
    {
      ReleaseAll();
    }
  }

  lemma AddIs(s: State, value: Pointer, order: seq<int>)
    requires Enabled(s, Add(value, order))
    ensures Apply(s, Add(value, order)) ==
            s.(
              data := s.data[s.nextId := value],
              order := order,
              added := s.added + Real(value),
              nextId := s.nextId + 1)
  {
  }

  lemma CloseIs(s: State, it: nat)
    requires it in s.iterators
    ensures var left := s.(depth := s.depth - 1, iterators := s.iterators - {it});
            Apply(s, Close(it)) == if left.depth == 0 then Erase(left, left.removed).(removed := {}) else left
  {
  }

  lemma EraseFields(s: State, keys: set<int>)
    ensures var t := Erase(s, keys);
            t.data == s.data - keys && t.removed == s.removed && t.depth == s.depth && t.iterators == s.iterators
  {
  }

  lemma PositionRoundTrip(ids: seq<int>, i: nat)
    requires Distinct(ids) && i <= |ids|
    ensures IndexOf(ids, PositionAt(ids, i)) == i
  {
    if i < |ids| {
      IndexAt(ids, i);
    }
  }

  lemma EraseNothing(s: State)
    ensures Erase(s, {}) == s
  {
    DropNothing(s.order);
    PickNothing(s.order);
    assert s.data - {} == s.data;
  }

  lemma {:induction false} PickNothing(ids: seq<int>)
    ensures Pick(ids, {}) == []
  {
    if ids != [] {
      PickNothing(ids[1..]);
    }
  }
}
