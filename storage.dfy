/** The contents of an in-memory repository: a dictionary from id to
    object that remembers insertion order, as a Python dict does. */
module Storage {
  import opened Common

  datatype Store<T> = Store(entries: map<Id, T>, order: seq<Id>)

  /** Each stored id appears exactly once in the insertion order. */
  ghost predicate Wf<T>(s: Store<T>) {
    Distinct(s.order)
    && (forall id :: id in s.entries <==> id in s.order)
  }

  function Empty<T>(): (s: Store<T>)
    ensures Wf(s) && |s.entries| == 0
  {
    Store(map[], [])
  }

  /** `_storage.get(id)`: the stored object, or None for an absent id. */
  function Get<T>(s: Store<T>, id: Id): Option<T> {
    if id in s.entries then Some(s.entries[id]) else None
  }

  /** `_storage[id] = obj`: a new id goes to the end of the order, an
      existing one keeps its place and gets the new value. */
  function Add<T>(s: Store<T>, id: Id, obj: T): Store<T> {
    Store(s.entries[id := obj], if id in s.entries then s.order else s.order + [id])
  }

  /** `update`: the object is stored only when its id is already present. */
  function Update<T>(s: Store<T>, id: Id, obj: T): Store<T> {
    if id in s.entries then Store(s.entries[id := obj], s.order) else s
  }

  /** `order` with every occurrence of `id` removed. */
  function Without(order: seq<Id>, id: Id): (r: seq<Id>)
    ensures forall x :: x in r <==> x in order && x != id
    ensures |r| <= |order|
  {
    if order == [] then []
    else if order[0] == id then Without(order[1..], id)
    else [order[0]] + Without(order[1..], id)
  }

  /** `delete`: remove a present id and answer True, otherwise answer False. */
  function Delete<T>(s: Store<T>, id: Id): (Store<T>, bool) {
    if id in s.entries then (Store(s.entries - {id}, Without(s.order, id)), true) else (s, false)
  }

  /** Deletes the ids one after another. */
  function DeleteAll<T>(s: Store<T>, ids: seq<Id>): Store<T>
    decreases |ids|
  {
    if ids == [] then s else DeleteAll(Delete(s, ids[0]).0, ids[1..])
  }

  /** The objects listed in `order`. */
  function Collect<T>(entries: map<Id, T>, order: seq<Id>): (r: seq<T>)
    requires forall id :: id in order ==> id in entries
    ensures |r| == |order|
    ensures forall i :: 0 <= i < |order| ==> r[i] == entries[order[i]]
  {
    if order == [] then [] else [entries[order[0]]] + Collect(entries, order[1..])
  }

  /** `list(_storage.values())`, in insertion order. */
  function Values<T>(s: Store<T>): seq<T>
    requires Wf(s)
  {
    Collect(s.entries, s.order)
  }

  /** The position in the order of the first object whose attribute equals
      `value`, or |order| when there is none. */
  function FirstIndex<T, A(==)>(s: Store<T>, attr: T -> A, value: A, from: nat): (k: nat)
    requires Wf(s) && from <= |s.order|
    ensures from <= k <= |s.order|
    ensures forall j :: from <= j < k ==> attr(s.entries[s.order[j]]) != value
    ensures k < |s.order| ==> attr(s.entries[s.order[k]]) == value
    decreases |s.order| - from
  {
    if from == |s.order| then from
    else if attr(s.entries[s.order[from]]) == value then from
    else FirstIndex(s, attr, value, from + 1)
  }

  /** `get_by_attribute`: the first stored object, in insertion order,
      whose attribute equals `value`; None when no object has it. */
  function FindFirst<T, A(==)>(s: Store<T>, attr: T -> A, value: A): (r: Option<T>)
    requires Wf(s)
    ensures r.None? <==> forall id :: id in s.entries ==> attr(s.entries[id]) != value
    ensures r.Some? ==> exists k :: 0 <= k < |s.order| && r.value == s.entries[s.order[k]]
                                    && attr(r.value) == value
                                    && forall j :: 0 <= j < k ==> attr(s.entries[s.order[j]]) != value
  {
    var k := FirstIndex(s, attr, value, 0);
    if k < |s.order| then Some(s.entries[s.order[k]])
    else
      assert forall id :: id in s.entries ==> exists j :: 0 <= j < |s.order| && s.order[j] == id;
      None
  }

  /** The objects of `xs` whose attribute equals `value`, in order. */
  function Filter<T, A(==)>(xs: seq<T>, attr: T -> A, value: A): (r: seq<T>)
    ensures forall i :: 0 <= i < |r| ==> r[i] in xs && attr(r[i]) == value
    ensures forall i :: 0 <= i < |xs| && attr(xs[i]) == value ==> xs[i] in r
    ensures |r| <= |xs|
  {
    if xs == [] then []
    else if attr(xs[0]) == value then [xs[0]] + Filter(xs[1..], attr, value)
    else Filter(xs[1..], attr, value)
  }

  /** The ids, in order, whose object's attribute equals `value`. */
  function Matching<T, A(==)>(s: Store<T>, attr: T -> A, value: A, order: seq<Id>): (r: seq<Id>)
    requires forall id :: id in order ==> id in s.entries
    ensures forall id :: id in r <==> id in order && attr(s.entries[id]) == value
  {
    if order == [] then []
    else if attr(s.entries[order[0]]) == value then [order[0]] + Matching(s, attr, value, order[1..])
    else Matching(s, attr, value, order[1..])
  }

  /** The filter keeps each matching object as often as it occurs and no
      other object. */
  lemma {:induction false} FilterCounts<T, A>(xs: seq<T>, attr: T -> A, value: A, x: T)
    ensures multiset(Filter(xs, attr, value))[x] == if attr(x) == value then multiset(xs)[x] else 0
    decreases |xs|
  {
    if xs != [] {
      FilterCounts(xs[1..], attr, value, x);
      assert xs == [xs[0]] + xs[1..];
    }
  }

  /** Adding stores the object under its id and touches no other id; a new
      id is appended to the order, an existing one is overwritten in place. */
  lemma AddSpec<T>(s: Store<T>, id: Id, obj: T)
    requires Wf(s)
    ensures Wf(Add(s, id, obj))
    ensures Get(Add(s, id, obj), id) == Some(obj)
    ensures forall other :: other != id ==> Get(Add(s, id, obj), other) == Get(s, other)
    ensures id in s.entries ==> Add(s, id, obj).order == s.order
    ensures id !in s.entries ==> Add(s, id, obj).order == s.order + [id]
  {
  }

  /** `update` of an absent id is a no-op; of a present one it replaces
      that object alone. */
  lemma UpdateSpec<T>(s: Store<T>, id: Id, obj: T)
    requires Wf(s)
    ensures Wf(Update(s, id, obj))
    ensures id !in s.entries ==> Update(s, id, obj) == s
    ensures id in s.entries ==> Get(Update(s, id, obj), id) == Some(obj)
                                && Update(s, id, obj).order == s.order
    ensures forall other :: other != id ==> Get(Update(s, id, obj), other) == Get(s, other)
  {
  }

  /** No id occurs twice. */
  ghost predicate Distinct(order: seq<Id>) {
    forall i, j :: 0 <= i < j < |order| ==> order[i] != order[j]
  }

  lemma DistinctTail(order: seq<Id>)
    requires order != [] && Distinct(order)
    ensures Distinct(order[1..]) && order[0] !in order[1..]
  {
    forall x | x in order[1..] ensures x != order[0] {
      var i :| 0 <= i < |order[1..]| && order[1..][i] == x;
      assert order[i + 1] == x;
    }
  }

  lemma {:induction false} WithoutKeepsDistinct(order: seq<Id>, id: Id)
    requires Distinct(order)
    ensures Distinct(Without(order, id))
    decreases |order|
  {
    if order != [] {
      DistinctTail(order);
      WithoutKeepsDistinct(order[1..], id);
      if order[0] != id {
        var t := Without(order[1..], id);
        var r := [order[0]] + t;
        forall i, j | 0 <= i < j < |r| ensures r[i] != r[j] {
          assert r[j] == t[j - 1];
          assert r[j] in order[1..];
          if i > 0 {
            assert r[i] == t[i - 1];
          }
        }
      }
    }
  }

  /** Deleting a present id answers True and removes exactly that id; an
      absent id answers False and changes nothing, so a second delete of
      the same id answers False. */
  lemma DeleteSpec<T>(s: Store<T>, id: Id)
    requires Wf(s)
    ensures Wf(Delete(s, id).0)
    ensures Delete(s, id).1 <==> id in s.entries
    ensures id !in Delete(s, id).0.entries
    ensures forall other :: other != id ==> Get(Delete(s, id).0, other) == Get(s, other)
    ensures !Delete(s, id).1 ==> Delete(s, id).0 == s
    ensures Delete(Delete(s, id).0, id) == (Delete(s, id).0, false)
  {
    WithoutKeepsDistinct(s.order, id);
  }

  /** The ids an order lists. */
  function IdsOf(order: seq<Id>): (r: set<Id>)
    ensures forall id :: id in r <==> id in order
  {
    if order == [] then {} else {order[0]} + IdsOf(order[1..])
  }

  /** Deleting a list of ids removes exactly those ids. */
  lemma {:induction false} DeleteAllSpec<T>(s: Store<T>, ids: seq<Id>)
    requires Wf(s)
    ensures Wf(DeleteAll(s, ids))
    ensures DeleteAll(s, ids).entries == s.entries - IdsOf(ids)
    decreases |ids|
  {
    if ids != [] {
      var t := Delete(s, ids[0]).0;
      DeleteSpec(s, ids[0]);
      DeleteAllSpec(t, ids[1..]);
      assert t.entries == s.entries - {ids[0]};
    }
  }

  lemma {:induction false} DistinctLength(order: seq<Id>)
    requires Distinct(order)
    ensures |IdsOf(order)| == |order|
    decreases |order|
  {
    if order != [] {
      DistinctTail(order);
      DistinctLength(order[1..]);
      assert order[0] !in IdsOf(order[1..]);
    }
  }

  /** `get_all` lists every stored object, one per distinct id, in
      insertion order. */
  lemma ValuesSpec<T>(s: Store<T>)
    requires Wf(s)
    ensures |Values(s)| == |s.entries|
    ensures forall id :: id in s.entries ==> s.entries[id] in Values(s)
    ensures forall x :: x in Values(s) ==> exists id :: id in s.entries && s.entries[id] == x
  {
    DistinctLength(s.order);
    assert IdsOf(s.order) == s.entries.Keys;
    forall id | id in s.entries ensures s.entries[id] in Values(s) {
      var i :| 0 <= i < |s.order| && s.order[i] == id;
      assert Values(s)[i] == s.entries[id];
    }
  }
}
