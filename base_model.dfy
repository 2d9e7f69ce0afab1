/** The base every catalog entity inherits from: an identifier and two
    timestamps, a `save` that refreshes the modification time, and a
    partial `update` that assigns the keys naming existing attributes. */
module BaseModel {
  import opened Common

  /** The attributes a BaseModel carries. Timestamps are ticks of the
      catalog's clock instead of datetimes. */
  datatype Meta = Meta(id: Id, createdAt: nat, updatedAt: nat)

  /** One entry of an update dictionary, as the base class sees it: one of
      its own attributes, or a key for which `hasattr` is false. */
  datatype BaseEntry =
    | SetId(id: Id)
    | SetCreatedAt(createdAt: nat)
    | SetUpdatedAt(updatedAt: nat)
    | NoSuchAttribute

  /** The dictionary key of an entry; "" stands for any key that names no
      attribute (such keys are never looked up). */
  function Key(e: BaseEntry): string {
    match e
    case SetId(_) => "id"
    case SetCreatedAt(_) => "created_at"
    case SetUpdatedAt(_) => "updated_at"
    case NoSuchAttribute => ""
  }

  /** `BaseModel.__init__`: a supplied id is kept, otherwise `newId` is
      used; both timestamps are the current time. */
  function Initial(given: Option<Id>, newId: Id, now: nat): Meta {
    Meta(if given.Some? then given.value else newId, now, now)
  }

  /** `setattr(self, key, value)` for a key that passes `hasattr`. */
  function SetAttr(m: Meta, e: BaseEntry): Meta {
    match e
    case SetId(x) => m.(id := x)
    case SetCreatedAt(t) => m.(createdAt := t)
    case SetUpdatedAt(t) => m.(updatedAt := t)
    case NoSuchAttribute => m
  }

  /** The `for key, value in data.items()` loop of `update`, in dictionary order. */
  function AssignAll(m: Meta, data: seq<BaseEntry>): Meta
    decreases |data|
  {
    if data == [] then m else AssignAll(SetAttr(m, data[0]), data[1..])
  }

  /** `save`: only the modification time changes. */
  function Saved(m: Meta, now: nat): Meta {
    m.(updatedAt := now)
  }

  /** `update(data)`: the assignment loop, then `save`. */
  function Updated(m: Meta, data: seq<BaseEntry>, now: nat): Meta {
    Saved(AssignAll(m, data), now)
  }

  /** The entries of `data` that name an attribute. */
  function Known(data: seq<BaseEntry>): (r: seq<BaseEntry>)
    ensures forall i :: 0 <= i < |r| ==> r[i] != NoSuchAttribute
  {
    if data == [] then []
    else if data[0] == NoSuchAttribute then Known(data[1..])
    else [data[0]] + Known(data[1..])
  }

  lemma {:induction false} AssignAllAppend(m: Meta, a: seq<BaseEntry>, b: seq<BaseEntry>)
    ensures AssignAll(m, a + b) == AssignAll(AssignAll(m, a), b)
    decreases |a|
  {
    if a == [] {
      assert a + b == b;
    } else {
      assert (a + b)[1..] == a[1..] + b;
      AssignAllAppend(SetAttr(m, a[0]), a[1..], b);
    }
  }

  /** Keys for which `hasattr` is false are skipped: dropping them from the
      dictionary does not change what `update` does. */
  lemma {:induction false} UpdatedIgnoresUnknownKeys(m: Meta, data: seq<BaseEntry>, now: nat)
    ensures Updated(m, data, now) == Updated(m, Known(data), now)
  {
    AssignAllIgnoresUnknownKeys(m, data);
  }

  lemma {:induction false} AssignAllIgnoresUnknownKeys(m: Meta, data: seq<BaseEntry>)
    ensures AssignAll(m, data) == AssignAll(m, Known(data))
    decreases |data|
  {
    if data != [] {
      AssignAllIgnoresUnknownKeys(SetAttr(m, data[0]), data[1..]);
    }
  }

  /** `update` always refreshes `updated_at`, even for an empty dictionary and
      even when the dictionary itself names `updated_at`; with an empty
      dictionary it is exactly `save`. */
  lemma UpdatedRefreshesStamp(m: Meta, data: seq<BaseEntry>, now: nat)
    ensures Updated(m, data, now).updatedAt == now
    ensures Updated(m, [], now) == Saved(m, now)
  {
  }

  /** An attribute the dictionary does not name keeps its value. */
  lemma {:induction false} AssignAllKeepsUnnamed(m: Meta, data: seq<BaseEntry>)
    ensures (forall i :: 0 <= i < |data| ==> !data[i].SetId?) ==> AssignAll(m, data).id == m.id
    ensures (forall i :: 0 <= i < |data| ==> !data[i].SetCreatedAt?) ==> AssignAll(m, data).createdAt == m.createdAt
    decreases |data|
  {
    if data != [] {
      AssignAllKeepsUnnamed(SetAttr(m, data[0]), data[1..]);
      assert forall i :: 0 <= i < |data| - 1 ==> data[1..][i] == data[i + 1];
    }
  }

  /** `update(data)` leaves `id` and `created_at` unchanged unless `data`
      names them, and a key that `data` names last with a value gets that
      value. */
  lemma {:induction false} UpdatedAssignsNamedKeys(m: Meta, data: seq<BaseEntry>, now: nat, i: nat)
    requires i < |data|
    requires forall j :: i < j < |data| ==> Key(data[j]) != Key(data[i])
    ensures data[i].SetId? ==> Updated(m, data, now).id == data[i].id
    ensures data[i].SetCreatedAt? ==> Updated(m, data, now).createdAt == data[i].createdAt
    ensures (forall j :: 0 <= j < |data| ==> !data[j].SetId?) ==> Updated(m, data, now).id == m.id
    ensures (forall j :: 0 <= j < |data| ==> !data[j].SetCreatedAt?) ==> Updated(m, data, now).createdAt == m.createdAt
  {
    AssignAllKeepsUnnamed(m, data);
    var a, b := data[..i + 1], data[i + 1..];
    assert data == a + b;
    AssignAllAppend(m, a, b);
    AssignAllAppend(m, data[..i], [data[i]]);
    assert a == data[..i] + [data[i]];
    var mid := AssignAll(m, a);
    assert mid == SetAttr(AssignAll(m, data[..i]), data[i]);
    forall j | 0 <= j < |b| ensures Key(b[j]) != Key(data[i]) {
      assert b[j] == data[i + 1 + j];
    }
    AssignAllKeepsUnnamed(mid, b);
  }

  /** An update that does not name `id` keeps it. */
  lemma UpdatedKeepsId(m: Meta, data: seq<BaseEntry>, now: nat)
    requires forall i :: 0 <= i < |data| ==> !data[i].SetId?
    ensures Updated(m, data, now).id == m.id
  {
    AssignAllKeepsUnnamed(m, data);
  }

  /** A model object: the three base attributes, updated in place. */
  class Base {
    var id: Id
    var createdAt: nat
    var updatedAt: nat

    function Snapshot(): Meta
      reads this
    {
      Meta(id, createdAt, updatedAt)
    }

    /** `__init__`: keep a supplied id, otherwise draw the fresh one; stamp
        both timestamps with the current time. */
    constructor (given: Option<Id>, newId: Id, now: nat)
      ensures Snapshot() == Initial(given, newId, now)
    {
      if given.Some? {
        id := given.value;
      } else {
        id := newId;
      }
      createdAt := now;
      updatedAt := now;
    }

    method Save(now: nat)
      modifies this
      ensures Snapshot() == Saved(old(Snapshot()), now)
    {
      updatedAt := now;
    }

    method SetAttribute(e: BaseEntry)
      modifies this
      ensures Snapshot() == SetAttr(old(Snapshot()), e)
    {
      match e
      case SetId(x) => id := x;
      case SetCreatedAt(t) => createdAt := t;
      case SetUpdatedAt(t) => updatedAt := t;
      case NoSuchAttribute =>
    }

    method Update(data: seq<BaseEntry>, now: nat)
      modifies this
      ensures Snapshot() == Updated(old(Snapshot()), data, now)
    {
      for i := 0 to |data|
        invariant AssignAll(Snapshot(), data[i..]) == AssignAll(old(Snapshot()), data)
      {
        assert data[i..][1..] == data[i + 1..];
        SetAttribute(data[i]);
      }
      Save(now);
    }
  }
}
