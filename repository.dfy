/** The in-memory repository: a dictionary from id to object, changed in
    place by `add`, `update` and `delete`. */
module Repository {
  import opened Common
  import Storage
  import UserModel

  class InMemoryRepository<T> {
    /** `_storage`, split into its key-value pairs and its insertion order. */
    var storage: map<Id, T>
    var order: seq<Id>
    /** How the repository reads `obj.id`. */
    const idOf: T -> Id

    function Model(): Storage.Store<T>
      reads this
    {
      Storage.Store(storage, order)
    }

    ghost predicate Valid()
      reads this
    {
      Storage.Wf(Model())
    }

    /** An empty repository. */
    constructor (idOf: T -> Id)
      ensures Valid() && Model() == Storage.Empty() && this.idOf == idOf
    {
      storage := map[];
      order := [];
      this.idOf := idOf;
    }

    /** `add(obj)`: store `obj` under its id, overwriting any object there. */
    method Add(obj: T)
      requires Valid()
      modifies this
      ensures Valid() && Model() == Storage.Add(old(Model()), idOf(obj), obj)
    {
      Storage.AddSpec(Model(), idOf(obj), obj);
      var id := idOf(obj);
      if id !in storage {
        order := order + [id];
      }
      storage := storage[id := obj];
    }

    /** `get(id)`: the object stored under `id`; an absent id gives None
        rather than an error. */
    function Get(id: Id): (r: Option<T>)
      reads this
      ensures r.None? <==> id !in storage
      ensures r.Some? ==> r.value == storage[id]
    {
      Storage.Get(Model(), id)
    }

    /** `get_all()`: every stored object once, in insertion order. */
    function GetAll(): (r: seq<T>)
      requires Valid()
      reads this
      ensures |r| == |storage| == |order|
      ensures forall i :: 0 <= i < |order| ==> r[i] == storage[order[i]]
      ensures forall id :: id in storage ==> storage[id] in r
    {
      Storage.ValuesSpec(Model());
      Storage.DistinctLength(order);
      assert Storage.IdsOf(order) == storage.Keys;
      Storage.Values(Model())
    }

    /** `update`, given the id and the new object: stored only when the id
        is present. */
    method Update(id: Id, obj: T)
      requires Valid()
      modifies this
      ensures Valid() && Model() == Storage.Update(old(Model()), id, obj)
    {
      Storage.UpdateSpec(Model(), id, obj);
      if id in storage {
        storage := storage[id := obj];
      }
    }

    /** `delete`, given the id: True when something was removed. */
    method Delete(id: Id) returns (removed: bool)
      requires Valid()
      modifies this
      ensures Valid() && (Model(), removed) == Storage.Delete(old(Model()), id)
    {
      Storage.DeleteSpec(Model(), id);
      if id in storage {
        storage := storage - {id};
        order := Storage.Without(order, id);
        return true;
      }
      return false;
    }

    /** `get_by_attribute(attr, value)`: the first object in insertion
        order whose attribute equals `value`, or None when there is none. */
    function GetByAttribute<A(==)>(attr: T -> A, value: A): (r: Option<T>)
      requires Valid()
      reads this
      ensures r.None? <==> forall id :: id in storage ==> attr(storage[id]) != value
      ensures r.Some? ==> exists k :: 0 <= k < |order| && r.value == storage[order[k]] && attr(r.value) == value
                                      && forall j :: 0 <= j < k ==> attr(storage[order[j]]) != value
    {
      Storage.FindFirst(Model(), attr, value)
    }
  }

  /** `get_by_email(email)`: the first stored user whose email is `email`. */
  function GetByEmail(repo: InMemoryRepository<UserModel.UserRec>, email: string): (r: Option<UserModel.UserRec>)
    requires repo.Valid()
    reads repo
    ensures r.Some? ==> exists k :: 0 <= k < |repo.order| && r.value == repo.storage[repo.order[k]] && r.value.email == email
                                    && forall j :: 0 <= j < k ==> repo.storage[repo.order[j]].email != email
    ensures r.None? <==> forall id :: id in repo.storage ==> repo.storage[id].email != email
  {
    repo.GetByAttribute(UserModel.EmailOf, email)
  }
}
