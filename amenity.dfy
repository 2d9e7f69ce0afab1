/** An amenity a place can offer: a validated name and the places that
    offer it. */
module AmenityModel {
  import opened Common
  import opened Text
  import BaseModel
  import PlaceModel

  const NameMax: nat := 50

  /** The state of an amenity. Places are held by id. */
  datatype AmenityRec = AmenityRec(meta: BaseModel.Meta, name: string, places: seq<Id>)

  /** The dictionary given to `Amenity.update`: `name` and `places` present
      or absent, and every other key. */
  datatype AmenityPatch = AmenityPatch(name: Option<string>, places: Option<seq<Id>>, others: seq<BaseModel.BaseEntry>)

  /** `_validate_name`: blank after stripping is rejected, more than 50 raw
      characters are rejected, and the name is returned as given, NOT
      stripped. */
  function ValidateName(name: string): (r: Result<string>)
    ensures r.Ok? <==> !Blank(name) && |name| <= NameMax
    ensures r.Ok? ==> r.value == name
    ensures r.Err? ==> r.error == (if Blank(name) then Required(Name) else TooLong(Name, NameMax))
  {
    if Blank(name) then Err(Required(Name))
    else if |name| > NameMax then Err(TooLong(Name, NameMax))
    else Ok(name)
  }

  /** `Amenity(name)`: the base constructor gets no keywords, so the id is
      always a fresh one; the place list starts empty. */
  function Created(newId: Id, now: nat, name: string): (r: Result<AmenityRec>)
    ensures r.Ok? <==> ValidateName(name).Ok?
    ensures r.Err? ==> r.error == ValidateName(name).error
    ensures r.Ok? ==> r.value == AmenityRec(BaseModel.Initial(None, newId, now), name, [])
  {
    var n :- ValidateName(name);
    Ok(AmenityRec(BaseModel.Initial(None, newId, now), n, []))
  }

  /** `Amenity.update(data)`: the name is validated only when present; a
      rejected name raises before anything is assigned. Otherwise the base
      update assigns every key and refreshes `updated_at`. */
  function Updated(a: AmenityRec, patch: AmenityPatch, now: nat): Patched<AmenityRec> {
    if patch.name.Some? && ValidateName(patch.name.value).Err? then
      Patched(a, Some(ValidateName(patch.name.value).error))
    else
      Patched(AmenityRec(BaseModel.Updated(a.meta, patch.others, now),
                         if patch.name.Some? then patch.name.value else a.name,
                         if patch.places.Some? then patch.places.value else a.places), None)
  }

  /** `add_place`, on the amenity's side: append unless already present. */
  function WithPlace(a: AmenityRec, place: Id): AmenityRec {
    if place in a.places then a else a.(places := a.places + [place])
  }

  /** Amenity and place name each other. */
  predicate Linked(a: AmenityRec, p: PlaceModel.PlaceRec) {
    p.meta.id in a.places && a.meta.id in p.amenities
  }

  /** Unlike a place title, an amenity name is stored with its blanks: the
      same string passes both validators, and only the title is stripped. */
  lemma NameIsNotStripped()
    ensures ValidateName(" Wifi") == Ok(" Wifi")
    ensures ValidateString(" Wifi", Title, PlaceModel.TitleMax) == Ok("Wifi")
  {
    assert !IsSpace(" Wifi"[1]);
    assert " Wifi"[1..] == "Wifi";
    assert TrimStart("Wifi") == "Wifi";
    assert TrimStart(" Wifi") == "Wifi";
    assert !IsSpace("Wifi"[3]);
    assert TrimEnd("Wifi") == "Wifi";
  }

  /** The update fails exactly for a present, invalid name, and then the
      amenity is unchanged (not even `updated_at`); otherwise named keys
      take the values given, others keep theirs, and the stamp is `now`. */
  lemma UpdatedOutcome(a: AmenityRec, patch: AmenityPatch, now: nat)
    ensures var u := Updated(a, patch, now);
            (u.failure.Some? <==> patch.name.Some? && (Blank(patch.name.value) || |patch.name.value| > NameMax))
            && (u.failure.Some? ==> u.value == a)
            && (u.failure.None? ==> u.value.meta.updatedAt == now
                                    && u.value.name == (if patch.name.Some? then patch.name.value else a.name)
                                    && u.value.places == (if patch.places.Some? then patch.places.value else a.places))
  {
    BaseModel.UpdatedRefreshesStamp(a.meta, patch.others, now);
  }

  /** `add_place` links amenity and place, keeps each id at most once on
      either side when it was so before, and a second call changes nothing. */
  lemma AddPlaceLinks(a: AmenityRec, p: PlaceModel.PlaceRec)
    requires p.meta.id in a.places ==> a.meta.id in p.amenities
    ensures var a2 := WithPlace(a, p.meta.id);
            var p2 := if p.meta.id in a.places then p else PlaceModel.WithAmenity(p, a.meta.id);
            Linked(a2, p2)
            && WithPlace(a2, p.meta.id) == a2
            && multiset(a2.places)[p.meta.id] == (if p.meta.id in a.places then multiset(a.places)[p.meta.id] else 1)
            && multiset(p2.amenities)[a.meta.id] == (if a.meta.id in p.amenities then multiset(p.amenities)[a.meta.id] else 1)
  {
    var pid, aid := p.meta.id, a.meta.id;
    if pid !in a.places {
      assert pid !in multiset(a.places);
      assert multiset(a.places + [pid]) == multiset(a.places) + multiset{pid};
      if aid !in p.amenities {
        assert aid !in multiset(p.amenities);
        assert multiset(p.amenities + [aid]) == multiset(p.amenities) + multiset{aid};
      }
    }
  }

  /** No other key assigns the id. */
  predicate KeepsId(patch: AmenityPatch) {
    forall i :: 0 <= i < |patch.others| ==> !patch.others[i].SetId?
  }

  /** An update that does not name `id` keeps it, whatever the outcome. */
  lemma UpdatedKeepsId(a: AmenityRec, patch: AmenityPatch, now: nat)
    requires KeepsId(patch)
    ensures Updated(a, patch, now).value.meta.id == a.meta.id
  {
    BaseModel.UpdatedKeepsId(a.meta, patch.others, now);
  }

  /** An amenity object, updated in place. */
  class Amenity {
    const base: BaseModel.Base
    var name: string
    var places: seq<Id>

    function Snapshot(): AmenityRec
      reads this, base
    {
      AmenityRec(base.Snapshot(), name, places)
    }

    constructor (base: BaseModel.Base, name: string)
      ensures this.base == base && this.name == name && this.places == []
    {
      this.base := base;
      this.name := name;
      this.places := [];
    }

    /** `Amenity.__init__`: a new amenity, or the error the name check raises. */
    static method Create(newId: Id, now: nat, name: string) returns (r: Result<Amenity>)
      ensures var c := Created(newId, now, name);
              (r.Ok? <==> c.Ok?) && (r.Err? ==> c == Err(r.error))
              && (r.Ok? ==> fresh(r.value) && fresh(r.value.base) && r.value.Snapshot() == c.value)
    {
      var base := new BaseModel.Base(None, newId, now);
      var n := ValidateName(name);
      if n.Err? {
        return Err(n.error);
      }
      var amenity := new Amenity(base, n.value);
      return Ok(amenity);
    }

    /** `Amenity.update(data)`; `failure` is the error it raises, if any. */
    method Update(patch: AmenityPatch, now: nat) returns (failure: Option<Error>)
      modifies this, base
      ensures Patched(Snapshot(), failure) == Updated(old(Snapshot()), patch, now)
    {
      if patch.name.Some? {
        var n := ValidateName(patch.name.value);
        if n.Err? {
          return Some(n.error);
        }
        name := n.value;
      }
      if patch.places.Some? {
        places := patch.places.value;
      }
      base.Update(patch.others, now);
      failure := None;
    }

    /** `add_place(place)`: only a place not yet listed is appended, and only
        then is the amenity added to the place. */
    method AddPlace(place: PlaceModel.Place)
      requires place.base != base
      modifies this, place
      ensures Snapshot() == WithPlace(old(Snapshot()), place.base.id)
      ensures place.Snapshot() == if old(place.base.id in places) then old(place.Snapshot())
                                  else PlaceModel.WithAmenity(old(place.Snapshot()), base.id)
    {
      if place.base.id !in places {
        places := places + [place.base.id];
        place.AddAmenity(base.id);
      }
    }
  }
}
