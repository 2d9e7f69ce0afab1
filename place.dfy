/** A rental place: validated title and description, a non-negative price,
    coordinates in range, an owner and the amenities it offers. */
module PlaceModel {
  import opened Common
  import opened Text
  import BaseModel

  const TitleMax: nat := 100
  const DescriptionMax: nat := 1000

  /** The state of a place. Amenities are held by id. */
  datatype PlaceRec = PlaceRec(
    meta: BaseModel.Meta,
    title: string,
    description: string,
    price: real,
    latitude: real,
    longitude: real,
    ownerId: Id,
    amenities: seq<Id>)

  /** One entry of the dictionary given to `Place.update`. */
  datatype PlaceEntry =
    | SetTitle(title: string)
    | SetDescription(description: string)
    | SetPrice(price: real)
    | SetLatitude(latitude: real)
    | SetLongitude(longitude: real)
    | SetOwner(ownerId: Id)
    | SetAmenities(amenities: seq<Id>)
    | Inherited(entry: BaseModel.BaseEntry)

  function Key(e: PlaceEntry): string {
    match e
    case SetTitle(_) => "title"
    case SetDescription(_) => "description"
    case SetPrice(_) => "price"
    case SetLatitude(_) => "latitude"
    case SetLongitude(_) => "longitude"
    case SetOwner(_) => "owner_id"
    case SetAmenities(_) => "amenities"
    case Inherited(b) => BaseModel.Key(b)
  }

  /** A dictionary never holds the same key twice. */
  predicate DistinctKeys(data: seq<PlaceEntry>) {
    forall i, j :: 0 <= i < j < |data| && Key(data[i]) != "" ==> Key(data[i]) != Key(data[j])
  }

  /** `data[key]` for a key that is present: the first entry with that key. */
  function Lookup(data: seq<PlaceEntry>, key: string): (r: Option<PlaceEntry>)
    ensures r.Some? ==> Key(r.value) == key && r.value in data
    ensures r.None? <==> forall i :: 0 <= i < |data| ==> Key(data[i]) != key
  {
    if data == [] then None
    else if Key(data[0]) == key then Some(data[0])
    else
      var r := Lookup(data[1..], key);
      assert forall i :: 1 <= i < |data| ==> data[i] == data[1..][i - 1];
      r
  }

  /** In a dictionary the entry found for a key is the only one with it. */
  lemma {:induction false} LookupFindsTheEntry(data: seq<PlaceEntry>, i: nat)
    requires DistinctKeys(data) && i < |data| && Key(data[i]) != ""
    ensures Lookup(data, Key(data[i])) == Some(data[i])
    decreases |data|
  {
    if i > 0 {
      assert Key(data[0]) != Key(data[i]);
      assert DistinctKeys(data[1..]) by {
        forall a, b | 0 <= a < b < |data[1..]| && Key(data[1..][a]) != "" ensures Key(data[1..][a]) != Key(data[1..][b]) {
          assert data[1..][a] == data[a + 1] && data[1..][b] == data[b + 1];
        }
      }
      assert data[1..][i - 1] == data[i];
      LookupFindsTheEntry(data[1..], i - 1);
    }
  }

  /** The bounds the three numeric setters enforce, inclusive at both ends. */
  predicate ValidPrice(v: real) { 0.0 <= v }
  predicate ValidLatitude(v: real) { -90.0 <= v <= 90.0 }
  predicate ValidLongitude(v: real) { -180.0 <= v <= 180.0 }

  /** A string `_validate_string` accepts for a field of at most `max` characters. */
  predicate TextOk(s: string, max: nat) { !Blank(s) && |s| <= max }

  /** The `owner_id` attribute, for attribute lookups in a store. */
  function OwnerOf(p: PlaceRec): Id { p.ownerId }

  /** `Place(title, description, price, latitude, longitude, owner, amenities)`:
      the checks run in that order and the first one that fails is reported;
      title and description are stored stripped, a missing or empty amenity
      list becomes []. */
  function Created(given: Option<Id>, newId: Id, now: nat, title: string, description: string,
                   price: real, latitude: real, longitude: real, owner: Id,
                   amenities: Option<seq<Id>>): (r: Result<PlaceRec>)
    ensures r.Ok? <==> TextOk(title, TitleMax) && TextOk(description, DescriptionMax)
                       && ValidPrice(price) && ValidLatitude(latitude) && ValidLongitude(longitude)
    ensures !TextOk(title, TitleMax) ==> r == Err(ValidateString(title, Title, TitleMax).error)
    ensures TextOk(title, TitleMax) && !TextOk(description, DescriptionMax)
            ==> r == Err(ValidateString(description, Description, DescriptionMax).error)
    ensures TextOk(title, TitleMax) && TextOk(description, DescriptionMax) && !ValidPrice(price)
            ==> r == Err(OutOfRange(Price))
    ensures (TextOk(title, TitleMax) && TextOk(description, DescriptionMax) && ValidPrice(price)
             && !ValidLatitude(latitude)) ==> r == Err(OutOfRange(Latitude))
    ensures (TextOk(title, TitleMax) && TextOk(description, DescriptionMax) && ValidPrice(price)
             && ValidLatitude(latitude) && !ValidLongitude(longitude)) ==> r == Err(OutOfRange(Longitude))
    ensures r.Ok? ==> r.value.meta == BaseModel.Initial(given, newId, now)
                      && r.value.title == Strip(title) && r.value.description == Strip(description)
                      && r.value.price == price && r.value.latitude == latitude
                      && r.value.longitude == longitude && r.value.ownerId == owner
                      && r.value.amenities == (if amenities.Some? then amenities.value else [])
  {
    var t :- ValidateString(title, Title, TitleMax);
    var d :- ValidateString(description, Description, DescriptionMax);
    if !ValidPrice(price) then Err(OutOfRange(Price))
    else if !ValidLatitude(latitude) then Err(OutOfRange(Latitude))
    else if !ValidLongitude(longitude) then Err(OutOfRange(Longitude))
    else Ok(PlaceRec(BaseModel.Initial(given, newId, now), t, d, price, latitude, longitude, owner,
                     if amenities.Some? then amenities.value else []))
  }

  /** Whether an entry passes the check `Place.update` applies to its key. */
  predicate Acceptable(e: PlaceEntry) {
    match e
    case SetTitle(t) => TextOk(t, TitleMax)
    case SetDescription(d) => TextOk(d, DescriptionMax)
    case SetPrice(v) => ValidPrice(v)
    case SetLatitude(v) => ValidLatitude(v)
    case SetLongitude(v) => ValidLongitude(v)
    case _ => true
  }

  /** The error an unacceptable entry raises. */
  function Fault(e: PlaceEntry): Error
    requires !Acceptable(e)
  {
    match e
    case SetTitle(t) => ValidateString(t, Title, TitleMax).error
    case SetDescription(d) => ValidateString(d, Description, DescriptionMax).error
    case SetPrice(_) => OutOfRange(Price)
    case SetLatitude(_) => OutOfRange(Latitude)
    case SetLongitude(_) => OutOfRange(Longitude)
  }

  /** One pass of the `if/elif` chain in `Place.update`. */
  function Step(p: PlaceRec, e: PlaceEntry): Patched<PlaceRec> {
    match e
    case SetTitle(t) =>
      (match ValidateString(t, Title, TitleMax)
       case Ok(s) => Patched(p.(title := s), None)
       case Err(x) => Patched(p, Some(x)))
    case SetDescription(d) =>
      (match ValidateString(d, Description, DescriptionMax)
       case Ok(s) => Patched(p.(description := s), None)
       case Err(x) => Patched(p, Some(x)))
    case SetPrice(v) => if ValidPrice(v) then Patched(p.(price := v), None) else Patched(p, Some(OutOfRange(Price)))
    case SetLatitude(v) =>
      if ValidLatitude(v) then Patched(p.(latitude := v), None) else Patched(p, Some(OutOfRange(Latitude)))
    case SetLongitude(v) =>
      if ValidLongitude(v) then Patched(p.(longitude := v), None) else Patched(p, Some(OutOfRange(Longitude)))
    case SetOwner(o) => Patched(p.(ownerId := o), None)
    case SetAmenities(a) => Patched(p.(amenities := a), None)
    case Inherited(_) => Patched(p, None)
  }

  /** The subclass loop of `Place.update`: it stops at the first entry that
      raises, keeping what the earlier entries assigned. */
  function Validated(p: PlaceRec, data: seq<PlaceEntry>): Patched<PlaceRec>
    decreases |data|
  {
    if data == [] then Patched(p, None)
    else
      var q := Step(p, data[0]);
      if q.failure.Some? then q else Validated(q.value, data[1..])
  }

  /** `setattr` of one key during `super().update(data)`: every attribute
      key is assigned again with the value as given, so title and
      description lose the stripping the subclass loop applied. */
  function Reassigned(p: PlaceRec, e: PlaceEntry): PlaceRec {
    match e
    case SetTitle(t) => p.(title := t)
    case SetDescription(d) => p.(description := d)
    case SetPrice(v) => p.(price := v)
    case SetLatitude(v) => p.(latitude := v)
    case SetLongitude(v) => p.(longitude := v)
    case SetOwner(o) => p.(ownerId := o)
    case SetAmenities(a) => p.(amenities := a)
    case Inherited(_) => p
  }

  function ReassignedAll(p: PlaceRec, data: seq<PlaceEntry>): PlaceRec
    decreases |data|
  {
    if data == [] then p else ReassignedAll(Reassigned(p, data[0]), data[1..])
  }

  /** The entries the base update handles itself. */
  function BaseEntries(data: seq<PlaceEntry>): seq<BaseModel.BaseEntry> {
    if data == [] then []
    else if data[0].Inherited? then [data[0].entry] + BaseEntries(data[1..])
    else BaseEntries(data[1..])
  }

  /** `Place.update(data)`: the subclass loop, and only if it raised nothing
      the base update (re-assignment of every key, then `save`). On failure
      the value is the partially updated place and the error. */
  function Updated(p: PlaceRec, data: seq<PlaceEntry>, now: nat): Patched<PlaceRec> {
    var v := Validated(p, data);
    if v.failure.Some? then v
    else
      var q := ReassignedAll(v.value, data);
      Patched(q.(meta := BaseModel.Updated(q.meta, BaseEntries(data), now)), None)
  }

  /** `add_amenity`: append unless already present. */
  function WithAmenity(p: PlaceRec, amenity: Id): PlaceRec {
    if amenity in p.amenities then p else p.(amenities := p.amenities + [amenity])
  }

  /** The index of the first entry the subclass loop rejects, or |data|. */
  function FirstRejected(data: seq<PlaceEntry>): (k: nat)
    ensures k <= |data|
    ensures forall i :: 0 <= i < k ==> Acceptable(data[i])
    ensures k < |data| ==> !Acceptable(data[k])
  {
    if data == [] then 0
    else if !Acceptable(data[0]) then 0
    else 1 + FirstRejected(data[1..])
  }

  lemma StepAcceptable(p: PlaceRec, e: PlaceEntry)
    ensures Step(p, e).failure.None? <==> Acceptable(e)
    ensures !Acceptable(e) ==> Step(p, e) == Patched(p, Some(Fault(e)))
    ensures Step(p, e).value.meta == p.meta
  {
  }

  /** The subclass loop stops exactly at the first rejected entry: before it
      every entry is applied, the entry itself raises its error, and the
      place keeps the prefix's assignments. The base attributes are never
      touched by this loop. */
  lemma {:induction false} ValidatedStopsAtFirstRejected(p: PlaceRec, data: seq<PlaceEntry>)
    ensures var k := FirstRejected(data);
            Validated(p, data) ==
              if k == |data| then Validated(p, data)
              else Patched(Validated(p, data[..k]).value, Some(Fault(data[k])))
    ensures Validated(p, data).failure.None? <==> FirstRejected(data) == |data|
    ensures Validated(p, data[..FirstRejected(data)]).failure.None?
    ensures Validated(p, data).value.meta == p.meta
    decreases |data|
  {
    if data != [] {
      StepAcceptable(p, data[0]);
      if Acceptable(data[0]) {
        var q := Step(p, data[0]).value;
        ValidatedStopsAtFirstRejected(q, data[1..]);
        var k := FirstRejected(data);
        assert data[..k][1..] == data[1..][..k - 1];
      }
    }
  }

  /** `Place.update` raises if and only if some entry fails its check; when
      it raises, the base update never runs, so `updated_at` and the other
      base attributes keep their values, and the place holds exactly what
      the entries before the rejected one assigned. */
  lemma UpdatedFailsIffRejected(p: PlaceRec, data: seq<PlaceEntry>, now: nat)
    ensures Updated(p, data, now).failure.Some? <==> exists i :: 0 <= i < |data| && !Acceptable(data[i])
    ensures Updated(p, data, now).failure.Some? ==>
              var k := FirstRejected(data);
              Updated(p, data, now) == Patched(Validated(p, data[..k]).value, Some(Fault(data[k])))
              && Updated(p, data, now).value.meta == p.meta
  {
    ValidatedStopsAtFirstRejected(p, data);
    var k := FirstRejected(data);
    if k < |data| {
      assert !Acceptable(data[k]);
    }
  }

  lemma {:induction false} ReassignedAllKeepsMeta(p: PlaceRec, data: seq<PlaceEntry>)
    ensures ReassignedAll(p, data).meta == p.meta
    decreases |data|
  {
    if data != [] {
      ReassignedAllKeepsMeta(Reassigned(p, data[0]), data[1..]);
    }
  }

  /** The value of a dictionary key the update names exactly once, after
      the re-assignment loop: it is the one supplied, unstripped. */
  lemma {:induction false} ReassignedAllStoresLast(p: PlaceRec, data: seq<PlaceEntry>, i: nat)
    requires i < |data| && DistinctKeys(data)
    ensures data[i].SetTitle? ==> ReassignedAll(p, data).title == data[i].title
    ensures data[i].SetDescription? ==> ReassignedAll(p, data).description == data[i].description
    ensures data[i].SetPrice? ==> ReassignedAll(p, data).price == data[i].price
    ensures data[i].SetLatitude? ==> ReassignedAll(p, data).latitude == data[i].latitude
    ensures data[i].SetLongitude? ==> ReassignedAll(p, data).longitude == data[i].longitude
    ensures data[i].SetOwner? ==> ReassignedAll(p, data).ownerId == data[i].ownerId
    ensures data[i].SetAmenities? ==> ReassignedAll(p, data).amenities == data[i].amenities
    decreases |data|
  {
    var q := Reassigned(p, data[0]);
    assert DistinctKeys(data[1..]) by {
      forall a, b | 0 <= a < b < |data[1..]| && Key(data[1..][a]) != "" ensures Key(data[1..][a]) != Key(data[1..][b]) {
        assert data[1..][a] == data[a + 1] && data[1..][b] == data[b + 1];
      }
    }
    if i == 0 {
      if data[0].Inherited? {
        return;
      }
      forall j | 0 <= j < |data[1..]| ensures Key(data[1..][j]) != Key(data[0]) {
        assert data[1..][j] == data[j + 1];
      }
      ReassignedAllKeepsUnnamed(q, data[1..], Key(data[0]));
    } else {
      assert data[1..][i - 1] == data[i];
      ReassignedAllStoresLast(q, data[1..], i - 1);
    }
  }

  /** A key the dictionary does not name keeps its value through the
      re-assignment loop. */
  lemma {:induction false} ReassignedAllKeepsUnnamed(p: PlaceRec, data: seq<PlaceEntry>, key: string)
    requires forall j :: 0 <= j < |data| ==> Key(data[j]) != key
    ensures key == "title" ==> ReassignedAll(p, data).title == p.title
    ensures key == "description" ==> ReassignedAll(p, data).description == p.description
    ensures key == "price" ==> ReassignedAll(p, data).price == p.price
    ensures key == "latitude" ==> ReassignedAll(p, data).latitude == p.latitude
    ensures key == "longitude" ==> ReassignedAll(p, data).longitude == p.longitude
    ensures key == "owner_id" ==> ReassignedAll(p, data).ownerId == p.ownerId
    ensures key == "amenities" ==> ReassignedAll(p, data).amenities == p.amenities
    decreases |data|
  {
    if data != [] {
      assert forall j :: 0 <= j < |data[1..]| ==> data[1..][j] == data[j + 1];
      ReassignedAllKeepsUnnamed(Reassigned(p, data[0]), data[1..], key);
    }
  }

  /** The same for the subclass loop. */
  lemma {:induction false} ValidatedKeepsUnnamed(p: PlaceRec, data: seq<PlaceEntry>, key: string)
    requires forall j :: 0 <= j < |data| ==> Key(data[j]) != key
    ensures key == "title" ==> Validated(p, data).value.title == p.title
    ensures key == "description" ==> Validated(p, data).value.description == p.description
    ensures key == "price" ==> Validated(p, data).value.price == p.price
    ensures key == "latitude" ==> Validated(p, data).value.latitude == p.latitude
    ensures key == "longitude" ==> Validated(p, data).value.longitude == p.longitude
    ensures key == "owner_id" ==> Validated(p, data).value.ownerId == p.ownerId
    ensures key == "amenities" ==> Validated(p, data).value.amenities == p.amenities
    decreases |data|
  {
    if data != [] && Step(p, data[0]).failure.None? {
      assert forall j :: 0 <= j < |data[1..]| ==> data[1..][j] == data[j + 1];
      ValidatedKeepsUnnamed(Step(p, data[0]).value, data[1..], key);
    }
  }

  /** Whatever the outcome, an attribute the dictionary does not name keeps
      its value. */
  lemma UpdatedKeepsUnnamed(p: PlaceRec, data: seq<PlaceEntry>, now: nat, key: string)
    requires forall j :: 0 <= j < |data| ==> Key(data[j]) != key
    ensures key == "title" ==> Updated(p, data, now).value.title == p.title
    ensures key == "description" ==> Updated(p, data, now).value.description == p.description
    ensures key == "price" ==> Updated(p, data, now).value.price == p.price
    ensures key == "latitude" ==> Updated(p, data, now).value.latitude == p.latitude
    ensures key == "longitude" ==> Updated(p, data, now).value.longitude == p.longitude
    ensures key == "owner_id" ==> Updated(p, data, now).value.ownerId == p.ownerId
    ensures key == "amenities" ==> Updated(p, data, now).value.amenities == p.amenities
  {
    ValidatedKeepsUnnamed(p, data, key);
    ReassignedAllKeepsUnnamed(Validated(p, data).value, data, key);
  }

  /** A successful update stores each named attribute exactly as supplied
      (title and description unstripped, unlike the constructor), and the
      base update refreshes `updated_at`. */
  lemma UpdatedStoresSupplied(p: PlaceRec, data: seq<PlaceEntry>, now: nat, i: nat)
    requires i < |data| && DistinctKeys(data)
    requires Updated(p, data, now).failure.None?
    ensures Updated(p, data, now).value.meta.updatedAt == now
    ensures data[i].SetTitle? ==> Updated(p, data, now).value.title == data[i].title
    ensures data[i].SetDescription? ==> Updated(p, data, now).value.description == data[i].description
    ensures data[i].SetPrice? ==> Updated(p, data, now).value.price == data[i].price
    ensures data[i].SetLatitude? ==> Updated(p, data, now).value.latitude == data[i].latitude
    ensures data[i].SetLongitude? ==> Updated(p, data, now).value.longitude == data[i].longitude
    ensures data[i].SetOwner? ==> Updated(p, data, now).value.ownerId == data[i].ownerId
    ensures data[i].SetAmenities? ==> Updated(p, data, now).value.amenities == data[i].amenities
  {
    ReassignedAllStoresLast(Validated(p, data).value, data, i);
  }

  /** The constructor strips the title: " L" is stored as "L". */
  lemma CreatedStripsTitle(newId: Id, now: nat, owner: Id)
    ensures var c := Created(None, newId, now, " L", "d", 0.0, 0.0, 0.0, owner, None);
            c.Ok? && c.value.title == "L"
  {
    StripLeadingBlank();
    assert TextOk(" L", TitleMax);
    assert TextOk("d", DescriptionMax) by { assert !IsSpace("d"[0]); }
  }

  /** An update stores the title as given: " L" stays " L", so it reads
      back differently from the same title given to the constructor. */
  lemma UpdatedKeepsTitle(p: PlaceRec, now: nat)
    ensures Updated(p, [SetTitle(" L")], now).value.title == " L"
  {
    StripLeadingBlank();
    var data := [SetTitle(" L")];
    var q := p.(title := "L");
    assert Step(p, data[0]) == Patched(q, None);
    assert data[1..] == [];
    assert Validated(p, data) == Patched(q, None);
    assert ReassignedAll(q, data) == q.(title := " L");
  }

  lemma StripLeadingBlank()
    ensures !Blank(" L") && Strip(" L") == "L"
  {
    assert !IsSpace(" L"[1]);
    assert " L"[1..] == "L";
    assert TrimStart("L") == "L";
    assert TrimStart(" L") == "L";
    assert TrimEnd("L") == "L";
  }

  /** `add_amenity` adds the amenity once: the amenity is then present,
      nothing else is removed or reordered, and adding it again changes
      nothing. */
  lemma WithAmenityAddsOnce(p: PlaceRec, amenity: Id)
    ensures amenity in WithAmenity(p, amenity).amenities
    ensures WithAmenity(WithAmenity(p, amenity), amenity) == WithAmenity(p, amenity)
    ensures WithAmenity(p, amenity).amenities[..|p.amenities|] == p.amenities
    ensures |WithAmenity(p, amenity).amenities| == |p.amenities| + (if amenity in p.amenities then 0 else 1)
    ensures WithAmenity(p, amenity) == p.(amenities := WithAmenity(p, amenity).amenities)
  {
  }

  /** No entry assigns the id. */
  predicate KeepsId(data: seq<PlaceEntry>) {
    forall i :: 0 <= i < |data| ==> !(data[i].Inherited? && data[i].entry.SetId?)
  }

  lemma {:induction false} BaseEntriesKeepId(data: seq<PlaceEntry>)
    requires KeepsId(data)
    ensures forall i :: 0 <= i < |BaseEntries(data)| ==> !BaseEntries(data)[i].SetId?
    decreases |data|
  {
    if data != [] {
      assert KeepsId(data[1..]) by {
        forall i | 0 <= i < |data[1..]| ensures !(data[1..][i].Inherited? && data[1..][i].entry.SetId?) {
          assert data[1..][i] == data[i + 1];
        }
      }
      BaseEntriesKeepId(data[1..]);
    }
  }

  /** An update that does not name `id` keeps it, whatever the outcome. */
  lemma UpdatedKeepsId(p: PlaceRec, data: seq<PlaceEntry>, now: nat)
    requires KeepsId(data)
    ensures Updated(p, data, now).value.meta.id == p.meta.id
  {
    ValidatedStopsAtFirstRejected(p, data);
    var v := Validated(p, data);
    if v.failure.None? {
      ReassignedAllKeepsMeta(v.value, data);
      BaseEntriesKeepId(data);
      BaseModel.UpdatedKeepsId(v.value.meta, BaseEntries(data), now);
    }
  }

  /** A place object, updated in place. */
  class Place {
    const base: BaseModel.Base
    var title: string
    var description: string
    var price: real
    var latitude: real
    var longitude: real
    var ownerId: Id
    var amenities: seq<Id>

    function Snapshot(): PlaceRec
      reads this, base
    {
      PlaceRec(base.Snapshot(), title, description, price, latitude, longitude, ownerId, amenities)
    }

    /** Wraps attributes that have already been validated. */
    constructor (base: BaseModel.Base, title: string, description: string, ownerId: Id, amenities: seq<Id>)
      ensures this.base == base && this.title == title && this.description == description
      ensures this.price == 0.0 && this.latitude == 0.0 && this.longitude == 0.0
      ensures this.ownerId == ownerId && this.amenities == amenities
    {
      this.base := base;
      this.title := title;
      this.description := description;
      this.price := 0.0;
      this.latitude := 0.0;
      this.longitude := 0.0;
      this.ownerId := ownerId;
      this.amenities := amenities;
    }

    /** `Place.__init__`: a new place, or the first error its checks raise. */
    static method Create(given: Option<Id>, newId: Id, now: nat, title: string, description: string,
                         price: real, latitude: real, longitude: real, owner: Id,
                         amenities: Option<seq<Id>>) returns (r: Result<Place>)
      ensures var c := Created(given, newId, now, title, description, price, latitude, longitude, owner, amenities);
              (r.Ok? <==> c.Ok?) && (r.Err? ==> c == Err(r.error))
              && (r.Ok? ==> fresh(r.value) && fresh(r.value.base) && r.value.Snapshot() == c.value)
    {
      var base := new BaseModel.Base(given, newId, now);
      var t := ValidateString(title, Title, TitleMax);
      if t.Err? {
        return Err(t.error);
      }
      var d := ValidateString(description, Description, DescriptionMax);
      if d.Err? {
        return Err(d.error);
      }
      var place := new Place(base, t.value, d.value, owner, if amenities.Some? then amenities.value else []);
      var failure := place.SetPrice(price);
      if failure.Some? {
        return Err(failure.value);
      }
      failure := place.SetLatitude(latitude);
      if failure.Some? {
        return Err(failure.value);
      }
      failure := place.SetLongitude(longitude);
      if failure.Some? {
        return Err(failure.value);
      }
      return Ok(place);
    }

    /** The `price` setter: a negative value raises and is not stored. */
    method SetPrice(value: real) returns (failure: Option<Error>)
      modifies this
      ensures failure == (if ValidPrice(value) then None else Some(OutOfRange(Price)))
      ensures Snapshot() == if ValidPrice(value) then old(Snapshot()).(price := value) else old(Snapshot())
    {
      if !ValidPrice(value) {
        return Some(OutOfRange(Price));
      }
      price := value;
      return None;
    }

    /** The `latitude` setter: outside [-90, 90] raises and is not stored. */
    method SetLatitude(value: real) returns (failure: Option<Error>)
      modifies this
      ensures failure == (if ValidLatitude(value) then None else Some(OutOfRange(Latitude)))
      ensures Snapshot() == if ValidLatitude(value) then old(Snapshot()).(latitude := value) else old(Snapshot())
    {
      if !ValidLatitude(value) {
        return Some(OutOfRange(Latitude));
      }
      latitude := value;
      return None;
    }

    /** The `longitude` setter: outside [-180, 180] raises and is not stored. */
    method SetLongitude(value: real) returns (failure: Option<Error>)
      modifies this
      ensures failure == (if ValidLongitude(value) then None else Some(OutOfRange(Longitude)))
      ensures Snapshot() == if ValidLongitude(value) then old(Snapshot()).(longitude := value) else old(Snapshot())
    {
      if !ValidLongitude(value) {
        return Some(OutOfRange(Longitude));
      }
      longitude := value;
      return None;
    }

    /** One pass of the subclass loop of `Place.update`. */
    method Apply(e: PlaceEntry) returns (failure: Option<Error>)
      modifies this
      ensures Patched(Snapshot(), failure) == Step(old(Snapshot()), e)
    {
      failure := None;
      match e
      case SetTitle(t) =>
        var s := ValidateString(t, Title, TitleMax);
        if s.Err? {
          return Some(s.error);
        }
        title := s.value;
      case SetDescription(d) =>
        var s := ValidateString(d, Description, DescriptionMax);
        if s.Err? {
          return Some(s.error);
        }
        description := s.value;
      case SetPrice(v) => failure := SetPrice(v);
      case SetLatitude(v) => failure := SetLatitude(v);
      case SetLongitude(v) => failure := SetLongitude(v);
      case SetOwner(o) => ownerId := o;
      case SetAmenities(a) => amenities := a;
      case Inherited(_) =>
    }

    /** `setattr` of one key by the base update. */
    method Reassign(e: PlaceEntry)
      modifies this
      ensures Snapshot() == Reassigned(old(Snapshot()), e)
    {
      match e
      case SetTitle(t) => title := t;
      case SetDescription(d) => description := d;
      case SetPrice(v) => price := v;
      case SetLatitude(v) => latitude := v;
      case SetLongitude(v) => longitude := v;
      case SetOwner(o) => ownerId := o;
      case SetAmenities(a) => amenities := a;
      case Inherited(_) =>
    }

    /** `Place.update(data)`; `failure` is the error it raises, if any. */
    method Update(data: seq<PlaceEntry>, now: nat) returns (failure: Option<Error>)
      modifies this, base
      ensures Patched(Snapshot(), failure) == Updated(old(Snapshot()), data, now)
    {
      ghost var start := Snapshot();
      for i := 0 to |data|
        invariant Validated(start, data) == Validated(Snapshot(), data[i..])
      {
        assert data[i..][1..] == data[i + 1..];
        failure := Apply(data[i]);
        if failure.Some? {
          return;
        }
      }
      ghost var checked := Snapshot();
      for i := 0 to |data|
        invariant ReassignedAll(checked, data) == ReassignedAll(Snapshot(), data[i..])
        invariant base.Snapshot() == checked.meta
      {
        assert data[i..][1..] == data[i + 1..];
        Reassign(data[i]);
      }
      base.Update(BaseEntries(data), now);
      failure := None;
    }

    /** `add_amenity(amenity)`, with the amenity given by its id. */
    method AddAmenity(amenity: Id)
      modifies this
      ensures Snapshot() == WithAmenity(old(Snapshot()), amenity)
    {
      if amenity !in amenities {
        amenities := amenities + [amenity];
      }
    }
  }
}
