/** The facade's operations as functions of the whole catalog state: four
    repositories, the clock that stamps entities, and the id supply. The
    facade class is proved to do exactly what these functions say. */
module Catalog {
  import opened Common
  import Storage
  import BaseModel
  import UserModel
  import AmenityModel
  import PlaceModel
  import ReviewModel

  datatype World = World(
    users: Storage.Store<UserModel.UserRec>,
    amenities: Storage.Store<AmenityModel.AmenityRec>,
    places: Storage.Store<PlaceModel.PlaceRec>,
    reviews: Storage.Store<ReviewModel.ReviewRec>,
    clock: nat,
    nextId: Id)

  /** Each repository is a well-formed store whose keys are the stored
      objects' own ids, all drawn from the supply before `nextId`. */
  ghost predicate Sound(w: World) {
    Storage.Wf(w.users) && Storage.Wf(w.amenities) && Storage.Wf(w.places) && Storage.Wf(w.reviews)
    && (forall id :: id in w.users.entries ==> w.users.entries[id].id == id && id < w.nextId)
    && (forall id :: id in w.amenities.entries ==> w.amenities.entries[id].meta.id == id && id < w.nextId)
    && (forall id :: id in w.places.entries ==> w.places.entries[id].meta.id == id && id < w.nextId)
    && (forall id :: id in w.reviews.entries ==> w.reviews.entries[id].meta.id == id && id < w.nextId)
  }

  /** No two stored users share an email address. */
  ghost predicate UniqueEmails(w: World) {
    forall a, b :: a in w.users.entries && b in w.users.entries && a != b
                   ==> w.users.entries[a].email != w.users.entries[b].email
  }

  /** A facade with four empty repositories. */
  function Initial(): (w: World)
    ensures Sound(w) && UniqueEmails(w)
  {
    World(Storage.Empty(), Storage.Empty(), Storage.Empty(), Storage.Empty(), 0, 0)
  }

  // ----- Users -----

  function GetUser(w: World, id: Id): Option<UserModel.UserRec> {
    Storage.Get(w.users, id)
  }

  function GetUserByEmail(w: World, email: string): Option<UserModel.UserRec>
    requires Storage.Wf(w.users)
  {
    Storage.FindFirst(w.users, UserModel.EmailOf, email)
  }

  /** Whether some entry names the key. */
  predicate Supplies(data: seq<UserModel.UserEntry>, key: string) {
    exists i :: 0 <= i < |data| && UserModel.Key(data[i]) == key
  }

  /** The payload schema of the users endpoint requires `first_name`,
      `last_name`, `email` and `password`; the password travels as the
      hash. The first key absent, in schema order. */
  function MissingField(data: seq<UserModel.UserEntry>): Option<Field> {
    if !Supplies(data, "first_name") then Some(FirstName)
    else if !Supplies(data, "last_name") then Some(LastName)
    else if UserModel.SuppliedEmail(data).None? then Some(Email)
    else None
  }

  /** The user `create_user` creates from a payload whose password has
      been hashed and removed, or why it refuses: a missing required key,
      then an address already registered, then the keyword constructor. */
  function NewUser(w: World, data: seq<UserModel.UserEntry>, passwordHash: string): Result<UserModel.UserRec>
    requires Storage.Wf(w.users)
  {
    var email := UserModel.SuppliedEmail(data);
    if MissingField(data).Some? then Err(Required(MissingField(data).value))
    else if email.Some? && GetUserByEmail(w, email.value).Some? then Err(DuplicateEmail(email.value))
    else UserModel.Created(w.nextId, data, passwordHash)
  }

  /** A created user is stored under its own id. */
  function StoredUser(w: World, r: Result<UserModel.UserRec>): World {
    if r.Err? then w else w.(users := Storage.Add(w.users, r.value.id, r.value), nextId := w.nextId + 1)
  }

  /** `create_user` as intended: the password is taken out of the payload
      and hashed before the constructor sees it. */
  function CreateUser(w: World, data: seq<UserModel.UserEntry>, passwordHash: string)
    : (World, Result<UserModel.UserRec>)
    requires Storage.Wf(w.users)
  {
    var r := NewUser(w, data, passwordHash);
    (StoredUser(w, r), r)
  }

  /** `create_user` as written: `User(**user_data)` also receives the
      `password` key, which names no attribute of `User`, so the
      constructor raises a TypeError when it reaches that key unless an
      earlier key raises first. A payload without it would fail next on
      `hash_password`, which `User` does not define. Nothing is stored. */
  function CreateUserAsWritten(w: World, payload: seq<UserModel.UserEntry>): (World, Result<UserModel.UserRec>)
    requires Storage.Wf(w.users)
  {
    var r := NewUser(w, payload, "");
    (w, if r.Err? then r else Err(MissingAttribute("hash_password")))
  }

  /** The address of the first email entry that another user already has. */
  function TakenEmail(w: World, user: Id, data: seq<UserModel.UserEntry>): Option<string>
    requires Storage.Wf(w.users)
  {
    if data == [] then None
    else if data[0].SetEmail? && GetUserByEmail(w, data[0].email).Some?
            && GetUserByEmail(w, data[0].email).value.id != user
    then Some(data[0].email)
    else TakenEmail(w, user, data[1..])
  }

  /** The fetched user after `hash_password`, when a password is given. */
  function Rehashed(u: UserModel.UserRec, newHash: Option<string>): UserModel.UserRec {
    if newHash.Some? then u.(passwordHash := newHash.value) else u
  }

  /** `update_user`: None for an unknown user; otherwise a new password hash
      replaces the old one, then each key is assigned in turn. The fetched
      user IS the stored object, so what the loop assigns shows under the
      old key at once, even when a later value is rejected; after a
      complete loop `update` stores it again under its (possibly
      reassigned) id. */
  function UpdateUser(w: World, user: Id, data: seq<UserModel.UserEntry>, newHash: Option<string>)
    : (World, Result<Option<UserModel.UserRec>>)
    requires Storage.Wf(w.users)
  {
    if user !in w.users.entries then (w, Ok(None))
    else if TakenEmail(w, user, data).Some? then (w, Err(DuplicateEmail(TakenEmail(w, user, data).value)))
    else
      var a := UserModel.AssignedAll(Rehashed(w.users.entries[user], newHash), data, false);
      var inPlace := Storage.Update(w.users, user, a.value);
      if a.failure.Some? then (w.(users := inPlace), Err(a.failure.value))
      else (w.(users := Storage.Update(inPlace, a.value.id, a.value)), Ok(Some(a.value)))
  }

  /** The places a user owns, in repository order. */
  function OwnedPlaces(w: World, user: Id): seq<Id>
    requires Storage.Wf(w.places)
  {
    Storage.Matching(w.places, PlaceModel.OwnerOf, user, w.places.order)
  }

  /** The reviews a user wrote, in repository order. */
  function AuthoredReviews(w: World, user: Id): seq<Id>
    requires Storage.Wf(w.reviews)
  {
    Storage.Matching(w.reviews, ReviewModel.AuthorOf, user, w.reviews.order)
  }

  /** `delete_user` as written: no relationship declares `user.reviews`
      (only `places` is a backref on users), so once the owned places are
      deleted the second loop raises an AttributeError, and the user and
      the user's reviews stay stored. */
  function DeleteUserAsWritten(w: World, user: Id): (World, Result<bool>)
    requires Storage.Wf(w.places)
  {
    if user !in w.users.entries then (w, Ok(false))
    else (w.(places := Storage.DeleteAll(w.places, OwnedPlaces(w, user))), Err(MissingAttribute("reviews")))
  }

  /** `delete_user` as its documentation describes it: False for an unknown
      user; otherwise the places the user owns are deleted, then the
      reviews the user wrote, then the user, and the answer is True. */
  function DeleteUser(w: World, user: Id): (World, bool)
    requires Storage.Wf(w.users) && Storage.Wf(w.places) && Storage.Wf(w.reviews)
  {
    if user !in w.users.entries then (w, false)
    else
      var w1 := w.(places := Storage.DeleteAll(w.places, OwnedPlaces(w, user)));
      var w2 := w1.(reviews := Storage.DeleteAll(w.reviews, AuthoredReviews(w, user)));
      (w2.(users := Storage.Delete(w.users, user).0), true)
  }

  // ----- Amenities -----

  function GetAmenity(w: World, id: Id): Option<AmenityModel.AmenityRec> {
    Storage.Get(w.amenities, id)
  }

  /** The facade's own check in `create_amenity`: empty or longer than 50. */
  predicate AmenityNameRefused(name: string) {
    name == [] || |name| > AmenityModel.NameMax
  }

  /** `create_amenity` as written: the `owner_id` keyword it passes is not a
      parameter of `Amenity.__init__`, so every name that passes the
      facade's check raises a TypeError and nothing is ever stored. */
  function CreateAmenityAsWritten(w: World, name: string): (World, Result<AmenityModel.AmenityRec>) {
    if AmenityNameRefused(name) then (w, Err(InvalidAmenityName))
    else (w, Err(UnexpectedKeyword("owner_id")))
  }

  /** The amenity `create_amenity` creates when the constructor is called
      on the name alone, or why it refuses: the facade's check, then
      `Amenity(name=name)`. */
  function NewAmenity(w: World, name: string): Result<AmenityModel.AmenityRec> {
    if AmenityNameRefused(name) then Err(InvalidAmenityName)
    else AmenityModel.Created(w.nextId, w.clock + 1, name)
  }

  /** A created amenity is stored under its fresh id. */
  function StoredAmenity(w: World, r: Result<AmenityModel.AmenityRec>): World {
    if r.Err? then w
    else w.(amenities := Storage.Add(w.amenities, r.value.meta.id, r.value), clock := w.clock + 1,
            nextId := w.nextId + 1)
  }

  /** `create_amenity` as intended. */
  function CreateAmenity(w: World, name: string): (World, Result<AmenityModel.AmenityRec>) {
    var r := NewAmenity(w, name);
    (StoredAmenity(w, r), r)
  }

  /** An updated amenity replaces the one stored under `amenity`, and
      `add` files it again under its own (possibly reassigned) id. */
  function ReplacedAmenity(w: World, amenity: Id, a: AmenityModel.AmenityRec): World {
    w.(amenities := Storage.Add(Storage.Update(w.amenities, amenity, a), a.meta.id, a), clock := w.clock + 1)
  }

  /** `update_amenity`: None for an unknown amenity; a rejected name leaves
      everything unchanged; otherwise the updated amenity is stored again. */
  function UpdateAmenity(w: World, amenity: Id, patch: AmenityModel.AmenityPatch)
    : (World, Result<Option<AmenityModel.AmenityRec>>)
  {
    if amenity !in w.amenities.entries then (w, Ok(None))
    else
      var u := AmenityModel.Updated(w.amenities.entries[amenity], patch, w.clock + 1);
      if u.failure.Some? then (w, Err(u.failure.value))
      else (ReplacedAmenity(w, amenity, u.value), Ok(Some(u.value)))
  }

  /** `delete_amenity`: False for an unknown amenity, otherwise removed and
      True. Places that list the amenity keep its id. */
  function DeleteAmenity(w: World, amenity: Id): (World, bool) {
    if amenity !in w.amenities.entries then (w, false)
    else (w.(amenities := Storage.Delete(w.amenities, amenity).0), true)
  }

  // ----- Places -----

  function GetPlace(w: World, id: Id): Option<PlaceModel.PlaceRec> {
    Storage.Get(w.places, id)
  }

  /** The first id of the list that names no stored amenity. */
  function FirstMissing(w: World, ids: seq<Id>): (r: Option<Id>)
    ensures r.None? <==> forall i :: 0 <= i < |ids| ==> ids[i] in w.amenities.entries
    ensures r.Some? ==> exists k :: 0 <= k < |ids| && ids[k] == r.value && r.value !in w.amenities.entries
                                   && forall j :: 0 <= j < k ==> ids[j] in w.amenities.entries
  {
    if ids == [] then None
    else if ids[0] !in w.amenities.entries then Some(ids[0])
    else
      var r := FirstMissing(w, ids[1..]);
      assert forall i :: 1 <= i < |ids| ==> ids[i] == ids[1..][i - 1];
      if r.Some? then
        var k :| 0 <= k < |ids[1..]| && ids[1..][k] == r.value && r.value !in w.amenities.entries
                 && forall j :: 0 <= j < k ==> ids[1..][j] in w.amenities.entries;
        assert ids[k + 1] == r.value;
        r
      else r
  }

  /** The checks `create_place` makes itself, in its order: the owner,
      each listed amenity (only for a non-empty list), the price, the
      latitude, the longitude. */
  function PlaceFault(w: World, owner: Id, amenities: Option<seq<Id>>, price: real,
                      latitude: real, longitude: real): Option<Error>
  {
    if owner !in w.users.entries then Some(MissingOwner(owner))
    else if amenities.Some? && amenities.value != [] && FirstMissing(w, amenities.value).Some? then
      Some(MissingAmenity(FirstMissing(w, amenities.value).value))
    else if !PlaceModel.ValidPrice(price) then Some(OutOfRange(Price))
    else if !PlaceModel.ValidLatitude(latitude) then Some(OutOfRange(Latitude))
    else if !PlaceModel.ValidLongitude(longitude) then Some(OutOfRange(Longitude))
    else None
  }

  /** `create_place` as written: after its checks it calls
      `Place(**place_data)` with an `owner_id` keyword, but the constructor's
      required parameter is `owner`, so every request that passes the
      checks raises a TypeError and nothing is stored. */
  function CreatePlaceAsWritten(w: World, title: string, description: string, price: real,
                                latitude: real, longitude: real, owner: Id,
                                amenities: Option<seq<Id>>): (World, Result<PlaceModel.PlaceRec>)
  {
    match PlaceFault(w, owner, amenities, price, latitude, longitude)
    case Some(e) => (w, Err(e))
    case None => (w, Err(MissingArgument("owner")))
  }

  /** The place `create_place` creates when the owner id is passed to the
      constructor as `owner`, or why it refuses: its own checks, then the
      constructor. */
  function NewPlace(w: World, title: string, description: string, price: real,
                    latitude: real, longitude: real, owner: Id,
                    amenities: Option<seq<Id>>): Result<PlaceModel.PlaceRec>
  {
    match PlaceFault(w, owner, amenities, price, latitude, longitude)
    case Some(e) => Err(e)
    case None => PlaceModel.Created(None, w.nextId, w.clock + 1, title, description, price, latitude,
                                    longitude, owner, amenities)
  }

  /** A created place is stored under its fresh id. */
  function StoredPlace(w: World, r: Result<PlaceModel.PlaceRec>): World {
    if r.Err? then w
    else w.(places := Storage.Add(w.places, r.value.meta.id, r.value), clock := w.clock + 1,
            nextId := w.nextId + 1)
  }

  /** `create_place` as intended. */
  function CreatePlace(w: World, title: string, description: string, price: real,
                       latitude: real, longitude: real, owner: Id,
                       amenities: Option<seq<Id>>): (World, Result<PlaceModel.PlaceRec>)
  {
    var r := NewPlace(w, title, description, price, latitude, longitude, owner, amenities);
    (StoredPlace(w, r), r)
  }

  /** The checks `update_place` makes itself, each only for a key present
      in the data, in the order owner, amenities, price, latitude,
      longitude. */
  function PlacePatchFault(w: World, data: seq<PlaceModel.PlaceEntry>): Option<Error> {
    var owner, amenities := PlaceModel.Lookup(data, "owner_id"), PlaceModel.Lookup(data, "amenities");
    var price, latitude := PlaceModel.Lookup(data, "price"), PlaceModel.Lookup(data, "latitude");
    var longitude := PlaceModel.Lookup(data, "longitude");
    if owner.Some? && owner.value.SetOwner? && owner.value.ownerId !in w.users.entries then
      Some(MissingOwner(owner.value.ownerId))
    else if amenities.Some? && amenities.value.SetAmenities? && amenities.value.amenities != []
            && FirstMissing(w, amenities.value.amenities).Some? then
      Some(MissingAmenity(FirstMissing(w, amenities.value.amenities).value))
    else if price.Some? && !PlaceModel.Acceptable(price.value) then Some(OutOfRange(Price))
    else if latitude.Some? && !PlaceModel.Acceptable(latitude.value) then Some(OutOfRange(Latitude))
    else if longitude.Some? && !PlaceModel.Acceptable(longitude.value) then Some(OutOfRange(Longitude))
    else None
  }

  /** The result of a place's own update replaces the stored place; only
      a complete update ticks the clock. */
  function PatchedPlace(w: World, place: Id, u: Patched<PlaceModel.PlaceRec>): World {
    w.(places := Storage.Update(w.places, place, u.value),
       clock := if u.failure.None? then w.clock + 1 else w.clock)
  }

  /** `update_place`: None for an unknown place; the facade's checks; then
      the place's own `update` on the stored object, whose partial effect
      stays stored if it raises. */
  function UpdatePlace(w: World, place: Id, data: seq<PlaceModel.PlaceEntry>)
    : (World, Result<Option<PlaceModel.PlaceRec>>)
  {
    if place !in w.places.entries then (w, Ok(None))
    else if PlacePatchFault(w, data).Some? then (w, Err(PlacePatchFault(w, data).value))
    else
      var u := PlaceModel.Updated(w.places.entries[place], data, w.clock + 1);
      (PatchedPlace(w, place, u), if u.failure.Some? then Err(u.failure.value) else Ok(Some(u.value)))
  }

  // ----- Reviews -----

  function GetReview(w: World, id: Id): Option<ReviewModel.ReviewRec> {
    Storage.Get(w.reviews, id)
  }

  /** The review `create_review` creates, or why it refuses: the author
      must exist, then the place, then the rating must be in 1..5; the
      constructor then checks the text. */
  function NewReview(w: World, text: string, rating: int, user: Id, place: Id): Result<ReviewModel.ReviewRec> {
    if user !in w.users.entries then Err(MissingUser(user))
    else if place !in w.places.entries then Err(MissingPlace(place))
    else if !ReviewModel.ValidRating(rating) then Err(OutOfRange(Rating))
    else ReviewModel.Created(None, w.nextId, w.clock + 1, text, rating, user, place)
  }

  /** A created review is stored under its fresh id. */
  function StoredReview(w: World, r: Result<ReviewModel.ReviewRec>): World {
    if r.Err? then w
    else w.(reviews := Storage.Add(w.reviews, r.value.meta.id, r.value), clock := w.clock + 1,
            nextId := w.nextId + 1)
  }

  /** `create_review`. */
  function CreateReview(w: World, text: string, rating: int, user: Id, place: Id)
    : (World, Result<ReviewModel.ReviewRec>)
  {
    var r := NewReview(w, text, rating, user, place);
    (StoredReview(w, r), r)
  }

  /** The checks `update_review` makes itself, each only for a key present. */
  function ReviewPatchFault(w: World, patch: ReviewModel.ReviewPatch): Option<Error> {
    if patch.userId.Some? && patch.userId.value !in w.users.entries then Some(MissingUser(patch.userId.value))
    else if patch.placeId.Some? && patch.placeId.value !in w.places.entries then Some(MissingPlace(patch.placeId.value))
    else if patch.rating.Some? && !ReviewModel.ValidRating(patch.rating.value) then Some(OutOfRange(Rating))
    else None
  }

  /** The result of a review's own update replaces the stored review; only
      a complete update ticks the clock. */
  function PatchedReview(w: World, review: Id, u: Patched<ReviewModel.ReviewRec>): World {
    w.(reviews := Storage.Update(w.reviews, review, u.value),
       clock := if u.failure.None? then w.clock + 1 else w.clock)
  }

  /** `update_review`: None for an unknown review; the facade's checks;
      then the review's own `update` on the stored object. */
  function UpdateReview(w: World, review: Id, patch: ReviewModel.ReviewPatch)
    : (World, Result<Option<ReviewModel.ReviewRec>>)
  {
    if review !in w.reviews.entries then (w, Ok(None))
    else if ReviewPatchFault(w, patch).Some? then (w, Err(ReviewPatchFault(w, patch).value))
    else
      var u := ReviewModel.Updated(w.reviews.entries[review], patch, w.clock + 1);
      (PatchedReview(w, review, u), if u.failure.Some? then Err(u.failure.value) else Ok(Some(u.value)))
  }

  /** `delete_review`: False for an unknown review, otherwise removed and True. */
  function DeleteReview(w: World, review: Id): (World, bool) {
    if review !in w.reviews.entries then (w, false)
    else (w.(reviews := Storage.Delete(w.reviews, review).0), true)
  }

  /** `get_reviews_by_place`: None for an unknown place, otherwise the
      stored reviews of that place in repository order. */
  function ReviewsByPlace(w: World, place: Id): Option<seq<ReviewModel.ReviewRec>>
    requires Storage.Wf(w.reviews)
  {
    if place !in w.places.entries then None
    else Some(Storage.Filter(Storage.Values(w.reviews), ReviewModel.PlaceOf, place))
  }

  // ----- Projections -----

  /** A value of a projected dictionary. */
  datatype Value = IdValue(id: Id) | Str(s: string) | Flag(b: bool) | Number(r: real) | Integer(i: int)
                 | IdList(ids: seq<Id>)

  /** A dictionary in key order. */
  type Dict = seq<(string, Value)>

  function KeysOf(d: Dict): (r: seq<string>)
    ensures |r| == |d| && forall i :: 0 <= i < |d| ==> r[i] == d[i].0
  {
    if d == [] then [] else [d[0].0] + KeysOf(d[1..])
  }

  /** `_user_to_dict`: no password (hash) key. */
  function UserToDict(u: Option<UserModel.UserRec>): Option<Dict> {
    match u
    case None => None
    case Some(x) => Some([("id", IdValue(x.id)), ("first_name", Str(x.firstName)), ("last_name", Str(x.lastName)),
                          ("email", Str(x.email)), ("is_admin", Flag(x.isAdmin))])
  }

  function AmenityToDict(a: Option<AmenityModel.AmenityRec>): Option<Dict> {
    match a
    case None => None
    case Some(x) => Some([("id", IdValue(x.meta.id)), ("name", Str(x.name))])
  }

  function PlaceToDict(p: Option<PlaceModel.PlaceRec>): Option<Dict> {
    match p
    case None => None
    case Some(x) => Some([("id", IdValue(x.meta.id)), ("title", Str(x.title)), ("description", Str(x.description)),
                          ("price", Number(x.price)), ("latitude", Number(x.latitude)),
                          ("longitude", Number(x.longitude)), ("owner_id", IdValue(x.ownerId)),
                          ("amenities", IdList(x.amenities))])
  }

  function ReviewToDict(r: Option<ReviewModel.ReviewRec>): Option<Dict> {
    match r
    case None => None
    case Some(x) => Some([("id", IdValue(x.meta.id)), ("text", Str(x.text)), ("rating", Integer(x.rating)),
                          ("user_id", IdValue(x.userId)), ("place_id", IdValue(x.placeId))])
  }

  /** `get_all_users`: every stored user, projected, in repository order. */
  function AllUserDicts(w: World): seq<Dict>
    requires Storage.Wf(w.users)
  {
    var us := Storage.Values(w.users);
    seq(|us|, i requires 0 <= i < |us| => UserToDict(Some(us[i])).value)
  }
}
