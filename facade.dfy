/** `HBnBFacade`: the one object the API talks to. It owns four in-memory
    repositories, the clock that stamps entities and the id supply, and
    each of its operations is proved to change them exactly as the
    corresponding function of the catalog says. */
module Facade {
  import opened Common
  import Storage
  import Repository
  import UserModel
  import AmenityModel
  import PlaceModel
  import ReviewModel
  import Catalog

  /** An id found missing after a run of present ones is the first missing
      id of the whole list. */
  lemma FirstMissingAt(w: Catalog.World, ids: seq<Id>, i: nat)
    requires i < |ids| && ids[i] !in w.amenities.entries
    requires forall j :: 0 <= j < i ==> ids[j] in w.amenities.entries
    ensures Catalog.FirstMissing(w, ids) == Some(ids[i])
  {
    var m := Catalog.FirstMissing(w, ids);
    var k :| 0 <= k < |ids| && ids[k] == m.value && m.value !in w.amenities.entries
             && forall j :: 0 <= j < k ==> ids[j] in w.amenities.entries;
    assert k == i;
  }

  class HBnBFacade {
    const userRepo: Repository.InMemoryRepository<UserModel.UserRec>
    const amenityRepo: Repository.InMemoryRepository<AmenityModel.AmenityRec>
    const placeRepo: Repository.InMemoryRepository<PlaceModel.PlaceRec>
    const reviewRepo: Repository.InMemoryRepository<ReviewModel.ReviewRec>
    /** The clock that stamps `created_at` and `updated_at`. */
    var clock: nat
    /** The next id the supply hands out. */
    var nextId: Id

    /** The facade's whole state as a value. */
    function Model(): Catalog.World
      reads this, userRepo, amenityRepo, placeRepo, reviewRepo
    {
      Catalog.World(userRepo.Model(), amenityRepo.Model(), placeRepo.Model(), reviewRepo.Model(), clock, nextId)
    }

    /** Every repository is well formed and files its objects under their
        own `id` attribute. */
    ghost predicate Valid()
      reads this, userRepo, amenityRepo, placeRepo, reviewRepo
    {
      userRepo.Valid() && amenityRepo.Valid() && placeRepo.Valid() && reviewRepo.Valid()
      && (forall u :: userRepo.idOf(u) == u.id)
      && (forall a :: amenityRepo.idOf(a) == a.meta.id)
      && (forall p :: placeRepo.idOf(p) == p.meta.id)
      && (forall r :: reviewRepo.idOf(r) == r.meta.id)
    }

    /** A facade over four empty repositories. */
    constructor ()
      ensures Valid() && Model() == Catalog.Initial()
      ensures fresh(userRepo) && fresh(amenityRepo) && fresh(placeRepo) && fresh(reviewRepo)
    {
      userRepo := new Repository.InMemoryRepository((u: UserModel.UserRec) => u.id);
      amenityRepo := new Repository.InMemoryRepository((a: AmenityModel.AmenityRec) => a.meta.id);
      placeRepo := new Repository.InMemoryRepository((p: PlaceModel.PlaceRec) => p.meta.id);
      reviewRepo := new Repository.InMemoryRepository((r: ReviewModel.ReviewRec) => r.meta.id);
      clock := 0;
      nextId := 0;
    }

    // ----- Users -----

    /** The user `create_user` creates, or why it refuses. */
    method NewUser(data: seq<UserModel.UserEntry>, passwordHash: string) returns (c: Result<UserModel.UserRec>)
      requires Valid()
      ensures c == Catalog.NewUser(Model(), data, passwordHash)
    {
      var missing := Catalog.MissingField(data);
      if missing.Some? {
        return Err(Required(missing.value));
      }
      var email := UserModel.SuppliedEmail(data);
      if email.Some? && Repository.GetByEmail(userRepo, email.value).Some? {
        return Err(DuplicateEmail(email.value));
      }
      c := UserModel.Created(nextId, data, passwordHash);
    }

    /** Files a created user and spends its id. */
    method StoreUser(r: Result<UserModel.UserRec>)
      requires Valid()
      modifies this, userRepo
      ensures Valid() && Model() == Catalog.StoredUser(old(Model()), r)
    {
      if r.Ok? {
        userRepo.Add(r.value);
        nextId := nextId + 1;
      }
    }

    method CreateUser(data: seq<UserModel.UserEntry>, passwordHash: string) returns (r: Result<UserModel.UserRec>)
      requires Valid()
      modifies this, userRepo
      ensures Valid() && (Model(), r) == Catalog.CreateUser(old(Model()), data, passwordHash)
    {
      r := NewUser(data, passwordHash);
      StoreUser(r);
    }

    function GetUser(id: Id): (r: Option<UserModel.UserRec>)
      reads this, userRepo, amenityRepo, placeRepo, reviewRepo
      ensures r == Catalog.GetUser(Model(), id)
    {
      userRepo.Get(id)
    }

    function GetUserByEmail(email: string): (r: Option<UserModel.UserRec>)
      requires Valid()
      reads this, userRepo, amenityRepo, placeRepo, reviewRepo
      ensures r == Catalog.GetUserByEmail(Model(), email)
    {
      Repository.GetByEmail(userRepo, email)
    }

    function GetAllUsers(): (r: seq<Catalog.Dict>)
      requires Valid()
      reads this, userRepo, amenityRepo, placeRepo, reviewRepo
      ensures r == Catalog.AllUserDicts(Model())
    {
      var us := userRepo.GetAll();
      seq(|us|, i requires 0 <= i < |us| => Catalog.UserToDict(Some(us[i])).value)
    }

    /** `update_user`: the new hash first, then the `setattr` loop over the
        remaining keys, which stops at the first value a validator
        rejects; what it assigned before stays stored. A complete loop is
        followed by `update`, which files the user under its own id. */
    method UpdateUser(user: Id, data: seq<UserModel.UserEntry>, newHash: Option<string>)
      returns (r: Result<Option<UserModel.UserRec>>)
      requires Valid()
      modifies userRepo
      ensures Valid() && (Model(), r) == Catalog.UpdateUser(old(Model()), user, data, newHash)
    {
      var found := userRepo.Get(user);
      if found.None? {
        return Ok(None);
      }
      var taken := Catalog.TakenEmail(Model(), user, data);
      if taken.Some? {
        return Err(DuplicateEmail(taken.value));
      }
      var start := Catalog.Rehashed(found.value, newHash);
      var u := start;
      var failure: Option<Error> := None;
      var i := 0;
      while i < |data| && failure.None?
        invariant 0 <= i <= |data|
        invariant failure.None? ==> UserModel.AssignedAll(u, data[i..], false) == UserModel.AssignedAll(start, data, false)
        invariant failure.Some? ==> Patched(u, failure) == UserModel.AssignedAll(start, data, false)
      {
        assert data[i..][1..] == data[i + 1..];
        var q := UserModel.Assigned(u, data[i], false);
        u, failure := q.value, q.failure;
        i := i + 1;
      }
      // The loop changed the stored object itself.
      userRepo.Update(user, u);
      if failure.Some? {
        return Err(failure.value);
      }
      userRepo.Update(u.id, u);
      r := Ok(Some(u));
    }

    /** The first loop of the `delete_user` cascade: each listed place is
        deleted in turn. */
    method DeletePlaces(ids: seq<Id>)
      requires Valid()
      modifies placeRepo
      ensures Valid() && Model() == old(Model()).(places := Storage.DeleteAll(old(Model()).places, ids))
    {
      for i := 0 to |ids|
        invariant placeRepo.Valid()
        invariant Storage.DeleteAll(placeRepo.Model(), ids[i..]) == Storage.DeleteAll(old(placeRepo.Model()), ids)
      {
        assert ids[i..][1..] == ids[i + 1..];
        var _ := placeRepo.Delete(ids[i]);
      }
    }

    /** The second loop of the `delete_user` cascade: each listed review is
        deleted in turn. */
    method DeleteReviews(ids: seq<Id>)
      requires Valid()
      modifies reviewRepo
      ensures Valid() && Model() == old(Model()).(reviews := Storage.DeleteAll(old(Model()).reviews, ids))
    {
      for i := 0 to |ids|
        invariant reviewRepo.Valid()
        invariant Storage.DeleteAll(reviewRepo.Model(), ids[i..]) == Storage.DeleteAll(old(reviewRepo.Model()), ids)
      {
        assert ids[i..][1..] == ids[i + 1..];
        var _ := reviewRepo.Delete(ids[i]);
      }
    }

    /** `delete_user`: the cascade deletes the user's places one by one,
        then the user's reviews one by one, then the user. */
    method DeleteUser(user: Id) returns (deleted: bool)
      requires Valid()
      modifies userRepo, placeRepo, reviewRepo
      ensures Valid() && (Model(), deleted) == Catalog.DeleteUser(old(Model()), user)
    {
      if userRepo.Get(user).None? {
        return false;
      }
      var owned := Catalog.OwnedPlaces(Model(), user);
      var authored := Catalog.AuthoredReviews(Model(), user);
      DeletePlaces(owned);
      DeleteReviews(authored);
      var _ := userRepo.Delete(user);
      return true;
    }

    // ----- Amenities -----

    /** The amenity `create_amenity` creates, or why it refuses: the
        facade's own check on the name, then the constructor. */
    method NewAmenity(name: string) returns (c: Result<AmenityModel.AmenityRec>)
      ensures c == Catalog.NewAmenity(Model(), name)
    {
      if Catalog.AmenityNameRefused(name) {
        return Err(InvalidAmenityName);
      }
      c := AmenityModel.Created(nextId, clock + 1, name);
    }

    /** Files a created amenity, ticks the clock and spends its id. */
    method StoreAmenity(r: Result<AmenityModel.AmenityRec>)
      requires Valid()
      modifies this, amenityRepo
      ensures Valid() && Model() == Catalog.StoredAmenity(old(Model()), r)
    {
      if r.Ok? {
        amenityRepo.Add(r.value);
        clock, nextId := clock + 1, nextId + 1;
      }
    }

    /** `create_amenity`, with the constructor called on the name alone. */
    method CreateAmenity(name: string) returns (r: Result<AmenityModel.AmenityRec>)
      requires Valid()
      modifies this, amenityRepo
      ensures Valid() && (Model(), r) == Catalog.CreateAmenity(old(Model()), name)
    {
      r := NewAmenity(name);
      StoreAmenity(r);
    }

    function GetAmenity(id: Id): (r: Option<AmenityModel.AmenityRec>)
      reads this, userRepo, amenityRepo, placeRepo, reviewRepo
      ensures r == Catalog.GetAmenity(Model(), id)
    {
      amenityRepo.Get(id)
    }

    function GetAllAmenities(): (r: seq<AmenityModel.AmenityRec>)
      requires Valid()
      reads this, userRepo, amenityRepo, placeRepo, reviewRepo
      ensures r == Storage.Values(Model().amenities)
    {
      amenityRepo.GetAll()
    }

    /** The store step of `update_amenity`: `update` on the old id, then
        `add` under the amenity's own id. */
    method StoreReplacedAmenity(amenity: Id, a: AmenityModel.AmenityRec)
      requires Valid()
      modifies this, amenityRepo
      ensures Valid() && Model() == Catalog.ReplacedAmenity(old(Model()), amenity, a)
    {
      amenityRepo.Update(amenity, a);
      amenityRepo.Add(a);
      clock := clock + 1;
    }

    /** `update_amenity`: the amenity's own update, then `add` again under
        its id. */
    method UpdateAmenity(amenity: Id, patch: AmenityModel.AmenityPatch)
      returns (r: Result<Option<AmenityModel.AmenityRec>>)
      requires Valid()
      modifies this, amenityRepo
      ensures Valid() && (Model(), r) == Catalog.UpdateAmenity(old(Model()), amenity, patch)
    {
      var found := amenityRepo.Get(amenity);
      if found.None? {
        return Ok(None);
      }
      var u := AmenityModel.Updated(found.value, patch, clock + 1);
      if u.failure.Some? {
        return Err(u.failure.value);
      }
      StoreReplacedAmenity(amenity, u.value);
      r := Ok(Some(u.value));
    }

    method DeleteAmenity(amenity: Id) returns (deleted: bool)
      requires Valid()
      modifies amenityRepo
      ensures Valid() && (Model(), deleted) == Catalog.DeleteAmenity(old(Model()), amenity)
    {
      if amenityRepo.Get(amenity).None? {
        return false;
      }
      var _ := amenityRepo.Delete(amenity);
      return true;
    }

    // ----- Places -----

    /** The `valid_amenities` loop: the first listed id with no stored
        amenity, if any. */
    method CheckAmenities(ids: seq<Id>) returns (missing: Option<Id>)
      requires Valid()
      ensures missing == Catalog.FirstMissing(Model(), ids)
    {
      for i := 0 to |ids|
        invariant forall j :: 0 <= j < i ==> ids[j] in Model().amenities.entries
      {
        if amenityRepo.Get(ids[i]).None? {
          FirstMissingAt(Model(), ids, i);
          return Some(ids[i]);
        }
      }
      return None;
    }

    /** The checks of `create_place`, in its order. */
    method PlaceFault(owner: Id, amenities: Option<seq<Id>>, price: real, latitude: real, longitude: real)
      returns (f: Option<Error>)
      requires Valid()
      ensures f == Catalog.PlaceFault(Model(), owner, amenities, price, latitude, longitude)
    {
      if userRepo.Get(owner).None? {
        return Some(MissingOwner(owner));
      }
      if amenities.Some? && amenities.value != [] {
        var missing := CheckAmenities(amenities.value);
        if missing.Some? {
          return Some(MissingAmenity(missing.value));
        }
      }
      if !PlaceModel.ValidPrice(price) {
        return Some(OutOfRange(Price));
      }
      if !PlaceModel.ValidLatitude(latitude) {
        return Some(OutOfRange(Latitude));
      }
      if !PlaceModel.ValidLongitude(longitude) {
        return Some(OutOfRange(Longitude));
      }
      return None;
    }

    /** The place `create_place` creates, or why it refuses: the facade's
        checks, then the constructor with the owner passed as `owner`. */
    method NewPlace(title: string, description: string, price: real, latitude: real, longitude: real,
                    owner: Id, amenities: Option<seq<Id>>)
      returns (c: Result<PlaceModel.PlaceRec>)
      requires Valid()
      ensures c == Catalog.NewPlace(Model(), title, description, price, latitude, longitude, owner, amenities)
    {
      var f := PlaceFault(owner, amenities, price, latitude, longitude);
      if f.Some? {
        return Err(f.value);
      }
      c := PlaceModel.Created(None, nextId, clock + 1, title, description, price, latitude, longitude,
                              owner, amenities);
    }

    /** Files a created place, ticks the clock and spends its id. */
    method StorePlace(r: Result<PlaceModel.PlaceRec>)
      requires Valid()
      modifies this, placeRepo
      ensures Valid() && Model() == Catalog.StoredPlace(old(Model()), r)
    {
      if r.Ok? {
        placeRepo.Add(r.value);
        clock, nextId := clock + 1, nextId + 1;
      }
    }

    /** `create_place`, with the owner passed to the constructor as `owner`. */
    method CreatePlace(title: string, description: string, price: real, latitude: real, longitude: real,
                       owner: Id, amenities: Option<seq<Id>>)
      returns (r: Result<PlaceModel.PlaceRec>)
      requires Valid()
      modifies this, placeRepo
      ensures Valid() && (Model(), r) == Catalog.CreatePlace(old(Model()), title, description, price, latitude,
                                                             longitude, owner, amenities)
    {
      r := NewPlace(title, description, price, latitude, longitude, owner, amenities);
      StorePlace(r);
    }

    function GetPlace(id: Id): (r: Option<PlaceModel.PlaceRec>)
      reads this, userRepo, amenityRepo, placeRepo, reviewRepo
      ensures r == Catalog.GetPlace(Model(), id)
    {
      placeRepo.Get(id)
    }

    function GetAllPlaces(): (r: seq<PlaceModel.PlaceRec>)
      requires Valid()
      reads this, userRepo, amenityRepo, placeRepo, reviewRepo
      ensures r == Storage.Values(Model().places)
    {
      placeRepo.GetAll()
    }

    /** The checks of `update_place`, each for a key the data holds. */
    method PlacePatchFault(data: seq<PlaceModel.PlaceEntry>) returns (f: Option<Error>)
      requires Valid()
      ensures f == Catalog.PlacePatchFault(Model(), data)
    {
      var owner := PlaceModel.Lookup(data, "owner_id");
      if owner.Some? && owner.value.SetOwner? && userRepo.Get(owner.value.ownerId).None? {
        return Some(MissingOwner(owner.value.ownerId));
      }
      var amenities := PlaceModel.Lookup(data, "amenities");
      if amenities.Some? && amenities.value.SetAmenities? && amenities.value.amenities != [] {
        var missing := CheckAmenities(amenities.value.amenities);
        if missing.Some? {
          return Some(MissingAmenity(missing.value));
        }
      }
      var price := PlaceModel.Lookup(data, "price");
      if price.Some? && !PlaceModel.Acceptable(price.value) {
        return Some(OutOfRange(Price));
      }
      var latitude := PlaceModel.Lookup(data, "latitude");
      if latitude.Some? && !PlaceModel.Acceptable(latitude.value) {
        return Some(OutOfRange(Latitude));
      }
      var longitude := PlaceModel.Lookup(data, "longitude");
      if longitude.Some? && !PlaceModel.Acceptable(longitude.value) {
        return Some(OutOfRange(Longitude));
      }
      return None;
    }

    /** The store step of `update_place`: the updated place replaces the
        stored one, and a complete update ticks the clock. */
    method StorePatchedPlace(place: Id, u: Patched<PlaceModel.PlaceRec>)
      requires Valid()
      modifies this, placeRepo
      ensures Valid() && Model() == Catalog.PatchedPlace(old(Model()), place, u)
    {
      placeRepo.Update(place, u.value);
      if u.failure.None? {
        clock := clock + 1;
      }
    }

    /** `update_place`: the facade's checks, then the place's own update,
        whose result replaces the stored place. */
    method UpdatePlace(place: Id, data: seq<PlaceModel.PlaceEntry>)
      returns (r: Result<Option<PlaceModel.PlaceRec>>)
      requires Valid()
      modifies this, placeRepo
      ensures Valid() && (Model(), r) == Catalog.UpdatePlace(old(Model()), place, data)
    {
      var found := placeRepo.Get(place);
      if found.None? {
        return Ok(None);
      }
      var f := PlacePatchFault(data);
      if f.Some? {
        return Err(f.value);
      }
      var u := PlaceModel.Updated(found.value, data, clock + 1);
      StorePatchedPlace(place, u);
      r := if u.failure.Some? then Err(u.failure.value) else Ok(Some(u.value));
    }

    // ----- Reviews -----

    /** The review `create_review` creates, or why it refuses: the
        author, the place and the rating, then the constructor. */
    method NewReview(text: string, rating: int, user: Id, place: Id) returns (c: Result<ReviewModel.ReviewRec>)
      ensures c == Catalog.NewReview(Model(), text, rating, user, place)
    {
      if userRepo.Get(user).None? {
        return Err(MissingUser(user));
      }
      if placeRepo.Get(place).None? {
        return Err(MissingPlace(place));
      }
      if !ReviewModel.ValidRating(rating) {
        return Err(OutOfRange(Rating));
      }
      c := ReviewModel.Created(None, nextId, clock + 1, text, rating, user, place);
    }

    /** Files a created review, ticks the clock and spends its id. */
    method StoreReview(r: Result<ReviewModel.ReviewRec>)
      requires Valid()
      modifies this, reviewRepo
      ensures Valid() && Model() == Catalog.StoredReview(old(Model()), r)
    {
      if r.Ok? {
        reviewRepo.Add(r.value);
        clock, nextId := clock + 1, nextId + 1;
      }
    }

    method CreateReview(text: string, rating: int, user: Id, place: Id) returns (r: Result<ReviewModel.ReviewRec>)
      requires Valid()
      modifies this, reviewRepo
      ensures Valid() && (Model(), r) == Catalog.CreateReview(old(Model()), text, rating, user, place)
    {
      r := NewReview(text, rating, user, place);
      StoreReview(r);
    }

    function GetReview(id: Id): (r: Option<ReviewModel.ReviewRec>)
      reads this, userRepo, amenityRepo, placeRepo, reviewRepo
      ensures r == Catalog.GetReview(Model(), id)
    {
      reviewRepo.Get(id)
    }

    function GetAllReviews(): (r: seq<ReviewModel.ReviewRec>)
      requires Valid()
      reads this, userRepo, amenityRepo, placeRepo, reviewRepo
      ensures r == Storage.Values(Model().reviews)
    {
      reviewRepo.GetAll()
    }

    function GetReviewsByPlace(place: Id): (r: Option<seq<ReviewModel.ReviewRec>>)
      requires Valid()
      reads this, userRepo, amenityRepo, placeRepo, reviewRepo
      ensures r == Catalog.ReviewsByPlace(Model(), place)
    {
      if GetPlace(place).None? then None
      else Some(Storage.Filter(GetAllReviews(), ReviewModel.PlaceOf, place))
    }

    /** The checks of `update_review`, each for a field the patch holds. */
    method ReviewPatchFault(patch: ReviewModel.ReviewPatch) returns (f: Option<Error>)
      ensures f == Catalog.ReviewPatchFault(Model(), patch)
    {
      if patch.userId.Some? && userRepo.Get(patch.userId.value).None? {
        return Some(MissingUser(patch.userId.value));
      }
      if patch.placeId.Some? && placeRepo.Get(patch.placeId.value).None? {
        return Some(MissingPlace(patch.placeId.value));
      }
      if patch.rating.Some? && !ReviewModel.ValidRating(patch.rating.value) {
        return Some(OutOfRange(Rating));
      }
      return None;
    }

    /** The store step of `update_review`: the updated review replaces the
        stored one, and a complete update ticks the clock. */
    method StorePatchedReview(review: Id, u: Patched<ReviewModel.ReviewRec>)
      requires Valid()
      modifies this, reviewRepo
      ensures Valid() && Model() == Catalog.PatchedReview(old(Model()), review, u)
    {
      reviewRepo.Update(review, u.value);
      if u.failure.None? {
        clock := clock + 1;
      }
    }

    /** `update_review`: the facade's checks, then the review's own update,
        whose result replaces the stored review. */
    method UpdateReview(review: Id, patch: ReviewModel.ReviewPatch)
      returns (r: Result<Option<ReviewModel.ReviewRec>>)
      requires Valid()
      modifies this, reviewRepo
      ensures Valid() && (Model(), r) == Catalog.UpdateReview(old(Model()), review, patch)
    {
      var found := reviewRepo.Get(review);
      if found.None? {
        return Ok(None);
      }
      var f := ReviewPatchFault(patch);
      if f.Some? {
        return Err(f.value);
      }
      var u := ReviewModel.Updated(found.value, patch, clock + 1);
      StorePatchedReview(review, u);
      r := if u.failure.Some? then Err(u.failure.value) else Ok(Some(u.value));
    }

    method DeleteReview(review: Id) returns (deleted: bool)
      requires Valid()
      modifies reviewRepo
      ensures Valid() && (Model(), deleted) == Catalog.DeleteReview(old(Model()), review)
    {
      if reviewRepo.Get(review).None? {
        return false;
      }
      var _ := reviewRepo.Delete(review);
      return true;
    }
  }
}
