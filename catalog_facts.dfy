/** What the facade guarantees, stated over the catalog functions: the
    checks each operation makes and their order, what it stores, what it
    leaves alone, and the invariants every operation keeps. */
module CatalogFacts {
  import opened Common
  import opened Text
  import Storage
  import BaseModel
  import UserModel
  import AmenityModel
  import PlaceModel
  import ReviewModel
  import opened Catalog

  // ----- Users -----

  /** What `create_user` answers: a missing required key first, then a
      registered address, then the constructor on the payload. */
  lemma NewUserDecides(w: World, data: seq<UserModel.UserEntry>, passwordHash: string)
    requires Storage.Wf(w.users)
    ensures var r := NewUser(w, data, passwordHash);
            var email := UserModel.SuppliedEmail(data);
            (MissingField(data).Some? ==> r == Err(Required(MissingField(data).value)))
            && (MissingField(data).None? ==>
                  email.Some?
                  && ((exists id :: id in w.users.entries && w.users.entries[id].email == email.value)
                      ==> r == Err(DuplicateEmail(email.value)))
                  && ((forall id :: id in w.users.entries ==> w.users.entries[id].email != email.value)
                      ==> r == UserModel.Created(w.nextId, data, passwordHash)))
  {
  }

  /** What `create_user` stores: nothing after a refusal; otherwise the new
      user under its id, and nothing else; the world stays sound. */
  lemma CreateUserStores(w: World, data: seq<UserModel.UserEntry>, passwordHash: string)
    requires Sound(w) && UserModel.KeepsId(data)
    ensures var (w', r) := CreateUser(w, data, passwordHash);
            (r.Err? ==> w' == w)
            && (r.Ok? ==> r.value == UserModel.AssignedAll(UserModel.Unset(w.nextId, passwordHash), data, true).value
                          && r.value.id == w.nextId && r.value.passwordHash == passwordHash
                          && r.value.email == UserModel.SuppliedEmail(data).value
                          && (forall id :: id in w.users.entries ==> w.users.entries[id].email != r.value.email)
                          && w.nextId !in w.users.entries
                          && GetUser(w', w.nextId) == Some(r.value)
                          && (forall id :: id != w.nextId ==> GetUser(w', id) == GetUser(w, id))
                          && w'.amenities == w.amenities && w'.places == w.places && w'.reviews == w.reviews)
            && Sound(w')
            && (UniqueEmails(w) ==> UniqueEmails(w'))
  {
    var (w', r) := CreateUser(w, data, passwordHash);
    if r.Ok? {
      UserModel.CreatedOutcome(w.nextId, data, passwordHash);
      Storage.AddSpec(w.users, w.nextId, r.value);
    }
  }

  /** `create_user` (as intended): a missing required key is refused
      first, then a registered address, then the constructor's first
      rejected key in payload order. A refusal changes nothing. A new user
      is stored under the fresh id and nothing else changes; it has the
      hash and the payload's address. Soundness and unique addresses are
      kept. */
  lemma CreateUserOutcome(w: World, data: seq<UserModel.UserEntry>, passwordHash: string)
    requires Sound(w) && UserModel.KeepsId(data)
    ensures var (w', r) := CreateUser(w, data, passwordHash);
            var email := UserModel.SuppliedEmail(data);
            (MissingField(data).Some? ==> r == Err(Required(MissingField(data).value)))
            && (MissingField(data).None? ==>
                  email.Some?
                  && ((exists id :: id in w.users.entries && w.users.entries[id].email == email.value)
                      ==> r == Err(DuplicateEmail(email.value)))
                  && ((forall id :: id in w.users.entries ==> w.users.entries[id].email != email.value)
                      ==> r == UserModel.Created(w.nextId, data, passwordHash)))
            && (r.Err? ==> w' == w)
            && (r.Ok? ==> r.value == UserModel.AssignedAll(UserModel.Unset(w.nextId, passwordHash), data, true).value
                          && r.value.id == w.nextId && r.value.passwordHash == passwordHash
                          && r.value.email == email.value
                          && w.nextId !in w.users.entries
                          && GetUser(w', w.nextId) == Some(r.value)
                          && (forall id :: id != w.nextId ==> GetUser(w', id) == GetUser(w, id))
                          && w'.amenities == w.amenities && w'.places == w.places && w'.reviews == w.reviews)
            && Sound(w')
            && (UniqueEmails(w) ==> UniqueEmails(w'))
  {
    NewUserDecides(w, data, passwordHash);
    CreateUserStores(w, data, passwordHash);
  }

  /** The code as written refuses every payload, and one that the schema
      accepts and that passes every check gets the TypeError for its
      `password` key. */
  lemma CreateUserAsWrittenNeverStores(w: World, payload: seq<UserModel.UserEntry>)
    requires Storage.Wf(w.users)
    ensures CreateUserAsWritten(w, payload).0 == w
    ensures CreateUserAsWritten(w, payload).1.Err?
  {
  }

  /** A valid registration shows the difference: as written the
      constructor raises on `password`; with the password taken out and
      hashed, the user is stored. */
  lemma CreateUserCounterexample(w: World)
    requires Storage.Wf(w.users) && forall id :: id in w.users.entries ==> w.users.entries[id].email != "a@b.c"
    ensures CreateUserAsWritten(w, [UserModel.SetFirstName("A"), UserModel.SetLastName("B"),
                                    UserModel.SetEmail("a@b.c"), UserModel.Unknown("password")]).1
            == Err(UnexpectedKeyword("password"))
    ensures CreateUser(w, [UserModel.SetFirstName("A"), UserModel.SetLastName("B"), UserModel.SetEmail("a@b.c")], "h").1.Ok?
  {
    var base := [UserModel.SetFirstName("A"), UserModel.SetLastName("B"), UserModel.SetEmail("a@b.c")];
    var payload := base + [UserModel.Unknown("password")];
    assert payload == [UserModel.SetFirstName("A"), UserModel.SetLastName("B"),
                       UserModel.SetEmail("a@b.c"), UserModel.Unknown("password")];
    UserModel.RegistrationExample(w.nextId, "h");
    UserModel.RegistrationExample(w.nextId, "");
    assert UserModel.Key(base[0]) == "first_name" && UserModel.Key(base[1]) == "last_name";
    assert UserModel.Key(payload[0]) == "first_name" && UserModel.Key(payload[1]) == "last_name";
    assert Supplies(base, "first_name") && Supplies(base, "last_name");
    assert Supplies(payload, "first_name") && Supplies(payload, "last_name");
    assert GetUserByEmail(w, "a@b.c").None?;
    assert NewUser(w, base, "h") == UserModel.Created(w.nextId, base, "h");
    assert NewUser(w, payload, "") == UserModel.Created(w.nextId, payload, "");
  }

  /** The email a loop of assignments leaves is the old one or one that
      the data supplies. */
  lemma {:induction false} AssignedEmailIsSupplied(u: UserModel.UserRec, data: seq<UserModel.UserEntry>)
    ensures var e := UserModel.AssignedAll(u, data, false).value.email;
            e == u.email || exists i :: 0 <= i < |data| && data[i] == UserModel.SetEmail(e)
    decreases |data|
  {
    if data != [] {
      var q := UserModel.Assigned(u, data[0], false);
      if q.failure.None? {
        AssignedEmailIsSupplied(q.value, data[1..]);
        var e := UserModel.AssignedAll(u, data, false).value.email;
        if e != q.value.email {
          var i :| 0 <= i < |data[1..]| && data[1..][i] == UserModel.SetEmail(e);
          assert data[i + 1] == UserModel.SetEmail(e);
        }
      }
    }
  }

  /** When no address in the data is taken, no other user has any of them. */
  lemma {:induction false} NoTakenEmail(w: World, user: Id, data: seq<UserModel.UserEntry>)
    requires Sound(w) && UniqueEmails(w) && TakenEmail(w, user, data).None?
    ensures forall i, id :: 0 <= i < |data| && data[i].SetEmail? && id in w.users.entries && id != user
                            ==> w.users.entries[id].email != data[i].email
    decreases |data|
  {
    if data != [] {
      NoTakenEmail(w, user, data[1..]);
      forall i, id | 0 <= i < |data| && data[i].SetEmail? && id in w.users.entries && id != user
        ensures w.users.entries[id].email != data[i].email
      {
        if i > 0 {
          assert data[1..][i - 1] == data[i];
        }
      }
    }
  }

  /** `update_user`: an unknown user gives None and changes nothing; a
      taken address changes nothing; otherwise the stored user becomes the
      result of the assignment loop on it, whether or not the loop raised,
      the call succeeds exactly when every value is accepted, and no other
      user changes. Soundness is kept. */
  lemma UpdateUserOutcome(w: World, user: Id, data: seq<UserModel.UserEntry>, newHash: Option<string>)
    requires Sound(w) && UserModel.KeepsId(data)
    ensures var (w', r) := UpdateUser(w, user, data, newHash);
            (user !in w.users.entries ==> w' == w && r == Ok(None))
            && (TakenEmail(w, user, data).Some? ==> w' == w)
            && (user in w.users.entries ==>
                  (r.Ok? <==> TakenEmail(w, user, data).None?
                              && forall i :: 0 <= i < |data| ==> UserModel.Acceptable(data[i], false)))
            && (user in w.users.entries && TakenEmail(w, user, data).None? ==>
                  GetUser(w', user) == Some(UserModel.AssignedAll(Rehashed(w.users.entries[user], newHash), data, false).value))
            && (r.Ok? && r.value.Some? ==> GetUser(w', user) == r.value
                                            && r.value.value.passwordHash
                                               == (if newHash.Some? then newHash.value else w.users.entries[user].passwordHash))
            && (forall id :: id != user ==> GetUser(w', id) == GetUser(w, id))
            && w'.amenities == w.amenities && w'.places == w.places && w'.reviews == w.reviews
            && Sound(w')
  {
    if user in w.users.entries && TakenEmail(w, user, data).None? {
      var hashed := Rehashed(w.users.entries[user], newHash);
      UserModel.AssignedAllOutcome(hashed, data, false);
      var a := UserModel.AssignedAll(hashed, data, false);
      Storage.UpdateSpec(w.users, user, a.value);
      var inPlace := Storage.Update(w.users, user, a.value);
      Storage.UpdateSpec(inPlace, user, a.value);
      assert inPlace.entries == w.users.entries[user := a.value];
    }
  }

  /** The values `update_user` stores: after a complete loop each key
      holds its last value; after a rejected value the keys before it hold
      theirs and the error is that value's. */
  lemma UpdateUserStoresSupplied(w: World, user: Id, data: seq<UserModel.UserEntry>, newHash: Option<string>, i: nat)
    requires Sound(w) && UserModel.KeepsId(data) && user in w.users.entries && TakenEmail(w, user, data).None?
    requires i < |data| && forall j :: i < j < |data| ==> UserModel.Key(data[j]) != UserModel.Key(data[i])
    ensures var (w', r) := UpdateUser(w, user, data, newHash);
            var k := UserModel.FirstRejected(data, false);
            var s := GetUser(w', user).value;
            (r.Err? ==> k < |data| && r.error == UserModel.Fault(data[k], false)
                        && s == UserModel.AssignedAll(Rehashed(w.users.entries[user], newHash), data[..k], false).value)
            && (r.Ok? ==> (data[i].SetFirstName? ==> s.firstName == data[i].firstName)
                          && (data[i].SetLastName? ==> s.lastName == data[i].lastName)
                          && (data[i].SetEmail? ==> s.email == data[i].email)
                          && (data[i].SetIsAdmin? ==> s.isAdmin == data[i].isAdmin))
  {
    var hashed := Rehashed(w.users.entries[user], newHash);
    UpdateUserOutcome(w, user, data, newHash);
    UserModel.AssignedAllStopsAtFirstRejected(hashed, data, false);
    if UserModel.AssignedAll(hashed, data, false).failure.None? {
      UserModel.AssignedAllStoresLast(hashed, data, false, i);
    }
  }

  /** An `id` key moves the user onto another user's key: the other user
      is overwritten, and the one object is now stored under both ids. */
  lemma UpdateUserIdOverwritesAnother(w: World, user: Id, other: Id)
    requires Sound(w) && user in w.users.entries && other in w.users.entries && user != other
    ensures var (w', r) := UpdateUser(w, user, [UserModel.SetId(other)], None);
            r == Ok(Some(w.users.entries[user].(id := other)))
            && GetUser(w', user) == r.value && GetUser(w', other) == r.value
  {
    var data := [UserModel.SetId(other)];
    assert TakenEmail(w, user, data[1..]) == None;
    var a := w.users.entries[user].(id := other);
    assert UserModel.AssignedAll(w.users.entries[user], data, false) == Patched(a, None) by {
      assert data[1..] == [];
    }
    Storage.UpdateSpec(w.users, user, a);
    Storage.UpdateSpec(Storage.Update(w.users, user, a), other, a);
  }

  /** `update_user` refuses an address another user holds, so no two
      users end up sharing one. */
  lemma UpdateUserKeepsEmailsUnique(w: World, user: Id, data: seq<UserModel.UserEntry>, newHash: Option<string>)
    requires Sound(w) && UniqueEmails(w) && UserModel.KeepsId(data)
    ensures UniqueEmails(UpdateUser(w, user, data, newHash).0)
  {
    if user in w.users.entries && TakenEmail(w, user, data).None? {
      var hashed := Rehashed(w.users.entries[user], newHash);
      var a := UserModel.AssignedAll(hashed, data, false).value;
      UpdateUserOutcome(w, user, data, newHash);
      var w' := UpdateUser(w, user, data, newHash).0;
      forall id | id in w'.users.entries && id != user
        ensures w'.users.entries[id] == w.users.entries[id]
      {
        assert GetUser(w', id) == GetUser(w, id);
      }
      AssignedEmailIsSupplied(hashed, data);
      NoTakenEmail(w, user, data);
    }
  }

  /** `delete_user`: False and no change for an unknown user; otherwise the
      user, every place the user owns and every review the user wrote are
      gone, everything else stays, and the answer is True. */
  lemma DeleteUserOutcome(w: World, user: Id)
    requires Sound(w)
    ensures var (w', ok) := DeleteUser(w, user);
            (ok <==> user in w.users.entries)
            && (!ok ==> w' == w)
            && (ok ==> GetUser(w', user).None?
                       && (forall id :: id != user ==> GetUser(w', id) == GetUser(w, id))
                       && (forall id :: GetPlace(w', id) ==
                             if GetPlace(w, id).Some? && GetPlace(w, id).value.ownerId == user then None
                             else GetPlace(w, id))
                       && (forall id :: GetReview(w', id) ==
                             if GetReview(w, id).Some? && GetReview(w, id).value.userId == user then None
                             else GetReview(w, id))
                       && w'.amenities == w.amenities)
            && Sound(w')
  {
    if user in w.users.entries {
      var owned, authored := OwnedPlaces(w, user), AuthoredReviews(w, user);
      Storage.DeleteAllSpec(w.places, owned);
      Storage.DeleteAllSpec(w.reviews, authored);
      Storage.DeleteSpec(w.users, user);
    }
  }

  /** The cascade removes the user's own reviews only: a review another
      user wrote about a place of the deleted user stays, and now names a
      place that no longer exists. */
  lemma DeleteUserLeavesOrphanReviews(w: World, user: Id, review: Id)
    requires Sound(w) && user in w.users.entries && review in w.reviews.entries
    requires w.reviews.entries[review].userId != user
    requires w.reviews.entries[review].placeId in w.places.entries
    requires w.places.entries[w.reviews.entries[review].placeId].ownerId == user
    ensures var w' := DeleteUser(w, user).0;
            GetReview(w', review) == GetReview(w, review)
            && GetPlace(w', w.reviews.entries[review].placeId).None?
  {
    DeleteUserOutcome(w, user);
  }

  /** `delete_user` as written deletes the owned places and then fails on
      `user.reviews`, leaving the user and every review in place. */
  lemma DeleteUserAsWrittenStopsAfterPlaces(w: World, user: Id)
    requires Sound(w)
    ensures var (w', r) := DeleteUserAsWritten(w, user);
            (user !in w.users.entries ==> w' == w && r == Ok(false))
            && (user in w.users.entries ==>
                  r == Err(MissingAttribute("reviews"))
                  && w'.users == w.users && w'.reviews == w.reviews && w'.amenities == w.amenities
                  && (forall id :: GetPlace(w', id) ==
                        if GetPlace(w, id).Some? && GetPlace(w, id).value.ownerId == user then None
                        else GetPlace(w, id)))
  {
    if user in w.users.entries {
      Storage.DeleteAllSpec(w.places, OwnedPlaces(w, user));
    }
  }

  /** A user who wrote a review shows the difference: as written the user
      and the review survive the call, as intended both are gone. */
  lemma DeleteUserCounterexample(w: World, user: Id, review: Id)
    requires Sound(w) && user in w.users.entries && review in w.reviews.entries
    requires w.reviews.entries[review].userId == user
    ensures var w' := DeleteUserAsWritten(w, user).0;
            GetUser(w', user).Some? && GetReview(w', review).Some?
    ensures var w' := DeleteUser(w, user).0;
            GetUser(w', user).None? && GetReview(w', review).None?
  {
    DeleteUserAsWrittenStopsAfterPlaces(w, user);
    DeleteUserOutcome(w, user);
  }

  /** `_user_to_dict` exposes exactly five keys, none of them the password,
      and does not depend on the stored hash. */
  lemma UserToDictHidesPassword(u: UserModel.UserRec, otherHash: string)
    ensures UserToDict(None).None?
    ensures KeysOf(UserToDict(Some(u)).value) == ["id", "first_name", "last_name", "email", "is_admin"]
    ensures "password" !in KeysOf(UserToDict(Some(u)).value)
    ensures UserToDict(Some(u)) == UserToDict(Some(u.(passwordHash := otherHash)))
  {
    assert KeysOf(UserToDict(Some(u)).value) == ["id", "first_name", "last_name", "email", "is_admin"];
  }

  /** `get_all_users` projects every stored user, in repository order. */
  lemma AllUserDictsSpec(w: World)
    requires Storage.Wf(w.users)
    ensures |AllUserDicts(w)| == |w.users.entries|
    ensures forall i :: 0 <= i < |AllUserDicts(w)| ==>
              Some(AllUserDicts(w)[i]) == UserToDict(GetUser(w, w.users.order[i]))
  {
    Storage.ValuesSpec(w.users);
  }

  // ----- Amenities -----

  /** `create_amenity` (as intended): the facade refuses an empty or
      over-long name, the constructor a blank one; an accepted name is
      stored as given, under the fresh id, with no places and stamped with
      the new clock. A refusal changes nothing. */
  lemma CreateAmenityOutcome(w: World, name: string)
    requires Sound(w)
    ensures var (w', r) := CreateAmenity(w, name);
            (r.Ok? <==> !Blank(name) && |name| <= AmenityModel.NameMax)
            && (AmenityNameRefused(name) ==> r == Err(InvalidAmenityName))
            && (!AmenityNameRefused(name) && Blank(name) ==> r == Err(Required(Name)))
            && (r.Err? ==> w' == w)
            && (r.Ok? ==> r.value.name == name && r.value.places == [] && r.value.meta.id == w.nextId
                          && w.nextId !in w.amenities.entries
                          && r.value.meta.createdAt == w'.clock && w'.clock == w.clock + 1
                          && GetAmenity(w', w.nextId) == Some(r.value)
                          && (forall id :: id != w.nextId ==> GetAmenity(w', id) == GetAmenity(w, id))
                          && w'.users == w.users && w'.places == w.places && w'.reviews == w.reviews)
            && Sound(w')
  {
    var (w', r) := CreateAmenity(w, name);
    if r.Ok? {
      Storage.AddSpec(w.amenities, w.nextId, r.value);
    }
  }

  /** `create_amenity` as written never stores anything: a name the facade
      accepts makes the constructor raise on the `owner_id` keyword. */
  lemma CreateAmenityAsWrittenNeverStores(w: World, name: string)
    ensures CreateAmenityAsWritten(w, name).0 == w
    ensures CreateAmenityAsWritten(w, name).1.Err?
    ensures !AmenityNameRefused(name) ==> CreateAmenityAsWritten(w, name).1 == Err(UnexpectedKeyword("owner_id"))
  {
  }

  /** The name "Wifi" shows the difference: refused as written, stored as
      intended. */
  lemma CreateAmenityCounterexample(w: World)
    requires Sound(w)
    ensures CreateAmenityAsWritten(w, "Wifi").1 == Err(UnexpectedKeyword("owner_id"))
    ensures CreateAmenity(w, "Wifi").1.Ok?
  {
    assert !IsSpace("Wifi"[0]);
    CreateAmenityOutcome(w, "Wifi");
  }

  /** `update_amenity`: None and no change for an unknown amenity; a
      rejected name changes nothing; otherwise that amenity alone is
      replaced by its updated value, stamped with the new clock. */
  lemma UpdateAmenityOutcome(w: World, amenity: Id, patch: AmenityModel.AmenityPatch)
    requires Sound(w) && AmenityModel.KeepsId(patch)
    ensures var (w', r) := UpdateAmenity(w, amenity, patch);
            (amenity !in w.amenities.entries ==> w' == w && r == Ok(None))
            && (r.Err? ==> w' == w)
            && (amenity in w.amenities.entries ==>
                  (r.Ok? <==> patch.name.None? || AmenityModel.ValidateName(patch.name.value).Ok?))
            && (amenity in w.amenities.entries && r.Ok? ==>
                  GetAmenity(w', amenity) == Some(AmenityModel.Updated(w.amenities.entries[amenity], patch, w.clock + 1).value))
            && (r.Ok? && r.value.Some? ==>
                  var before := w.amenities.entries[amenity];
                  GetAmenity(w', amenity) == r.value
                  && r.value.value.name == (if patch.name.Some? then patch.name.value else before.name)
                  && r.value.value.places == (if patch.places.Some? then patch.places.value else before.places)
                  && r.value.value.meta.updatedAt == w'.clock)
            && (forall id :: id != amenity ==> GetAmenity(w', id) == GetAmenity(w, id))
            && w'.users == w.users && w'.places == w.places && w'.reviews == w.reviews
            && Sound(w')
  {
    if amenity in w.amenities.entries {
      var a := w.amenities.entries[amenity];
      var u := AmenityModel.Updated(a, patch, w.clock + 1);
      AmenityModel.UpdatedKeepsId(a, patch, w.clock + 1);
      AmenityModel.UpdatedOutcome(a, patch, w.clock + 1);
      if u.failure.None? {
        Storage.UpdateSpec(w.amenities, amenity, u.value);
        var s := Storage.Update(w.amenities, amenity, u.value);
        Storage.AddSpec(s, amenity, u.value);
      }
    }
  }

  /** `delete_amenity`: False and no change for an unknown amenity;
      otherwise True, that amenity alone is gone, and deleting it again
      answers False. */
  lemma DeleteAmenityOutcome(w: World, amenity: Id)
    requires Sound(w)
    ensures var (w', ok) := DeleteAmenity(w, amenity);
            (ok <==> amenity in w.amenities.entries)
            && (!ok ==> w' == w)
            && GetAmenity(w', amenity).None?
            && (forall id :: id != amenity ==> GetAmenity(w', id) == GetAmenity(w, id))
            && w'.users == w.users && w'.places == w.places && w'.reviews == w.reviews
            && DeleteAmenity(w', amenity) == (w', false)
            && Sound(w')
  {
    Storage.DeleteSpec(w.amenities, amenity);
  }

  /** Places keep listing a deleted amenity's id. */
  lemma DeleteAmenityLeavesPlaceLinks(w: World, amenity: Id, place: Id)
    requires place in w.places.entries && amenity in w.places.entries[place].amenities
    ensures var w' := DeleteAmenity(w, amenity).0;
            amenity !in w'.amenities.entries && amenity in w'.places.entries[place].amenities
  {
    if amenity in w.amenities.entries {
      assert DeleteAmenity(w, amenity).0.amenities.entries == w.amenities.entries - {amenity};
    }
  }

  // ----- Places -----

  /** Every listed amenity id names a stored amenity. */
  ghost predicate AmenitiesExist(w: World, ids: seq<Id>) {
    forall i :: 0 <= i < |ids| ==> ids[i] in w.amenities.entries
  }

  /** The checks `create_place` makes itself pass exactly when the owner
      and every listed amenity exist and the three numbers are in range;
      they run owner, then each amenity in list order, then price,
      latitude, longitude. */
  lemma PlaceFaultSpec(w: World, owner: Id, amenities: Option<seq<Id>>, price: real,
                       latitude: real, longitude: real)
    ensures var f := PlaceFault(w, owner, amenities, price, latitude, longitude);
            (f.None? <==> owner in w.users.entries && (amenities.Some? ==> AmenitiesExist(w, amenities.value))
                          && PlaceModel.ValidPrice(price) && PlaceModel.ValidLatitude(latitude)
                          && PlaceModel.ValidLongitude(longitude))
            && (owner !in w.users.entries ==> f == Some(MissingOwner(owner)))
            && (owner in w.users.entries && amenities.Some? && !AmenitiesExist(w, amenities.value) ==>
                  exists k :: 0 <= k < |amenities.value| && f == Some(MissingAmenity(amenities.value[k]))
                              && amenities.value[k] !in w.amenities.entries
                              && AmenitiesExist(w, amenities.value[..k]))
            && (owner in w.users.entries && (amenities.Some? ==> AmenitiesExist(w, amenities.value)) ==>
                  (!PlaceModel.ValidPrice(price) ==> f == Some(OutOfRange(Price)))
                  && (PlaceModel.ValidPrice(price) && !PlaceModel.ValidLatitude(latitude)
                      ==> f == Some(OutOfRange(Latitude)))
                  && ((PlaceModel.ValidPrice(price) && PlaceModel.ValidLatitude(latitude)
                       && !PlaceModel.ValidLongitude(longitude)) ==> f == Some(OutOfRange(Longitude))))
  {
    if amenities.Some? && !AmenitiesExist(w, amenities.value) && owner in w.users.entries {
      var ids := amenities.value;
      var m := FirstMissing(w, ids);
      var k :| 0 <= k < |ids| && ids[k] == m.value && m.value !in w.amenities.entries
               && forall j :: 0 <= j < k ==> ids[j] in w.amenities.entries;
      assert AmenitiesExist(w, ids[..k]);
    }
  }

  /** `create_place` (as intended): it succeeds exactly when its own checks
      pass and the constructor accepts title and description; a failed
      check is the answer; a failure stores nothing; a success stores the
      new place alone under the fresh id, with the given owner and
      amenities. */
  lemma CreatePlaceOutcome(w: World, title: string, description: string, price: real,
                           latitude: real, longitude: real, owner: Id, amenities: Option<seq<Id>>)
    requires Sound(w)
    ensures var (w', r) := CreatePlace(w, title, description, price, latitude, longitude, owner, amenities);
            var f := PlaceFault(w, owner, amenities, price, latitude, longitude);
            (r.Ok? <==> f.None? && PlaceModel.TextOk(title, PlaceModel.TitleMax)
                        && PlaceModel.TextOk(description, PlaceModel.DescriptionMax))
            && (f.Some? ==> r == Err(f.value))
            && (r.Err? ==> w' == w)
            && (r.Ok? ==> r.value.meta.id == w.nextId && w.nextId !in w.places.entries
                          && r.value.title == Strip(title) && r.value.description == Strip(description)
                          && r.value.price == price && r.value.latitude == latitude && r.value.longitude == longitude
                          && r.value.ownerId == owner
                          && r.value.amenities == (if amenities.Some? then amenities.value else [])
                          && GetPlace(w', w.nextId) == Some(r.value)
                          && (forall id :: id != w.nextId ==> GetPlace(w', id) == GetPlace(w, id))
                          && w'.users == w.users && w'.amenities == w.amenities && w'.reviews == w.reviews)
            && Sound(w')
  {
    var (w', r) := CreatePlace(w, title, description, price, latitude, longitude, owner, amenities);
    PlaceFaultSpec(w, owner, amenities, price, latitude, longitude);
    if r.Ok? {
      Storage.AddSpec(w.places, w.nextId, r.value);
    }
  }

  /** Both ends of each range are accepted, and values just outside are not. */
  lemma PlaceBoundsInclusive(w: World, owner: Id)
    requires owner in w.users.entries
    ensures PlaceFault(w, owner, None, 0.0, -90.0, -180.0).None?
    ensures PlaceFault(w, owner, None, 0.0, 90.0, 180.0).None?
    ensures PlaceFault(w, owner, None, -0.5, 0.0, 0.0) == Some(OutOfRange(Price))
    ensures PlaceFault(w, owner, None, 0.0, 90.5, 0.0) == Some(OutOfRange(Latitude))
    ensures PlaceFault(w, owner, None, 0.0, -90.5, 0.0) == Some(OutOfRange(Latitude))
    ensures PlaceFault(w, owner, None, 0.0, 0.0, 180.5) == Some(OutOfRange(Longitude))
    ensures PlaceFault(w, owner, None, 0.0, 0.0, -180.5) == Some(OutOfRange(Longitude))
  {
  }

  /** `create_place` as written never stores anything. */
  lemma CreatePlaceAsWrittenNeverStores(w: World, title: string, description: string, price: real,
                                        latitude: real, longitude: real, owner: Id, amenities: Option<seq<Id>>)
    ensures var (w', r) := CreatePlaceAsWritten(w, title, description, price, latitude, longitude, owner, amenities);
            w' == w && r.Err?
            && (PlaceFault(w, owner, amenities, price, latitude, longitude).None? ==> r == Err(MissingArgument("owner")))
  {
  }

  /** A request every check accepts: refused as written, stored as intended. */
  lemma CreatePlaceCounterexample(w: World, owner: Id)
    requires Sound(w) && owner in w.users.entries
    ensures CreatePlaceAsWritten(w, "T", "D", 0.0, 0.0, 0.0, owner, None).1 == Err(MissingArgument("owner"))
    ensures CreatePlace(w, "T", "D", 0.0, 0.0, 0.0, owner, None).1.Ok?
  {
    assert !IsSpace("T"[0]) && !IsSpace("D"[0]);
    CreatePlaceOutcome(w, "T", "D", 0.0, 0.0, 0.0, owner, None);
  }

  /** What the facade itself checks for one entry of an `update_place`
      dictionary. */
  ghost predicate FacadeAccepts(w: World, e: PlaceModel.PlaceEntry) {
    match e
    case SetOwner(o) => o in w.users.entries
    case SetAmenities(a) => AmenitiesExist(w, a)
    case SetPrice(_) => PlaceModel.Acceptable(e)
    case SetLatitude(_) => PlaceModel.Acceptable(e)
    case SetLongitude(_) => PlaceModel.Acceptable(e)
    case _ => true
  }

  lemma LookupAccepted(w: World, data: seq<PlaceModel.PlaceEntry>, key: string)
    requires forall i :: 0 <= i < |data| ==> FacadeAccepts(w, data[i])
    ensures PlaceModel.Lookup(data, key).Some? ==> FacadeAccepts(w, PlaceModel.Lookup(data, key).value)
  {
  }

  lemma PlacePatchAccepted(w: World, data: seq<PlaceModel.PlaceEntry>)
    requires forall i :: 0 <= i < |data| ==> FacadeAccepts(w, data[i])
    ensures PlacePatchFault(w, data).None?
  {
    LookupAccepted(w, data, "owner_id");
    LookupAccepted(w, data, "amenities");
    LookupAccepted(w, data, "price");
    LookupAccepted(w, data, "latitude");
    LookupAccepted(w, data, "longitude");
    var a := PlaceModel.Lookup(data, "amenities");
    if a.Some? && a.value.SetAmenities? {
      assert FirstMissing(w, a.value.amenities).None?;
    }
  }

  lemma PlacePatchRejected(w: World, data: seq<PlaceModel.PlaceEntry>, i: nat)
    requires PlaceModel.DistinctKeys(data) && i < |data| && !FacadeAccepts(w, data[i])
    ensures PlacePatchFault(w, data).Some?
  {
    var e := data[i];
    assert PlaceModel.Key(e) != "" by {
      assert e.SetOwner? || e.SetAmenities? || e.SetPrice? || e.SetLatitude? || e.SetLongitude?;
    }
    PlaceModel.LookupFindsTheEntry(data, i);
  }

  /** The facade's own checks in `update_place` pass exactly when every
      owner, amenity list, price, latitude and longitude the dictionary
      supplies is acceptable: a key that is absent is not checked. */
  lemma PlacePatchFaultIff(w: World, data: seq<PlaceModel.PlaceEntry>)
    requires PlaceModel.DistinctKeys(data)
    ensures PlacePatchFault(w, data).None? <==> forall i :: 0 <= i < |data| ==> FacadeAccepts(w, data[i])
  {
    if forall i :: 0 <= i < |data| ==> FacadeAccepts(w, data[i]) {
      PlacePatchAccepted(w, data);
    } else {
      var i :| 0 <= i < |data| && !FacadeAccepts(w, data[i]);
      PlacePatchRejected(w, data, i);
    }
  }

  /** `update_place`: None and no change for an unknown place; a failed
      facade check changes nothing; otherwise the place's own update runs
      on the stored place, whose result (partial when it raises) replaces
      that place alone. A successful update is stamped with the new clock. */
  lemma UpdatePlaceOutcome(w: World, place: Id, data: seq<PlaceModel.PlaceEntry>)
    requires Sound(w) && PlaceModel.KeepsId(data)
    ensures var (w', r) := UpdatePlace(w, place, data);
            (place !in w.places.entries ==> w' == w && r == Ok(None))
            && (PlacePatchFault(w, data).Some? ==> w' == w)
            && (place in w.places.entries && PlacePatchFault(w, data).None? ==>
                  GetPlace(w', place) == Some(PlaceModel.Updated(w.places.entries[place], data, w.clock + 1).value))
            && (r.Ok? && r.value.Some? ==> GetPlace(w', place) == r.value
                                           && r.value.value.meta.updatedAt == w'.clock)
            && (forall id :: id != place ==> GetPlace(w', id) == GetPlace(w, id))
            && w'.users == w.users && w'.amenities == w.amenities && w'.reviews == w.reviews
            && Sound(w')
  {
    if place in w.places.entries && PlacePatchFault(w, data).None? {
      var p := w.places.entries[place];
      var u := PlaceModel.Updated(p, data, w.clock + 1);
      PlaceModel.UpdatedKeepsId(p, data, w.clock + 1);
      Storage.UpdateSpec(w.places, place, u.value);
      if u.failure.None? {
        assert u.value.meta == BaseModel.Updated(PlaceModel.ReassignedAll(PlaceModel.Validated(p, data).value, data).meta,
                                                 PlaceModel.BaseEntries(data), w.clock + 1);
      }
    }
  }

  // ----- Reviews -----

  /** `create_review`: it succeeds exactly when the author and the place
      exist, the rating is in 1..5 and the text is acceptable; the author
      is checked first, then the place, then the rating, then the text; a
      failure stores nothing; a success stores the new review alone under
      the fresh id. */
  lemma CreateReviewOutcome(w: World, text: string, rating: int, user: Id, place: Id)
    requires Sound(w)
    ensures var (w', r) := CreateReview(w, text, rating, user, place);
            (r.Ok? <==> user in w.users.entries && place in w.places.entries && ReviewModel.ValidRating(rating)
                        && !Blank(text) && |text| <= ReviewModel.TextMax)
            && (r.Err? ==> w' == w)
            && (user !in w.users.entries ==> r == Err(MissingUser(user)))
            && (user in w.users.entries && place !in w.places.entries ==> r == Err(MissingPlace(place)))
            && (user in w.users.entries && place in w.places.entries && !ReviewModel.ValidRating(rating)
                ==> r == Err(OutOfRange(Rating)))
            && (r.Ok? ==> r.value.meta.id == w.nextId && w.nextId !in w.reviews.entries
                          && r.value.userId == user && r.value.placeId == place && r.value.rating == rating
                          && r.value.text == Strip(text)
                          && GetReview(w', w.nextId) == Some(r.value)
                          && (forall id :: id != w.nextId ==> GetReview(w', id) == GetReview(w, id))
                          && w'.users == w.users && w'.amenities == w.amenities && w'.places == w.places)
            && Sound(w')
  {
    var (w', r) := CreateReview(w, text, rating, user, place);
    if r.Ok? {
      Storage.AddSpec(w.reviews, w.nextId, r.value);
    }
  }

  /** `update_review`: None and no change for an unknown review; the facade
      checks only the author, place and rating the patch supplies, and a
      failed check changes nothing; otherwise the review's own update runs
      on the stored review and its result replaces that review alone. */
  lemma UpdateReviewOutcome(w: World, review: Id, patch: ReviewModel.ReviewPatch)
    requires Sound(w) && ReviewModel.KeepsId(patch)
    ensures var (w', r) := UpdateReview(w, review, patch);
            (review !in w.reviews.entries ==> w' == w && r == Ok(None))
            && (ReviewPatchFault(w, patch).Some? ==> w' == w)
            && (ReviewPatchFault(w, patch).None? <==>
                  (patch.userId.Some? ==> patch.userId.value in w.users.entries)
                  && (patch.placeId.Some? ==> patch.placeId.value in w.places.entries)
                  && (patch.rating.Some? ==> ReviewModel.ValidRating(patch.rating.value)))
            && (review in w.reviews.entries && ReviewPatchFault(w, patch).None? ==>
                  (r.Ok? <==> patch.text.None? || (!Blank(patch.text.value) && |patch.text.value| <= ReviewModel.TextMax)))
            && (review in w.reviews.entries && ReviewPatchFault(w, patch).None? ==>
                  GetReview(w', review) == Some(ReviewModel.Updated(w.reviews.entries[review], patch, w.clock + 1).value))
            && ((review in w.reviews.entries && ReviewPatchFault(w, patch).None? && patch.text.Some?
                 && (Blank(patch.text.value) || |patch.text.value| > ReviewModel.TextMax)) ==> w' == w)
            && (r.Ok? && r.value.Some? ==>
                  var before := w.reviews.entries[review];
                  GetReview(w', review) == r.value
                  && r.value.value.text == (if patch.text.Some? then patch.text.value else before.text)
                  && r.value.value.rating == (if patch.rating.Some? then patch.rating.value else before.rating)
                  && r.value.value.userId == (if patch.userId.Some? then patch.userId.value else before.userId)
                  && r.value.value.placeId == (if patch.placeId.Some? then patch.placeId.value else before.placeId)
                  && r.value.value.meta.updatedAt == w'.clock)
            && (forall id :: id != review ==> GetReview(w', id) == GetReview(w, id))
            && w'.users == w.users && w'.amenities == w.amenities && w'.places == w.places
            && Sound(w')
  {
    if review in w.reviews.entries && ReviewPatchFault(w, patch).None? {
      var rv := w.reviews.entries[review];
      var u := ReviewModel.Updated(rv, patch, w.clock + 1);
      ReviewModel.UpdatedKeepsId(rv, patch, w.clock + 1);
      ReviewModel.UpdatedOutcome(rv, patch, w.clock + 1);
      Storage.UpdateSpec(w.reviews, review, u.value);
    }
  }

  /** `delete_review`: False and no change for an unknown review;
      otherwise True, that review alone is gone, and deleting it again
      answers False. */
  lemma DeleteReviewOutcome(w: World, review: Id)
    requires Sound(w)
    ensures var (w', ok) := DeleteReview(w, review);
            (ok <==> review in w.reviews.entries)
            && (!ok ==> w' == w)
            && GetReview(w', review).None?
            && (forall id :: id != review ==> GetReview(w', id) == GetReview(w, id))
            && w'.users == w.users && w'.amenities == w.amenities && w'.places == w.places
            && DeleteReview(w', review) == (w', false)
            && Sound(w')
  {
    Storage.DeleteSpec(w.reviews, review);
  }

  /** `get_reviews_by_place`: None exactly when the place is unknown
      (unlike an empty list, which a known place without reviews gets);
      otherwise exactly the stored reviews of that place, each as often
      as it is stored. */
  lemma ReviewsByPlaceSpec(w: World, place: Id)
    requires Sound(w)
    ensures ReviewsByPlace(w, place).None? <==> place !in w.places.entries
    ensures ReviewsByPlace(w, place).Some? ==>
              var rs := ReviewsByPlace(w, place).value;
              (forall x :: x in rs <==> x.placeId == place && exists id :: id in w.reviews.entries && w.reviews.entries[id] == x)
              && forall x :: multiset(rs)[x] == if x.placeId == place then multiset(Storage.Values(w.reviews))[x] else 0
  {
    if place in w.places.entries {
      var vs := Storage.Values(w.reviews);
      Storage.ValuesSpec(w.reviews);
      var rs := Storage.Filter(vs, ReviewModel.PlaceOf, place);
      forall x: ReviewModel.ReviewRec ensures multiset(rs)[x] == if x.placeId == place then multiset(vs)[x] else 0 {
        Storage.FilterCounts(vs, ReviewModel.PlaceOf, place, x);
      }
    }
  }

  // ----- Projections -----

  /** Two users project to the same dictionary exactly when they differ at
      most in the password hash. */
  lemma UserToDictShowsAllButHash(a: UserModel.UserRec, b: UserModel.UserRec)
    ensures UserToDict(Some(a)) == UserToDict(Some(b)) <==> a.(passwordHash := b.passwordHash) == b
  {
    if UserToDict(Some(a)) == UserToDict(Some(b)) {
      assert UserToDict(Some(a)).value[0] == UserToDict(Some(b)).value[0];
      assert UserToDict(Some(a)).value[1] == UserToDict(Some(b)).value[1];
      assert UserToDict(Some(a)).value[2] == UserToDict(Some(b)).value[2];
      assert UserToDict(Some(a)).value[3] == UserToDict(Some(b)).value[3];
      assert UserToDict(Some(a)).value[4] == UserToDict(Some(b)).value[4];
    }
  }

  /** `_amenity_to_dict` shows the id and the name, and nothing else: two
      amenities agreeing on both project alike whatever their places and
      timestamps. */
  lemma AmenityToDictShowsIdAndName(a: AmenityModel.AmenityRec, b: AmenityModel.AmenityRec)
    ensures AmenityToDict(None).None?
    ensures KeysOf(AmenityToDict(Some(a)).value) == ["id", "name"]
    ensures AmenityToDict(Some(a)) == AmenityToDict(Some(b)) <==> a.meta.id == b.meta.id && a.name == b.name
  {
    assert KeysOf(AmenityToDict(Some(a)).value) == ["id", "name"];
    if AmenityToDict(Some(a)) == AmenityToDict(Some(b)) {
      assert AmenityToDict(Some(a)).value[0] == AmenityToDict(Some(b)).value[0];
      assert AmenityToDict(Some(a)).value[1] == AmenityToDict(Some(b)).value[1];
    }
  }

  /** `_place_to_dict` shows every attribute but the two timestamps, the
      amenities as their ids. */
  lemma PlaceToDictShowsAllButStamps(a: PlaceModel.PlaceRec, b: PlaceModel.PlaceRec)
    ensures PlaceToDict(None).None?
    ensures KeysOf(PlaceToDict(Some(a)).value)
            == ["id", "title", "description", "price", "latitude", "longitude", "owner_id", "amenities"]
    ensures PlaceToDict(Some(a)) == PlaceToDict(Some(b)) <==> a.meta.id == b.meta.id && a.(meta := b.meta) == b
  {
    var da, db := PlaceToDict(Some(a)).value, PlaceToDict(Some(b)).value;
    assert KeysOf(da) == ["id", "title", "description", "price", "latitude", "longitude", "owner_id", "amenities"];
    if da == db {
      assert da[0] == db[0] && da[1] == db[1] && da[2] == db[2] && da[3] == db[3];
      assert da[4] == db[4] && da[5] == db[5] && da[6] == db[6] && da[7] == db[7];
    }
  }

  /** `_review_to_dict` shows every attribute but the two timestamps. */
  lemma ReviewToDictShowsAllButStamps(a: ReviewModel.ReviewRec, b: ReviewModel.ReviewRec)
    ensures ReviewToDict(None).None?
    ensures KeysOf(ReviewToDict(Some(a)).value) == ["id", "text", "rating", "user_id", "place_id"]
    ensures ReviewToDict(Some(a)) == ReviewToDict(Some(b)) <==> a.meta.id == b.meta.id && a.(meta := b.meta) == b
  {
    var da, db := ReviewToDict(Some(a)).value, ReviewToDict(Some(b)).value;
    assert KeysOf(da) == ["id", "text", "rating", "user_id", "place_id"];
    if da == db {
      assert da[0] == db[0] && da[1] == db[1] && da[2] == db[2] && da[3] == db[3] && da[4] == db[4];
    }
  }
}
