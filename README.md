# HBnB domain layer in Dafny

This project models the domain layer of the HBnB rental catalog (its `part3` version):

- the entity classes `Place`, `Review`, `Amenity` and `User` with their field validators;
- the shared `BaseModel`, which supplies the id, the two timestamps, `save` and the generic partial `update`;
- the dictionary-backed `InMemoryRepository`;
- `HBnBFacade`, which owns one repository per entity kind and enforces the cross-entity rules: references must exist, numbers must be in bounds, `get_reviews_by_place` answers None for an unknown place, and `delete_user` cascades.

The modules follow the source files:

| module | file | form |
|---|---|---|
| `Text` | `text.dfy` | `str.strip` and the `_validate_string` check shared by places and reviews |
| `BaseModel` | `base_model.dfy` | the base attributes as a value (`Meta`) and as an object (`class Base`) updated in place |
| `PlaceModel`, `ReviewModel`, `AmenityModel` | `place.dfy`, `review.dfy`, `amenity.dfy` | each entity as a record, the pure function that says what its constructor and `update` do, and a class whose setters and `update` work field by field and are proved to agree with that function |
| `UserModel` | `user.dfy` | the three `@validates` validators, pure, with the email pattern proved equal to a plain description of its shape; the assignment of a user dictionary key by key, as the keyword constructor and the `update_user` loop do it |
| `Storage`, `Repository` | `storage.dfy`, `repository.dfy` | `Storage` states what each repository operation does to a store, which is a key-value map plus insertion order, as a Python dict keeps it; `Repository.InMemoryRepository` is the class whose fields `add`, `update` and `delete` change |
| `Catalog`, `CatalogFacts` | `catalog.dfy`, `catalog_facts.dfy` | every facade operation as a function of the whole state (four stores, a clock, an id supply), and the lemmas that say what each one guarantees |
| `Facade` | `facade.dfy` | `class HBnBFacade`; each method is proved to change its repositories exactly as the matching `Catalog` function says, including the `valid_amenities` loops and the `delete_user` cascade loops |

Each `CatalogFacts` lemma about a create, update or delete also proves that the operation keeps `Catalog.Sound`:

- every store is well formed;
- every object is filed under its own id;
- every id comes from the supply.

Some behaviour of the source is modelled as written, because a caller can observe it:

- **Place and review updates store the raw string.** `Place.update` validates and strips a new title or description. Then `BaseModel.update` assigns the raw value again, because `hasattr` is true for those keys. `Review.update` does the same with `text`. So an update stores the unstripped string, while the constructor stores the stripped one (`PlaceModel.CreatedStripsTitle`, `PlaceModel.UpdatedKeepsTitle`).
- **Partial updates stay.** A rejected value in `Place.update`, `Review.update` or the `update_user` loop raises part way through. The attributes assigned before it stay assigned, and the half-updated object is still the one in the repository (`Common.Patched`, `CatalogFacts.UpdateUserStoresSupplied`).
- **User names are not stripped.** A user name is rejected only when it is empty, so a name made only of spaces is accepted. An amenity name is rejected when it is blank after stripping, but the unstripped name is stored.
- **`delete_user` can leave orphan reviews.** As intended, it removes the user's places and the user's own reviews. Reviews that other users wrote about those places are kept (`CatalogFacts.DeleteUserLeavesOrphanReviews`).

## Model

| member | source | states |
|---|---|---|
| Text.TrimStartSpec | part3/app/models/place.py:54 | the leading half of `strip`: the result is a suffix of the input, everything dropped is whitespace, and the result does not start with whitespace |
| Text.TrimEndSpec | part3/app/models/place.py:54 | the trailing half of `strip`: the result is a prefix of the input, everything dropped is whitespace, and the result does not end with whitespace |
| Text.Strip | part3/app/models/place.py:54 | the stripped string is no longer than the input, is empty exactly when the input is blank, and neither starts nor ends with whitespace |
| Text.StripIdempotent | part3/app/models/place.py:54 | stripping twice gives the same result as stripping once |
| Text.ValidateString | part3/app/models/place.py:49-54 | accepted exactly when the value is non-blank and its raw length is within the limit; the stripped value is returned; blank gives Required, too long gives TooLong with the limit |
| BaseModel.UpdatedIgnoresUnknownKeys | part3/app/models/base_model.py:30-35 | keys that name no attribute have no effect on `update` |
| BaseModel.UpdatedRefreshesStamp | part3/app/models/base_model.py:26-35 | `update` always sets updated_at to the current time, and with empty data it is exactly `save` |
| BaseModel.AssignAllKeepsUnnamed | part3/app/models/base_model.py:32-34 | the setattr loop leaves id and created_at alone unless the data names them |
| BaseModel.UpdatedAssignsNamedKeys | part3/app/models/base_model.py:30-35 | a key named in the data ends up with the value the data gives it; attributes not named keep their values |
| BaseModel.UpdatedKeepsId | part3/app/models/base_model.py:30-35 | data without an `id` key leaves the id unchanged |
| BaseModel.Base.constructor | part3/app/models/base_model.py:18-24 | a supplied id is kept, otherwise the fresh id is drawn; created_at and updated_at are both the current time |
| BaseModel.Base.Save | part3/app/models/base_model.py:26-28 | only updated_at changes, to the current time |
| BaseModel.Base.SetAttribute | part3/app/models/base_model.py:32-34 | one setattr changes exactly the attribute it names |
| BaseModel.Base.Update | part3/app/models/base_model.py:30-35 | the loop assigns the entries in dictionary order, then saves; the object ends as `BaseModel.Updated` of its old state |
| Storage.Empty | part3/app/persistence/repository.py:96-97 | a new repository holds nothing and is well formed |
| Storage.AddSpec | part3/app/persistence/repository.py:99-103 | after add, get on the id returns the object; other ids are unchanged; an existing id keeps its place in the order and is overwritten; a new id goes last |
| Storage.UpdateSpec | part3/app/persistence/repository.py:108-110 | update stores the object only when its id is present; an absent id leaves the store unchanged; other ids and the order are unchanged |
| Storage.DeleteSpec | part3/app/persistence/repository.py:112-116 | delete answers True exactly when the id was present; afterwards the id is absent, every other id is unchanged, and a second delete answers False and changes nothing |
| Storage.DeleteAllSpec | part3/app/services/facade.py:147-150 | deleting a list of ids one by one removes exactly those ids and keeps the store well formed |
| Storage.ValuesSpec | part3/app/persistence/repository.py:105-106 | get_all lists every stored object, one per distinct id |
| Storage.FindFirst | part3/app/persistence/repository.py:118-119 | None exactly when no stored object has the attribute value; otherwise the object at the first matching position in insertion order |
| Storage.Filter | part3/app/services/facade.py:340-342 | the filtered list keeps exactly the elements whose attribute equals the value |
| Storage.FilterCounts | part3/app/services/facade.py:342 | each matching element appears in the filtered list as often as in the input; every other element does not appear |
| Repository.InMemoryRepository.constructor | part3/app/persistence/repository.py:96-97 | an empty `_storage` |
| Repository.InMemoryRepository.Add | part3/app/persistence/repository.py:99-100 | the object is stored under its own id, overwriting any object already there |
| Repository.InMemoryRepository.Get | part3/app/persistence/repository.py:102-103 | the object stored under the id; None exactly when the id is absent, without an error |
| Repository.InMemoryRepository.GetAll | part3/app/persistence/repository.py:105-106 | every stored object exactly once, in insertion order |
| Repository.InMemoryRepository.Update | part3/app/persistence/repository.py:108-110 | the object is stored only when the id is present (`Storage.Update`) |
| Repository.InMemoryRepository.Delete | part3/app/persistence/repository.py:112-116 | a present id is removed and the answer is True; otherwise nothing changes and the answer is False |
| Repository.InMemoryRepository.GetByAttribute | part3/app/persistence/repository.py:118-119 | None exactly when no stored object has the value; otherwise the first such object in insertion order |
| Repository.GetByEmail | part3/app/persistence/repository.py:118-122 | None exactly when no stored user has that email; otherwise the first such user in insertion order |
| UserModel.ValidateName | part3/app/models/user.py:22-35 | accepted exactly when the name is non-empty and at most 50 characters; it is returned unchanged; empty gives Required, too long gives TooLong(50) |
| UserModel.MatchesEmailIff | part3/app/models/user.py:43-44 | the start-anchored pattern matches exactly when the address has a non-empty run without '@', then '@', then a non-empty run without '@', then '.' and then a character other than '@' |
| UserModel.ValidateEmail | part3/app/models/user.py:38-45 | accepted exactly when the address is non-empty, at most 120 characters and of that shape, and returned unchanged; the three ways to fail are checked in that order |
| UserModel.EmailExamples | part3/app/models/user.py:43-44 | "a@b.c" and "a@b.c@@" are accepted, since only the start is anchored; "a@b", "@b.c", "a@.c" and "a@b.@" are rejected |
| UserModel.AssignedAllOutcome | part3/app/services/facade.py:132-133 | the setattr loop fails exactly when some value is rejected by its validator; it never changes the password hash, and changes the id only through an `id` key |
| UserModel.AssignedAllStopsAtFirstRejected | part3/app/services/facade.py:132-133 | the loop assigns every entry before the first rejected one, keeps those assignments, and raises that entry's error |
| UserModel.AssignedAllKeepsUnnamed | part3/app/services/facade.py:132-133 | an attribute that no key names keeps its value, whether or not the loop raised |
| UserModel.AssignedAllStoresLast | part3/app/services/facade.py:132-133 | after a loop that raised nothing, each attribute holds the value of the last key that names it |
| UserModel.AssignedAllStoresSuppliedEmail | part3/app/services/facade.py:132-133 | without an `email` key the address is unchanged; after a complete loop it is the dictionary's `email` value |
| UserModel.CreatedOutcome | part3/app/models/user.py:10-45 | the keyword constructor builds a user exactly when every key is accepted, raising a TypeError for a key that names no column; otherwise it raises the error of the first rejected key in dictionary order; the user has the hash, the id unless an `id` key sets it, and the dictionary's email |
| UserModel.RegistrationExample | part3/app/services/facade.py:91 | first_name "A", last_name "B" and email "a@b.c" are accepted by the constructor; the same payload with its `password` key raises a TypeError on `password` |
| UserModel.CreatedReportsPayloadOrder | part3/app/models/user.py:21-45 | the first bad key in dictionary order is reported: a bad email before an empty first name gives the email error, the reverse order gives the first-name error |
| AmenityModel.ValidateName | part3/app/models/amenity.py:18-32 | accepted exactly when the name is non-blank after stripping and its raw length is at most 50; the unstripped name is returned |
| AmenityModel.Created | part3/app/models/amenity.py:8-16 | an amenity is built exactly when the name is accepted; it has fresh base attributes, the name as given and an empty places list |
| AmenityModel.NameIsNotStripped | part3/app/models/amenity.py:28-32 | " Wifi" is stored with its space, although a place title " Wifi" would be stored as "Wifi" |
| AmenityModel.UpdatedOutcome | part3/app/models/amenity.py:34-42 | update fails exactly when a supplied name is rejected, and then changes nothing; otherwise it sets the supplied name and places and refreshes updated_at |
| AmenityModel.UpdatedKeepsId | part3/app/models/amenity.py:34-42 | an update without an `id` key keeps the id |
| AmenityModel.AddPlaceLinks | part3/app/models/amenity.py:44-52 | after add_place the place is in the amenity's list and the amenity in the place's list, each exactly once if it was new; a second add_place changes nothing |
| AmenityModel.Amenity.Create | part3/app/models/amenity.py:8-16 | the constructor yields an object exactly when `AmenityModel.Created` succeeds, with that state, or raises its error |
| AmenityModel.Amenity.Update | part3/app/models/amenity.py:34-42 | the object ends in the state `AmenityModel.Updated` describes, and reports its error |
| AmenityModel.Amenity.AddPlace | part3/app/models/amenity.py:44-52 | only a place not yet listed is appended, and only then does the place get the amenity |
| PlaceModel.Lookup | part3/app/services/facade.py:263-288 | `key in data`: the entry with that key, and None exactly when there is none |
| PlaceModel.Created | part3/app/models/place.py:32-40 | a place is built exactly when the title and description pass `_validate_string` and the price, latitude and longitude are in range; the first failing check in that order gives the error; the title and description are stripped; a missing amenity list becomes [] |
| PlaceModel.StepAcceptable | part3/app/models/place.py:99-109 | one step of the update loop fails exactly when its value is rejected, and then raises that value's error without changing anything; base attributes are never touched |
| PlaceModel.ValidatedStopsAtFirstRejected | part3/app/models/place.py:98-109 | the loop stops at the first rejected entry, keeping what the entries before it assigned |
| PlaceModel.UpdatedFailsIffRejected | part3/app/models/place.py:98-110 | update fails exactly when some entry is rejected; then the earlier entries stay applied and the base update, including updated_at, does not run |
| PlaceModel.UpdatedKeepsUnnamed | part3/app/models/place.py:98-110 | an attribute not named in the data keeps its value |
| PlaceModel.UpdatedStoresSupplied | part3/app/models/place.py:98-110 | after a complete update every named attribute holds the supplied value and updated_at is the current time |
| PlaceModel.CreatedStripsTitle | part3/app/models/place.py:34 | a new place with title " L" has title "L" |
| PlaceModel.UpdatedKeepsTitle | part3/app/models/place.py:101-110 | updating the title to " L" stores " L", unlike the constructor |
| PlaceModel.WithAmenityAddsOnce | part3/app/models/place.py:126-132 | add_amenity appends a new id at the end and nothing else; adding the same id again changes nothing |
| PlaceModel.UpdatedKeepsId | part3/app/models/place.py:98-110 | an update without an `id` key keeps the id |
| PlaceModel.Place.Create | part3/app/models/place.py:32-40 | the constructor yields an object exactly when `PlaceModel.Created` succeeds, with that state, or raises its error |
| PlaceModel.Place.SetPrice | part3/app/models/place.py:66-70 | a negative price raises and leaves the object unchanged; otherwise only the price changes |
| PlaceModel.Place.SetLatitude | part3/app/models/place.py:76-80 | a latitude outside [-90, 90] raises and leaves the object unchanged; otherwise only the latitude changes |
| PlaceModel.Place.SetLongitude | part3/app/models/place.py:86-90 | a longitude outside [-180, 180] raises and leaves the object unchanged; otherwise only the longitude changes |
| PlaceModel.Place.Apply | part3/app/models/place.py:99-109 | one branch of the update loop, as `PlaceModel.Step` describes |
| PlaceModel.Place.Reassign | part3/app/models/place.py:110 | the base update's setattr of one place key |
| PlaceModel.Place.Update | part3/app/models/place.py:98-110 | the object ends in the state `PlaceModel.Updated` describes, and reports its error |
| PlaceModel.Place.AddAmenity | part3/app/models/place.py:126-132 | the amenity list becomes `PlaceModel.WithAmenity` of the old one |
| ReviewModel.Created | part3/app/models/review.py:16-33 | a review is built exactly when the text passes `_validate_string` and the rating is in 1..5; the text is checked first; the stripped text is stored; the user and place ids are stored unchecked |
| ReviewModel.UpdatedOutcome | part3/app/models/review.py:61-71 | update fails exactly when a supplied text or rating is rejected; then rating, user, place and base attributes are unchanged; otherwise every supplied field is set and updated_at is refreshed |
| ReviewModel.RejectedRatingKeepsText | part3/app/models/review.py:49-66 | a rejected rating keeps the previous rating, although a text checked before it stays assigned |
| ReviewModel.RatingBounds | part3/app/models/review.py:49-59 | ratings 1 and 5 are accepted; 0 and 6 are rejected |
| ReviewModel.UpdatedKeepsId | part3/app/models/review.py:61-71 | an update without an `id` key keeps the id |
| ReviewModel.Review.Create | part3/app/models/review.py:16-33 | the constructor yields an object exactly when `ReviewModel.Created` succeeds, with that state, or raises its error |
| ReviewModel.Review.SetRating | part3/app/models/review.py:48-59 | a rating outside 1..5 raises and leaves the object unchanged; otherwise only the rating changes |
| ReviewModel.Review.Update | part3/app/models/review.py:61-71 | the object ends in the state `ReviewModel.Updated` describes, and reports its error |
| Catalog.Initial | part3/app/services/facade.py:13-26 | four empty repositories; the state is sound and has no two users with one email |
| Catalog.FirstMissing | part3/app/services/facade.py:216-223 | None exactly when every listed amenity id is stored; otherwise the first listed id with no stored amenity |
| CatalogFacts.NewUserDecides | part3/app/api/v1/users.py:13-43 | the registration order: a payload without first_name, last_name or email is refused with the first missing one in schema order; then an email another user has is refused; otherwise the keyword constructor decides |
| CatalogFacts.CreateUserStores | part3/app/services/facade.py:91-94 | a refusal changes nothing; a new user holds the payload's values, the hash and the fresh id, no other user had its email, it is stored under that id and is the only change; soundness and unique emails are kept |
| CatalogFacts.CreateUserOutcome | part3/app/services/facade.py:85-94 | both of the above: the missing key, then the taken email, then the constructor's first rejected key in payload order; a refusal changes nothing; a new user is the only change; unique emails are kept |
| CatalogFacts.CreateUserAsWrittenNeverStores | part3/app/services/facade.py:91-92 | as written, every call fails and the state is unchanged |
| CatalogFacts.CreateUserCounterexample | part3/app/services/facade.py:91 | for first_name "A", last_name "B", email "a@b.c" and a password, the code as written raises a TypeError on `password`, while the corrected call creates the user |
| CatalogFacts.UpdateUserOutcome | part3/app/services/facade.py:121-136 | unknown user gives None and no change; an email held by another user is refused with no change; otherwise success exactly when every value is accepted, and the user's key holds the result of the setattr loop on the rehashed user, also after a rejected value; the stored hash is the new one when a password is given; no other user changes |
| CatalogFacts.UpdateUserStoresSupplied | part3/app/services/facade.py:129-134 | after a complete loop each key holds its last value; after a rejected value the error is the first rejected key's, and the stored user holds exactly the assignments before it |
| CatalogFacts.UpdateUserIdOverwritesAnother | part3/app/services/facade.py:132-134 | data that sets `id` to another user's id overwrites that user: the one record is then stored under both ids |
| CatalogFacts.UpdateUserKeepsEmailsUnique | part3/app/services/facade.py:121-136 | an update never leaves two users with one email |
| CatalogFacts.DeleteUserOutcome | part3/app/services/facade.py:138-155 | True exactly when the user exists; then the user, every place the user owns and every review the user wrote are gone and nothing else changes; otherwise nothing changes |
| CatalogFacts.DeleteUserAsWrittenStopsAfterPlaces | part3/app/services/facade.py:147-150 | as written, an unknown user gives False and no change; for a stored user the owned places are deleted, then `user.reviews` raises, and the users and reviews stay as they were |
| CatalogFacts.DeleteUserCounterexample | part3/app/services/facade.py:149 | for a user who wrote a review, the code as written keeps the user and the review, while the intended cascade removes both |
| CatalogFacts.DeleteUserLeavesOrphanReviews | part3/app/services/facade.py:147-150 | another user's review of a deleted place stays stored while its place is gone |
| CatalogFacts.UserToDictHidesPassword | part3/app/services/facade.py:28-40 | the keys are id, first_name, last_name, email and is_admin, with no password; the hash does not affect the result; no user gives None |
| CatalogFacts.UserToDictShowsAllButHash | part3/app/services/facade.py:28-40 | two users project to the same dictionary exactly when they differ at most in the password hash |
| CatalogFacts.AllUserDictsSpec | part3/app/services/facade.py:114-119 | one dictionary per stored user, in repository order, each the projection of that user |
| CatalogFacts.CreateAmenityOutcome | part3/app/services/facade.py:158-168 | created exactly when the name is non-blank and at most 50 long; the facade's own check comes first; a refusal changes nothing; a new amenity gets the fresh id and the new time, has no places, and is the only change |
| CatalogFacts.CreateAmenityAsWrittenNeverStores | part3/app/services/facade.py:162-168 | as written, every call fails and the state is unchanged; a name passing the facade's check fails on the `owner_id` keyword |
| CatalogFacts.CreateAmenityCounterexample | part3/app/services/facade.py:166 | for "Wifi", the code as written raises on `owner_id`, while the corrected call creates the amenity |
| CatalogFacts.UpdateAmenityOutcome | part3/app/services/facade.py:182-191 | unknown amenity gives None and no change; succeeds exactly when no name is supplied or the name is valid; an error changes nothing; on success the stored amenity is the result, the model's update of the old one: the supplied name and places or the old ones, and updated_at the new time; other amenities are unchanged |
| CatalogFacts.DeleteAmenityOutcome | part3/app/services/facade.py:193-201 | True exactly when the amenity exists; afterwards it is absent and nothing else changes; a second delete answers False and changes nothing |
| CatalogFacts.DeleteAmenityLeavesPlaceLinks | part3/app/services/facade.py:193-201 | places listing a deleted amenity still list its id |
| CatalogFacts.PlaceFaultSpec | part3/app/services/facade.py:208-235 | the checks pass exactly when the owner and every listed amenity exist and the numbers are in range; failures are reported in order: owner, then the first missing amenity, then price, latitude, longitude |
| CatalogFacts.PlaceBoundsInclusive | part3/app/services/facade.py:226-235 | price 0, latitude -90 and 90, and longitude -180 and 180 are accepted; values just outside are rejected with the right field |
| CatalogFacts.CreatePlaceOutcome | part3/app/services/facade.py:204-240 | created exactly when the facade's checks pass and the title and description are valid; a refusal changes nothing and reports the facade's error first; a new place has the fresh id, the stripped title and description, the given price, coordinates and owner, and the amenity list or [], and is the only change |
| CatalogFacts.CreatePlaceAsWrittenNeverStores | part3/app/services/facade.py:237-240 | as written, every call fails and the state is unchanged; a request that passes the checks fails on the missing `owner` argument |
| CatalogFacts.CreatePlaceCounterexample | part3/app/services/facade.py:238 | for a valid request by an existing owner, the code as written raises, while the corrected call creates the place |
| CatalogFacts.PlacePatchFaultIff | part3/app/services/facade.py:262-288 | with distinct keys, update_place's checks pass exactly when every supplied owner and amenity exists and every supplied number is in range; absent keys are not checked |
| CatalogFacts.UpdatePlaceOutcome | part3/app/services/facade.py:254-293 | unknown place gives None and no change; a failed facade check changes nothing; otherwise the stored place becomes the place's own update of it, the result is what is stored, and other places are unchanged |
| CatalogFacts.CreateReviewOutcome | part3/app/services/facade.py:296-317 | created exactly when the user and the place exist, the rating is in 1..5 and the text is valid; errors in the order user, place, rating; a refusal changes nothing; a new review has the fresh id, the stripped text and the given references, and is the only change |
| CatalogFacts.UpdateReviewOutcome | part3/app/services/facade.py:344-371 | unknown review gives None and no change; the checks pass exactly when every supplied user, place and rating is valid, and a failure changes nothing; then success exactly when no text or a valid text is supplied, and a rejected text changes nothing; the stored review is the model's update of the old one: each supplied field's raw value or the old one, and the new time; other reviews are unchanged |
| CatalogFacts.DeleteReviewOutcome | part3/app/services/facade.py:373-382 | True exactly when the review exists; afterwards it is absent and nothing else changes; a second delete answers False and changes nothing |
| CatalogFacts.ReviewsByPlaceSpec | part3/app/services/facade.py:331-342 | None exactly when the place is unknown; otherwise exactly the stored reviews with that place_id, each as often as it is stored |
| CatalogFacts.AmenityToDictShowsIdAndName | part3/app/services/facade.py:42-51 | the keys are id and name; two amenities project alike exactly when their ids and names agree |
| CatalogFacts.PlaceToDictShowsAllButStamps | part3/app/services/facade.py:53-68 | the eight keys in order; two places project alike exactly when they differ at most in their timestamps |
| CatalogFacts.ReviewToDictShowsAllButStamps | part3/app/services/facade.py:70-82 | the five keys in order; two reviews project alike exactly when they differ at most in their timestamps |
| Facade.HBnBFacade.constructor | part3/app/services/facade.py:13-26 | four fresh, empty repositories: the state `Catalog.Initial` |
| Facade.HBnBFacade.NewUser | part3/app/services/facade.py:85-91 | the missing-key check, the email lookup and then the constructor on the payload, as `Catalog.NewUser` decides them |
| Facade.HBnBFacade.StoreUser | part3/app/services/facade.py:93 | a created user is added under its id and the id supply advances |
| Facade.HBnBFacade.CreateUser | part3/app/services/facade.py:85-94 | the repositories change exactly as `Catalog.CreateUser` says, whose guarantees are `CatalogFacts.CreateUserOutcome` |
| Facade.HBnBFacade.GetUser | part3/app/services/facade.py:96-106 | the stored user with that id, or None |
| Facade.HBnBFacade.GetUserByEmail | part3/app/services/facade.py:108-112 | the first stored user with that email, or None |
| Facade.HBnBFacade.GetAllUsers | part3/app/services/facade.py:114-119 | the projections of all users, as `CatalogFacts.AllUserDictsSpec` describes |
| Facade.HBnBFacade.UpdateUser | part3/app/services/facade.py:121-136 | the hash and the setattr loop change the state exactly as `Catalog.UpdateUser` says: the loop's assignments show under the fetched id even after a rejected value, and a complete loop stores the user again under its own id |
| Facade.HBnBFacade.DeletePlaces | part3/app/services/facade.py:147-148 | the first cascade loop removes exactly the listed places |
| Facade.HBnBFacade.DeleteReviews | part3/app/services/facade.py:149-150 | the second cascade loop removes exactly the listed reviews |
| Facade.HBnBFacade.DeleteUser | part3/app/services/facade.py:138-155 | the cascade changes the state exactly as `Catalog.DeleteUser` says |
| Facade.HBnBFacade.NewAmenity | part3/app/services/facade.py:162-166 | the facade's name check, then the constructor on the name alone |
| Facade.HBnBFacade.StoreAmenity | part3/app/services/facade.py:167 | a created amenity is added; the clock and the id supply advance |
| Facade.HBnBFacade.CreateAmenity | part3/app/services/facade.py:158-168 | the state changes exactly as the corrected `Catalog.CreateAmenity` says |
| Facade.HBnBFacade.GetAmenity | part3/app/services/facade.py:170-174 | the stored amenity with that id, or None |
| Facade.HBnBFacade.GetAllAmenities | part3/app/services/facade.py:176-180 | every stored amenity, in repository order |
| Facade.HBnBFacade.StoreReplacedAmenity | part3/app/services/facade.py:189-190 | the updated amenity replaces the stored one and is added again under its own id |
| Facade.HBnBFacade.UpdateAmenity | part3/app/services/facade.py:182-191 | the state changes exactly as `Catalog.UpdateAmenity` says |
| Facade.HBnBFacade.DeleteAmenity | part3/app/services/facade.py:193-201 | the state changes exactly as `Catalog.DeleteAmenity` says |
| Facade.HBnBFacade.CheckAmenities | part3/app/services/facade.py:216-223 | the `valid_amenities` loop finds the first listed id with no stored amenity (`Catalog.FirstMissing`) |
| Facade.HBnBFacade.PlaceFault | part3/app/services/facade.py:208-235 | the checks of create_place, in their order (`Catalog.PlaceFault`) |
| Facade.HBnBFacade.NewPlace | part3/app/services/facade.py:204-238 | the checks, then the constructor with the owner passed as `owner` |
| Facade.HBnBFacade.StorePlace | part3/app/services/facade.py:239 | a created place is added; the clock and the id supply advance |
| Facade.HBnBFacade.CreatePlace | part3/app/services/facade.py:204-240 | the state changes exactly as the corrected `Catalog.CreatePlace` says |
| Facade.HBnBFacade.GetPlace | part3/app/services/facade.py:242-246 | the stored place with that id, or None |
| Facade.HBnBFacade.GetAllPlaces | part3/app/services/facade.py:248-252 | every stored place, in repository order |
| Facade.HBnBFacade.PlacePatchFault | part3/app/services/facade.py:262-288 | the checks of update_place for the keys present, in their order (`Catalog.PlacePatchFault`) |
| Facade.HBnBFacade.StorePatchedPlace | part3/app/services/facade.py:290-292 | the place's updated state replaces the stored one; the clock advances only after a complete update |
| Facade.HBnBFacade.UpdatePlace | part3/app/services/facade.py:254-293 | the state changes exactly as `Catalog.UpdatePlace` says |
| Facade.HBnBFacade.NewReview | part3/app/services/facade.py:300-315 | the user, place and rating checks, then the constructor |
| Facade.HBnBFacade.StoreReview | part3/app/services/facade.py:316 | a created review is added; the clock and the id supply advance |
| Facade.HBnBFacade.CreateReview | part3/app/services/facade.py:296-317 | the state changes exactly as `Catalog.CreateReview` says |
| Facade.HBnBFacade.GetReview | part3/app/services/facade.py:319-323 | the stored review with that id, or None |
| Facade.HBnBFacade.GetAllReviews | part3/app/services/facade.py:325-329 | every stored review, in repository order |
| Facade.HBnBFacade.GetReviewsByPlace | part3/app/services/facade.py:331-342 | the answer `CatalogFacts.ReviewsByPlaceSpec` describes |
| Facade.HBnBFacade.ReviewPatchFault | part3/app/services/facade.py:352-366 | the checks of update_review for the fields present, in their order |
| Facade.HBnBFacade.StorePatchedReview | part3/app/services/facade.py:368-370 | the review's updated state replaces the stored one; the clock advances only after a complete update |
| Facade.HBnBFacade.UpdateReview | part3/app/services/facade.py:344-371 | the state changes exactly as `Catalog.UpdateReview` says |
| Facade.HBnBFacade.DeleteReview | part3/app/services/facade.py:373-382 | the state changes exactly as `Catalog.DeleteReview` says |

## Left out

- HTTP handlers, JWT issuance and the owner-or-admin checks: these belong to the web layer, not the domain layer. `delete_place`, which places.py:229 calls, is not defined by the facade, so there is nothing to model.
- Password hashing: `hash_password` is called (facade.py:92 and 130), but `User` neither defines it nor has a column for a hash. The hash is a parameter (`passwordHash`, `newHash`) supplied by the caller, and the corrected `create_user` takes the `password` key out of the payload before the constructor runs.
- SQLAlchemy, the ORM declarations and `user_repository.py`:
  - every facade repository is an `InMemoryRepository`;
  - the backref `user.places` (place.py:21) is the places whose `owner_id` equals the user, in repository order; nothing declares `user.reviews` (see Findings), so the intended cascade takes the reviews whose `user_id` equals the user;
  - `place.amenities` holds amenity ids;
  - the `unique=True` email column becomes a facade check on create and update (`DuplicateEmail`);
  - the repository files that facade.py:3-5 imports are not part of this model.
- Object identity and aliasing: stored entities are records. Changing a fetched object becomes storing its new state under the id it was fetched by.
- Time and ids: datetimes are ticks of a `nat` clock, advanced by each write that stamps. uuid4 and the users' integer key are one counter shared by every entity kind. `isoformat` rendering and `get_place_with_details` are not modelled.
- Dynamic typing: the `isinstance` checks, `float()` conversion and the `int()` truncation of ratings are not modelled. Numbers are `real` (price, coordinates) or `int` (rating).
- `get_user_by_id` is the same function as `get_user` (`Facade.HBnBFacade.GetUser`).
- Repository shape: update and delete are keyed by id.
  - `update_place` and `update_review` pass `(id, data)` to an `update` that takes one instance. The model applies the entity's own `update` to the stored record and stores the result.
  - `delete_review` passes an id where an instance is expected; the model deletes by id.
  - `update_amenity` re-adds the object with `add`. The model stores it under the id it was fetched by and again under its own id.
- `update_user` and `User(**data)`: `created_at` and `updated_at` keys (`SetStamp`) set attributes the record does not carry. A key that names no column (`Unknown`) has no effect under `setattr`, while the keyword constructor raises a TypeError on it. `updated_at` is not refreshed, since `User` is not a `BaseModel` and nothing stamps it in memory.
- Request validation: the users endpoint's schema (users.py:13-24) reports every missing key at once; the model reports the first missing one in schema order (`Catalog.MissingField`). The `admin_secret` handling of users.py:33-37 is web layer: `is_admin` arrives as an ordinary key.
- CatalogFacts.CreateUserOutcome: stated only for payloads without an `id` key. With one, the record is filed under the supplied id, which may overwrite another user.
- CatalogFacts.CreateUserStores: stated only for payloads without an `id` key, for the same reason.
- CatalogFacts.UpdateUserOutcome: stated only for data without an `id` key. `CatalogFacts.UpdateUserIdOverwritesAnother` shows what such a key does.
- CatalogFacts.UpdateUserStoresSupplied: stated only for data without an `id` key, for the same reason.
- CatalogFacts.UpdateUserKeepsEmailsUnique: stated only for data without an `id` key, for the same reason.
- CatalogFacts.UpdateAmenityOutcome: stated only for updates whose data has no `id` key. With one, the amenity is also filed under a second id, which is what the `Catalog.ReplacedAmenity` function models.
- CatalogFacts.UpdatePlaceOutcome: stated only for data without an `id` key. With one, the stored record's own id would differ from its key.
- CatalogFacts.UpdateReviewOutcome: stated only for data without an `id` key, for the same reason.
- CatalogFacts.PlacePatchFaultIff: requires distinct keys in the data. That always holds for a Python dict but not for the sequence of entries that stands for it.

## Findings

| source | as written | input that shows it | evidently intended | confidence | as-written member | corrected member |
|---|---|---|---|---|---|---|
| part3/app/services/facade.py:166 | `Amenity(name=name, owner_id=owner_id)`, while `Amenity.__init__` takes only `name`, so every request that passes the name check raises a TypeError and nothing is stored | name "Wifi" | construct the amenity from the name and store it | not executed | CatalogFacts.CreateAmenityCounterexample | CatalogFacts.CreateAmenityOutcome |
| part3/app/services/facade.py:238 | `Place(**place_data)` with the key `owner_id`, while `Place.__init__` requires `owner`, so every request that passes the checks raises a TypeError and nothing is stored | title "T", description "D", price 0, latitude 0, longitude 0, an existing owner, no amenities | pass the owner id as `owner` and store the new place | not executed | CatalogFacts.CreatePlaceCounterexample | CatalogFacts.CreatePlaceOutcome |
| part3/app/services/facade.py:91 | `User(**user_data)` receives the payload's `password` key, which names no column of `User`, so the keyword constructor raises a TypeError and nothing is stored (without that key, `hash_password` would fail next) | first_name "A", last_name "B", email "a@b.c", password | take the password out, keep its hash, and store the user | not executed | CatalogFacts.CreateUserCounterexample | CatalogFacts.CreateUserOutcome |
| part3/app/services/facade.py:149 | `user.reviews`, which nothing declares (place.py:21 gives users only the `places` backref), so once the owned places are deleted the call raises an AttributeError, and the user and the user's reviews stay stored | a stored user who wrote a review | delete the user's reviews, then the user, and answer True | not executed | CatalogFacts.DeleteUserCounterexample | CatalogFacts.DeleteUserOutcome |
