/** A review of a place by a user: a validated text, a rating from 1 to 5,
    and the two references, stored as given. */
module ReviewModel {
  import opened Common
  import opened Text
  import BaseModel

  const TextMax: nat := 1000

  datatype ReviewRec = ReviewRec(meta: BaseModel.Meta, text: string, rating: int, userId: Id, placeId: Id)

  /** The dictionary given to `Review.update`: each of the four keys it looks
      up is present or absent; every other key is left to the base update. */
  datatype ReviewPatch = ReviewPatch(
    text: Option<string>,
    rating: Option<int>,
    userId: Option<Id>,
    placeId: Option<Id>,
    others: seq<BaseModel.BaseEntry>)

  /** The range the `rating` setter accepts, inclusive at both ends. */
  predicate ValidRating(v: int) { 1 <= v <= 5 }

  /** The `place_id` attribute, for attribute lookups in a store. */
  function PlaceOf(r: ReviewRec): Id { r.placeId }

  /** The `user_id` attribute, for attribute lookups in a store. */
  function AuthorOf(r: ReviewRec): Id { r.userId }

  /** `Review(text, rating, user_id, place_id)`: the text is checked first,
      then the rating; the references are not checked at all. */
  function Created(given: Option<Id>, newId: Id, now: nat, text: string, rating: int,
                   userId: Id, placeId: Id): (r: Result<ReviewRec>)
    ensures r.Ok? <==> !Blank(text) && |text| <= TextMax && ValidRating(rating)
    ensures (Blank(text) || |text| > TextMax) ==> r == Err(ValidateString(text, Text, TextMax).error)
    ensures (!Blank(text) && |text| <= TextMax && !ValidRating(rating)) ==> r == Err(OutOfRange(Rating))
    ensures r.Ok? ==> r.value == ReviewRec(BaseModel.Initial(given, newId, now), Strip(text), rating, userId, placeId)
  {
    var t :- ValidateString(text, Text, TextMax);
    if !ValidRating(rating) then Err(OutOfRange(Rating))
    else Ok(ReviewRec(BaseModel.Initial(given, newId, now), t, rating, userId, placeId))
  }

  /** `Review.update(data)`: text, then rating, then the two references,
      each only when present; then the base update, which assigns every
      key again as given (so the text is stored unstripped) and refreshes
      `updated_at`. A rejected text changes nothing; a rejected rating
      keeps the new text but not the rating. */
  function Updated(r: ReviewRec, patch: ReviewPatch, now: nat): Patched<ReviewRec> {
    var checkedText := if patch.text.Some? then ValidateString(patch.text.value, Text, TextMax) else Ok(r.text);
    if checkedText.Err? then Patched(r, Some(checkedText.error))
    else
      var r1 := r.(text := checkedText.value);
      if patch.rating.Some? && !ValidRating(patch.rating.value) then Patched(r1, Some(OutOfRange(Rating)))
      else
        var r2 := r1.(rating := if patch.rating.Some? then patch.rating.value else r.rating,
                      userId := if patch.userId.Some? then patch.userId.value else r.userId,
                      placeId := if patch.placeId.Some? then patch.placeId.value else r.placeId);
        var r3 := if patch.text.Some? then r2.(text := patch.text.value) else r2;
        Patched(r3.(meta := BaseModel.Updated(r.meta, patch.others, now)), None)
  }

  /** The update raises exactly when a supplied text or rating is invalid;
      on success every supplied key holds the value given, every absent
      key its old value, and `updated_at` is the current time; on failure
      the base attributes and the rating keep their old values. */
  lemma UpdatedOutcome(r: ReviewRec, patch: ReviewPatch, now: nat)
    ensures var u := Updated(r, patch, now);
            (u.failure.Some? <==> (patch.text.Some? && (Blank(patch.text.value) || |patch.text.value| > TextMax))
                                  || (patch.rating.Some? && !ValidRating(patch.rating.value)))
            && (u.failure.None? ==>
                  u.value.text == (if patch.text.Some? then patch.text.value else r.text)
                  && u.value.rating == (if patch.rating.Some? then patch.rating.value else r.rating)
                  && u.value.userId == (if patch.userId.Some? then patch.userId.value else r.userId)
                  && u.value.placeId == (if patch.placeId.Some? then patch.placeId.value else r.placeId)
                  && u.value.meta.updatedAt == now)
            && (u.failure.Some? ==> u.value.meta == r.meta && u.value.rating == r.rating
                                    && u.value.userId == r.userId && u.value.placeId == r.placeId)
  {
  }

  /** A rejected rating leaves the rating alone, while a valid text given
      with it has already been stored (stripped) and stays. */
  lemma RejectedRatingKeepsText(r: ReviewRec, text: string, rating: int, now: nat)
    requires !Blank(text) && |text| <= TextMax && !ValidRating(rating)
    ensures var u := Updated(r, ReviewPatch(Some(text), Some(rating), None, None, []), now);
            u.failure == Some(OutOfRange(Rating)) && u.value.rating == r.rating
            && u.value.text == Strip(text) && u.value.meta == r.meta
  {
  }

  /** The rating bounds: 1 and 5 are accepted, 0 and 6 are not. */
  lemma RatingBounds(r: ReviewRec, now: nat)
    ensures Updated(r, ReviewPatch(None, Some(1), None, None, []), now).failure.None?
    ensures Updated(r, ReviewPatch(None, Some(5), None, None, []), now).failure.None?
    ensures Updated(r, ReviewPatch(None, Some(0), None, None, []), now).failure == Some(OutOfRange(Rating))
    ensures Updated(r, ReviewPatch(None, Some(6), None, None, []), now).failure == Some(OutOfRange(Rating))
  {
  }

  /** No other key assigns the id. */
  predicate KeepsId(patch: ReviewPatch) {
    forall i :: 0 <= i < |patch.others| ==> !patch.others[i].SetId?
  }

  /** An update that does not name `id` keeps it, whatever the outcome. */
  lemma UpdatedKeepsId(r: ReviewRec, patch: ReviewPatch, now: nat)
    requires KeepsId(patch)
    ensures Updated(r, patch, now).value.meta.id == r.meta.id
  {
    BaseModel.UpdatedKeepsId(r.meta, patch.others, now);
  }

  /** A review object, updated in place. */
  class Review {
    const base: BaseModel.Base
    var text: string
    var rating: int
    var userId: Id
    var placeId: Id

    function Snapshot(): ReviewRec
      reads this, base
    {
      ReviewRec(base.Snapshot(), text, rating, userId, placeId)
    }

    /** Wraps a validated text; the rating starts at 0 as in `__init__`. */
    constructor (base: BaseModel.Base, text: string, userId: Id, placeId: Id)
      ensures this.base == base && this.text == text && this.rating == 0
      ensures this.userId == userId && this.placeId == placeId
    {
      this.base := base;
      this.text := text;
      this.rating := 0;
      this.userId := userId;
      this.placeId := placeId;
    }

    /** `Review.__init__`: a new review, or the first error its checks raise. */
    static method Create(given: Option<Id>, newId: Id, now: nat, text: string, rating: int,
                         userId: Id, placeId: Id) returns (r: Result<Review>)
      ensures var c := Created(given, newId, now, text, rating, userId, placeId);
              (r.Ok? <==> c.Ok?) && (r.Err? ==> c == Err(r.error))
              && (r.Ok? ==> fresh(r.value) && fresh(r.value.base) && r.value.Snapshot() == c.value)
    {
      var base := new BaseModel.Base(given, newId, now);
      var t := ValidateString(text, Text, TextMax);
      if t.Err? {
        return Err(t.error);
      }
      var review := new Review(base, t.value, userId, placeId);
      var failure := review.SetRating(rating);
      if failure.Some? {
        return Err(failure.value);
      }
      return Ok(review);
    }

    /** The `rating` setter: a value outside 1..5 raises and the previous
        rating stays. */
    method SetRating(value: int) returns (failure: Option<Error>)
      modifies this
      ensures failure == (if ValidRating(value) then None else Some(OutOfRange(Rating)))
      ensures Snapshot() == if ValidRating(value) then old(Snapshot()).(rating := value) else old(Snapshot())
    {
      if !ValidRating(value) {
        return Some(OutOfRange(Rating));
      }
      rating := value;
      return None;
    }

    /** `Review.update(data)`; `failure` is the error it raises, if any. */
    method Update(patch: ReviewPatch, now: nat) returns (failure: Option<Error>)
      modifies this, base
      ensures Patched(Snapshot(), failure) == Updated(old(Snapshot()), patch, now)
    {
      if patch.text.Some? {
        var t := ValidateString(patch.text.value, Text, TextMax);
        if t.Err? {
          return Some(t.error);
        }
        text := t.value;
      }
      if patch.rating.Some? {
        failure := SetRating(patch.rating.value);
        if failure.Some? {
          return;
        }
      }
      if patch.userId.Some? {
        userId := patch.userId.value;
      }
      if patch.placeId.Some? {
        placeId := patch.placeId.value;
      }
      // The base update: `setattr` of every key, then `save`.
      if patch.text.Some? {
        text := patch.text.value;
      }
      base.Update(patch.others, now);
      failure := None;
    }
  }
}
