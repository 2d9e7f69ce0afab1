/** Vocabulary shared by every module of the model: identifiers, optional
    values, the errors the catalog raises, and what an in-place update
    leaves behind. */
module Common {

  /** Identifiers come from one counter shared by every kind of entity
      (the fresh-id supply that stands for uuid4 and the users table's key). */
  type Id = nat

  datatype Option<+T> = None | Some(value: T)

  /** The fields that a validation error can name. */
  datatype Field =
    | Title | Description | Price | Latitude | Longitude
    | Text | Rating | Name | FirstName | LastName | Email

  /** One constructor per distinct ValueError (or TypeError) the core raises. */
  datatype Error =
    | Required(field: Field)            // missing, empty or blank value
    | TooLong(field: Field, max: nat)   // raw length above the limit
    | OutOfRange(field: Field)          // a numeric bound is violated
    | BadEmailFormat                    // the address does not match the pattern
    | InvalidAmenityName                // the facade's own check in create_amenity
    | MissingUser(user: Id)
    | MissingOwner(owner: Id)
    | MissingPlace(place: Id)
    | MissingAmenity(amenity: Id)
    | DuplicateEmail(email: string)
    | UnexpectedKeyword(keyword: string) // a constructor rejects a keyword argument
    | MissingArgument(argument: string)  // a required constructor argument is not passed
    | MissingAttribute(attribute: string) // an AttributeError: the object has no such attribute

  datatype Result<+T> = Ok(value: T) | Err(error: Error) {
    predicate IsFailure() { Err? }

    function PropagateFailure<U>(): Result<U>
      requires Err?
    {
      Err(error)
    }

    function Extract(): T
      requires Ok?
    {
      value
    }
  }

  /** The state an in-place update leaves behind, together with the error it
      raised part way through, if any. Fields assigned before the error stay
      assigned, as they do on a Python object. */
  datatype Patched<+T> = Patched(value: T, failure: Option<Error>)
}
