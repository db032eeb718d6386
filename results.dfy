/** Shared result shapes: absent values and the HTTP outcomes of the controllers. */
module Results {

  /** A value that may be absent: JavaScript `undefined`/`null`, a C# `null` or an empty `Nullable<T>`. */
  datatype Option<+T> = None | Some(value: T)

  /** A C# `int`. */
  newtype int32 = x: int | -0x8000_0000 <= x < 0x8000_0000

  /** A string that is neither absent nor empty: JavaScript truthiness, C# `!string.IsNullOrEmpty`. */
  predicate NonEmpty(s: Option<string>)
  {
    s.Some? && s.value != ""
  }

  /**
   * Outcome of an action that answers without a body: 204 No Content, 404 Not Found,
   * or 400 Bad Request when the request body fails validation.
   */
  datatype Status = NoContent | NotFound | BadRequest

  /** Outcome of an action that creates a record: 400 Bad Request, or 201 Created with the record. */
  datatype Reply<+T> = Rejected | Created(value: T)
}
