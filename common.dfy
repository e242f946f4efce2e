/** Shared vocabulary of the task store: identifiers, clock values,
    optional request fields and the tagged outcome every handler returns. */
module Common {

  /** A document identifier (an ObjectId), compared only for equality and,
      for the natural order of unsorted queries, by creation order. */
  type Id = nat

  /** A clock value, as the milliseconds of a JavaScript Date. */
  type Time = int

  datatype Option<+T> = None | Some(value: T)

  /** The failures a handler reports. SchemaError is a failure that only
      surfaces when the persistence layer validates a document on save and
      is reported as an internal error (HTTP 500). */
  datatype Error = NotFound | Forbidden | BadRequest | SchemaError

  datatype Result<+T> = Ok(value: T) | Err(error: Error)

  /** JavaScript truthiness of an optional string request field: absent
      (undefined or null) and the empty string are falsy. */
  predicate Truthy(s: Option<string>) {
    s.Some? && s.value != ""
  }
}
