/** Shared vocabulary of the hospital-management API model: optional values,
    results, document identifiers, store failures and HTTP replies. */
module Common {

  datatype Option<+T> = None | Some(value: T)

  datatype Result<+T, +E> = Success(value: T) | Failure(error: E)

  /** Identifier of a stored document (an ObjectId in the document store). */
  type Id = nat

  /** A document as read back from a collection, together with its identifier. */
  datatype Doc<+T> = Doc(id: Id, fields: T)

  /** Why a store call threw. */
  datatype StoreError =
    | ValidationFailed(model: string)              // a required field is missing
    | DuplicateKey(model: string, field: string)   // a unique index rejected the write
    | Unreachable                                  // the store could not be reached
    | InvalidPattern                               // the regular expression does not compile

  /** The `error` member of a JSON error body: a fixed message of the handler,
      or the message of an exception the handler caught. */
  datatype Failure = Message(text: string) | Raised(error: StoreError)

  datatype Body<+T> = Json(value: T) | Error(failure: Failure)

  /** An HTTP response: status code and JSON body. */
  datatype Reply<+T> = Reply(status: nat, body: Body<T>)

  /** JavaScript truthiness of an optional string of a request: a missing field
      and the empty string are both falsy. */
  predicate Present(s: Option<string>)
  {
    s.Some? && s.value != ""
  }
}
