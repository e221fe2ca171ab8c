/**
 The vocabulary shared by every part of the model: optional values,
 identifiers, and the HTTP outcomes the route handlers produce.
 */
module Wrappers {

  /** An optional value, the model of Swift's `T?`. */
  datatype Option<+T> = None | Some(value: T)
}

module Identifiers {

  /** A UUID. Users, todos and session values are all keyed by one. */
  type Uuid = nat
}

module Http {
  import opened Wrappers

  /**
   The response statuses the handlers of this application produce; 500 is
   what the framework answers for an error that is not an `HTTPError`.
   */
  datatype Status =
    | OK
    | Created
    | NoContent
    | Found
    | SeeOther
    | BadRequest
    | Unauthorized
    | NotFound
    | Conflict
    | InternalServerError
  {
    /** The numeric status code sent on the wire. */
    function Code(): nat
    {
      match this
      case OK => 200
      case Created => 201
      case NoContent => 204
      case Found => 302
      case SeeOther => 303
      case BadRequest => 400
      case Unauthorized => 401
      case NotFound => 404
      case Conflict => 409
      case InternalServerError => 500
    }
  }

  /** A value, or the `HTTPError` (status and optional message) thrown instead. */
  datatype Result<+T> = Success(value: T) | Failure(status: Status, message: Option<string>)

  /** What a route handler hands back to the framework. */
  datatype Response<+B> =
    | Content(status: Status, body: B)
    | Redirect(status: Status, location: string)
    | Error(status: Status)
}

module SwiftString {

  /**
   The canonical decomposition (NFD) of a string. Swift's `String` `==`
   and `!=` compare by Unicode canonical equivalence, so `"\u{E9}"` and
   `"e\u{301}"` are equal. The decomposition tables are not modelled: the
   normal form is a parameter.
   */
  type Normalizer = string -> string

  /** Swift's `String` equality: the canonical decompositions agree. */
  predicate Equal(nfd: Normalizer, a: string, b: string)
    ensures a == b ==> Equal(nfd, a, b)
  {
    nfd(a) == nfd(b)
  }
}
