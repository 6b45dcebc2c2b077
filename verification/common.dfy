/** Values shared by every part of the model: optional values, the outcome of
    an operation that may throw, and the errors the bot raises or receives. */
module Common {

  datatype Option<+T> = None | Some(value: T)

  /** The value an operation produces, or the error it raises. */
  datatype Result<+T> = Ok(value: T) | Err(error: Error)

  datatype Error =
    | UnregisteredClientId      // "Unregistered clientId!": authentication found no stored registration
    | NoExpirationTime          // "Token has no expiration time!": the payload has no usable `exp` claim
    | UndecodableToken          // the JWT decoder rejected the token
    | SiteNotFound              // "Site not found!": no main site carries the requested slug
    | NoItems                   // a search response whose `items` list is empty
    | Upstream(cause: string)   // an HTTP call failed
}
