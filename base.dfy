/** Shared value types: Java's nullable references become `Option`, thrown
    exceptions become the `Failure` arm of `Result`. */
module Base {

  /** A value that Java may leave `null`. */
  datatype Option<+T> = None | Some(value: T)

  /** The value an operation returns, or the exception it throws. */
  datatype Result<+T> = Success(value: T) | Failure(error: Error)

  /** The key an exception message names (an id, a name), or none. */
  datatype Key = IdKey(id: int) | NameKey(name: string) | NoKey

  /** The exceptions the modelled code throws, with what each carries: a resource that is not
      found or already exists (named by resource, field and offending value, or by a
      message), rejected credentials, any other authentication failure, a runtime error
      whose message ends with a detail, a runtime error wrapping another one's message,
      and a content type that cannot be parsed as a media type. */
  datatype Error =
    | ResourceNotFound(resource: string, field: string, key: Key)
    | NotFoundMessage(message: string)
    | DuplicateResource(resource: string, field: string, key: Key)
    | DuplicateMessage(message: string)
    | BadCredentials(message: string)
    | AuthenticationFailure(message: string)
    | Runtime(message: string, detail: Key)
    | Wrapped(message: string, cause: Error)
    | InvalidMediaType(message: string)

  /** The empty value of a `void` method. */
  datatype Unit = Unit
}
