/** Shared vocabulary of the secret-store caching adapter: optional values,
    results, keys, secrets and the errors an operation can report. */
module Types {

  /** A value that may be absent; PHP's `null` is `None`. */
  datatype Option<+T> = None | Some(value: T)

  /** The outcome of an operation that may throw. */
  datatype Result<+T, +E> = Success(value: T) | Failure(error: E)

  /** Secrets are addressed by string keys; the cache uses the same key space. */
  type Key = string

  /** A secret payload. The adapter stores and returns it verbatim and never looks inside. */
  datatype Secret = Secret(payload: string)

  /** Errors surfacing from an adapter call. */
  datatype Error =
    | NotFound               // the backend has no secret under the key
    | BackendError(reason: string) // any other backend failure (network, auth, ...)
    | TypeError              // a `ttl` option of the wrong type reached the `int` parameter of memoize
    | NullItem               // a method was called on a null cache item

  /** Whether the backend's next call succeeds on its own terms or fails for an outside reason. */
  datatype Fault = Healthy | Unavailable(reason: string)
}
