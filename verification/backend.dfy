/** The authoritative secret store behind the adapter, seen only as a map
    from keys to secrets whose calls may fail. */
module SecretBackend {
  import opened Types

  type Store = map<Key, Secret>

  /** Reads a secret: NotFound when the key is absent. */
  function Get(store: Store, key: Key, fault: Fault): Result<Secret, Error>
  {
    if fault.Unavailable? then Failure(BackendError(fault.reason))
    else if key in store then Success(store[key])
    else Failure(NotFound)
  }

  /** Writes a secret, creating or overwriting it. */
  function Put(store: Store, key: Key, value: Secret, fault: Fault): Result<Store, Error>
  {
    if fault.Unavailable? then Failure(BackendError(fault.reason))
    else Success(store[key := value])
  }

  /** Deletes a secret: NotFound when the key is absent. */
  function Delete(store: Store, key: Key, fault: Fault): Result<Store, Error>
  {
    if fault.Unavailable? then Failure(BackendError(fault.reason))
    else if key in store then Success(store - {key})
    else Failure(NotFound)
  }
}
