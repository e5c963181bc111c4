# Secret-store caching adapter, modelled in Dafny

This project models `PSR6CacheAdapter`, a decorator that puts a PSR-6 cache
pool in front of a secret-storage adapter. It exposes the same
`getSecret` / `putSecret` / `deleteSecret` interface as the backend it wraps:

- **getSecret** takes `ttl` out of the options and reads through the cache
  (`memoize`). With the `isHit` test the code intends (see Findings), on a
  hit it returns the cached value and leaves the backend alone, and on a
  miss it fetches from the backend with the remaining options,
  saves the value (with an expiry whenever a ttl is given, zero included)
  and returns it.
- **putSecret** takes `ttl` out of the options and writes to the backend
  first. It then evicts the cache entry if one existed or if `ttl` is 0.
  Otherwise it primes the cache with the written value, with an expiry only
  for a non-empty ttl.
- **deleteSecret** deletes from the backend with the options untouched.
  On success it evicts the cache entry if there is one.

The state is a pair of maps: the authoritative backend (`Key -> Secret`) and
the cache pool (`Key -> Entry(value, expiry)`). Each operation is a pure
transition returning a `Step`: the result or error, the next state, and the
calls made on the backend and on the pool, in order. Backend failures are
injected through a `Fault` parameter. The backend answers `NotFound` for a
read or delete of a key it does not hold.

Modules:

- `Types`: option/result types, keys, secrets, errors, faults.
- `OptionsBag`: the options map and the extraction of `ttl`.
- `SecretBackend`: the backend as a map.
- `CachePool`: the PSR-6 pool, with items that exist even on a miss.
- `CacheAdapter`: the three operations and `memoize`.
- `Consistency`: the coherence invariant (no cached entry is stale) and
  lemmas about consecutive operations.
- `Sessions`: whole sessions of requests. The main theorem is that, from a
  coherent state, a session on the adapter gives the same replies and leaves
  the same backend as the bare backend, provided its reads reach a healthy
  backend with an integer or absent ttl. (A hit answers even when the
  backend is down, and an ill-typed ttl fails only on the adapter.)
- `AsWritten`: the read-through test as the source writes it (see Findings).

Two facts about the code shape the model:

- On a read miss, the code attaches an expiry whenever `ttl` is not null
  (`$ttl !== null`, `src/Adapter/Cache/PSR6CacheAdapter.php:115`). So a `ttl`
  of 0 gives an expiry of 0, whereas a write with `ttl` 0 leaves the key
  uncached (`:73`).
- No cache call is wrapped in error handling. A `false` returned by `save`
  or `deleteItem` is ignored and an exception from the pool propagates;
  neither is modelled.

## Model

| member | source | states |
|---|---|---|
| OptionsBag.RemoveTtl | src/Adapter/Cache/PSR6CacheAdapter.php:54 | the returned bag holds every option but `ttl`, with unchanged values; the ttl read is an integer exactly when the `ttl` entry holds one, and none when it is missing or null |
| OptionsBag.RemoveTtlLosesOnlyTtl | src/Adapter/Cache/PSR6CacheAdapter.php:70 | putting the `ttl` entry back into the remaining bag restores the caller's options |
| CacheAdapter.Memoize | src/Adapter/Cache/PSR6CacheAdapter.php:106-121 | a hit returns the cached value, with no backend call and no state change; a miss calls the backend exactly once with the given options and returns the backend's answer unchanged, error included; on success it caches the fetched value under the key with the given ttl as expiry (zero included) and returns it; a failure leaves both stores unchanged; other keys' entries never change |
| CacheAdapter.GetSecret | src/Adapter/Cache/PSR6CacheAdapter.php:52-63 | never changes the backend; an ill-typed ttl fails with a type error before any call; a hit returns the cached value whatever ttl is passed; a miss calls the backend once with the options minus `ttl`, returns the backend's answer unchanged (its error included), and on success caches the value with the ttl as expiry |
| CacheAdapter.PutSecret | src/Adapter/Cache/PSR6CacheAdapter.php:68-85 | the backend receives the value and the options minus `ttl`; a backend failure reaches the caller unchanged and leaves the cache untouched with no cache call; on success, a previously cached key or a ttl of 0 leaves the key uncached, and otherwise the key maps to the new value with an expiry only for a non-zero ttl; `deleteItem` is called exactly in the evicting case; other keys' entries never change |
| CacheAdapter.DeleteSecret | src/Adapter/Cache/PSR6CacheAdapter.php:90-96 | the backend receives the options unmodified, `ttl` included; success removes the key from both stores; a backend failure reaches the caller unchanged, changes nothing and makes no cache call; `deleteItem` is called exactly when the delete succeeded and the key was cached; other keys' entries never change |
| Consistency.CoherentReadAgreesWithBackend | src/Adapter/Cache/PSR6CacheAdapter.php:106-120 | when no cached entry is stale, a read that reaches a healthy backend with an integer or absent ttl answers exactly what the backend would, on a hit and on a miss alike |
| Consistency.PutThenGetIsServedFromCache | src/Adapter/Cache/PSR6CacheAdapter.php:72-84 | writing an uncached key with a ttl other than 0 makes the next read, with an integer or absent ttl, return the written value from the cache, with no backend call and no state change, whatever that ttl is |
| Consistency.PutThenGetSeesNewValue | src/Adapter/Cache/PSR6CacheAdapter.php:72-84 | after a successful write, a healthy read with an integer or absent ttl returns the new value, never a previously cached one, even if that cached value was already stale |
| Consistency.DeleteThenGetReachesBackend | src/Adapter/Cache/PSR6CacheAdapter.php:92-95 | after a successful delete the next read with an integer or absent ttl calls the backend with its options minus `ttl`, and gets NotFound from a healthy backend |
| Consistency.DeleteAbsentIsIdempotent | src/Adapter/Cache/PSR6CacheAdapter.php:90-96 | deleting a key the backend lacks fails with NotFound twice in a row, leaves the state as it was and makes no cache call |
| Consistency.ZeroTtlCachesOnReadNotOnWrite | src/Adapter/Cache/PSR6CacheAdapter.php:73-116 | with `ttl` 0, a read miss caches the fetched value with an expiry of 0 (the test is non-null), while a write leaves the key uncached |
| Consistency.ExampleSession | examples/PSR6CacheAdapter.php:18-28 | write `baz`; read it with a ttl override and again without, the second read served from the cache; delete it; the final read fails with NotFound |
| Sessions.Apply | src/Adapter/Cache/PSR6CacheAdapter.php:52-96 | every request keeps the cache coherent; an expiry drops exactly the one cache entry and nothing else; a write, delete or expiry gets the bare backend's reply and leaves the bare backend's store from any state; a read does so from a coherent state when it reaches a healthy backend with an integer or absent ttl |
| Sessions.Run | src/Adapter/Cache/PSR6CacheAdapter.php:52-96 | a session yields one reply per request and keeps the cache coherent throughout |
| Sessions.RunIsTransparent | src/Adapter/Cache/PSR6CacheAdapter.php:52-121 | from a coherent state, a session whose reads reach a healthy backend with an integer or absent ttl gets the same replies and leaves the same backend as the bare backend |
| AsWritten.Lookup | src/Adapter/Cache/PSR6CacheAdapter.php:108 | the pool's `getItem` never returns null |
| AsWritten.MemoizeAsWritten | src/Adapter/Cache/PSR6CacheAdapter.php:106-121 | with the null test, a non-null item is returned as is, with no backend call; only a null item reaches the backend, and it then fails on the null item |
| AsWritten.GetSecretAsWritten | src/Adapter/Cache/PSR6CacheAdapter.php:52-63 | getSecret with the null test: an ill-typed ttl fails with a type error; otherwise there is no backend call and no state change, a hit returns the cached value, and a cold read's null fails the `Secret` return type with a type error |
| AsWritten.AsWrittenNeverReadsBackend | src/Adapter/Cache/PSR6CacheAdapter.php:52-111 | as written, getSecret never calls the backend and never changes the state; a hit returns the cached value, and on a cold cache the empty item's null fails the `Secret` return type with a type error |
| AsWritten.ColdReadDiscrepancy | src/Adapter/Cache/PSR6CacheAdapter.php:52-120 | for a secret the backend holds and an empty cache, the as-written read fails with a type error without calling the backend, while the `isHit` test fetches the secret from the backend and caches it |

## Left out

- Wall-clock expiry: an entry records the ttl it was saved with, but time does not pass. An entry saved with an expiry of 0 or less is still treated as live until it is dropped, although under PSR-6 it is already expired; so the lemmas about a read right after a put or a miss assume the entry has not lapsed. A lapse is modelled only as the pool dropping one entry (`Sessions.Expire`).
- Cache-pool failures (`save` or `deleteItem` returning false, or throwing): the adapter ignores or propagates them without handling, and they are not modelled.
- The concrete backend and cache pool, and the `Manager` and `AbstractAdapter` classes: they are not part of this model. The backend is a map whose calls can fail through a fault parameter. The pool is a map.
- The array helper's `remove` is not part of this model. It is modelled as reading `ttl` and returning the options without that key.
- Null options (`?array` passed as null): the options are always a map.
- CacheAdapter.PutSecret: a `ttl` that is neither an integer nor null is treated as giving no expiry. PHP's emptiness test and the pool's argument check on such a value are not modelled.
- The difference between the raw value `putSecret` caches and the `Secret` object `getSecret` returns: both are one opaque `Secret`. So the return-type error a primed raw value would cause is not modelled.
- Concurrency between operations: the model is sequential.

## Findings

| source | as written | input that shows it | evidently intended | confidence | as-written member | corrected member |
|---|---|---|---|---|---|---|
| src/Adapter/Cache/PSR6CacheAdapter.php:108-111 | the hit test is `$item !== null`, but a PSR-6 `getItem` always returns an item, so every read is treated as a hit | empty cache, backend holding `db`; `getSecret("db")` gets null from the item without calling the backend, and fails the `Secret` return type with a type error | test `isHit` (or `hasItem`); on a miss, fetch from the backend, cache the value and return it | high; not executed | AsWritten.ColdReadDiscrepancy | CacheAdapter.Memoize |
