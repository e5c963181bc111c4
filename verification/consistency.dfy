/** The cache-consistency contract: a cached entry always agrees with the
    backend, and consecutive operations see each other's effects. */
module Consistency {
  import opened Types
  import opened OptionsBag
  import SecretBackend
  import opened CachePool
  import opened CacheAdapter

  /** No cached entry is stale: every cached key holds the backend's current value. */
  predicate Coherent(s: State)
  {
    forall k :: k in s.cache ==> k in s.backend && s.cache[k].value == s.backend[k]
  }

  /** From a coherent state a healthy read answers exactly what the backend would. */
  lemma CoherentReadAgreesWithBackend(s: State, key: Key, opts: Options)
    requires Coherent(s)
    requires !ReadTtl(opts).IllTyped?
    ensures GetSecret(s, key, opts, Healthy).result == SecretBackend.Get(s.backend, key, Healthy)
  {
  }

  /** Writing an uncached key primes the cache: the next read returns the
      written value from the cache, without a backend call and whatever ttl it passes. */
  lemma PutThenGetIsServedFromCache(s: State, key: Key, value: Secret, putOpts: Options,
                                    getOpts: Options, getFault: Fault)
    requires key !in s.cache
    requires ReadTtl(putOpts) != TtlSeconds(0)
    requires !ReadTtl(getOpts).IllTyped?
    ensures var put := PutSecret(s, key, value, putOpts, Healthy);
            var get := GetSecret(put.next, key, getOpts, getFault);
            && put.result.Success?
            && get.result == Success(value)
            && get.backendCalls == []
            && get.next == put.next
  {
  }

  /** A successful write is never followed by a stale read: whether the write
      evicted or primed the entry, a healthy read returns the new value, even
      if the cache held a stale value before the write. */
  lemma PutThenGetSeesNewValue(s: State, key: Key, value: Secret, putOpts: Options, getOpts: Options)
    requires !ReadTtl(getOpts).IllTyped?
    ensures var put := PutSecret(s, key, value, putOpts, Healthy);
            GetSecret(put.next, key, getOpts, Healthy).result == Success(value)
  {
  }

  /** After a successful delete the key is uncached, so the next read goes to
      the backend (with its options minus ttl) and, the backend having
      dropped the key, reports NotFound when healthy. */
  lemma DeleteThenGetReachesBackend(s: State, key: Key, delOpts: Options, delFault: Fault,
                                    getOpts: Options, getFault: Fault)
    requires !ReadTtl(getOpts).IllTyped?
    ensures var del := DeleteSecret(s, key, delOpts, delFault);
            var get := GetSecret(del.next, key, getOpts, getFault);
            del.result.Success? ==>
              && get.backendCalls == [GetCall(key, WithoutTtl(getOpts))]
              && (getFault.Healthy? ==> get.result == Failure(NotFound))
  {
  }

  /** Deleting a key the backend does not hold reports NotFound both times,
      touches neither store and makes no cache call. */
  lemma DeleteAbsentIsIdempotent(s: State, key: Key, opts: Options)
    requires key !in s.backend
    ensures var first := DeleteSecret(s, key, opts, Healthy);
            var second := DeleteSecret(first.next, key, opts, Healthy);
            && first.result == Failure(NotFound) && second.result == Failure(NotFound)
            && second.next == s
            && first.cacheCalls == [] && second.cacheCalls == []
  {
  }

  /** The usage example: write `baz`, read it with a ttl override and again
      without (the second read comes from the cache), delete it, and the
      final read fails with NotFound from the backend. */
  lemma ExampleSession(s: State)
    ensures var baz := "baz";
            var v := Secret("{\"foo\":\"foobar\"}");
            var put := PutSecret(s, baz, v, map[], Healthy);
            var get1 := GetSecret(put.next, baz, map[TtlKey := IntValue(60000)], Healthy);
            var get2 := GetSecret(get1.next, baz, map[], Healthy);
            var del := DeleteSecret(get2.next, baz, map[], Healthy);
            var get3 := GetSecret(del.next, baz, map[], Healthy);
            && put.result.Success?
            && get1.result == Success(v)
            && (baz !in s.cache ==> get1.backendCalls == [])
            && get2.result == Success(v) && get2.backendCalls == []
            && del.result.Success?
            && get3.result == Failure(NotFound)
  {
  }

  /** A ttl of 0 means opposite things to the two operations: a read miss
      caches the fetched value with an expiry of 0, a write leaves the key uncached. */
  lemma ZeroTtlCachesOnReadNotOnWrite(s: State, key: Key, value: Secret)
    requires key !in s.cache && key in s.backend
    ensures var zero := map[TtlKey := IntValue(0)];
            && GetSecret(s, key, zero, Healthy).next.cache[key] == Entry(s.backend[key], Some(0))
            && key !in PutSecret(s, key, value, zero, Healthy).next.cache
  {
  }
}
