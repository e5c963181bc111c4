/** The caching adapter: the same get/put/delete interface as the backend,
    with read-through caching on get and write-through followed by
    eviction or priming on put and delete. Each operation is a transition of
    the pair (backend, cache) that also reports the collaborator calls it made. */
module CacheAdapter {
  import opened Types
  import opened OptionsBag
  import SecretBackend
  import opened CachePool

  datatype State = State(backend: SecretBackend.Store, cache: Pool)

  /** A call the adapter made on the backend, with the options it passed. */
  datatype BackendCall =
    | GetCall(key: Key, options: Options)
    | PutCall(key: Key, value: Secret, options: Options)
    | DeleteCall(key: Key, options: Options)

  /** A call the adapter made on the cache pool. */
  datatype CacheCall =
    | HasItemCall(key: Key)
    | GetItemCall(key: Key)
    | SaveCall(key: Key, entry: Entry)
    | DeleteItemCall(key: Key)

  /** What one adapter operation produces. */
  datatype Step<+T> = Step(result: Result<T, Error>, next: State,
                           backendCalls: seq<BackendCall>, cacheCalls: seq<CacheCall>)

  /** Read-through: answer from the cache on a hit; on a miss fetch from the
      backend, save the value (with an expiry whenever a ttl is given, zero
      included) and return it. */
  function Memoize(s: State, key: Key, rest: Options, ttl: Option<int>, fault: Fault): (r: Step<Secret>)
    ensures r.next.backend == s.backend
    ensures r.next.cache - {key} == s.cache - {key}
    ensures key in s.cache ==> r == Step(Success(s.cache[key].value), s, [], [GetItemCall(key)])
    ensures key !in s.cache ==> r.backendCalls == [GetCall(key, rest)]
    ensures key !in s.cache ==> r.result == SecretBackend.Get(s.backend, key, fault)
    ensures key !in s.cache ==> (r.result.Success? <==> fault.Healthy? && key in s.backend)
    ensures key !in s.cache && r.result.Success? ==>
              && r.result.value == s.backend[key]
              && r.next.cache == s.cache[key := Entry(s.backend[key], ttl)]
    ensures r.result.Failure? ==> r.next == s
  {
    var item := GetItem(s.cache, key);
    if item.isHit then
      Step(Success(item.value.value), s, [], [GetItemCall(key)])
    else
      match SecretBackend.Get(s.backend, key, fault)
      case Failure(e) =>
        Step(Failure(e), s, [GetCall(key, rest)], [GetItemCall(key)])
      case Success(fetched) =>
        var filled := Set(item, fetched);
        var timed := if ttl.Some? then ExpiresAfter(filled, ttl.value) else filled;
        Step(Success(fetched), State(s.backend, Save(s.cache, timed)),
             [GetCall(key, rest)], [GetItemCall(key), SaveCall(key, Entry(fetched, timed.expiry))])
  }

  /** getSecret: takes `ttl` out of the options and reads through the cache. */
  function GetSecret(s: State, key: Key, opts: Options, fault: Fault): (r: Step<Secret>)
    ensures r.next.backend == s.backend
    ensures r.next.cache - {key} == s.cache - {key}
    ensures ReadTtl(opts).IllTyped? ==> r.result == Failure(TypeError) && r.next == s
    ensures ReadTtl(opts).IllTyped? ==> r.backendCalls == [] && r.cacheCalls == []
    ensures !ReadTtl(opts).IllTyped? && key in s.cache ==>
              && r.result == Success(s.cache[key].value)
              && r.next == s
              && r.backendCalls == []
    ensures !ReadTtl(opts).IllTyped? && key !in s.cache ==>
              && r.backendCalls == [GetCall(key, WithoutTtl(opts))]
              && r.result == SecretBackend.Get(s.backend, key, fault)
              && (r.result.Success? <==> fault.Healthy? && key in s.backend)
    ensures !ReadTtl(opts).IllTyped? && key !in s.cache && r.result.Success? ==>
              && r.result.value == s.backend[key]
              && r.next.cache == s.cache[key := Entry(s.backend[key], TtlValue(ReadTtl(opts)))]
    ensures r.result.Failure? ==> r.next == s
  {
    var (ttl, rest) := RemoveTtl(opts);
    if ttl.IllTyped? then Step(Failure(TypeError), s, [], [])
    else Memoize(s, key, rest, TtlValue(ttl), fault)
  }

  /** putSecret: write through to the backend first; then evict the cache
      entry if there was one or the ttl is 0, otherwise prime the cache with
      the written value, attaching an expiry only for a non-empty ttl. */
  function PutSecret(s: State, key: Key, value: Secret, opts: Options, fault: Fault): (r: Step<()>)
    ensures r.backendCalls == [PutCall(key, value, WithoutTtl(opts))]
    ensures r.result.Success? <==> fault.Healthy?
    ensures r.result.Failure? ==> r.next == s && r.cacheCalls == []
    ensures r.result.Failure? ==> Failure(r.result.error) == SecretBackend.Put(s.backend, key, value, fault)
    ensures r.result.Success? ==> r.next.backend == s.backend[key := value]
    ensures r.next.cache - {key} == s.cache - {key}
    ensures r.result.Success? && (key in s.cache || ReadTtl(opts) == TtlSeconds(0)) ==>
              && key !in r.next.cache
              && r.cacheCalls == [HasItemCall(key), DeleteItemCall(key)]
    ensures r.result.Success? && key !in s.cache && ReadTtl(opts) != TtlSeconds(0) ==>
              r.next.cache == s.cache[key := Entry(value, TtlValue(ReadTtl(opts)))]
    ensures DeleteItemCall(key) in r.cacheCalls <==>
              r.result.Success? && (key in s.cache || ReadTtl(opts) == TtlSeconds(0))
  {
    var (ttl, rest) := RemoveTtl(opts);
    match SecretBackend.Put(s.backend, key, value, fault)
    case Failure(e) =>
      Step(Failure(e), s, [PutCall(key, value, rest)], [])
    case Success(written) =>
      if HasItem(s.cache, key) || ttl == TtlSeconds(0) then
        Step(Success(()), State(written, DeleteItem(s.cache, key)),
             [PutCall(key, value, rest)], [HasItemCall(key), DeleteItemCall(key)])
      else
        var filled := Set(GetItem(s.cache, key), value);
        var timed := if ttl.TtlSeconds? && ttl.seconds != 0 then ExpiresAfter(filled, ttl.seconds) else filled;
        Step(Success(()), State(written, Save(s.cache, timed)),
             [PutCall(key, value, rest)],
             [HasItemCall(key), GetItemCall(key), SaveCall(key, Entry(value, timed.expiry))])
  }

  /** deleteSecret: delete from the backend with the options untouched; on
      success evict the cache entry if there is one. */
  function DeleteSecret(s: State, key: Key, opts: Options, fault: Fault): (r: Step<()>)
    ensures r.backendCalls == [DeleteCall(key, opts)]
    ensures r.result.Success? <==> fault.Healthy? && key in s.backend
    ensures r.result.Failure? ==> r.next == s && r.cacheCalls == []
    ensures r.result.Failure? ==> Failure(r.result.error) == SecretBackend.Delete(s.backend, key, fault)
    ensures r.result.Success? ==> r.next.backend == s.backend - {key} && key !in r.next.cache
    ensures r.next.cache - {key} == s.cache - {key}
    ensures DeleteItemCall(key) in r.cacheCalls <==> r.result.Success? && key in s.cache
  {
    match SecretBackend.Delete(s.backend, key, fault)
    case Failure(e) =>
      Step(Failure(e), s, [DeleteCall(key, opts)], [])
    case Success(remaining) =>
      if HasItem(s.cache, key) then
        Step(Success(()), State(remaining, DeleteItem(s.cache, key)),
             [DeleteCall(key, opts)], [HasItemCall(key), DeleteItemCall(key)])
      else
        Step(Success(()), State(remaining, s.cache), [DeleteCall(key, opts)], [HasItemCall(key)])
  }
}
