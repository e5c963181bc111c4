/** The read-through test as the adapter writes it: it checks whether the
    item returned by `getItem` is null. A PSR-6 pool never returns null from
    `getItem`, so the miss branch cannot be reached and a cold read returns
    the empty item's null value instead of asking the backend. */
module AsWritten {
  import opened Types
  import opened OptionsBag
  import SecretBackend
  import opened CachePool
  import opened CacheAdapter

  /** `getItem` seen through a nullable reference: PSR-6 always hands out an item. */
  function Lookup(pool: Pool, key: Key): (found: Option<Item>)
    ensures found.Some?
  {
    Some(GetItem(pool, key))
  }

  /** memoize with the null test. On the null branch the callback runs, and
      then `set` is called on the null item. */
  function MemoizeAsWritten(s: State, key: Key, lookup: Option<Item>, rest: Options,
                            ttl: Option<int>, fault: Fault): (r: Step<Option<Secret>>)
    ensures r.next == s
    ensures lookup.Some? ==> r.backendCalls == [] && r.result == Success(lookup.value.value)
    ensures lookup.None? ==> r.backendCalls == [GetCall(key, rest)] && r.result.Failure?
  {
    match lookup
    case Some(item) =>
      Step(Success(item.value), s, [], [GetItemCall(key)])
    case None =>
      match SecretBackend.Get(s.backend, key, fault)
      case Failure(e) => Step(Failure(e), s, [GetCall(key, rest)], [GetItemCall(key)])
      case Success(_) => Step(Failure(NullItem), s, [GetCall(key, rest)], [GetItemCall(key)])
  }

  /** getSecret with the as-written memoize. getSecret is declared to return a
      `Secret`, so a null coming back from memoize is a type error. */
  function GetSecretAsWritten(s: State, key: Key, opts: Options, fault: Fault): (r: Step<Secret>)
    ensures r.backendCalls == [] && r.next == s
    ensures ReadTtl(opts).IllTyped? ==> r.result == Failure(TypeError)
    ensures key in s.cache && !ReadTtl(opts).IllTyped? ==> r.result == Success(s.cache[key].value)
    ensures key !in s.cache ==> r.result == Failure(TypeError)
  {
    var (ttl, rest) := RemoveTtl(opts);
    if ttl.IllTyped? then Step(Failure(TypeError), s, [], [])
    else
      var step := MemoizeAsWritten(s, key, Lookup(s.cache, key), rest, TtlValue(ttl), fault);
      match step.result
      case Success(Some(v)) => Step(Success(v), step.next, step.backendCalls, step.cacheCalls)
      case Success(None) => Step(Failure(TypeError), step.next, step.backendCalls, step.cacheCalls)
      case Failure(e) => Step(Failure(e), step.next, step.backendCalls, step.cacheCalls)
  }

  /** As written, getSecret never calls the backend and never fills the cache;
      a hit returns the cached value, and on a cold cache the empty item's
      null value fails the `Secret` return type. */
  lemma AsWrittenNeverReadsBackend(s: State, key: Key, opts: Options, fault: Fault)
    ensures GetSecretAsWritten(s, key, opts, fault).backendCalls == []
    ensures GetSecretAsWritten(s, key, opts, fault).next == s
    ensures key in s.cache && !ReadTtl(opts).IllTyped? ==>
              GetSecretAsWritten(s, key, opts, fault).result == Success(s.cache[key].value)
    ensures key !in s.cache ==> GetSecretAsWritten(s, key, opts, fault).result == Failure(TypeError)
  {
  }

  /** The discrepancy on one input: a secret the backend holds, an empty
      cache. As written the read fails with a type error without asking the
      backend; the hit test the pool intends (`isHit`) fetches the secret and
      caches it. */
  lemma ColdReadDiscrepancy()
    ensures var s := State(map["db" := Secret("pw")], map[]);
            && GetSecretAsWritten(s, "db", map[], Healthy).result == Failure(TypeError)
            && GetSecretAsWritten(s, "db", map[], Healthy).backendCalls == []
            && GetSecret(s, "db", map[], Healthy).result == Success(Secret("pw"))
            && GetSecret(s, "db", map[], Healthy).backendCalls == [GetCall("db", map[])]
            && GetSecret(s, "db", map[], Healthy).next.cache == map["db" := Entry(Secret("pw"), None)]
  {
  }
}
