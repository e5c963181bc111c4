/** Sequences of calls on the adapter compared with the same calls on a bare
    backend: from a coherent state, caching is invisible to callers. */
module Sessions {
  import opened Types
  import opened OptionsBag
  import SecretBackend
  import opened CachePool
  import opened CacheAdapter
  import opened Consistency

  /** One event in a session: a caller request (with the fault the backend
      shows if the request reaches it), or the pool dropping an entry whose
      lifetime ran out. */
  datatype Request =
    | GetRequest(key: Key, opts: Options, fault: Fault)
    | PutRequest(key: Key, value: Secret, opts: Options, fault: Fault)
    | DeleteRequest(key: Key, opts: Options, fault: Fault)
    | Expire(key: Key)

  datatype Reply = Fetched(secret: Secret) | Done

  /** Requests whose outcome cannot depend on whether the cache answered:
      reads that would reach a healthy backend and carry a well-typed ttl. */
  predicate Answerable(req: Request)
  {
    req.GetRequest? ==> req.fault.Healthy? && !ReadTtl(req.opts).IllTyped?
  }

  function AsReply(r: Result<Secret, Error>): Result<Reply, Error>
  {
    match r
    case Success(v) => Success(Fetched(v))
    case Failure(e) => Failure(e)
  }

  function Acknowledge(r: Result<(), Error>): Result<Reply, Error>
  {
    match r
    case Success(_) => Success(Done)
    case Failure(e) => Failure(e)
  }

  /** The reference: the same request served by the backend alone. */
  function BareApply(store: SecretBackend.Store, req: Request): (SecretBackend.Store, Result<Reply, Error>)
  {
    match req
    case GetRequest(key, _, fault) =>
      (store, AsReply(SecretBackend.Get(store, key, fault)))
    case PutRequest(key, value, _, fault) =>
      (match SecretBackend.Put(store, key, value, fault)
       case Success(next) => (next, Success(Done))
       case Failure(e) => (store, Failure(e)))
    case DeleteRequest(key, _, fault) =>
      (match SecretBackend.Delete(store, key, fault)
       case Success(next) => (next, Success(Done))
       case Failure(e) => (store, Failure(e)))
    case Expire(_) => (store, Success(Done))
  }

  /** One request served by the caching adapter. It keeps the cache coherent.
      Writes, deletes and expiries answer and update the backend exactly as
      the bare backend would from any state; reads do so from a coherent
      state when they reach a healthy backend with an integer or absent ttl. */
  function Apply(s: State, req: Request): (r: (State, Result<Reply, Error>))
    ensures Coherent(s) ==> Coherent(r.0)
    ensures Coherent(s) && Answerable(req) ==> r.0.backend == BareApply(s.backend, req).0
    ensures Coherent(s) && Answerable(req) ==> r.1 == BareApply(s.backend, req).1
    ensures req.Expire? ==> r == (State(s.backend, s.cache - {req.key}), Success(Done))
    ensures !req.GetRequest? ==> r.0.backend == BareApply(s.backend, req).0 && r.1 == BareApply(s.backend, req).1
  {
    match req
    case GetRequest(key, opts, fault) =>
      var step := GetSecret(s, key, opts, fault);
      (step.next, AsReply(step.result))
    case PutRequest(key, value, opts, fault) =>
      var step := PutSecret(s, key, value, opts, fault);
      (step.next, Acknowledge(step.result))
    case DeleteRequest(key, opts, fault) =>
      var step := DeleteSecret(s, key, opts, fault);
      (step.next, Acknowledge(step.result))
    case Expire(key) =>
      (State(s.backend, DeleteItem(s.cache, key)), Success(Done))
  }

  /** A whole session on the adapter: the final state and one reply per request. */
  function Run(s: State, reqs: seq<Request>): (r: (State, seq<Result<Reply, Error>>))
    ensures |r.1| == |reqs|
    ensures Coherent(s) ==> Coherent(r.0)
    decreases |reqs|
  {
    if reqs == [] then (s, [])
    else
      var (next, reply) := Apply(s, reqs[0]);
      var (last, replies) := Run(next, reqs[1..]);
      (last, [reply] + replies)
  }

  /** The same session on the bare backend. */
  function BareRun(store: SecretBackend.Store, reqs: seq<Request>): (SecretBackend.Store, seq<Result<Reply, Error>>)
    decreases |reqs|
  {
    if reqs == [] then (store, [])
    else
      var (next, reply) := BareApply(store, reqs[0]);
      var (last, replies) := BareRun(next, reqs[1..]);
      (last, [reply] + replies)
  }

  /** Caching is transparent: from a coherent state, a session whose reads
      are answerable gets the same replies, and leaves the same backend, as
      the bare backend. */
  lemma {:induction false} RunIsTransparent(s: State, reqs: seq<Request>)
    requires Coherent(s)
    requires forall i :: 0 <= i < |reqs| ==> Answerable(reqs[i])
    ensures Run(s, reqs).1 == BareRun(s.backend, reqs).1
    ensures Run(s, reqs).0.backend == BareRun(s.backend, reqs).0
    decreases |reqs|
  {
    if reqs != [] {
      var (next, _) := Apply(s, reqs[0]);
      assert forall i :: 0 <= i < |reqs[1..]| ==> Answerable(reqs[1..][i]) by {
        forall i | 0 <= i < |reqs[1..]| ensures Answerable(reqs[1..][i]) {
          assert reqs[1..][i] == reqs[i + 1];
        }
      }
      RunIsTransparent(next, reqs[1..]);
    }
  }
}
