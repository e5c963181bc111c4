/** The options bag accompanying every adapter call, and the extraction of its
    one recognised key, `ttl`. */
module OptionsBag {
  import opened Types

  /** Values an option can hold, as far as the adapter distinguishes them. */
  datatype Value = IntValue(n: int) | NullValue | OtherValue(token: string)

  type Options = map<string, Value>

  const TtlKey: string := "ttl"

  /** What the adapter reads under `ttl`. */
  datatype Ttl = NoTtl | TtlSeconds(seconds: int) | IllTyped

  /** The `ttl` entry as read: missing or null is `NoTtl`. */
  function ReadTtl(opts: Options): Ttl
  {
    if TtlKey !in opts then NoTtl
    else match opts[TtlKey]
      case IntValue(n) => TtlSeconds(n)
      case NullValue => NoTtl
      case OtherValue(_) => IllTyped
  }

  /** The integer ttl, if there is one. */
  function TtlValue(t: Ttl): Option<int>
  {
    match t
    case TtlSeconds(n) => Some(n)
    case _ => None
  }

  /** Options with the `ttl` entry taken out: everything the backend receives. */
  function WithoutTtl(opts: Options): Options
  {
    opts - {TtlKey}
  }

  /** Reads `ttl` and returns the rest of the bag, as the array helper's `remove` does. */
  function RemoveTtl(opts: Options): (r: (Ttl, Options))
    ensures TtlKey !in r.1
    ensures r.1.Keys == opts.Keys - {TtlKey}
    ensures forall name :: name in r.1 ==> r.1[name] == opts[name]
    ensures r.0.TtlSeconds? <==> TtlKey in opts && opts[TtlKey].IntValue?
    ensures r.0.TtlSeconds? ==> opts[TtlKey] == IntValue(r.0.seconds)
    ensures r.0.NoTtl? <==> TtlKey !in opts || opts[TtlKey] == NullValue
  {
    (ReadTtl(opts), WithoutTtl(opts))
  }

  /** Taking `ttl` out loses nothing else: putting the entry back restores the bag. */
  lemma RemoveTtlLosesOnlyTtl(opts: Options)
    ensures TtlKey in opts ==> RemoveTtl(opts).1[TtlKey := opts[TtlKey]] == opts
    ensures TtlKey !in opts ==> RemoveTtl(opts).1 == opts
  {
  }
}
