/** The cache in front of the backend, following the PSR-6 caching interface:
    a pool of items addressed by key, each with an optional expiry. */
module CachePool {
  import opened Types

  /** A saved entry: the value and the relative lifetime it was saved with
      (`None`: no expiry). Expiry itself is not simulated; an entry present
      in the pool is live. */
  datatype Entry = Entry(value: Secret, expiry: Option<int>)

  type Pool = map<Key, Entry>

  /** The item object `getItem` hands out. It exists even on a miss, with
      `isHit` false and no value. */
  datatype Item = Item(key: Key, value: Option<Secret>, expiry: Option<int>, isHit: bool)

  predicate HasItem(pool: Pool, key: Key)
  {
    key in pool
  }

  function GetItem(pool: Pool, key: Key): Item
  {
    if key in pool then Item(key, Some(pool[key].value), pool[key].expiry, true)
    else Item(key, None, None, false)
  }

  function Set(item: Item, value: Secret): Item
  {
    item.(value := Some(value))
  }

  function ExpiresAfter(item: Item, seconds: int): Item
  {
    item.(expiry := Some(seconds))
  }

  /** Stores an item that has been given a value. */
  function Save(pool: Pool, item: Item): Pool
    requires item.value.Some?
  {
    pool[item.key := Entry(item.value.value, item.expiry)]
  }

  function DeleteItem(pool: Pool, key: Key): Pool
  {
    pool - {key}
  }
}
