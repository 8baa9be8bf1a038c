/**
  One TTL map with lazy expiry. The clock is an explicit instant in nanoseconds; an item
  without `expireAt` never expires, and an item is still served at its very last instant.
 */
module TtlStore {
  import opened Prelude

  datatype Item<+V> = Item(value: V, expireAt: Option<int>)

  type Level<V> = map<Key, Item<V>>

  predicate Expired<V>(item: Item<V>, now: int) {
    item.expireAt.Some? && now > item.expireAt.value
  }

  /** What a reader can see of a level: the item under the key, unless it has expired. */
  function Live<V>(level: Level<V>, key: Key, now: int): Option<Item<V>> {
    if key in level && !Expired(level[key], now) then Some(level[key]) else None
  }

  function GetResult<V>(level: Level<V>, key: Key, now: int): Result<V> {
    match Live(level, key, now)
    case Some(item) => Ok(item.value)
    case None => Err(Wrapped(NotFound))
  }

  /** A read that finds an expired item deletes it. */
  function AfterGet<V>(level: Level<V>, key: Key, now: int): Level<V> {
    if key in level && Expired(level[key], now) then level - {key} else level
  }

  function Remaining<V>(item: Item<V>, now: int): int {
    match item.expireAt
    case None => 0
    case Some(at) => at - now
  }

  function GetWithTTLResult<V>(level: Level<V>, key: Key, now: int): Result<(V, int)> {
    match Live(level, key, now)
    case Some(item) => Ok((item.value, Remaining(item, now)))
    case None => Err(Wrapped(NotFound))
  }

  function SetError(ttl: int): Option<Error> {
    if ttl < 0 then Some(InvalidTTL) else None
  }

  function NewItem<V>(val: V, ttl: int, now: int): Item<V> {
    Item(val, if ttl > 0 then Some(now + ttl) else None)
  }

  function AfterSet<V>(level: Level<V>, key: Key, val: V, ttl: int, now: int): Level<V> {
    if ttl < 0 then level else level[key := NewItem(val, ttl, now)]
  }

  class SlowMapStore<V> {
    var data: Level<V>

    constructor ()
      ensures data == map[]
    {
      data := map[];
    }

    method Get(key: Key, now: int) returns (r: Result<V>)
      modifies this
      ensures r == GetResult(old(data), key, now)
      ensures data == AfterGet(old(data), key, now)
    {
      if key !in data {
        return Err(Wrapped(NotFound));
      }
      var item := data[key];
      if item.expireAt.Some? && now > item.expireAt.value {
        data := data - {key};
        return Err(Wrapped(NotFound));
      }
      return Ok(item.value);
    }

    method Set(key: Key, val: V, ttl: int, now: int) returns (err: Option<Error>)
      modifies this
      ensures err == SetError(ttl)
      ensures data == AfterSet(old(data), key, val, ttl, now)
    {
      if ttl < 0 {
        return Some(InvalidTTL);
      }
      var item := Item(val, None);
      if ttl > 0 {
        item := item.(expireAt := Some(now + ttl));
      }
      data := data[key := item];
      return None;
    }

    method GetWithTTL(key: Key, now: int) returns (r: Result<(V, int)>)
      modifies this
      ensures r == GetWithTTLResult(old(data), key, now)
      ensures data == AfterGet(old(data), key, now)
    {
      var v := Get(key, now);
      if v.Err? {
        return Err(v.error);
      }
      var item := data[key];
      if item.expireAt.None? {
        return Ok((v.value, 0));
      }
      return Ok((v.value, item.expireAt.value - now));
    }

    method Delete(key: Key)
      modifies this
      ensures data == old(data) - {key}
    {
      data := data - {key};
    }

    method Clear()
      modifies this
      ensures data == map[]
    {
      data := map[];
    }
  }
}
