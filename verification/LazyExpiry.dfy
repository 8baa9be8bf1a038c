/** Runs of one TTL store against a store that drops items the instant they expire. */
module LazyExpiry {
  import opened Prelude
  import opened TtlStore

  datatype Op<V> =
    | Get(key: Key)
    | GetWithTTL(key: Key)
    | Set(key: Key, val: V, ttl: int)
    | Delete(key: Key)
    | Clear
    | Tick(elapsed: nat)

  datatype Reply<V> =
    | Got(got: Result<V>)
    | GotTTL(gotTTL: Result<(V, int)>)
    | Done(err: Option<Error>)

  function LazyStep<V>(level: Level<V>, now: int, op: Op<V>): (Level<V>, int, Reply<V>) {
    match op
    case Get(k) => (AfterGet(level, k, now), now, Got(GetResult(level, k, now)))
    case GetWithTTL(k) => (AfterGet(level, k, now), now, GotTTL(GetWithTTLResult(level, k, now)))
    case Set(k, v, ttl) => (AfterSet(level, k, v, ttl, now), now, Done(SetError(ttl)))
    case Delete(k) => (level - {k}, now, Done(None))
    case Clear => (map[], now, Done(None))
    case Tick(d) => (level, now + d, Done(None))
  }

  /** The items that have not expired. An item is still there at its very last instant. */
  function Prune<V>(level: Level<V>, now: int): Level<V> {
    map k | k in level && (level[k].expireAt.None? || now <= level[k].expireAt.value) :: level[k]
  }

  /** The reference store, stated outright: reading is plain map lookup, and time itself removes items. */
  function EagerStep<V>(level: Level<V>, now: int, op: Op<V>): (Level<V>, int, Reply<V>) {
    match op
    case Get(k) => (level, now, Got(if k in level then Ok(level[k].value) else Err(Wrapped(NotFound))))
    case GetWithTTL(k) =>
      (level, now,
       GotTTL(if k !in level then Err(Wrapped(NotFound))
              else if level[k].expireAt.None? then Ok((level[k].value, 0))
              else Ok((level[k].value, level[k].expireAt.value - now))))
    case Set(k, v, ttl) =>
      if ttl < 0 then (level, now, Done(Some(InvalidTTL)))
      else (level[k := Item(v, if ttl == 0 then None else Some(now + ttl))], now, Done(None))
    case Delete(k) => (level - {k}, now, Done(None))
    case Clear => (map[], now, Done(None))
    case Tick(d) => (Prune(level, now + d), now + d, Done(None))
  }

  function LazyRun<V>(level: Level<V>, now: int, ops: seq<Op<V>>): (Level<V>, int, seq<Reply<V>>)
    decreases |ops|
  {
    if ops == [] then (level, now, []) else
      var (l, t, r) := LazyStep(level, now, ops[0]);
      var (l', t', rs) := LazyRun(l, t, ops[1..]);
      (l', t', [r] + rs)
  }

  function EagerRun<V>(level: Level<V>, now: int, ops: seq<Op<V>>): (Level<V>, int, seq<Reply<V>>)
    decreases |ops|
  {
    if ops == [] then (level, now, []) else
      var (l, t, r) := EagerStep(level, now, ops[0]);
      var (l', t', rs) := EagerRun(l, t, ops[1..]);
      (l', t', [r] + rs)
  }

  lemma LazyStepRefinesEager<V>(level: Level<V>, now: int, op: Op<V>)
    ensures var (l, t, r) := LazyStep(level, now, op);
            EagerStep(Prune(level, now), now, op) == (Prune(l, t), t, r)
  {
    var (l, t, r) := LazyStep(level, now, op);
    assert EagerStep(Prune(level, now), now, op).0 == Prune(l, t);
  }

  /** Over every run the lazy store answers exactly as the eager one, and ends with the same live items. */
  lemma {:induction false} LazyExpiryInvisible<V>(level: Level<V>, now: int, ops: seq<Op<V>>)
    ensures var (l, t, rs) := LazyRun(level, now, ops);
            EagerRun(Prune(level, now), now, ops) == (Prune(l, t), t, rs)
    decreases |ops|
  {
    if ops != [] {
      LazyStepRefinesEager(level, now, ops[0]);
      var (l, t, _) := LazyStep(level, now, ops[0]);
      LazyExpiryInvisible(l, t, ops[1..]);
    }
  }

  /**
    A remaining TTL of 0 is documented as "never expires". The store also reports 0 for an item read
    at its very last instant, so 0 means "never" exactly when the item is not in that last instant.
   */
  lemma ZeroTTLIsAmbiguous<V>(level: Level<V>, key: Key, now: int)
    ensures var r := GetWithTTLResult(level, key, now);
            r.Ok? ==> r.value.1 >= 0
                      && (r.value.1 == 0 <==> level[key].expireAt.None? || level[key].expireAt == Some(now))
    ensures GetWithTTLResult(level, key, now).Ok? <==> key in Prune(level, now)
  {
  }
}
