/**
  Logical expiry: an entry past its logical deadline is still served, once more, while the loader's value
  replaces it. The refresh happens inside Get; GetWithTTL never refreshes.
 */
module LogicExpiry {
  import opened Prelude
  import opened TtlStore
  import opened ExpiryHeader
  import opened Pipeline

  datatype Config = Config(logicTTL: int, hasLoader: bool, writeBackTTL: int)

  predicate PastDeadline<V>(x: LogicValue<V>, now: int) {
    x.expireAt.Some? && now > x.expireAt.value
  }

  /** The value as Set stores it. */
  function Stamped<V>(cfg: Config, val: V, now: int): LogicValue<V> {
    LogicValue(val, if cfg.logicTTL > 0 then Some(now + cfg.logicTTL) else None)
  }

  /** Get calls the loader: it found an entry past its logical deadline, and there is a loader. */
  predicate Refreshes<V, S>(cfg: Config, w: Wire<LogicValue<V>, S>, level: Level<S>, key: Key, now: int) {
    var x := TypedGet(w, level, key, now);
    cfg.hasLoader && x.Ok? && PastDeadline(x.value, now)
  }

  function GetReply<V, S>(w: Wire<LogicValue<V>, S>, level: Level<S>, key: Key, now: int): Result<V> {
    match TypedGet(w, level, key, now)
    case Err(e) => Err(e)
    case Ok(x) => Ok(x.val)
  }

  function GetWithTTLReply<V, S>(w: Wire<LogicValue<V>, S>, level: Level<S>, key: Key, now: int): Result<(V, int)> {
    match TypedGetWithTTL(w, level, key, now)
    case Err(e) => Err(e)
    case Ok((x, ttl)) => Ok((x.val, ttl))
  }

  function AfterLogicSet<V, S>(cfg: Config, w: Wire<LogicValue<V>, S>, level: Level<S>, key: Key, val: V, ttl: int,
                               now: int): Level<S> {
    AfterTypedSet(w, level, key, Stamped(cfg, val, now), ttl, now)
  }

  function AfterLogicGet<V, S>(cfg: Config, w: Wire<LogicValue<V>, S>, level: Level<S>, key: Key, now: int,
                               loaded: Result<V>): Level<S> {
    var read := AfterGet(level, key, now);
    if Refreshes(cfg, w, level, key, now) && loaded.Ok?
    then AfterLogicSet(cfg, w, read, key, loaded.value, cfg.writeBackTTL, now)
    else read
  }

  class LogicTTLDecorator<V, S> {
    const cache: TypedCache<LogicValue<V>, S>
    const cfg: Config

    constructor (cache: TypedCache<LogicValue<V>, S>, cfg: Config)
      ensures this.cache == cache && this.cfg == cfg
    {
      this.cache, this.cfg := cache, cfg;
    }

    /** `loaded` is what the loader returns if it is called. */
    method Get(key: Key, now: int, loaded: Result<V>) returns (r: Result<V>, called: bool)
      modifies cache.store
      ensures r == GetReply(cache.wire, old(cache.store.data), key, now)
      ensures called == Refreshes(cfg, cache.wire, old(cache.store.data), key, now)
      ensures cache.store.data == AfterLogicGet(cfg, cache.wire, old(cache.store.data), key, now, loaded)
    {
      called := false;
      var x := cache.Get(key, now);
      if x.Err? {
        return Err(x.error), false;
      }
      if x.value.expireAt.Some? && now > x.value.expireAt.value {
        called := OnExpire(key, now, loaded);
      }
      r := Ok(x.value.val);
    }

    method OnExpire(key: Key, now: int, loaded: Result<V>) returns (called: bool)
      modifies cache.store
      ensures called == cfg.hasLoader
      ensures cache.store.data ==
              if called && loaded.Ok?
              then AfterLogicSet(cfg, cache.wire, old(cache.store.data), key, loaded.value, cfg.writeBackTTL, now)
              else old(cache.store.data)
    {
      if !cfg.hasLoader {
        return false;
      }
      if loaded.Err? {
        return true;
      }
      var err := Set(key, loaded.value, cfg.writeBackTTL, now);
      return true;
    }

    method GetWithTTL(key: Key, now: int) returns (r: Result<(V, int)>)
      modifies cache.store
      ensures r == GetWithTTLReply(cache.wire, old(cache.store.data), key, now)
      ensures cache.store.data == AfterGet(old(cache.store.data), key, now)
    {
      var x := cache.GetWithTTL(key, now);
      if x.Err? {
        return Err(x.error);
      }
      r := Ok((x.value.0.val, x.value.1));
    }

    method Set(key: Key, val: V, ttl: int, now: int) returns (err: Option<Error>)
      modifies cache.store
      ensures err == TypedSetError(cache.wire, Stamped(cfg, val, now), ttl)
      ensures cache.store.data == AfterLogicSet(cfg, cache.wire, old(cache.store.data), key, val, ttl, now)
    {
      var expireAt := None;
      if cfg.logicTTL > 0 {
        expireAt := Some(now + cfg.logicTTL);
      }
      err := cache.Set(key, LogicValue(val, expireAt), ttl, now);
    }
  }

  // ----- Runs -----

  datatype Event<V> =
    | Get(key: Key, loaded: Result<V>)
    | GetWithTTL(key: Key)
    | Set(key: Key, val: V, ttl: int)
    | Delete(key: Key)
    | Clear
    | Tick(elapsed: nat)

  datatype Reply<V> =
    | Got(got: Result<V>, called: bool)
    | GotTTL(gotTTL: Result<(V, int)>)
    | Done(err: Option<Error>)

  datatype State<S> = State(level: Level<S>, now: int)

  function Step<V, S>(cfg: Config, w: Wire<LogicValue<V>, S>, s: State<S>, e: Event<V>): State<S> {
    match e
    case Get(key, loaded) => s.(level := AfterLogicGet(cfg, w, s.level, key, s.now, loaded))
    case GetWithTTL(key) => s.(level := AfterGet(s.level, key, s.now))
    case Set(key, val, ttl) => s.(level := AfterLogicSet(cfg, w, s.level, key, val, ttl, s.now))
    case Delete(key) => s.(level := s.level - {key})
    case Clear => s.(level := map[])
    case Tick(d) => s.(now := s.now + d)
  }

  function Answer<V, S>(cfg: Config, w: Wire<LogicValue<V>, S>, s: State<S>, e: Event<V>): Reply<V> {
    match e
    case Get(key, _) => Got(GetReply(w, s.level, key, s.now), Refreshes(cfg, w, s.level, key, s.now))
    case GetWithTTL(key) => GotTTL(GetWithTTLReply(w, s.level, key, s.now))
    case Set(key, val, ttl) => Done(TypedSetError(w, Stamped(cfg, val, s.now), ttl))
    case _ => Done(None)
  }

  function Run<V, S>(cfg: Config, w: Wire<LogicValue<V>, S>, s: State<S>, es: seq<Event<V>>): State<S>
    decreases |es|
  {
    if es == [] then s else Run(cfg, w, Step(cfg, w, s, es[0]), es[1..])
  }

  function Answers<V, S>(cfg: Config, w: Wire<LogicValue<V>, S>, s: State<S>, es: seq<Event<V>>): seq<Reply<V>>
    decreases |es|
  {
    if es == [] then []
    else [Answer(cfg, w, s, es[0])] + Answers(cfg, w, Step(cfg, w, s, es[0]), es[1..])
  }

  function Elapsed<V>(es: seq<Event<V>>): nat {
    if es == [] then 0 else (if es[0].Tick? then es[0].elapsed else 0) + Elapsed(es[1..])
  }

  // ----- The byte path is the plain path -----

  /** The coded level holds, key by key, codes of the plain level's values, with the same deadlines. */
  ghost predicate Codes<X, S>(w: Wire<X, S>, plain: Level<X>, coded: Level<S>) {
    && plain.Keys == coded.Keys
    && forall k | k in plain ::
         coded[k].expireAt == plain[k].expireAt && w.dec(coded[k].value) == Ok(plain[k].value)
  }

  /** The value the event may write. */
  function Written<V>(e: Event<V>): Option<V> {
    match e
    case Get(_, loaded) => if loaded.Ok? then Some(loaded.value) else None
    case Set(_, val, _) => Some(val)
    case _ => None
  }

  /** What the event may write can be encoded. */
  predicate Encodes<V, S>(cfg: Config, w: Wire<LogicValue<V>, S>, now: int, e: Event<V>) {
    Written(e).Some? ==> w.enc(Stamped(cfg, Written(e).value, now)).Ok?
  }

  /** What the event may write, if it can be encoded, reads back with its deadline. */
  ghost predicate ReadsBack<V, S>(cfg: Config, w: Wire<LogicValue<V>, S>, now: int, e: Event<V>) {
    Written(e).Some? && w.enc(Stamped(cfg, Written(e).value, now)).Ok? ==>
      w.dec(w.enc(Stamped(cfg, Written(e).value, now)).value) == Ok(Stamped(cfg, Written(e).value, now))
  }

  ghost predicate AllEncode<V, S>(cfg: Config, w: Wire<LogicValue<V>, S>, now: int, es: seq<Event<V>>)
    decreases |es|
  {
    es != [] ==>
      && Encodes(cfg, w, now, es[0])
      && AllEncode(cfg, w, now + if es[0].Tick? then es[0].elapsed else 0, es[1..])
  }

  ghost predicate AllReadBack<V, S>(cfg: Config, w: Wire<LogicValue<V>, S>, now: int, es: seq<Event<V>>)
    decreases |es|
  {
    es != [] ==>
      && ReadsBack(cfg, w, now, es[0])
      && AllReadBack(cfg, w, now + if es[0].Tick? then es[0].elapsed else 0, es[1..])
  }

  lemma ReadsAlike<X, S>(w: Wire<X, S>, plain: Level<X>, coded: Level<S>, key: Key, now: int)
    requires Codes(w, plain, coded)
    ensures TypedGet(Identity(), plain, key, now) == TypedGet(w, coded, key, now)
    ensures TypedGetWithTTL(Identity(), plain, key, now) == TypedGetWithTTL(w, coded, key, now)
    ensures Codes(w, AfterGet(plain, key, now), AfterGet(coded, key, now))
  {
  }

  lemma WritesAlike<V, S>(cfg: Config, w: Wire<LogicValue<V>, S>, plain: Level<LogicValue<V>>, coded: Level<S>,
                          key: Key, val: V, ttl: int, now: int)
    requires Codes(w, plain, coded) && Faithful(w, Stamped(cfg, val, now))
    ensures Codes(w, AfterLogicSet(cfg, Identity(), plain, key, val, ttl, now),
                  AfterLogicSet(cfg, w, coded, key, val, ttl, now))
    ensures TypedSetError(Identity(), Stamped(cfg, val, now), ttl) == TypedSetError(w, Stamped(cfg, val, now), ttl)
  {
  }

  lemma StepKeepsCodes<V, S>(cfg: Config, w: Wire<LogicValue<V>, S>, plain: State<LogicValue<V>>, coded: State<S>,
                             e: Event<V>)
    requires plain.now == coded.now && Codes(w, plain.level, coded.level)
    requires Encodes(cfg, w, plain.now, e) && ReadsBack(cfg, w, plain.now, e)
    ensures var id := Identity<LogicValue<V>>();
            && Codes(w, Step(cfg, id, plain, e).level, Step(cfg, w, coded, e).level)
            && Answer(cfg, id, plain, e) == Answer(cfg, w, coded, e)
  {
    if e.Get? {
      ReadsAlike(w, plain.level, coded.level, e.key, plain.now);
      hide AfterGet, TypedGet;
      if e.loaded.Ok? {
        WritesAlike(cfg, w, AfterGet(plain.level, e.key, plain.now), AfterGet(coded.level, e.key, plain.now), e.key,
                    e.loaded.value, cfg.writeBackTTL, plain.now);
      }
    } else if e.GetWithTTL? {
      ReadsAlike(w, plain.level, coded.level, e.key, plain.now);
    } else if e.Set? {
      WritesAlike(cfg, w, plain.level, coded.level, e.key, e.val, e.ttl, plain.now);
    }
  }

  /**
    Any conversion that encodes what is written, and reads it back, gives the same answers and the same loader
    calls as none, over every run.
   */
  lemma {:induction false} CodedRunsAsPlain<V, S>(cfg: Config, w: Wire<LogicValue<V>, S>,
                                                  plain: State<LogicValue<V>>, coded: State<S>, es: seq<Event<V>>)
    requires plain.now == coded.now && Codes(w, plain.level, coded.level)
    requires AllEncode(cfg, w, plain.now, es) && AllReadBack(cfg, w, plain.now, es)
    ensures var id := Identity<LogicValue<V>>();
            && Answers(cfg, id, plain, es) == Answers(cfg, w, coded, es)
            && Codes(w, Run(cfg, id, plain, es).level, Run(cfg, w, coded, es).level)
    decreases |es|
  {
    if es != [] {
      StepKeepsCodes(cfg, w, plain, coded, es[0]);
      CodedRunsAsPlain(cfg, w, Step(cfg, Identity(), plain, es[0]), Step(cfg, w, coded, es[0]), es[1..]);
    }
  }

  /** A Set is answered alike on both paths exactly when the value can be encoded (or the TTL is refused by both). */
  lemma SetAnswersAlikeIff<V, S>(cfg: Config, w: Wire<LogicValue<V>, S>, plain: State<LogicValue<V>>,
                                 coded: State<S>, key: Key, val: V, ttl: int)
    requires plain.now == coded.now
    ensures var set0: Event<V> := Set(key, val, ttl);
            Answer(cfg, Identity(), plain, set0) == Answer(cfg, w, coded, set0) <==>
              var x := w.enc(Stamped(cfg, val, plain.now));
              x.Ok? || (ttl < 0 && x.error == InvalidTTL)
  {
  }

  /** The built-in adapter for byte values. */
  function HeaderWire(): Wire<LogicValue<Bytes>, Bytes> {
    Wire((x: LogicValue<Bytes>) => Ok(Encode(x)), (raw: Bytes) => Decode(raw))
  }

  /** Every deadline written between the two instants fits the header. */
  predicate DeadlinesFit(cfg: Config, from: int, to: int) {
    cfg.logicTTL > 0 ==> 0 < from + cfg.logicTTL && to + cfg.logicTTL < TWO_63
  }

  /** Over invertible transforms the header gives back every value whose deadline fits it. */
  lemma {:induction false} HeaderReadsBack(cfg: Config, transforms: seq<Transform>, now: int, es: seq<Event<Bytes>>)
    requires forall t | t in transforms :: Invertible(t)
    requires DeadlinesFit(cfg, now, now + Elapsed(es))
    ensures AllReadBack(cfg, ByteWire(HeaderWire(), transforms), now, es)
    decreases |es|
  {
    if es != [] {
      var w := ByteWire(HeaderWire(), transforms);
      if Written(es[0]).Some? {
        var x := Stamped(cfg, Written(es[0]).value, now);
        DecodeEncode(x);
        assert Faithful(HeaderWire(), x);
        if w.enc(x).Ok? {
          WireIsFaithful(HeaderWire(), transforms, x);
        }
      }
      HeaderReadsBack(cfg, transforms, now + if es[0].Tick? then es[0].elapsed else 0, es[1..]);
    }
  }

  /** Transforms that accept all bytes encode everything. */
  lemma {:induction false} TotalTransformsEncode(cfg: Config, transforms: seq<Transform>, now: int,
                                                 es: seq<Event<Bytes>>)
    requires forall t | t in transforms :: Total(t)
    ensures AllEncode(cfg, ByteWire(HeaderWire(), transforms), now, es)
    decreases |es|
  {
    if es != [] {
      if Written(es[0]).Some? {
        StackIsTotal(transforms, Encode(Stamped(cfg, Written(es[0]).value, now)));
      }
      TotalTransformsEncode(cfg, transforms, now + if es[0].Tick? then es[0].elapsed else 0, es[1..]);
    }
  }

  /**
    The byte path, with the expiry header on top of any list of invertible transforms, is the plain path: from
    empty stores, every run whose values the transforms accept and whose deadlines fit the header gets the same
    replies and calls the loader at the same steps.
   */
  lemma BytePathIsPlainPath(cfg: Config, transforms: seq<Transform>, start: int, es: seq<Event<Bytes>>)
    requires forall t | t in transforms :: Invertible(t)
    requires AllEncode(cfg, ByteWire(HeaderWire(), transforms), start, es)
    requires DeadlinesFit(cfg, start, start + Elapsed(es))
    ensures Answers(cfg, Identity(), State(map[], start), es)
         == Answers(cfg, ByteWire(HeaderWire(), transforms), State(map[], start), es)
  {
    HeaderReadsBack(cfg, transforms, start, es);
    CodedRunsAsPlain(cfg, ByteWire(HeaderWire(), transforms), State(map[], start), State(map[], start), es);
  }

  /** Whether a Get calls the loader `wait` after a value was Set for ever at `now`. */
  predicate CallsAfter<S>(cfg: Config, w: Wire<LogicValue<Bytes>, S>, val: Bytes, now: int, wait: nat) {
    Refreshes(cfg, w, AfterLogicSet(cfg, w, map[], "k", val, 0, now), "k", now + wait)
  }

  /** The condition on deadlines is exact: the two paths agree on when to refresh just when the deadline fits. */
  lemma PathsAgreeIffDeadlineFits(cfg: Config, val: Bytes, now: int)
    requires cfg.logicTTL > 0 && cfg.hasLoader
    ensures (forall wait: nat ::
               CallsAfter(cfg, Identity(), val, now, wait) == CallsAfter(cfg, HeaderWire(), val, now, wait)) <==>
            0 < now + cfg.logicTTL < TWO_63
  {
    var deadline, x := now + cfg.logicTTL, Stamped(cfg, val, now);
    DecodeEncode(x);
    var read := Normal(x).expireAt;
    forall wait: nat
      ensures CallsAfter(cfg, Identity(), val, now, wait) <==> now + wait > deadline
      ensures CallsAfter(cfg, HeaderWire(), val, now, wait) <==> read.Some? && now + wait > read.value
    {
    }
    if !(0 < deadline < TWO_63) {
      assert read != Some(deadline);
      var wait: nat := if read.Some? && read.value < deadline then
                         if read.value < now then 0 else read.value - now + 1
                       else cfg.logicTTL + 1;
      assert CallsAfter(cfg, Identity(), val, now, wait) != CallsAfter(cfg, HeaderWire(), val, now, wait);
    }
  }

  // ----- Stale at most once -----

  /** The Get finds an entry, and it is past its logical deadline. */
  predicate ServesStale<V, S>(w: Wire<LogicValue<V>, S>, s: State<S>, e: Event<V>) {
    e.Get? &&
    var x := TypedGet(w, s.level, e.key, s.now);
    x.Ok? && PastDeadline(x.value, s.now)
  }

  /** The refresh succeeds: there is a loader, it returns a value, and the value can be written back. */
  predicate RefreshSucceeds<V, S>(cfg: Config, w: Wire<LogicValue<V>, S>, s: State<S>, e: Event<V>)
    requires e.Get?
  {
    && cfg.hasLoader && e.loaded.Ok?
    && TypedSetError(w, Stamped(cfg, e.loaded.value, s.now), cfg.writeBackTTL) == None
  }

  /** How often Get serves the stored item `item` of `key` past its logical deadline. */
  function StaleServes<V, S(==)>(cfg: Config, w: Wire<LogicValue<V>, S>, s: State<S>, es: seq<Event<V>>, key: Key,
                                 item: Item<S>): nat
    decreases |es|
  {
    if es == [] then 0 else
      (if ServesStale(w, s, es[0]) && es[0].key == key && s.level[key] == item then 1 else 0)
      + StaleServes(cfg, w, Step(cfg, w, s, es[0]), es[1..], key, item)
  }

  /** How often such a Get then fails to refresh. */
  function FailedRefreshes<V, S(==)>(cfg: Config, w: Wire<LogicValue<V>, S>, s: State<S>, es: seq<Event<V>>, key: Key,
                                     item: Item<S>): nat
    decreases |es|
  {
    if es == [] then 0 else
      (if ServesStale(w, s, es[0]) && es[0].key == key && s.level[key] == item
          && !RefreshSucceeds(cfg, w, s, es[0]) then 1 else 0)
      + FailedRefreshes(cfg, w, Step(cfg, w, s, es[0]), es[1..], key, item)
  }

  /** The item is past its deadline, and the store no longer holds it under the key. */
  ghost predicate Replaced<V, S>(w: Wire<LogicValue<V>, S>, s: State<S>, key: Key, item: Item<S>) {
    && w.dec(item.value).Ok? && PastDeadline(w.dec(item.value).value, s.now)
    && (key in s.level ==> s.level[key] != item)
  }

  /** Later writes have later deadlines, or none: the item cannot come back. */
  lemma StepKeepsReplaced<V, S>(cfg: Config, w: Wire<LogicValue<V>, S>, s: State<S>, e: Event<V>, key: Key,
                                item: Item<S>)
    requires Replaced(w, s, key, item) && ReadsBack(cfg, w, s.now, e)
    ensures Replaced(w, Step(cfg, w, s, e), key, item)
  {
  }

  lemma {:induction false} ReplacedIsNeverServed<V, S>(cfg: Config, w: Wire<LogicValue<V>, S>, s: State<S>,
                                                       es: seq<Event<V>>, key: Key, item: Item<S>)
    requires Replaced(w, s, key, item) && AllReadBack(cfg, w, s.now, es)
    ensures StaleServes(cfg, w, s, es, key, item) == 0
    decreases |es|
  {
    if es != [] {
      StepKeepsReplaced(cfg, w, s, es[0], key, item);
      ReplacedIsNeverServed(cfg, w, Step(cfg, w, s, es[0]), es[1..], key, item);
    }
  }

  /** A successful refresh takes the stale item out of the store. */
  lemma RefreshReplaces<V, S>(cfg: Config, w: Wire<LogicValue<V>, S>, s: State<S>, e: Event<V>)
    requires ServesStale(w, s, e) && RefreshSucceeds(cfg, w, s, e) && ReadsBack(cfg, w, s.now, e)
    ensures Replaced(w, Step(cfg, w, s, e), e.key, s.level[e.key])
  {
  }

  /**
    Whatever is in the store, and over every run: Get serves a stored item past its logical deadline at most once
    more than its refresh fails. (No loader, a failing loader and a failing write-back all count as failures.)
   */
  lemma {:induction false} StaleAtMostOnce<V, S>(cfg: Config, w: Wire<LogicValue<V>, S>, s: State<S>,
                                                 es: seq<Event<V>>, key: Key, item: Item<S>)
    requires AllReadBack(cfg, w, s.now, es)
    ensures StaleServes(cfg, w, s, es, key, item) <= 1 + FailedRefreshes(cfg, w, s, es, key, item)
    decreases |es|
  {
    if es != [] {
      var s' := Step(cfg, w, s, es[0]);
      if ServesStale(w, s, es[0]) && es[0].key == key && s.level[key] == item && RefreshSucceeds(cfg, w, s, es[0]) {
        RefreshReplaces(cfg, w, s, es[0]);
        ReplacedIsNeverServed(cfg, w, s', es[1..], key, item);
      } else {
        StaleAtMostOnce(cfg, w, s', es[1..], key, item);
      }
    }
  }

  lemma {:induction false} PlainReadsBack<V>(cfg: Config, now: int, es: seq<Event<V>>)
    ensures AllReadBack(cfg, Identity<LogicValue<V>>(), now, es)
    decreases |es|
  {
    if es != [] {
      PlainReadsBack(cfg, now + if es[0].Tick? then es[0].elapsed else 0, es[1..]);
    }
  }

  /** On the plain path that needs no condition. */
  lemma PlainStaleAtMostOnce<V>(cfg: Config, s: State<LogicValue<V>>, es: seq<Event<V>>, key: Key,
                                item: Item<LogicValue<V>>)
    ensures StaleServes(cfg, Identity(), s, es, key, item) <= 1 + FailedRefreshes(cfg, Identity(), s, es, key, item)
  {
    PlainReadsBack(cfg, s.now, es);
    StaleAtMostOnce(cfg, Identity(), s, es, key, item);
  }

  /** Every refresh of the run succeeds. */
  ghost predicate RefreshesSucceed<V, S>(cfg: Config, w: Wire<LogicValue<V>, S>, s: State<S>, es: seq<Event<V>>)
    decreases |es|
  {
    es != [] ==>
      && (ServesStale(w, s, es[0]) ==> RefreshSucceeds(cfg, w, s, es[0]))
      && RefreshesSucceed(cfg, w, Step(cfg, w, s, es[0]), es[1..])
  }

  lemma {:induction false} NoFailedRefresh<V, S>(cfg: Config, w: Wire<LogicValue<V>, S>, s: State<S>,
                                                 es: seq<Event<V>>, key: Key, item: Item<S>)
    requires RefreshesSucceed(cfg, w, s, es)
    ensures FailedRefreshes(cfg, w, s, es, key, item) == 0
    decreases |es|
  {
    if es != [] {
      NoFailedRefresh(cfg, w, Step(cfg, w, s, es[0]), es[1..], key, item);
    }
  }

  /** When every refresh succeeds, no stored item is served past its deadline twice. */
  lemma StaleOnceWhenRefreshed<V, S>(cfg: Config, w: Wire<LogicValue<V>, S>, s: State<S>, es: seq<Event<V>>,
                                     key: Key, item: Item<S>)
    requires RefreshesSucceed(cfg, w, s, es) && AllReadBack(cfg, w, s.now, es)
    ensures StaleServes(cfg, w, s, es, key, item) <= 1
  {
    StaleAtMostOnce(cfg, w, s, es, key, item);
    NoFailedRefresh(cfg, w, s, es, key, item);
  }

  // ----- The refreshed value is what comes next -----

  /** The events do not write or delete the key, and do not read it through Get. */
  ghost predicate LeavesKey<V>(es: seq<Event<V>>, key: Key) {
    forall e | e in es ::
      match e
      case Get(k, _) => k != key
      case Set(k, _, _) => k != key
      case Delete(k) => k != key
      case Clear => false
      case _ => true
  }

  lemma {:induction false} EntryStays<V, S>(cfg: Config, w: Wire<LogicValue<V>, S>, s: State<S>, es: seq<Event<V>>,
                                            key: Key, item: Item<S>)
    requires LeavesKey(es, key) && key in s.level && s.level[key] == item
    requires !Expired(item, s.now + Elapsed(es))
    ensures var s' := Run(cfg, w, s, es);
            s'.now == s.now + Elapsed(es) && key in s'.level && s'.level[key] == item
    decreases |es|
  {
    if es != [] {
      assert es == [es[0]] + es[1..];
      assert forall e | e in es[1..] :: e in es;
      assert es[0] in es;
      var s1 := Step(cfg, w, s, es[0]);
      assert key in s1.level && s1.level[key] == item;
      EntryStays(cfg, w, s1, es[1..], key, item);
    }
  }

  /**
    After a Get has replaced a stale entry, the next Get of the key, within the physical write-back TTL, serves
    the loaded value, and calls the loader again exactly if the logical TTL has passed since.
   */
  lemma RefreshTakesEffect<V, S>(cfg: Config, w: Wire<LogicValue<V>, S>, s: State<S>, g: Event<V>,
                                 es: seq<Event<V>>)
    requires ServesStale(w, s, g) && RefreshSucceeds(cfg, w, s, g) && ReadsBack(cfg, w, s.now, g)
    requires LeavesKey(es, g.key) && (cfg.writeBackTTL > 0 ==> Elapsed(es) <= cfg.writeBackTTL)
    ensures var s' := Run(cfg, w, Step(cfg, w, s, g), es);
            && GetReply(w, s'.level, g.key, s'.now) == Ok(g.loaded.value)
            && (Refreshes(cfg, w, s'.level, g.key, s'.now) <==> cfg.logicTTL > 0 && Elapsed(es) > cfg.logicTTL)
  {
    var x := Stamped(cfg, g.loaded.value, s.now);
    EntryStays(cfg, w, Step(cfg, w, s, g), es, g.key, NewItem(w.enc(x).value, cfg.writeBackTTL, s.now));
  }

  // ----- What is served meanwhile -----

  /** A write of this value at `now` stores the code `c`, with its logical deadline. */
  predicate Codable<V, S(==)>(cfg: Config, w: Wire<LogicValue<V>, S>, val: V, now: int, c: S) {
    w.enc(LogicValue(val, if cfg.logicTTL > 0 then Some(now + cfg.logicTTL) else None)) == Ok(c)
  }

  /** The write fails: its value cannot be encoded, or its TTL is negative. */
  predicate WriteFails<V, S>(cfg: Config, w: Wire<LogicValue<V>, S>, val: V, ttl: int, now: int) {
    ttl < 0 || w.enc(LogicValue(val, if cfg.logicTTL > 0 then Some(now + cfg.logicTTL) else None)).Err?
  }

  predicate IsStale<V>(x: Result<LogicValue<V>>, now: int) {
    x.Ok? && x.value.expireAt.Some? && now > x.value.expireAt.value
  }

  /**
    The event does not write or delete an entry of the key that decodes to `x`: in particular, a Get that finds it
    past its deadline fails to refresh it, because there is no loader, the loader fails, or the write fails.
   */
  predicate Spares<V, S>(cfg: Config, w: Wire<LogicValue<V>, S>, x: Result<LogicValue<V>>, now: int, e: Event<V>,
                         key: Key) {
    match e
    case Get(k, loaded) =>
      k == key && IsStale(x, now) && cfg.hasLoader && loaded.Ok? ==>
        WriteFails(cfg, w, loaded.value, cfg.writeBackTTL, now)
    case Set(k, val, ttl) => k == key ==> WriteFails(cfg, w, val, ttl, now)
    case Delete(k) => k != key
    case Clear => false
    case _ => true
  }

  predicate AllSpare<V, S>(cfg: Config, w: Wire<LogicValue<V>, S>, x: Result<LogicValue<V>>, now: int,
                           es: seq<Event<V>>, key: Key)
    decreases |es|
  {
    es != [] ==>
      && Spares(cfg, w, x, now, es[0], key)
      && AllSpare(cfg, w, x, now + if es[0].Tick? then es[0].elapsed else 0, es[1..], key)
  }

  /**
    Each Get of the key replies with the value of `x`, or with the error of decoding it, and calls the loader exactly
    when there is one and `x` is past its deadline; each GetWithTTL also replies with the time left until `until`.
   */
  predicate ServedThroughout<V(==)>(cfg: Config, x: Result<LogicValue<V>>, until: Option<int>, now: int,
                                    es: seq<Event<V>>, replies: seq<Reply<V>>, key: Key)
    decreases |es|
  {
    if es == [] then replies == []
    else
      && replies != []
      && (match es[0]
          case Get(k, _) =>
            k == key ==>
              replies[0] == Got(if x.Ok? then Ok(x.value.val) else Err(x.error), cfg.hasLoader && IsStale(x, now))
          case GetWithTTL(k) =>
            k == key ==>
              var left := if until.Some? then until.value - now else 0;
              replies[0] == GotTTL(if x.Ok? then Ok((x.value.val, left)) else Err(x.error))
          case _ => true)
      && ServedThroughout(cfg, x, until, now + if es[0].Tick? then es[0].elapsed else 0, es[1..], replies[1..], key)
  }

  lemma SparedStep<V, S>(cfg: Config, w: Wire<LogicValue<V>, S>, s: State<S>, e: Event<V>, key: Key, item: Item<S>)
    requires key in s.level && s.level[key] == item && !Expired(item, s.now)
    requires Spares(cfg, w, w.dec(item.value), s.now, e, key)
    ensures var s' := Step(cfg, w, s, e);
            && key in s'.level && s'.level[key] == item
            && s'.now == s.now + if e.Tick? then e.elapsed else 0
    ensures ServedThroughout(cfg, w.dec(item.value), item.expireAt, s.now, [e], [Answer(cfg, w, s, e)], key)
  {
    var replies := [Answer(cfg, w, s, e)];
    assert [e][1..] == [] && replies[1..] == [];
  }

  /**
    A failing refresh costs nothing. Over every run in which nobody else writes or deletes the key and in which every
    refresh of it fails, an entry stays exactly as it is until it expires physically, and every Get serves it, however
    stale; and whatever happens to other keys.
   */
  lemma {:induction false} EntryOutlivesFailures<V, S>(cfg: Config, w: Wire<LogicValue<V>, S>, s: State<S>,
                                                      es: seq<Event<V>>, key: Key, item: Item<S>)
    requires key in s.level && s.level[key] == item
    requires AllSpare(cfg, w, w.dec(item.value), s.now, es, key)
    requires item.expireAt.Some? ==> s.now + Elapsed(es) <= item.expireAt.value
    ensures var s' := Run(cfg, w, s, es);
            s'.now == s.now + Elapsed(es) && key in s'.level && s'.level[key] == item
    ensures ServedThroughout(cfg, w.dec(item.value), item.expireAt, s.now, es, Answers(cfg, w, s, es), key)
    decreases |es|
  {
    if es != [] {
      var s', replies := Step(cfg, w, s, es[0]), Answers(cfg, w, s, es);
      SparedStep(cfg, w, s, es[0], key, item);
      assert [es[0]][1..] == [];
      assert replies[0] == Answer(cfg, w, s, es[0]) && replies[1..] == Answers(cfg, w, s', es[1..]);
      hide Step, Answer, Spares;
      EntryOutlivesFailures(cfg, w, s', es[1..], key, item);
    }
  }

  /** So a value that Set stored is served until it expires or is replaced. */
  lemma SetThenServed<V, S>(cfg: Config, w: Wire<LogicValue<V>, S>, s: State<S>, key: Key, val: V, ttl: nat, c: S,
                            es: seq<Event<V>>)
    requires Codable(cfg, w, val, s.now, c) && AllSpare(cfg, w, w.dec(c), s.now, es, key)
    requires ttl > 0 ==> Elapsed(es) <= ttl
    ensures var set0: Event<V> := Set(key, val, ttl);
            var s1 := Step(cfg, w, s, set0);
            && Answer(cfg, w, s, set0) == Done(None)
            && ServedThroughout(cfg, w.dec(c), if ttl > 0 then Some(s.now + ttl) else None, s.now, es,
                                Answers(cfg, w, s1, es), key)
  {
    var s1 := Step(cfg, w, s, Set(key, val, ttl));
    EntryOutlivesFailures(cfg, w, s1, es, key, Item(c, if ttl > 0 then Some(s.now + ttl) else None));
  }

  /** And so is a value that a Get has loaded in place of a stale one. */
  lemma RefreshThenServed<V, S>(cfg: Config, w: Wire<LogicValue<V>, S>, s: State<S>, g: Event<V>, c: S,
                                es: seq<Event<V>>)
    requires g.Get? && g.loaded.Ok? && cfg.hasLoader && cfg.writeBackTTL >= 0
    requires Live(s.level, g.key, s.now).Some? && IsStale(w.dec(s.level[g.key].value), s.now)
    requires Codable(cfg, w, g.loaded.value, s.now, c) && AllSpare(cfg, w, w.dec(c), s.now, es, g.key)
    requires cfg.writeBackTTL > 0 ==> Elapsed(es) <= cfg.writeBackTTL
    ensures var s1 := Step(cfg, w, s, g);
            var until := if cfg.writeBackTTL > 0 then Some(s.now + cfg.writeBackTTL) else None;
            && Answer(cfg, w, s, g) == Got(Ok(w.dec(s.level[g.key].value).value.val), true)
            && ServedThroughout(cfg, w.dec(c), until, s.now, es, Answers(cfg, w, s1, es), g.key)
  {
    var until := if cfg.writeBackTTL > 0 then Some(s.now + cfg.writeBackTTL) else None;
    EntryOutlivesFailures(cfg, w, Step(cfg, w, s, g), es, g.key, Item(c, until));
  }

  /** The event stores nothing under the key, unless through a refresh. */
  predicate StoresNot<V, S>(cfg: Config, w: Wire<LogicValue<V>, S>, now: int, e: Event<V>, key: Key) {
    e.Set? && e.key == key ==> WriteFails(cfg, w, e.val, e.ttl, now)
  }

  ghost predicate NeverStored<V, S>(cfg: Config, w: Wire<LogicValue<V>, S>, now: int, es: seq<Event<V>>, key: Key)
    decreases |es|
  {
    es != [] ==>
      && StoresNot(cfg, w, now, es[0], key)
      && NeverStored(cfg, w, now + if es[0].Tick? then es[0].elapsed else 0, es[1..], key)
  }

  predicate MissedThroughout<V(==)>(es: seq<Event<V>>, replies: seq<Reply<V>>, key: Key) {
    && |replies| == |es|
    && forall i | 0 <= i < |es| ::
         && (es[i].Get? && es[i].key == key ==> replies[i] == Got(Err(Wrapped(NotFound)), false))
         && (es[i].GetWithTTL? && es[i].key == key ==> replies[i] == GotTTL(Err(Wrapped(NotFound))))
  }

  /** A key that is not there stays away until it is Set: every read misses, and none calls the loader. */
  lemma {:induction false} AbsentUntilSet<V, S>(cfg: Config, w: Wire<LogicValue<V>, S>, s: State<S>,
                                               es: seq<Event<V>>, key: Key)
    requires Live(s.level, key, s.now).None? && NeverStored(cfg, w, s.now, es, key)
    ensures var s' := Run(cfg, w, s, es);
            Live(s'.level, key, s'.now).None?
    ensures MissedThroughout(es, Answers(cfg, w, s, es), key)
    decreases |es|
  {
    if es != [] {
      var s' := Step(cfg, w, s, es[0]);
      assert Live(s'.level, key, s'.now).None?;
      AbsentUntilSet(cfg, w, s', es[1..], key);
      var replies := Answers(cfg, w, s, es);
      assert replies[1..] == Answers(cfg, w, s', es[1..]) && replies[0] == Answer(cfg, w, s, es[0]);
      assert forall i | 1 <= i < |es| :: replies[i] == replies[1..][i - 1] && es[i] == es[1..][i - 1];
    }
  }

  /** So it is after Delete or Clear. */
  lemma DeletedIsMissed<V, S>(cfg: Config, w: Wire<LogicValue<V>, S>, s: State<S>, e: Event<V>, es: seq<Event<V>>,
                              key: Key)
    requires (e == Delete(key) || e == Clear) && NeverStored(cfg, w, s.now, es, key)
    ensures Answer(cfg, w, s, e) == Done(None)
    ensures MissedThroughout(es, Answers(cfg, w, Step(cfg, w, s, e), es), key)
  {
    AbsentUntilSet(cfg, w, Step(cfg, w, s, e), es, key);
  }

  // ----- Refresh spacing -----

  /** The event calls the loader for the key. */
  predicate Calls<V, S>(cfg: Config, w: Wire<LogicValue<V>, S>, s: State<S>, e: Event<V>, key: Key) {
    e.Get? && e.key == key && Refreshes(cfg, w, s.level, key, s.now)
  }

  /** How often the run calls the loader for the key. */
  function RefreshCalls<V, S>(cfg: Config, w: Wire<LogicValue<V>, S>, s: State<S>, es: seq<Event<V>>, key: Key): nat
    decreases |es|
  {
    if es == [] then 0 else
      (if Calls(cfg, w, s, es[0], key) then 1 else 0) + RefreshCalls(cfg, w, Step(cfg, w, s, es[0]), es[1..], key)
  }

  /** How many of these calls replace nothing: the loader fails, or what it returns cannot be written back. */
  function VainCalls<V, S>(cfg: Config, w: Wire<LogicValue<V>, S>, s: State<S>, es: seq<Event<V>>, key: Key): nat
    decreases |es|
  {
    if es == [] then 0 else
      (if Calls(cfg, w, s, es[0], key) && !RefreshSucceeds(cfg, w, s, es[0]) then 1 else 0)
      + VainCalls(cfg, w, Step(cfg, w, s, es[0]), es[1..], key)
  }

  /** What the level holds under the key, if anything, is not past its logical deadline before `x`. */
  predicate FreshUntil<V, S>(w: Wire<LogicValue<V>, S>, level: Level<S>, key: Key, x: int) {
    key in level ==>
      var r := w.dec(level[key].value);
      r.Ok? && r.value.expireAt.Some? ==> x <= r.value.expireAt.value
  }

  /** One event: who calls the loader, and how fresh the entry is afterwards. No write makes it less fresh. */
  lemma FreshStep<V, S>(cfg: Config, w: Wire<LogicValue<V>, S>, s: State<S>, e: Event<V>, key: Key, m: nat, x: int)
    requires ReadsBack(cfg, w, s.now, e) && (cfg.logicTTL > 0 ==> m <= cfg.logicTTL)
    ensures var s' := Step(cfg, w, s, e);
            && (FreshUntil(w, s.level, key, x) && s.now <= x ==> !Calls(cfg, w, s, e, key))
            && (FreshUntil(w, s.level, key, x) && x <= s.now + m ==> FreshUntil(w, s'.level, key, x))
            && (Calls(cfg, w, s, e, key) && RefreshSucceeds(cfg, w, s, e) ==> FreshUntil(w, s'.level, key, s.now + m))
            && s'.now == s.now + if e.Tick? then e.elapsed else 0
  {
  }

  /**
    The count behind the bound, with `n` calls, `d` of them in vain: `(n - d - 1) * (m + 1)` is at most the time that
    passes; and if the entry is fresh until `x`, `(n - d) * (m + 1)` is at most the time that passes after `x - m`.
   */
  lemma {:induction false} RefreshSpacing<V, S>(cfg: Config, w: Wire<LogicValue<V>, S>, s: State<S>,
                                                es: seq<Event<V>>, key: Key, m: nat, x: int)
    requires AllReadBack(cfg, w, s.now, es) && (cfg.logicTTL > 0 ==> m <= cfg.logicTTL)
    ensures var n, d := RefreshCalls(cfg, w, s, es, key), VainCalls(cfg, w, s, es, key);
            && (n - d - 1) * (m + 1) <= Elapsed(es)
            && (FreshUntil(w, s.level, key, x) && s.now <= x <= s.now + m ==>
                  (n - d) * (m + 1) <= s.now + Elapsed(es) - (x - m))
    decreases |es|
  {
    var n, d := RefreshCalls(cfg, w, s, es, key), VainCalls(cfg, w, s, es, key);
    if es == [] {
      assert (n - d - 1) * (m + 1) == -(m + 1);
    } else {
      var s' := Step(cfg, w, s, es[0]);
      FreshStep(cfg, w, s, es[0], key, m, x);
      hide Step, FreshUntil, Calls, RefreshSucceeds, ReadsBack;
      var n', d' := RefreshCalls(cfg, w, s', es[1..], key), VainCalls(cfg, w, s', es[1..], key);
      RefreshSpacing(cfg, w, s', es[1..], key, m, x);
      RefreshSpacing(cfg, w, s', es[1..], key, m, s.now + m);
      assert (n - d) * (m + 1) == (n - d - 1) * (m + 1) + (m + 1);
      assert (n' - d') * (m + 1) == (n' - d' - 1) * (m + 1) + (m + 1);
      assert (n' - d' - 1) * (m + 1) == (n' - d' - 2) * (m + 1) + (m + 1);
    }
  }

  /**
    Refresh spacing. Over every run of length `L`, from any store, the loader is called for one key at most
    `1 + d + L / (m + 1)` times, where `d` counts the calls that replace nothing and `m` is the logical TTL. (With no
    logical TTL the bound holds for every `m`.) Sets, deletes and physical expiry never add a call.
   */
  lemma RefreshCallsBounded<V, S>(cfg: Config, w: Wire<LogicValue<V>, S>, s: State<S>, es: seq<Event<V>>, key: Key,
                                  m: nat)
    requires AllReadBack(cfg, w, s.now, es) && (cfg.logicTTL > 0 ==> m <= cfg.logicTTL)
    ensures RefreshCalls(cfg, w, s, es, key) <= 1 + VainCalls(cfg, w, s, es, key) + Elapsed(es) / (m + 1)
  {
    RefreshSpacing(cfg, w, s, es, key, m, 0);
    var k := RefreshCalls(cfg, w, s, es, key) - VainCalls(cfg, w, s, es, key) - 1;
    if k > Elapsed(es) / (m + 1) {
      BeyondQuotient(k, m + 1, Elapsed(es));
    }
  }

  /** One read every `m + 1` nanoseconds. */
  function Poll<V>(key: Key, val: V, m: nat, n: nat): seq<Event<V>> {
    if n == 0 then [Get(key, Ok(val))] else [Get(key, Ok(val)), Tick(m + 1)] + Poll(key, val, m, n - 1)
  }

  /** The bound is attained: from a stale entry on, `n` such intervals make `n + 1` calls, none of them in vain. */
  lemma {:induction false} RefreshBoundIsAttained<V>(cfg: Config, s: State<LogicValue<V>>, key: Key, val: V, n: nat)
    requires cfg.logicTTL > 0 && (cfg.writeBackTTL == 0 || cfg.writeBackTTL > cfg.logicTTL)
    requires Refreshes(cfg, Identity<LogicValue<V>>(), s.level, key, s.now)
    ensures var es, w := Poll(key, val, cfg.logicTTL, n), Identity<LogicValue<V>>();
            && RefreshCalls(cfg, w, s, es, key) == n + 1 && VainCalls(cfg, w, s, es, key) == 0
            && Elapsed(es) == n * (cfg.logicTTL + 1)
    decreases n
  {
    var m, w := cfg.logicTTL, Identity<LogicValue<V>>();
    var get: Event<V> := Get(key, Ok(val));
    var s1 := Step(cfg, w, s, get);
    assert s1.level[key] == NewItem(Stamped(cfg, val, s.now), cfg.writeBackTTL, s.now);
    assert RefreshSucceeds(cfg, w, s, get);
    var es := Poll(key, val, m, n);
    if n == 0 {
      assert es[1..] == [];
    } else {
      var rest := Poll(key, val, m, n - 1);
      var tick: Event<V> := Tick(m + 1);
      assert es[1..] == [tick] + rest && es[1..][1..] == rest;
      RefreshBoundIsAttained(cfg, Step(cfg, w, s1, tick), key, val, n - 1);
      assert n * (m + 1) == (n - 1) * (m + 1) + (m + 1);
    }
  }
}
