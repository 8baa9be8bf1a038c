/**
  From the staged features to the innermost cache: which path is compiled, which adapter stands between the
  values and the bytes, and which combinations are refused.
 */
module Compile {
  import opened Prelude
  import opened ExpiryHeader
  import opened Pipeline
  import opened TtlStore
  import LogicExpiry

  /** A codec converts plain values and values with a logical expiry alike. */
  datatype Codec<!V> = Codec(plain: Wire<V, Bytes>, logic: Wire<LogicValue<V>, Bytes>)

  /** What is built in for `V = []byte`: passing bytes through, and the expiry header. */
  datatype BytesSupport<!V> = BytesSupport(passThrough: Wire<V, Bytes>, header: Wire<LogicValue<V>, Bytes>)

  datatype Logic = Logic(enabled: bool, logicTTL: int, writeBackTTL: int, bytesAdapter: bool)

  /**
    Transforms and the type adapter are given by constructors, which may fail; the fields hold what these return.
    `bytes` is present exactly when the value type is `[]byte`.
   */
  datatype Stages<!V> = Stages(
    factoryCustomized: bool,
    codec: Option<Codec<V>>,
    typeAdapter: Option<Result<Wire<V, Bytes>>>,
    transforms: seq<Result<Transform>>,
    logic: Logic,
    bytes: Option<BytesSupport<V>>)

  datatype Factory = Given | LogicFactory | TypedFactory

  /** The innermost cache a factory makes. */
  datatype Plan<!V> =
    | Custom
    | PlainTyped
    | TypedBytes(typed: Wire<V, Bytes>)
    | LogicPlain
    | LogicBytes(logical: Wire<LogicValue<V>, Bytes>)

  predicate RequiresBytePath<V>(s: Stages<V>) {
    |s.transforms| > 0 || s.codec.Some? || s.typeAdapter.Some?
  }

  predicate HasStagedFeatures<V>(s: Stages<V>) {
    s.logic.enabled || s.codec.Some? || s.typeAdapter.Some? || |s.transforms| > 0
  }

  predicate TTLsValid(l: Logic) {
    l.logicTTL >= 0 && l.writeBackTTL >= 0
  }

  function AdaptBytesToType<V>(s: Stages<V>, transforms: seq<Transform>): Result<Plan<V>> {
    if s.typeAdapter.Some? then
      var adapter := s.typeAdapter.value;
      if adapter.Err? then Err(adapter.error) else Ok(TypedBytes(ByteWire(adapter.value, transforms)))
    else if s.codec.Some? then Ok(TypedBytes(ByteWire(s.codec.value.plain, transforms)))
    else if s.bytes.Some? then Ok(TypedBytes(ByteWire(s.bytes.value.passThrough, transforms)))
    else Err(Misconfigured)
  }

  function AdaptBytesToLogicWire<V>(s: Stages<V>, transforms: seq<Transform>): Result<Plan<V>> {
    if s.codec.Some? then Ok(LogicBytes(ByteWire(s.codec.value.logic, transforms)))
    else if s.bytes.Some? && s.logic.bytesAdapter then Ok(LogicBytes(ByteWire(s.bytes.value.header, transforms)))
    else Err(Misconfigured)
  }

  function Make<V>(s: Stages<V>, f: Factory): Result<Plan<V>> {
    if f.Given? then Ok(Custom)
    else if !RequiresBytePath(s) then Ok(if f.LogicFactory? then LogicPlain else PlainTyped)
    else match Constructed(s.transforms)
      case Err(e) => Err(e)
      case Ok(transforms) =>
        if f.LogicFactory? then AdaptBytesToLogicWire(s, transforms) else AdaptBytesToType(s, transforms)
  }

  /** The combinations that compilation itself refuses. */
  predicate Refused<V>(s: Stages<V>) {
    if s.factoryCustomized then HasStagedFeatures(s) else s.logic.enabled && !TTLsValid(s.logic)
  }

  function Compiled<V>(s: Stages<V>): Result<Plan<V>> {
    if Refused(s) then Err(if s.factoryCustomized then Misconfigured else InvalidTTL)
    else Make(s, if s.factoryCustomized then Given else if s.logic.enabled then LogicFactory else TypedFactory)
  }

  /** Everything that converts gives back what it accepts. */
  ghost predicate AllInvertible<V(!new)>(s: Stages<V>) {
    && (s.codec.Some? ==> Invertible(s.codec.value.plain) && Invertible(s.codec.value.logic))
    && (s.typeAdapter.Some? && s.typeAdapter.value.Ok? ==> Invertible(s.typeAdapter.value.value))
    && (s.bytes.Some? ==> Invertible(s.bytes.value.passThrough))
    && TransformsInvertible(s)
  }

  ghost predicate TransformsInvertible<V>(s: Stages<V>) {
    forall m | m in s.transforms && m.Ok? :: Invertible(m.value)
  }

  lemma ByteWireInvertible<X(!new)>(adapter: Wire<X, Bytes>, transforms: seq<Transform>)
    requires Invertible(adapter) && forall t | t in transforms :: Invertible(t)
    ensures Invertible(ByteWire(adapter, transforms))
  {
    var w := ByteWire(adapter, transforms);
    forall x | w.enc(x).Ok?
      ensures Faithful(w, x)
    {
      WireIsFaithful(adapter, transforms, x);
    }
  }

  lemma ConstructedInvertible<V>(s: Stages<V>)
    requires TransformsInvertible(s) && Constructed(s.transforms).Ok?
    ensures forall t | t in Constructed(s.transforms).value :: Invertible(t)
  {
    var transforms := Constructed(s.transforms).value;
    forall t | t in transforms
      ensures Invertible(t)
    {
      var i :| 0 <= i < |transforms| && transforms[i] == t;
      assert s.transforms[i] == Ok(t) && s.transforms[i] in s.transforms;
    }
  }

  /**
    Whatever compiles gives back what it stores: over any choice of codec, adapter and transforms that are each
    invertible. The header's own part holds for the values whose deadline it can represent.
   */
  lemma CompiledIsInvertible<V(!new)>(s: Stages<V>)
    requires AllInvertible(s)
    ensures Compiled(s).Ok? ==>
              match Compiled(s).value
              case TypedBytes(w) => Invertible(w)
              case LogicBytes(w) =>
                && (s.codec.Some? ==> Invertible(w))
                && (forall x | s.codec.None? && Faithful(s.bytes.value.header, x) && w.enc(x).Ok? :: Faithful(w, x))
              case _ => true
  {
    if Compiled(s).Ok? && (Compiled(s).value.TypedBytes? || Compiled(s).value.LogicBytes?) {
      ConstructedInvertible(s);
      var transforms := Constructed(s.transforms).value;
      if Compiled(s).value.TypedBytes? {
        ByteWireInvertible(if s.typeAdapter.Some? then s.typeAdapter.value.value
                           else if s.codec.Some? then s.codec.value.plain else s.bytes.value.passThrough, transforms);
      } else if s.codec.Some? {
        ByteWireInvertible(s.codec.value.logic, transforms);
      } else {
        var header := s.bytes.value.header;
        forall x | Faithful(header, x) && ByteWire(header, transforms).enc(x).Ok?
          ensures Faithful(ByteWire(header, transforms), x)
        {
          WireIsFaithful(header, transforms, x);
        }
      }
    }
  }

  /**
    Which cache is compiled: the caller's own if a factory was given; otherwise the logical-expiry cache exactly when
    logical expiry is on; and the byte path exactly when there is a transform, a codec or a type adapter.
   */
  lemma CompiledIs<V>(s: Stages<V>)
    requires Compiled(s).Ok?
    ensures var plan, bytePath := Compiled(s).value, s.transforms != [] || s.codec.Some? || s.typeAdapter.Some?;
            if s.factoryCustomized then plan == Custom
            else if !bytePath then plan == if s.logic.enabled then LogicPlain else PlainTyped
            else if s.logic.enabled then plan.LogicBytes? else plan.TypedBytes?
    ensures Compiled(s).value.TypedBytes? || Compiled(s).value.LogicBytes? ==>
              |Constructed(s.transforms).value| == |s.transforms| &&
              forall i | 0 <= i < |s.transforms| :: s.transforms[i] == Ok(Constructed(s.transforms).value[i])
  {
  }

  /** The conversion is the adapter with all the transforms below it. */
  ghost predicate IsPipeline<X(!new)>(w: Wire<X, Bytes>, adapter: Wire<X, Bytes>, transforms: seq<Transform>) {
    && (forall x :: w.enc(x) == match adapter.enc(x)
                                case Err(e) => Err(e)
                                case Ok(b) => Composed(transforms, b))
    && (forall raw :: w.dec(raw) == match Decomposed(transforms, raw)
                                    case Err(e) => Err(e)
                                    case Ok(b) => adapter.dec(b))
  }

  lemma ByteWireIsPipeline<X(!new)>(adapter: Wire<X, Bytes>, transforms: seq<Transform>)
    ensures IsPipeline(ByteWire(adapter, transforms), adapter, transforms)
  {
    forall x | adapter.enc(x).Ok? {
      StoredBytes(transforms, adapter.enc(x).value);
    }
    forall raw {
      ReadBytes(transforms, raw);
    }
  }

  /**
    What a compiled byte path does: it applies every declared transform, `E_1(... E_n(adapter(x)))`, and the adapter
    is the type adapter if there is one, else the codec, else what is built in for bytes. Under logical expiry it is
    the codec, or else the header.
   */
  lemma CompiledConverts<V(!new)>(s: Stages<V>)
    requires Compiled(s).Ok?
    ensures match Compiled(s).value
            case TypedBytes(w) =>
              var adapter := if s.typeAdapter.Some? then s.typeAdapter.value
                             else if s.codec.Some? then Ok(s.codec.value.plain)
                             else if s.bytes.Some? then Ok(s.bytes.value.passThrough) else Err(Misconfigured);
              adapter.Ok? && IsPipeline(w, adapter.value, Constructed(s.transforms).value)
            case LogicBytes(w) =>
              var adapter := if s.codec.Some? then Some(s.codec.value.logic)
                             else if s.bytes.Some? && s.logic.bytesAdapter then Some(s.bytes.value.header) else None;
              adapter.Some? && IsPipeline(w, adapter.value, Constructed(s.transforms).value)
            case _ => true
  {
    if Compiled(s).value.TypedBytes? {
      var adapter := if s.typeAdapter.Some? then s.typeAdapter.value.value
                     else if s.codec.Some? then s.codec.value.plain else s.bytes.value.passThrough;
      ByteWireIsPipeline(adapter, Constructed(s.transforms).value);
    } else if Compiled(s).value.LogicBytes? {
      var adapter := if s.codec.Some? then s.codec.value.logic else s.bytes.value.header;
      ByteWireIsPipeline(adapter, Constructed(s.transforms).value);
    }
  }

  /**
    A successful Set through a compiled cache over bytes stores the value as all the transforms encode it, and Get and
    GetWithTTL give it back, with the store's remaining time, until it expires.
   */
  lemma CompiledRoundTrip<V(!new)>(s: Stages<V>, level: Level<Bytes>, key: Key, x: V, ttl: int, now: int, later: int)
    requires AllInvertible(s) && Compiled(s).Ok? && Compiled(s).value.TypedBytes?
    requires TypedSetError(Compiled(s).value.typed, x, ttl) == None
    requires now <= later && (ttl > 0 ==> later <= now + ttl)
    ensures var w := Compiled(s).value.typed;
            var after := AfterTypedSet(w, level, key, x, ttl, now);
            && key in after && w.enc(x) == Ok(after[key].value)
            && TypedGet(w, after, key, later) == Ok(x)
            && TypedGetWithTTL(w, after, key, later) == Ok((x, if ttl > 0 then now + ttl - later else 0))
  {
    CompiledIsInvertible(s);
    assert Faithful(Compiled(s).value.typed, x);
  }

  /** When compilation fails, in terms of what the caller configured. */
  lemma CompileFailsIff<V>(s: Stages<V>)
    ensures Compiled(s).Err? <==>
            if s.factoryCustomized then HasStagedFeatures(s)
            else || (s.logic.enabled && (s.logic.logicTTL < 0 || s.logic.writeBackTTL < 0))
                 || (exists m | m in s.transforms :: m.Err?)
                 || (!s.logic.enabled && s.typeAdapter.Some? && s.typeAdapter.value.Err?)
                 || (s.codec.None? && (s.transforms != [] || s.typeAdapter.Some?)
                     && if s.logic.enabled then s.bytes.None? || !s.logic.bytesAdapter
                        else s.bytes.None? && s.typeAdapter.None?)
  {
  }

  /**
    And with which error: a refused combination with its own; otherwise that of the first transform constructor that
    fails, then that of the type adapter's constructor, and only a missing adapter is a configuration error.
   */
  lemma CompileErrorIs<V>(s: Stages<V>)
    requires Compiled(s).Err?
    ensures var e := Compiled(s).error;
            if s.factoryCustomized then e == Misconfigured
            else if s.logic.enabled && (s.logic.logicTTL < 0 || s.logic.writeBackTTL < 0) then e == InvalidTTL
            else if exists m | m in s.transforms :: m.Err? then
              exists i | 0 <= i < |s.transforms| ::
                s.transforms[i] == Err(e) && forall j | 0 <= j < i :: s.transforms[j].Ok?
            else if !s.logic.enabled && s.typeAdapter.Some? then s.typeAdapter.value == Err(e)
            else e == Misconfigured
  {
    if m :| m in s.transforms && m.Err? {
      var i := FirstFailure(s.transforms);
      FirstError(s.transforms, i);
    }
  }

  lemma {:induction false} FirstFailure<T>(makers: seq<Result<T>>) returns (i: nat)
    requires exists m | m in makers :: m.Err?
    ensures i < |makers| && makers[i].Err? && forall j | 0 <= j < i :: makers[j].Ok?
  {
    if makers[0].Err? {
      return 0;
    }
    assert makers == [makers[0]] + makers[1..];
    i := FirstFailure(makers[1..]);
    i := i + 1;
  }

  /** Under logical expiry the user's type adapter is never asked for anything: only that there is one matters. */
  lemma LogicExpiryIgnoresTypeAdapter<V>(s: Stages<V>, other: Result<Wire<V, Bytes>>)
    requires s.logic.enabled && s.typeAdapter.Some?
    ensures Compiled(s) == Compiled(s.(typeAdapter := Some(other)))
  {
  }

  /**
    The compiled byte path with the built-in header runs as the plain path: same replies and same loader calls,
    over every run whose values the transforms accept and whose deadlines fit the header.
   */
  lemma CompiledLogicBytesRunAsPlain(s: Stages<Bytes>, hasLoader: bool, start: int, es: seq<LogicExpiry.Event<Bytes>>)
    requires s.logic.enabled && s.codec.None? && s.bytes.Some? && s.bytes.value.header == LogicExpiry.HeaderWire()
    requires RequiresBytePath(s) && TransformsInvertible(s) && Compiled(s).Ok? && !s.factoryCustomized
    requires Compiled(s).value.LogicBytes? ==>
               LogicExpiry.AllEncode(LogicConfig(s, hasLoader), Compiled(s).value.logical, start, es)
    requires LogicExpiry.DeadlinesFit(LogicConfig(s, hasLoader), start, start + LogicExpiry.Elapsed(es))
    ensures Compiled(s).value.LogicBytes?
    ensures LogicExpiry.Answers(LogicConfig(s, hasLoader), Identity(), LogicExpiry.State(map[], start), es)
         == LogicExpiry.Answers(LogicConfig(s, hasLoader), Compiled(s).value.logical, LogicExpiry.State(map[], start),
                                es)
  {
    ConstructedInvertible(s);
    LogicExpiry.BytePathIsPlainPath(LogicConfig(s, hasLoader), Constructed(s.transforms).value, start, es);
  }

  /** The decorator's configuration, as the compiler passes it on. */
  function LogicConfig<V>(s: Stages<V>, hasLoader: bool): LogicExpiry.Config {
    LogicExpiry.Config(s.logic.logicTTL, hasLoader, s.logic.writeBackTTL)
  }
}
