/**
  The byte path of a cache: a list of byte transforms stacked on a byte store, and an adapter between
  typed values and bytes on top. Codecs and transforms are abstract pairs of partial functions.
 */
module Pipeline {
  import opened Prelude
  import opened TtlStore
  import opened ExpiryHeader

  /** A pair of conversions, either of which may fail. */
  datatype Wire<!X, !S> = Wire(enc: X -> Result<S>, dec: S -> Result<X>)

  type Transform = Wire<Bytes, Bytes>

  /** What `w` writes for `x` reads back as `x`. */
  predicate Faithful<X(==), S>(w: Wire<X, S>, x: X) {
    w.enc(x).Ok? && w.dec(w.enc(x).value) == Ok(x)
  }

  /** Whatever the conversion accepts it also gives back. */
  ghost predicate Invertible<X(!new), S>(w: Wire<X, S>) {
    forall x :: w.enc(x).Ok? ==> Faithful(w, x)
  }

  ghost predicate Total<X(!new), S>(w: Wire<X, S>) {
    forall x :: w.enc(x).Ok?
  }

  function Identity<X>(): Wire<X, X> {
    Wire(x => Ok(x), x => Ok(x))
  }

  // ----- The stack of byte caches -----

  /** A byte cache is the store itself, or a transform in front of another byte cache. */
  datatype ByteCache = Base | Layer(next: ByteCache, transform: Transform)

  /** The last declared transform is the outermost layer. */
  function Stack(transforms: seq<Transform>): ByteCache {
    if transforms == [] then Base
    else Layer(Stack(transforms[..|transforms| - 1]), transforms[|transforms| - 1])
  }

  /** The transforms, if every constructor succeeds; otherwise the first error. */
  function Constructed<T>(makers: seq<Result<T>>): (r: Result<seq<T>>)
    ensures r.Ok? <==> forall m | m in makers :: m.Ok?
    ensures r.Ok? ==> |r.value| == |makers| && forall i | 0 <= i < |makers| :: makers[i] == Ok(r.value[i])
  {
    if makers == [] then Ok([])
    else if makers[0].Err? then Err(makers[0].error)
    else
      var rest := Constructed(makers[1..]);
      if rest.Err? then rest else Ok([makers[0].value] + rest.value)
  }

  lemma {:induction false} FirstError<T>(makers: seq<Result<T>>, i: nat)
    requires i < |makers| && makers[i].Err? && forall j | 0 <= j < i :: makers[j].Ok?
    ensures Constructed(makers) == Err(makers[i].error)
    decreases i
  {
    if i > 0 {
      FirstError(makers[1..], i - 1);
    }
  }

  /** A transform is declared by a constructor, which may fail; `makers` holds what the constructors return. */
  method BuildByteCache(makers: seq<Result<Transform>>) returns (r: Result<ByteCache>)
    ensures r == match Constructed(makers)
                 case Err(e) => Err(e)
                 case Ok(transforms) => Ok(Stack(transforms))
  {
    var current := Base;
    ghost var transforms: seq<Transform> := [];
    for i := 0 to |makers|
      invariant current == Stack(transforms) && |transforms| == i
      invariant forall j | 0 <= j < i :: makers[j] == Ok(transforms[j])
    {
      if makers[i].Err? {
        FirstError(makers, i);
        return Err(makers[i].error);
      }
      assert (transforms + [makers[i].value])[..i] == transforms;
      current := Layer(current, makers[i].value);
      transforms := transforms + [makers[i].value];
    }
    assert forall m | m in makers :: m.Ok?;
    assert Constructed(makers).value == transforms;
    return Ok(current);
  }

  /** The bytes a layer hands down to the store. */
  function EncodeVia(c: ByteCache, b: Bytes): Result<Bytes> {
    match c
    case Base => Ok(b)
    case Layer(next, t) =>
      var encoded := t.enc(b);
      if encoded.Err? then encoded else EncodeVia(next, encoded.value)
  }

  function DecodeVia(c: ByteCache, raw: Bytes): Result<Bytes> {
    match c
    case Base => Ok(raw)
    case Layer(next, t) =>
      var below := DecodeVia(next, raw);
      if below.Err? then below else t.dec(below.value)
  }

  /** Each layer's operations call those of the layer below; only the base reaches the store. */
  class ByteStack {
    const root: ByteCache
    const store: SlowMapStore<Bytes>

    constructor (root: ByteCache, store: SlowMapStore<Bytes>)
      ensures this.root == root && this.store == store
    {
      this.root, this.store := root, store;
    }

    method GetAt(c: ByteCache, key: Key, now: int) returns (r: Result<Bytes>)
      modifies store
      ensures r == TypedGet(Wire(b => EncodeVia(c, b), raw => DecodeVia(c, raw)), old(store.data), key, now)
      ensures store.data == AfterGet(old(store.data), key, now)
      decreases c
    {
      match c {
        case Base =>
          r := store.Get(key, now);
        case Layer(next, t) =>
          var raw := GetAt(next, key, now);
          r := if raw.Err? then raw else t.dec(raw.value);
      }
    }

    method GetWithTTLAt(c: ByteCache, key: Key, now: int) returns (r: Result<(Bytes, int)>)
      modifies store
      ensures r == TypedGetWithTTL(Wire(b => EncodeVia(c, b), raw => DecodeVia(c, raw)), old(store.data), key, now)
      ensures store.data == AfterGet(old(store.data), key, now)
      decreases c
    {
      match c {
        case Base =>
          r := store.GetWithTTL(key, now);
        case Layer(next, t) =>
          var below := GetWithTTLAt(next, key, now);
          if below.Err? {
            return below;
          }
          var decoded := t.dec(below.value.0);
          r := if decoded.Err? then Err(decoded.error) else Ok((decoded.value, below.value.1));
      }
    }

    method SetAt(c: ByteCache, key: Key, val: Bytes, ttl: int, now: int) returns (err: Option<Error>)
      modifies store
      ensures err == TypedSetError(Wire(b => EncodeVia(c, b), raw => DecodeVia(c, raw)), val, ttl)
      ensures store.data == AfterTypedSet(Wire(b => EncodeVia(c, b), raw => DecodeVia(c, raw)),
                                          old(store.data), key, val, ttl, now)
      decreases c
    {
      match c {
        case Base =>
          err := store.Set(key, val, ttl, now);
        case Layer(next, t) =>
          var encoded := t.enc(val);
          if encoded.Err? {
            return Some(encoded.error);
          }
          err := SetAt(next, key, encoded.value, ttl, now);
      }
    }
  }

  /** `E_1(E_2(... E_n(b)))`: the first declared transform is applied last. */
  function Composed(transforms: seq<Transform>, b: Bytes): Result<Bytes> {
    if transforms == [] then Ok(b) else
      var inner := Composed(transforms[1..], b);
      if inner.Err? then inner else transforms[0].enc(inner.value)
  }

  /** The stored bytes are the transforms applied from the last declared to the first. */
  lemma {:induction false} StoredBytes(transforms: seq<Transform>, b: Bytes)
    ensures EncodeVia(Stack(transforms), b) == Composed(transforms, b)
    decreases |transforms|
  {
    if transforms != [] {
      var n := |transforms|;
      var encoded := transforms[n - 1].enc(b);
      ComposedSplits(transforms, b);
      if encoded.Ok? {
        StoredBytes(transforms[..n - 1], encoded.value);
      }
    }
  }

  lemma {:induction false} ComposedSplits(transforms: seq<Transform>, b: Bytes)
    requires transforms != []
    ensures var n := |transforms|;
            var encoded := transforms[n - 1].enc(b);
            Composed(transforms, b) == if encoded.Err? then encoded else Composed(transforms[..n - 1], encoded.value)
    decreases |transforms|
  {
    var n := |transforms|;
    if n > 1 {
      ComposedSplits(transforms[1..], b);
      assert transforms[1..][..n - 2] == transforms[..n - 1][1..];
    } else {
      assert transforms[1..] == [] && transforms[..0] == [];
    }
  }

  /** `D_n(... D_2(D_1(raw)))`: the first declared transform is undone first. */
  function Decomposed(transforms: seq<Transform>, raw: Bytes): Result<Bytes>
    decreases |transforms|
  {
    if transforms == [] then Ok(raw) else
      var below := transforms[0].dec(raw);
      if below.Err? then below else Decomposed(transforms[1..], below.value)
  }

  lemma {:induction false} DecomposedSplits(transforms: seq<Transform>, raw: Bytes)
    requires transforms != []
    ensures var n := |transforms|;
            var below := Decomposed(transforms[..n - 1], raw);
            Decomposed(transforms, raw) == if below.Err? then below else transforms[n - 1].dec(below.value)
    decreases |transforms|
  {
    var n := |transforms|;
    if n > 1 {
      if transforms[0].dec(raw).Ok? {
        DecomposedSplits(transforms[1..], transforms[0].dec(raw).value);
      }
      assert transforms[..n - 1][1..] == transforms[1..][..n - 2];
    } else {
      assert transforms[1..] == [] && transforms[..0] == [];
    }
  }

  /** A read undoes the transforms from the first declared to the last. */
  lemma {:induction false} ReadBytes(transforms: seq<Transform>, raw: Bytes)
    ensures DecodeVia(Stack(transforms), raw) == Decomposed(transforms, raw)
    decreases |transforms|
  {
    if transforms != [] {
      DecomposedSplits(transforms, raw);
      ReadBytes(transforms[..|transforms| - 1], raw);
    }
  }

  /** Decoding through the stack undoes encoding through it, if each transform undoes its own encoding. */
  lemma {:induction false} StackInverts(transforms: seq<Transform>, b: Bytes)
    requires forall t | t in transforms :: Invertible(t)
    requires EncodeVia(Stack(transforms), b).Ok?
    ensures DecodeVia(Stack(transforms), EncodeVia(Stack(transforms), b).value) == Ok(b)
    decreases |transforms|
  {
    if transforms != [] {
      var t := transforms[|transforms| - 1];
      assert t in transforms && Faithful(t, b);
      StackInverts(transforms[..|transforms| - 1], t.enc(b).value);
    }
  }

  lemma {:induction false} StackIsTotal(transforms: seq<Transform>, b: Bytes)
    requires forall t | t in transforms :: Total(t)
    ensures EncodeVia(Stack(transforms), b).Ok?
    decreases |transforms|
  {
    if transforms != [] {
      var t := transforms[|transforms| - 1];
      assert t in transforms && t.enc(b).Ok?;
      StackIsTotal(transforms[..|transforms| - 1], t.enc(b).value);
    }
  }

  // ----- Typed caches -----

  /** An adapter on top of the byte stack, as one conversion. */
  function ByteWire<X>(adapter: Wire<X, Bytes>, transforms: seq<Transform>): Wire<X, Bytes> {
    Wire(
      (x: X) => var b := adapter.enc(x); if b.Err? then b else EncodeVia(Stack(transforms), b.value),
      (raw: Bytes) => var b := DecodeVia(Stack(transforms), raw); if b.Err? then Err(b.error) else adapter.dec(b.value))
  }

  function TypedGet<X, S>(w: Wire<X, S>, level: Level<S>, key: Key, now: int): Result<X> {
    match GetResult(level, key, now)
    case Err(e) => Err(e)
    case Ok(s) => w.dec(s)
  }

  function TypedGetWithTTL<X, S>(w: Wire<X, S>, level: Level<S>, key: Key, now: int): Result<(X, int)> {
    match GetWithTTLResult(level, key, now)
    case Err(e) => Err(e)
    case Ok((s, ttl)) =>
      match w.dec(s)
      case Err(e) => Err(e)
      case Ok(x) => Ok((x, ttl))
  }

  function TypedSetError<X, S>(w: Wire<X, S>, x: X, ttl: int): Option<Error> {
    match w.enc(x)
    case Err(e) => Some(e)
    case Ok(_) => SetError(ttl)
  }

  function AfterTypedSet<X, S>(w: Wire<X, S>, level: Level<S>, key: Key, x: X, ttl: int, now: int): Level<S> {
    match w.enc(x)
    case Err(_) => level
    case Ok(s) => AfterSet(level, key, s, ttl, now)
  }

  /** A typed cache over a store of `S`. The plain path is the identity conversion. */
  class TypedCache<X, S> {
    const wire: Wire<X, S>
    const store: SlowMapStore<S>

    constructor (wire: Wire<X, S>, store: SlowMapStore<S>)
      ensures this.wire == wire && this.store == store
    {
      this.wire, this.store := wire, store;
    }

    method Get(key: Key, now: int) returns (r: Result<X>)
      modifies store
      ensures r == TypedGet(wire, old(store.data), key, now)
      ensures store.data == AfterGet(old(store.data), key, now)
    {
      var s := store.Get(key, now);
      r := if s.Err? then Err(s.error) else wire.dec(s.value);
    }

    method GetWithTTL(key: Key, now: int) returns (r: Result<(X, int)>)
      modifies store
      ensures r == TypedGetWithTTL(wire, old(store.data), key, now)
      ensures store.data == AfterGet(old(store.data), key, now)
    {
      var s := store.GetWithTTL(key, now);
      if s.Err? {
        return Err(s.error);
      }
      var x := wire.dec(s.value.0);
      r := if x.Err? then Err(x.error) else Ok((x.value, s.value.1));
    }

    method Set(key: Key, x: X, ttl: int, now: int) returns (err: Option<Error>)
      modifies store
      ensures err == TypedSetError(wire, x, ttl)
      ensures store.data == AfterTypedSet(wire, old(store.data), key, x, ttl, now)
    {
      var s := wire.enc(x);
      if s.Err? {
        return Some(s.error);
      }
      err := store.Set(key, s.value, ttl, now);
    }
  }

  /**
    A successful Set through any adapter and any list of transforms that undo themselves is read back by Get
    and GetWithTTL, with the store's own remaining time, until the entry expires.
   */
  lemma PipelineRoundTrip<X(!new)>(adapter: Wire<X, Bytes>, transforms: seq<Transform>, level: Level<Bytes>,
                                   key: Key, x: X, ttl: int, now: int, later: int)
    requires Invertible(adapter) && forall t | t in transforms :: Invertible(t)
    requires TypedSetError(ByteWire(adapter, transforms), x, ttl) == None
    requires now <= later && (ttl > 0 ==> later <= now + ttl)
    ensures var w := ByteWire(adapter, transforms);
            var after := AfterTypedSet(w, level, key, x, ttl, now);
            && Composed(transforms, adapter.enc(x).value) == Ok(after[key].value)
            && TypedGet(w, after, key, later) == Ok(x)
            && TypedGetWithTTL(w, after, key, later) == Ok((x, if ttl > 0 then now + ttl - later else 0))
  {
    WireIsFaithful(adapter, transforms, x);
    StoredBytes(transforms, adapter.enc(x).value);
  }

  lemma WireIsFaithful<X(!new)>(adapter: Wire<X, Bytes>, transforms: seq<Transform>, x: X)
    requires forall t | t in transforms :: Invertible(t)
    requires Faithful(adapter, x) || Invertible(adapter)
    requires ByteWire(adapter, transforms).enc(x).Ok?
    ensures Faithful(ByteWire(adapter, transforms), x)
  {
    assert adapter.enc(x).Ok? && Faithful(adapter, x);
    StackInverts(transforms, adapter.enc(x).value);
  }
}
