/**
  The decorators that load or protect on a miss, and what a stack of them costs: how often it calls the loader,
  and what stacking the same decorators again changes.
 */
module LoaderStack {
  import opened Prelude
  import opened TtlStore

  /** One decorator. `Flight` merges concurrent calls and is transparent to a single caller. */
  datatype Decorator<V> =
    | MissedLoader(writeBackTTL: int)
    | NilCache(placeholder: Key -> V, writeBackTTL: int)   // the protection function of the key
    | Flight

  /** Innermost first. */
  type Stack<V> = seq<Decorator<V>>

  /** A read through the stack: what it returns, the level it leaves, and how often it called the loader. */
  datatype Outcome<V, R> = Outcome(reply: Result<R>, level: Level<V>, calls: nat)

  function Top<V>(stack: Stack<V>): Decorator<V>
    requires stack != []
  {
    stack[|stack| - 1]
  }

  function Below<V>(stack: Stack<V>): Stack<V>
    requires stack != []
  {
    stack[..|stack| - 1]
  }

  /** The decorators, from the store outwards. Every write goes straight down to the store. */
  function Read<V>(stack: Stack<V>, level: Level<V>, key: Key, now: int, loaded: Result<V>): Outcome<V, V>
    decreases |stack|
  {
    if stack == [] then Outcome(GetResult(level, key, now), AfterGet(level, key, now), 0) else
      var inner := Read(Below(stack), level, key, now, loaded);
      if !Misses(inner.reply) then inner
      else match Top(stack)
        case Flight => inner
        case MissedLoader(ttl) =>
          if loaded.Err? then Outcome(loaded, inner.level, inner.calls + 1)
          else Outcome(loaded, AfterSet(inner.level, key, loaded.value, ttl, now), inner.calls + 1)
        case NilCache(placeholder, ttl) =>
          Outcome(Ok(placeholder(key)), AfterSet(inner.level, key, placeholder(key), ttl, now), inner.calls)
  }

  function ReadTTL<V>(stack: Stack<V>, level: Level<V>, key: Key, now: int, loaded: Result<V>): Outcome<V, (V, int)>
    decreases |stack|
  {
    if stack == [] then Outcome(GetWithTTLResult(level, key, now), AfterGet(level, key, now), 0) else
      var inner := ReadTTL(Below(stack), level, key, now, loaded);
      if !Misses(inner.reply) then inner
      else match Top(stack)
        case Flight => inner
        case MissedLoader(ttl) =>
          if loaded.Err? then Outcome(Err(loaded.error), inner.level, inner.calls + 1)
          else Outcome(Ok((loaded.value, ttl)), AfterSet(inner.level, key, loaded.value, ttl, now), inner.calls + 1)
        case NilCache(placeholder, ttl) =>
          Outcome(Ok((placeholder(key), ttl)), AfterSet(inner.level, key, placeholder(key), ttl, now), inner.calls)
  }

  /** The stacked cache. The methods of layer `depth` call those of the layer below. */
  class StackedCache<V> {
    const stack: Stack<V>
    const store: SlowMapStore<V>

    constructor (stack: Stack<V>, store: SlowMapStore<V>)
      ensures this.stack == stack && this.store == store
    {
      this.stack, this.store := stack, store;
    }

    method GetAt(depth: nat, key: Key, now: int, loaded: Result<V>) returns (r: Result<V>, calls: nat)
      requires depth <= |stack|
      modifies store
      ensures Outcome(r, store.data, calls) == Read(stack[..depth], old(store.data), key, now, loaded)
      decreases depth
    {
      if depth == 0 {
        r := store.Get(key, now);
        return r, 0;
      }
      assert Below(stack[..depth]) == stack[..depth - 1];
      r, calls := GetAt(depth - 1, key, now, loaded);
      if r.Err? && IsNotFound(r.error) {
        match stack[depth - 1] {
          case Flight =>
          case MissedLoader(ttl) =>
            calls := calls + 1;
            r := loaded;
            if loaded.Ok? {
              var err := SetAt(depth - 1, key, loaded.value, ttl, now);
            }
          case NilCache(placeholder, ttl) =>
            r := Ok(placeholder(key));
            var err := SetAt(depth - 1, key, placeholder(key), ttl, now);
        }
      }
    }

    method GetWithTTLAt(depth: nat, key: Key, now: int, loaded: Result<V>) returns (r: Result<(V, int)>, calls: nat)
      requires depth <= |stack|
      modifies store
      ensures Outcome(r, store.data, calls) == ReadTTL(stack[..depth], old(store.data), key, now, loaded)
      decreases depth
    {
      if depth == 0 {
        r := store.GetWithTTL(key, now);
        return r, 0;
      }
      assert Below(stack[..depth]) == stack[..depth - 1];
      r, calls := GetWithTTLAt(depth - 1, key, now, loaded);
      if r.Err? && IsNotFound(r.error) {
        match stack[depth - 1] {
          case Flight =>
          case MissedLoader(ttl) =>
            calls := calls + 1;
            if loaded.Err? {
              return Err(loaded.error), calls;
            }
            var err := SetAt(depth - 1, key, loaded.value, ttl, now);
            r := Ok((loaded.value, ttl));
          case NilCache(placeholder, ttl) =>
            var err := SetAt(depth - 1, key, placeholder(key), ttl, now);
            r := Ok((placeholder(key), ttl));
        }
      }
    }

    method SetAt(depth: nat, key: Key, val: V, ttl: int, now: int) returns (err: Option<Error>)
      requires depth <= |stack|
      modifies store
      ensures err == SetError(ttl)
      ensures store.data == AfterSet(old(store.data), key, val, ttl, now)
      decreases depth
    {
      if depth == 0 {
        err := store.Set(key, val, ttl, now);
      } else {
        err := SetAt(depth - 1, key, val, ttl, now);
      }
    }
  }

  // ----- What the builder stacks -----

  /** What the caller configured. `None` means that the feature is off. */
  datatype Features<V> = Features(
    missLoader: Option<int>,            // write-back TTL, if there is a loader
    nilCache: Option<(Key -> V, int)>,  // protection function and write-back TTL
    singleFlight: bool)

  /** The decorators one Build appends when the TTLs are valid. */
  function Layers<V>(f: Features<V>): Stack<V> {
    (if f.missLoader.Some? && f.missLoader.value >= 0 then [MissedLoader(f.missLoader.value)] else [])
    + (if f.nilCache.Some? && f.nilCache.value.1 >= 0 then [NilCache(f.nilCache.value.0, f.nilCache.value.1)] else [])
    + (if f.singleFlight then [Flight] else [])
  }

  function TTLErrors<V>(f: Features<V>): seq<Error> {
    (if f.missLoader.Some? && f.missLoader.value < 0 then [InvalidTTL] else [])
    + (if f.nilCache.Some? && f.nilCache.value.1 < 0 then [InvalidTTL] else [])
  }

  function Repeat<V>(layers: Stack<V>, n: nat): Stack<V> {
    if n == 0 then [] else Repeat(layers, n - 1) + layers
  }

  // ----- What a read through the stack does -----

  /** The placeholder of the innermost protection layer. */
  function Protection<V>(stack: Stack<V>): Option<(Key -> V, int)>
    decreases |stack|
  {
    if stack == [] then None
    else if Protection(Below(stack)).Some? then Protection(Below(stack))
    else if Top(stack).NilCache? then Some((Top(stack).placeholder, Top(stack).writeBackTTL))
    else None
  }

  /** How many loaders stand inside the first protection layer; only these can be reached by a miss. */
  function Loaders<V>(stack: Stack<V>): nat
    decreases |stack|
  {
    if stack == [] then 0
    else if Protection(Below(stack)).Some? then Loaders(Below(stack))
    else Loaders(Below(stack)) + if Top(stack).MissedLoader? then 1 else 0
  }

  function FirstLoader<V>(stack: Stack<V>): Option<int>
    decreases |stack|
  {
    if stack == [] then None
    else if FirstLoader(Below(stack)).Some? then FirstLoader(Below(stack))
    else if Top(stack).MissedLoader? && Protection(Below(stack)).None? then Some(Top(stack).writeBackTTL)
    else None
  }

  /** One miss, decided all at once instead of layer by layer. */
  function OnMiss<V>(stack: Stack<V>, level: Level<V>, key: Key, now: int, loaded: Result<V>): Outcome<V, (V, int)> {
    var read := AfterGet(level, key, now);
    if FirstLoader(stack).Some? && loaded.Ok? then
      var ttl := FirstLoader(stack).value;
      Outcome(Ok((loaded.value, ttl)), AfterSet(read, key, loaded.value, ttl, now), 1)
    else if FirstLoader(stack).Some? && !IsNotFound(loaded.error) then Outcome(Err(loaded.error), read, 1)
    else if Protection(stack).Some? then
      var (placeholder, ttl) := Protection(stack).value;
      Outcome(Ok((placeholder(key), ttl)), AfterSet(read, key, placeholder(key), ttl, now), Loaders(stack))
    else if FirstLoader(stack).Some? then Outcome(Err(loaded.error), read, Loaders(stack))
    else Outcome(Err(Wrapped(NotFound)), read, 0)
  }

  lemma {:induction false} LoadersIff<V>(stack: Stack<V>)
    ensures Loaders(stack) > 0 <==> FirstLoader(stack).Some?
    decreases |stack|
  {
    if stack != [] {
      LoadersIff(Below(stack));
    }
  }

  /**
    A hit calls nobody. A miss ends with the first loader, unless that too reports "not found": then every
    loader inside the first protection layer is called, and the protection answers.
   */
  lemma {:induction false} ReadIs<V>(stack: Stack<V>, level: Level<V>, key: Key, now: int, loaded: Result<V>)
    ensures Live(level, key, now).Some? ==>
              ReadTTL(stack, level, key, now, loaded) == Outcome(GetWithTTLResult(level, key, now), level, 0)
    ensures Live(level, key, now).None? ==>
              ReadTTL(stack, level, key, now, loaded) == OnMiss(stack, level, key, now, loaded)
    decreases |stack|
  {
    if stack != [] {
      ReadIs(Below(stack), level, key, now, loaded);
      LoadersIff(Below(stack));
    }
  }

  /** Get and GetWithTTL of the stack serve the same value, write the same, and call the loader equally often. */
  lemma {:induction false} ReadIgnoresTTL<V>(stack: Stack<V>, level: Level<V>, key: Key, now: int, loaded: Result<V>)
    ensures var a, b := Read(stack, level, key, now, loaded), ReadTTL(stack, level, key, now, loaded);
            && a.level == b.level && a.calls == b.calls
            && a.reply == if b.reply.Err? then Err(b.reply.error) else Ok(b.reply.value.0)
    decreases |stack|
  {
    if stack != [] {
      ReadIgnoresTTL(Below(stack), level, key, now, loaded);
    }
  }

  // ----- Runs -----

  datatype Event<V> =
    | Get(key: Key, loaded: Result<V>)
    | GetWithTTL(key: Key, loaded: Result<V>)
    | Set(key: Key, val: V, ttl: int)
    | Delete(key: Key)
    | Clear
    | Tick(elapsed: nat)

  datatype Reply<V> = Got(got: Result<V>) | GotTTL(gotTTL: Result<(V, int)>) | Done(err: Option<Error>)

  datatype State<V> = State(level: Level<V>, now: int)

  function Step<V>(stack: Stack<V>, s: State<V>, e: Event<V>): State<V> {
    match e
    case Get(key, loaded) => s.(level := Read(stack, s.level, key, s.now, loaded).level)
    case GetWithTTL(key, loaded) => s.(level := ReadTTL(stack, s.level, key, s.now, loaded).level)
    case Set(key, val, ttl) => s.(level := AfterSet(s.level, key, val, ttl, s.now))
    case Delete(key) => s.(level := s.level - {key})
    case Clear => s.(level := map[])
    case Tick(d) => s.(now := s.now + d)
  }

  function Answer<V>(stack: Stack<V>, s: State<V>, e: Event<V>): Reply<V> {
    match e
    case Get(key, loaded) => Got(Read(stack, s.level, key, s.now, loaded).reply)
    case GetWithTTL(key, loaded) => GotTTL(ReadTTL(stack, s.level, key, s.now, loaded).reply)
    case Set(_, _, ttl) => Done(SetError(ttl))
    case _ => Done(None)
  }

  function CallsOf<V>(stack: Stack<V>, s: State<V>, e: Event<V>, key: Key): nat {
    match e
    case Get(k, loaded) => if k == key then Read(stack, s.level, k, s.now, loaded).calls else 0
    case GetWithTTL(k, loaded) => if k == key then ReadTTL(stack, s.level, k, s.now, loaded).calls else 0
    case _ => 0
  }

  function Run<V>(stack: Stack<V>, s: State<V>, es: seq<Event<V>>): State<V>
    decreases |es|
  {
    if es == [] then s else Run(stack, Step(stack, s, es[0]), es[1..])
  }

  function Answers<V>(stack: Stack<V>, s: State<V>, es: seq<Event<V>>): seq<Reply<V>>
    decreases |es|
  {
    if es == [] then [] else [Answer(stack, s, es[0])] + Answers(stack, Step(stack, s, es[0]), es[1..])
  }

  /** How often the run calls the loader for `key`. */
  function Calls<V>(stack: Stack<V>, s: State<V>, es: seq<Event<V>>, key: Key): nat
    decreases |es|
  {
    if es == [] then 0 else CallsOf(stack, s, es[0], key) + Calls(stack, Step(stack, s, es[0]), es[1..], key)
  }

  function Elapsed<V>(es: seq<Event<V>>): nat {
    if es == [] then 0 else (if es[0].Tick? then es[0].elapsed else 0) + Elapsed(es[1..])
  }

  // ----- Building more than once -----

  lemma {:induction false} AppendDecorators<V>(a: Stack<V>, b: Stack<V>)
    ensures Protection(a + b) == if Protection(a).Some? then Protection(a) else Protection(b)
    ensures FirstLoader(a + b) == if FirstLoader(a).Some? then FirstLoader(a)
                                  else if Protection(a).Some? then None else FirstLoader(b)
    ensures Loaders(a + b) == Loaders(a) + if Protection(a).Some? then 0 else Loaders(b)
    decreases |b|
  {
    if b == [] {
      assert a + b == a;
    } else {
      AppendDecorators(a, Below(b));
      assert Below(a + b) == a + Below(b) && Top(a + b) == Top(b);
    }
  }

  /** Stacking the same decorators again changes neither the protection nor the first loader. */
  lemma {:induction false} RepeatedDecorators<V>(layers: Stack<V>, n: nat)
    requires n > 0
    ensures Protection(Repeat(layers, n)) == Protection(layers)
    ensures FirstLoader(Repeat(layers, n)) == FirstLoader(layers)
    ensures Loaders(Repeat(layers, n)) == if Protection(layers).Some? then Loaders(layers) else n * Loaders(layers)
    decreases n
  {
    if n == 1 {
      assert Repeat(layers, 1) == layers;
    } else {
      RepeatedDecorators(layers, n - 1);
      AppendDecorators(Repeat(layers, n - 1), layers);
      assert n * Loaders(layers) == (n - 1) * Loaders(layers) + Loaders(layers);
    }
  }

  lemma RepeatedStep<V>(layers: Stack<V>, n: nat, s: State<V>, e: Event<V>)
    requires n > 0
    ensures Step(Repeat(layers, n), s, e) == Step(layers, s, e)
    ensures Answer(Repeat(layers, n), s, e) == Answer(layers, s, e)
  {
    if e.Get? || e.GetWithTTL? {
      RepeatedDecorators(layers, n);
      ReadIs(layers, s.level, e.key, s.now, e.loaded);
      ReadIs(Repeat(layers, n), s.level, e.key, s.now, e.loaded);
      ReadIgnoresTTL(layers, s.level, e.key, s.now, e.loaded);
      ReadIgnoresTTL(Repeat(layers, n), s.level, e.key, s.now, e.loaded);
    }
  }

  /** A cache built `n` times gives the replies of one built once and leaves the same store, over every run. */
  lemma {:induction false} BuildingIsIdempotent<V>(layers: Stack<V>, n: nat, s: State<V>, es: seq<Event<V>>)
    requires n > 0
    ensures Answers(Repeat(layers, n), s, es) == Answers(layers, s, es)
    ensures Run(Repeat(layers, n), s, es) == Run(layers, s, es)
    decreases |es|
  {
    if es != [] {
      RepeatedStep(layers, n, s, es[0]);
      BuildingIsIdempotent(layers, n, Step(layers, s, es[0]), es[1..]);
    }
  }

  // ----- Building more than once, around any innermost cache -----

  /**
    What the decorators use of the cache inside them: any state `S`, and operations that may depend on whatever the
    environment `E` supplies (the clock, the answer of a loader of its own, failures).
   */
  datatype Inner<!V, !S, !E> = Inner(
    get: (S, Key, E) -> (Result<V>, S),
    getWithTTL: (S, Key, E) -> (Result<(V, int)>, S),
    put: (S, Key, V, int, E) -> (Option<Error>, S),
    other: (S, E) -> (Option<Error>, S))

  /** A read through the stack, given what the innermost cache answered: the reply, the new state, the loader calls. */
  function Through<V, R, S>(stack: Stack<V>, read: (Result<R>, S), put: (S, V, int) -> S, reply: (V, int) -> R,
                            key: Key, loaded: Result<V>): (Result<R>, S, nat)
    decreases |stack|
  {
    if stack == [] then (read.0, read.1, 0) else
      var (r, s, calls) := Through(Below(stack), read, put, reply, key, loaded);
      if !Misses(r) then (r, s, calls)
      else match Top(stack)
        case Flight => (r, s, calls)
        case MissedLoader(ttl) =>
          if loaded.Err? then (Err(loaded.error), s, calls + 1)
          else (Ok(reply(loaded.value, ttl)), put(s, loaded.value, ttl), calls + 1)
        case NilCache(placeholder, ttl) => (Ok(reply(placeholder(key), ttl)), put(s, placeholder(key), ttl), calls)
  }

  lemma {:induction false} ThroughIs<V, R, S>(stack: Stack<V>, read: (Result<R>, S), put: (S, V, int) -> S,
                                              reply: (V, int) -> R, key: Key, loaded: Result<V>)
    ensures Through(stack, read, put, reply, key, loaded) ==
              if !Misses(read.0) then (read.0, read.1, 0)
              else if FirstLoader(stack).Some? && loaded.Ok? then
                var ttl := FirstLoader(stack).value;
                (Ok(reply(loaded.value, ttl)), put(read.1, loaded.value, ttl), 1)
              else if FirstLoader(stack).Some? && !IsNotFound(loaded.error) then (Err(loaded.error), read.1, 1)
              else if Protection(stack).Some? then
                var (placeholder, ttl) := Protection(stack).value;
                (Ok(reply(placeholder(key), ttl)), put(read.1, placeholder(key), ttl), Loaders(stack))
              else if FirstLoader(stack).Some? then (Err(loaded.error), read.1, Loaders(stack))
              else (read.0, read.1, 0)
    decreases |stack|
  {
    if stack != [] {
      ThroughIs(Below(stack), read, put, reply, key, loaded);
      LoadersIff(Below(stack));
    }
  }

  datatype Call<V, E> =
    | Reading(key: Key, withTTL: bool, env: E, loaded: Result<V>)
    | Writing(key: Key, val: V, ttl: int, env: E)
    | Passing(env: E)                                             // Delete and Clear

  function Putting<V, S, E>(inner: Inner<V, S, E>, key: Key, env: E): (S, V, int) -> S {
    (s, v, ttl) => inner.put(s, key, v, ttl, env).1
  }

  function ValueOnly<V>(): (V, int) -> V {
    (v, ttl) => v
  }

  function WithTTL<V>(): (V, int) -> (V, int) {
    (v, ttl) => (v, ttl)
  }

  function Perform<V, S, E>(stack: Stack<V>, inner: Inner<V, S, E>, s: S, c: Call<V, E>): (Reply<V>, S) {
    match c
    case Reading(key, withTTL, env, loaded) =>
      var put := Putting(inner, key, env);
      if withTTL then
        var r := Through(stack, inner.getWithTTL(s, key, env), put, WithTTL(), key, loaded);
        (GotTTL(r.0), r.1)
      else
        var r := Through(stack, inner.get(s, key, env), put, ValueOnly(), key, loaded);
        (Got(r.0), r.1)
    case Writing(key, val, ttl, env) => var r := inner.put(s, key, val, ttl, env); (Done(r.0), r.1)
    case Passing(env) => var r := inner.other(s, env); (Done(r.0), r.1)
  }

  /** The replies of a run, and the state of the innermost cache after it. */
  function PerformAll<V, S, E>(stack: Stack<V>, inner: Inner<V, S, E>, s: S, cs: seq<Call<V, E>>): (seq<Reply<V>>, S)
    decreases |cs|
  {
    if cs == [] then ([], s) else
      var (reply, s') := Perform(stack, inner, s, cs[0]);
      var (replies, last) := PerformAll(stack, inner, s', cs[1..]);
      ([reply] + replies, last)
  }

  /** For the plain store the environment is the clock, and which key is deleted; all of them by Clear. */
  datatype Env = Env(now: int, deleted: Option<Key>)

  function PlainInner<V>(): Inner<V, Level<V>, Env> {
    Inner(
      (l: Level<V>, key: Key, env: Env) => (GetResult(l, key, env.now), AfterGet(l, key, env.now)),
      (l: Level<V>, key: Key, env: Env) => (GetWithTTLResult(l, key, env.now), AfterGet(l, key, env.now)),
      (l: Level<V>, key: Key, val: V, ttl: int, env: Env) => (SetError(ttl), AfterSet(l, key, val, ttl, env.now)),
      (l: Level<V>, env: Env) => (None, Without(l, env.deleted)))
  }

  function Without<V>(level: Level<V>, deleted: Option<Key>): Level<V> {
    match deleted
    case Some(key) => level - {key}
    case None => map[]
  }

  function AsCall<V>(e: Event<V>, now: int): Call<V, Env>
    requires !e.Tick?
  {
    match e
    case Get(key, loaded) => Reading(key, false, Env(now, None), loaded)
    case GetWithTTL(key, loaded) => Reading(key, true, Env(now, None), loaded)
    case Set(key, val, ttl) => Writing(key, val, ttl, Env(now, None))
    case Delete(key) => Passing(Env(now, Some(key)))
    case Clear => Passing(Env(now, None))
  }

  /** The runs above are the case in which the innermost cache is the plain store. */
  lemma PerformIsStep<V>(stack: Stack<V>, s: State<V>, e: Event<V>)
    requires !e.Tick?
    ensures Perform(stack, PlainInner(), s.level, AsCall(e, s.now)) == (Answer(stack, s, e), Step(stack, s, e).level)
  {
    if e.Get? || e.GetWithTTL? {
      var inner, env := PlainInner<V>(), Env(s.now, None);
      var put := Putting(inner, e.key, env);
      ReadIs(stack, s.level, e.key, s.now, e.loaded);
      ReadIgnoresTTL(stack, s.level, e.key, s.now, e.loaded);
      LoadersIff(stack);
      ThroughIs(stack, inner.get(s.level, e.key, env), put, ValueOnly(), e.key, e.loaded);
      ThroughIs(stack, inner.getWithTTL(s.level, e.key, env), put, WithTTL(), e.key, e.loaded);
      hide Read, ReadTTL, Through, FirstLoader, Protection, Loaders;
    }
  }

  lemma RepeatedThrough<V, R, S>(layers: Stack<V>, n: nat, read: (Result<R>, S), put: (S, V, int) -> S,
                                 reply: (V, int) -> R, key: Key, loaded: Result<V>)
    requires n > 0
    ensures var a, b := Through(Repeat(layers, n), read, put, reply, key, loaded),
                        Through(layers, read, put, reply, key, loaded);
            a.0 == b.0 && a.1 == b.1
  {
    RepeatedDecorators(layers, n);
    ThroughIs(layers, read, put, reply, key, loaded);
    ThroughIs(Repeat(layers, n), read, put, reply, key, loaded);
  }

  lemma RepeatedPerform<V, S, E>(layers: Stack<V>, n: nat, inner: Inner<V, S, E>, s: S, c: Call<V, E>)
    requires n > 0
    ensures Perform(Repeat(layers, n), inner, s, c) == Perform(layers, inner, s, c)
  {
    if c.Reading? {
      var put := Putting(inner, c.key, c.env);
      RepeatedThrough(layers, n, inner.get(s, c.key, c.env), put, ValueOnly(), c.key, c.loaded);
      RepeatedThrough(layers, n, inner.getWithTTL(s, c.key, c.env), put, WithTTL(), c.key, c.loaded);
    }
  }

  /** Building again changes no reply and no state around any innermost cache, over every run. */
  lemma {:induction false} RebuildingAnyCache<V, S, E>(layers: Stack<V>, n: nat, inner: Inner<V, S, E>, s: S,
                                                      cs: seq<Call<V, E>>)
    requires n > 0
    ensures PerformAll(Repeat(layers, n), inner, s, cs) == PerformAll(layers, inner, s, cs)
    decreases |cs|
  {
    if cs != [] {
      RepeatedPerform(layers, n, inner, s, cs[0]);
      RebuildingAnyCache(layers, n, inner, Perform(layers, inner, s, cs[0]).1, cs[1..]);
    }
  }

  /**
    The number of loader calls is not the same: a miss that the loader answers with "not found" reaches every
    copy of the loader, unless a protection layer stands in between.
   */
  lemma CallsAfterRebuild<V>(f: Features<V>, n: nat, level: Level<V>, key: Key, now: int, loaded: Result<V>)
    requires n > 0 && f.missLoader.Some? && TTLErrors(f) == []
    ensures Read(Repeat(Layers(f), n), level, key, now, loaded).calls ==
              if Live(level, key, now).Some? then 0
              else if Misses(loaded) && f.nilCache.None? then n
              else 1
  {
    var layers, stack := Layers(f), Repeat(Layers(f), n);
    RepeatedDecorators(layers, n);
    ReadIs(stack, level, key, now, loaded);
    ReadIgnoresTTL(stack, level, key, now, loaded);
    LayersOf(f);
  }

  lemma LayersOf<V>(f: Features<V>)
    requires TTLErrors(f) == []
    ensures FirstLoader(Layers(f)) == f.missLoader && Protection(Layers(f)) == f.nilCache
    ensures Loaders(Layers(f)) == if f.missLoader.Some? then 1 else 0
  {
    var a: Stack<V> := if f.missLoader.Some? then [MissedLoader(f.missLoader.value)] else [];
    var b: Stack<V> := if f.nilCache.Some? then [NilCache(f.nilCache.value.0, f.nilCache.value.1)] else [];
    var c: Stack<V> := if f.singleFlight then [Flight] else [];
    AppendDecorators(a, b);
    AppendDecorators(a + b, c);
    Single(a);
    Single(b);
    Single(c);
  }

  lemma Single<V>(s: Stack<V>)
    requires |s| <= 1
    ensures Protection(s) == if s != [] && s[0].NilCache? then Some((s[0].placeholder, s[0].writeBackTTL)) else None
    ensures FirstLoader(s) == if s != [] && s[0].MissedLoader? then Some(s[0].writeBackTTL) else None
    ensures Loaders(s) == if s != [] && s[0].MissedLoader? then 1 else 0
  {
    if s != [] {
      assert Below(s) == [];
    }
  }

  // ----- What the built cache answers -----

  /** The level with the value stored under the key. */
  function Stored<V>(level: Level<V>, key: Key, val: V, ttl: int, now: int): Level<V> {
    level[key := Item(val, if ttl > 0 then Some(now + ttl) else None)]
  }

  /**
    A read through what one Build stacks, in terms of the configuration and of the shape of the loader's error. A live
    entry is served. Otherwise a loaded value is served and stored; and where the loader's error has the sentinel
    inside, at whatever depth, or there is no loader, the placeholder is, if there is protection. Any other error of
    the loader is passed on, and nothing is stored.
   */
  lemma BuiltReadIs<V>(f: Features<V>, level: Level<V>, key: Key, now: int, loaded: Result<V>)
    requires TTLErrors(f) == []
    ensures var r := ReadTTL(Layers(f), level, key, now, loaded);
            if key in level && !(level[key].expireAt.Some? && now > level[key].expireAt.value) then
              && r.reply == Ok((level[key].value, Remaining(level[key], now)))
              && r.level == level && r.calls == 0
            else if f.missLoader.Some? && loaded.Ok? then
              && r.reply == Ok((loaded.value, f.missLoader.value))
              && r.level == Stored(level, key, loaded.value, f.missLoader.value, now) && r.calls == 1
            else if f.missLoader.Some? && !HasSentinel(loaded.error) then
              r.reply == Err(loaded.error) && r.level == level - {key} && r.calls == 1
            else if f.nilCache.Some? then
              var (placeholder, ttl) := f.nilCache.value;
              && r.reply == Ok((placeholder(key), ttl))
              && r.level == Stored(level, key, placeholder(key), ttl, now)
              && r.calls == if f.missLoader.Some? then 1 else 0
            else
              && r.level == level - {key}
              && r.reply == (if f.missLoader.Some? then Err(loaded.error) else Err(Wrapped(NotFound)))
              && r.calls == if f.missLoader.Some? then 1 else 0
  {
    ReadIs(Layers(f), level, key, now, loaded);
    LayersOf(f);
    if Live(level, key, now).None? {
      if loaded.Ok? && f.missLoader.Some? {
        OnMissing(level, key, loaded.value, f.missLoader.value, now);
      }
      if f.nilCache.Some? {
        OnMissing(level, key, f.nilCache.value.0(key), f.nilCache.value.1, now);
      }
      if loaded.Err? {
        IsNotFoundIff(loaded.error);
      }
      assert AfterGet(level, key, now) == level - {key};
    }
    hide ReadTTL, Layers, FirstLoader, Protection, Loaders, AfterSet, AfterGet, Stored, IsNotFound, HasSentinel;
  }

  lemma OnMissing<V>(level: Level<V>, key: Key, val: V, ttl: nat, now: int)
    requires Live(level, key, now).None?
    ensures AfterSet(AfterGet(level, key, now), key, val, ttl, now) == Stored(level, key, val, ttl, now)
  {
  }

  /** The event neither reads nor writes the key. */
  predicate LeavesAlone<V>(e: Event<V>, key: Key) {
    match e
    case Get(k, _) => k != key
    case GetWithTTL(k, _) => k != key
    case Set(k, _, _) => k != key
    case _ => true
  }

  lemma StaysAbsent<V>(stack: Stack<V>, s: State<V>, e: Event<V>, key: Key)
    requires key !in s.level && LeavesAlone(e, key)
    ensures key !in Step(stack, s, e).level
  {
    if e.Get? || e.GetWithTTL? {
      ReadIs(stack, s.level, e.key, s.now, e.loaded);
      ReadIgnoresTTL(stack, s.level, e.key, s.now, e.loaded);
    }
  }

  /** After Delete or Clear the key is gone, whatever happens to other keys: the next read of it is a miss. */
  lemma {:induction false} DeletedIsGone<V>(stack: Stack<V>, s: State<V>, e: Event<V>, es: seq<Event<V>>, key: Key)
    requires e == Delete(key) || e == Clear
    requires forall e' | e' in es :: LeavesAlone(e', key)
    ensures key !in Run(stack, Step(stack, s, e), es).level
    decreases |es|
  {
    if es != [] {
      var n := |es| - 1;
      assert es == es[..n] + [es[n]] && es[n] in es && forall e' | e' in es[..n] :: e' in es;
      DeletedIsGone(stack, s, e, es[..n], key);
      RunAppend(stack, Step(stack, s, e), es[..n], es[n]);
      StaysAbsent(stack, Run(stack, Step(stack, s, e), es[..n]), es[n], key);
    }
  }

  lemma {:induction false} RunAppend<V>(stack: Stack<V>, s: State<V>, es: seq<Event<V>>, last: Event<V>)
    ensures Run(stack, s, es + [last]) == Step(stack, Run(stack, s, es), last)
    decreases |es|
  {
    if es == [] {
      assert ([] + [last])[0] == last && ([] + [last])[1..] == [];
    } else {
      assert (es + [last])[1..] == es[1..] + [last] && (es + [last])[0] == es[0];
      RunAppend(stack, Step(stack, s, es[0]), es[1..], last);
    }
  }

  // ----- Loader spacing -----

  /** A lifetime of at least `m` nanoseconds; a TTL of 0 lasts for ever. */
  predicate LastsAtLeast(ttl: int, m: nat) {
    ttl == 0 || ttl >= m
  }

  /** What a read of the key may write lives for at least `m`. */
  predicate WritesLast<V>(f: Features<V>, m: nat) {
    && f.missLoader.Some? && LastsAtLeast(f.missLoader.value, m)
    && (f.nilCache.Some? ==> LastsAtLeast(f.nilCache.value.1, m))
  }

  /** The event may make the next read of the key miss: it writes or deletes the key, or its load cannot be stored. */
  predicate Disturbs<V>(f: Features<V>, e: Event<V>, key: Key) {
    match e
    case Get(k, loaded) => k == key && loaded.Err? && !(f.nilCache.Some? && IsNotFound(loaded.error))
    case GetWithTTL(k, loaded) => k == key && loaded.Err? && !(f.nilCache.Some? && IsNotFound(loaded.error))
    case Set(k, _, _) => k == key
    case Delete(k) => k == key
    case Clear => true
    case Tick(_) => false
  }

  function Disturbances<V>(f: Features<V>, es: seq<Event<V>>, key: Key): nat {
    if es == [] then 0 else (if Disturbs(f, es[0], key) then 1 else 0) + Disturbances(f, es[1..], key)
  }

  /** The entry is served until at least `x`. */
  ghost predicate LiveUntil<V>(s: State<V>, key: Key, x: int) {
    key in s.level && !Expired(s.level[key], s.now) && !Expired(s.level[key], x)
  }

  /** One event: who calls the loader, and what becomes of the entry. */
  lemma SpacedStep<V>(f: Features<V>, s: State<V>, e: Event<V>, key: Key, m: nat, x: int)
    requires TTLErrors(f) == [] && WritesLast(f, m)
    ensures var s', calls := Step(Layers(f), s, e), CallsOf(Layers(f), s, e, key);
            && calls <= 1
            && (LiveUntil(s, key, x) ==> calls == 0)
            && (LiveUntil(s, key, x) && !Disturbs(f, e, key) && s'.now <= x ==> LiveUntil(s', key, x))
            && (calls == 1 && !Disturbs(f, e, key) ==> LiveUntil(s', key, s.now + m))
            && s'.now == s.now + if e.Tick? then e.elapsed else 0
  {
    if e.Get? || e.GetWithTTL? {
      LayersOf(f);
      ReadIs(Layers(f), s.level, e.key, s.now, e.loaded);
      ReadIgnoresTTL(Layers(f), s.level, e.key, s.now, e.loaded);
    }
  }

  /**
    The count behind the bound. With `n` calls and `d` disturbances in the run: `(n - d - 1) * (m + 1)` is at
    most the time that passes; and if the entry is known to live until `x`, `(n - d) * (m + 1)` is at most the
    time that passes after `x - m`.
   */
  lemma {:induction false} SpacingCount<V>(f: Features<V>, s: State<V>, es: seq<Event<V>>, key: Key, m: nat, x: int)
    requires TTLErrors(f) == [] && WritesLast(f, m)
    ensures var n, d := Calls(Layers(f), s, es, key), Disturbances(f, es, key);
            && (n - d - 1) * (m + 1) <= Elapsed(es)
            && (LiveUntil(s, key, x) && s.now <= x <= s.now + m ==>
                  (n - d) * (m + 1) <= s.now + Elapsed(es) - (x - m))
    decreases |es|
  {
    var n, d := Calls(Layers(f), s, es, key), Disturbances(f, es, key);
    if es == [] {
      assert (n - d - 1) * (m + 1) == -(m + 1);
    } else {
      var s' := Step(Layers(f), s, es[0]);
      var calls := CallsOf(Layers(f), s, es[0], key);
      SpacedStep(f, s, es[0], key, m, x);
      var n', d' := Calls(Layers(f), s', es[1..], key), Disturbances(f, es[1..], key);
      SpacingCount(f, s', es[1..], key, m, x);
      SpacingCount(f, s', es[1..], key, m, s.now + m);
      assert n == calls + n' && d == d' + if Disturbs(f, es[0], key) then 1 else 0;
      assert (n - d) * (m + 1) == (n - d - 1) * (m + 1) + (m + 1);
      assert (n' - d') * (m + 1) == (n' - d' - 1) * (m + 1) + (m + 1);
      assert (n' - d' - 1) * (m + 1) == (n' - d' - 2) * (m + 1) + (m + 1);
    }
  }

  /**
    Loader spacing. If whatever a read writes lives for at least `m`, a run of length `L` with `d` disturbances
    calls the loader for one key at most `1 + d + L / (m + 1)` times: undisturbed calls are more than `m` apart.
   */
  lemma LoaderCallsBounded<V>(f: Features<V>, s: State<V>, es: seq<Event<V>>, key: Key, m: nat)
    requires TTLErrors(f) == [] && WritesLast(f, m)
    ensures Calls(Layers(f), s, es, key) <= 1 + Disturbances(f, es, key) + Elapsed(es) / (m + 1)
  {
    SpacingCount(f, s, es, key, m, 0);
    var k := Calls(Layers(f), s, es, key) - Disturbances(f, es, key) - 1;
    if k > Elapsed(es) / (m + 1) {
      BeyondQuotient(k, m + 1, Elapsed(es));
    }
  }

  /** One read every `m + 1` nanoseconds. */
  function Poll<V>(key: Key, val: V, m: nat, n: nat): seq<Event<V>> {
    if n == 0 then [Get(key, Ok(val))] else [Get(key, Ok(val)), Tick(m + 1)] + Poll(key, val, m, n - 1)
  }

  /** The bound is attained: with write-back TTL `m > 0`, `n` such intervals make `n + 1` calls and no disturbance. */
  lemma {:induction false} LoaderBoundIsAttained<V>(f: Features<V>, s: State<V>, key: Key, val: V, m: nat, n: nat)
    requires TTLErrors(f) == [] && f.missLoader == Some(m) && m > 0
    requires Live(s.level, key, s.now).None?
    ensures var es := Poll(key, val, m, n);
            && Calls(Layers(f), s, es, key) == n + 1
            && Disturbances(f, es, key) == 0
            && Elapsed(es) == n * (m + 1)
    decreases n
  {
    var get: Event<V> := Get(key, Ok(val));
    LayersOf(f);
    ReadIs(Layers(f), s.level, key, s.now, Ok(val));
    ReadIgnoresTTL(Layers(f), s.level, key, s.now, Ok(val));
    var s1 := Step(Layers(f), s, get);
    assert CallsOf(Layers(f), s, get, key) == 1 && s1.level[key] == NewItem(val, m, s.now);
    var es := Poll(key, val, m, n);
    if n == 0 {
      assert es[1..] == [];
    } else {
      var rest := Poll(key, val, m, n - 1);
      var tick: Event<V> := Tick(m + 1);
      assert es[1..] == [tick] + rest && es[1..][1..] == rest;
      LoaderBoundIsAttained(f, Step(Layers(f), s1, tick), key, val, m, n - 1);
      assert n * (m + 1) == (n - 1) * (m + 1) + (m + 1);
    }
  }
}
