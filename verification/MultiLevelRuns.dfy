/**
  Runs of the multi-level cache: any sequence of operations with any failures, lost entries and passing
  time. A write-back happens inside its Get, or, when deferred, later and level by level.
 */
module MultiLevelRuns {
  import opened Prelude
  import opened TtlStore
  import opened MultiLevel

  /** The mode enters no step: it only selects the answer of a Get. */
  datatype Config = Config(writeBackTTL: int, deferred: bool, mode: Mode)

  /** A deferred write-back of one level; `since` is the instant of the Get that asked for it. */
  datatype Write<V> = Write(level: nat, key: Key, val: V, since: int)

  datatype State<V> = State(levels: seq<Level<V>>, now: int, pending: seq<Write<V>>)

  datatype Event<V> =
    | Get(key: Key, getFaults: Faults, loaded: Result<V>, setFaults: Faults)
    | Set(key: Key, val: V, ttl: int, setFaults: Faults)
    | Delete(key: Key, faults: Faults)
    | Clear(faults: Faults)
    | Evict(level: nat, key: Key)                      // a level drops an entry on its own
    | RunPending(index: nat, setFaults: Faults)
    | Tick(elapsed: nat)

  function Empty<V>(n: nat, now: int): State<V> {
    State(seq(n, i => map[]), now, [])
  }

  function Enqueue<V>(targets: seq<nat>, key: Key, val: V, now: int): seq<Write<V>> {
    seq(|targets|, i requires 0 <= i < |targets| => Write(targets[i], key, val, now))
  }

  function FetchAt<V>(s: State<V>, e: Event<V>): Fetched<V>
    requires e.Get?
  {
    Fetch(s.levels, e.key, s.now, e.getFaults, e.loaded)
  }

  function Step<V>(cfg: Config, s: State<V>, e: Event<V>): State<V> {
    match e
    case Get(key, _, _, setFaults) =>
      var f := FetchAt(s, e);
      if cfg.deferred && f.value.Ok? then
        s.(levels := f.levels, pending := s.pending + Enqueue(f.targets, key, f.value.value, s.now))
      else s.(levels := AfterRepair(s.levels, key, f, cfg.writeBackTTL, s.now, setFaults))
    case Set(key, val, ttl, setFaults) =>
      s.(levels := AfterWrites(s.levels, AllLevels(|s.levels|), key, val, ttl, s.now, setFaults))
    case Delete(key, faults) => s.(levels := AfterDelete(s.levels, key, faults))
    case Clear(faults) => s.(levels := AfterClear(s.levels, faults))
    case Evict(level, key) =>
      if level < |s.levels| then s.(levels := s.levels[level := s.levels[level] - {key}]) else s
    case RunPending(index, setFaults) =>
      if index < |s.pending| then
        var w := s.pending[index];
        s.(levels := AfterWrites(s.levels, [w.level], w.key, w.val, cfg.writeBackTTL, s.now, setFaults),
           pending := s.pending[..index] + s.pending[index + 1..])
      else s
    case Tick(d) => s.(now := s.now + d)
  }

  function Run<V>(cfg: Config, s: State<V>, es: seq<Event<V>>): State<V>
    decreases |es|
  {
    if es == [] then s else Run(cfg, Step(cfg, s, es[0]), es[1..])
  }

  // ----- Where an entry can come from -----

  /** The step put `item` under `key` at level `i`. */
  ghost predicate Puts<V>(cfg: Config, s: State<V>, e: Event<V>, i: nat, key: Key, item: Item<V>) {
    match e
    case Get(k, _, _, _) =>
      var f := FetchAt(s, e);
      && !cfg.deferred && f.value.Ok? && cfg.writeBackTTL >= 0
      && k == key && i in f.targets && item == NewItem(f.value.value, cfg.writeBackTTL, s.now)
    case Set(k, val, ttl, _) => k == key && ttl >= 0 && item == NewItem(val, ttl, s.now)
    case RunPending(index, _) =>
      && index < |s.pending| && s.pending[index].key == key && s.pending[index].level == i
      && cfg.writeBackTTL >= 0 && item == NewItem(s.pending[index].val, cfg.writeBackTTL, s.now)
    case _ => false
  }

  lemma StepItems<V>(cfg: Config, s: State<V>, e: Event<V>)
    ensures var s' := Step(cfg, s, e);
            && |s'.levels| == |s.levels|
            && forall i: nat, key | i < |s'.levels| && key in s'.levels[i] ::
                 || (key in s.levels[i] && s'.levels[i][key] == s.levels[i][key])
                 || Puts(cfg, s, e, i, key, s'.levels[i][key])
  {
  }

  lemma StepPending<V>(cfg: Config, s: State<V>, e: Event<V>)
    ensures forall p | p in Step(cfg, s, e).pending ::
              || p in s.pending
              || (e.Get? && cfg.deferred && FetchAt(s, e).value.Ok? && p.level in FetchAt(s, e).targets
                  && p == Write(p.level, e.key, FetchAt(s, e).value.value, s.now))
  {
  }

  // ----- Origins -----

  /** A value offered to the cache: by a caller's Set, or by the loader. */
  datatype Origin<V> =
    | SetAt(key: Key, val: V, at: int, ttl: int)
    | LoadedAt(key: Key, val: V, at: int)

  ghost function Offered<V>(s: State<V>, e: Event<V>): set<Origin<V>> {
    match e
    case Get(key, _, loaded, _) =>
      if FetchAt(s, e).hit == |s.levels| && loaded.Ok? then {LoadedAt(key, loaded.value, s.now)} else {}
    case Set(key, val, ttl, _) => {SetAt(key, val, s.now, ttl)}
    case _ => {}
  }

  ghost function History<V>(cfg: Config, s: State<V>, es: seq<Event<V>>): set<Origin<V>>
    decreases |es|
  {
    if es == [] then {} else Offered(s, es[0]) + History(cfg, Step(cfg, s, es[0]), es[1..])
  }

  // ----- Staleness and provenance -----

  /**
    The origin accounts for the value still being around at `until` (`None`: for ever), after at most
    `hops` write-backs, each of which prolongs its life by at most `period`.
   */
  ghost predicate Covers<V>(o: Origin<V>, key: Key, val: V, until: Option<int>, hops: int, period: nat) {
    && o.key == key && o.val == val
    && match o
       case SetAt(_, _, at, ttl) => ttl == 0 || (until.Some? && until.value <= at + ttl + hops * period)
       case LoadedAt(_, _, at) => until.Some? && until.value <= at + (hops + 1) * period
  }

  ghost predicate Accounted<V>(h: set<Origin<V>>, key: Key, val: V, until: Option<int>, hops: int, period: nat) {
    exists o | o in h :: Covers(o, key, val, until, hops, period)
  }

  /** Level `i` of `n` is at most `n - 1 - i` write-backs away from the origin: repair copies upwards only. */
  ghost predicate Fresh<V>(s: State<V>, h: set<Origin<V>>, period: nat) {
    && (forall i: nat, key | i < |s.levels| && key in s.levels[i] ::
          Accounted(h, key, s.levels[i][key].value, s.levels[i][key].expireAt, |s.levels| - 1 - i, period))
    && (forall p | p in s.pending ::
          Accounted(h, p.key, p.val, Some(p.since), |s.levels| - 2 - p.level, period))
  }

  /** More hops, or an earlier instant, and the origin still accounts for the value. */
  lemma Keep<V>(h: set<Origin<V>>, h': set<Origin<V>>, key: Key, val: V, until: Option<int>,
                hops: int, hops': int, period: nat)
    requires Accounted(h, key, val, until, hops, period) && hops <= hops' && h <= h'
    ensures Accounted(h', key, val, until, hops', period)
    ensures forall t: int | until.None? || t <= until.value :: Accounted(h', key, val, Some(t), hops', period)
  {
    var o :| o in h && Covers(o, key, val, until, hops, period);
    Scale(hops, hops', period);
    Scale(hops + 1, hops' + 1, period);
    assert Covers(o, key, val, until, hops', period);
    assert forall t: int | until.None? || t <= until.value :: Covers(o, key, val, Some(t), hops', period);
  }

  /** A copy made within its life and living on for at most one period is one hop further away. */
  lemma Hop<V>(h: set<Origin<V>>, h': set<Origin<V>>, key: Key, val: V, from: int, until: int,
               hops: int, hops': int, period: nat)
    requires Accounted(h, key, val, Some(from), hops, period) && hops < hops' && h <= h'
    requires until <= from + period
    ensures Accounted(h', key, val, Some(until), hops', period)
  {
    var o :| o in h && Covers(o, key, val, Some(from), hops, period);
    Scale(hops, hops', period);
    Scale(hops + 1, hops' + 1, period);
    assert Covers(o, key, val, Some(until), hops', period);
  }

  /** What a Get fetches is accounted for one hop below every level it will repair. */
  lemma FetchedIsFresh<V>(s: State<V>, e: Event<V>, h: set<Origin<V>>, period: nat)
    requires e.Get? && Fresh(s, h, period) && FetchAt(s, e).value.Ok?
    ensures var f := FetchAt(s, e);
            Accounted(h + Offered(s, e), e.key, f.value.value, Some(s.now), |s.levels| - 1 - f.hit, period)
  {
    var f := FetchAt(s, e);
    var all := h + Offered(s, e);
    if f.hit < |s.levels| {
      var item := s.levels[f.hit][e.key];
      Keep(h, all, e.key, item.value, item.expireAt, |s.levels| - 1 - f.hit, |s.levels| - 1 - f.hit, period);
    } else {
      var o := LoadedAt(e.key, e.loaded.value, s.now);
      assert o in all && Covers(o, e.key, e.loaded.value, Some(s.now), -1, period);
    }
  }

  /** Deferred write-backs run at most `delay` after the Get that asked for them. */
  ghost predicate TimelyStep<V>(s: State<V>, e: Event<V>, delay: nat) {
    e.RunPending? && e.index < |s.pending| ==> s.now <= s.pending[e.index].since + delay
  }

  ghost predicate Timely<V>(cfg: Config, s: State<V>, es: seq<Event<V>>, delay: nat)
    decreases |es|
  {
    es == [] || (TimelyStep(s, es[0], delay) && Timely(cfg, Step(cfg, s, es[0]), es[1..], delay))
  }

  lemma SetItemIsFresh<V>(s: State<V>, e: Event<V>, all: set<Origin<V>>, period: nat, i: nat, item: Item<V>)
    requires e.Set? && e.ttl >= 0 && i < |s.levels| && item == NewItem(e.val, e.ttl, s.now)
    requires Offered(s, e) <= all
    ensures Accounted(all, e.key, item.value, item.expireAt, |s.levels| - 1 - i, period)
  {
    Scale(0, |s.levels| - 1 - i, period);
    var o := SetAt(e.key, e.val, s.now, e.ttl);
    assert o in all && Covers(o, e.key, e.val, item.expireAt, |s.levels| - 1 - i, period);
  }

  lemma NewItemIsFresh<V>(cfg: Config, s: State<V>, e: Event<V>, h: set<Origin<V>>, delay: nat,
                          i: nat, key: Key, item: Item<V>)
    requires cfg.writeBackTTL > 0 && TimelyStep(s, e, delay)
    requires Fresh(s, h, cfg.writeBackTTL + delay)
    requires i < |s.levels| && Puts(cfg, s, e, i, key, item)
    ensures Accounted(h + Offered(s, e), key, item.value, item.expireAt, |s.levels| - 1 - i,
                      cfg.writeBackTTL + delay)
  {
    var n, period, all := |s.levels|, cfg.writeBackTTL + delay, h + Offered(s, e);
    if e.Get? {
      var hit := FetchAt(s, e).hit;
      TargetsInRange(s.levels, e.key, s.now, e.getFaults, e.loaded);
      FetchedIsFresh(s, e, h, period);
      Hop(all, all, key, item.value, s.now, item.expireAt.value, n - 1 - hit, n - 1 - i, period);
    } else if e.Set? {
      SetItemIsFresh(s, e, all, period, i, item);
    } else {
      var p := s.pending[e.index];
      assert p in s.pending;
      Hop(h, all, key, item.value, p.since, item.expireAt.value, n - 2 - i, n - 1 - i, period);
    }
  }

  lemma PendingIsFresh<V>(cfg: Config, s: State<V>, e: Event<V>, h: set<Origin<V>>, period: nat, p: Write<V>)
    requires Fresh(s, h, period) && p in Step(cfg, s, e).pending
    ensures Accounted(h + Offered(s, e), p.key, p.val, Some(p.since), |s.levels| - 2 - p.level, period)
  {
    var n, all := |s.levels|, h + Offered(s, e);
    StepPending(cfg, s, e);
    if p in s.pending {
      Keep(h, all, p.key, p.val, Some(p.since), n - 2 - p.level, n - 2 - p.level, period);
    } else {
      TargetsInRange(s.levels, e.key, s.now, e.getFaults, e.loaded);
      FetchedIsFresh(s, e, h, period);
      Keep(all, all, p.key, p.val, Some(p.since), n - 1 - FetchAt(s, e).hit, n - 2 - p.level, period);
    }
  }

  lemma StepKeepsFresh<V>(cfg: Config, s: State<V>, e: Event<V>, h: set<Origin<V>>, delay: nat)
    requires cfg.writeBackTTL > 0 && TimelyStep(s, e, delay)
    requires Fresh(s, h, cfg.writeBackTTL + delay)
    ensures Fresh(Step(cfg, s, e), h + Offered(s, e), cfg.writeBackTTL + delay)
  {
    var s', all, period := Step(cfg, s, e), h + Offered(s, e), cfg.writeBackTTL + delay;
    var n := |s.levels|;
    StepItems(cfg, s, e);
    forall i: nat, key | i < n && key in s'.levels[i]
      ensures Accounted(all, key, s'.levels[i][key].value, s'.levels[i][key].expireAt, n - 1 - i, period)
    {
      var item := s'.levels[i][key];
      if key in s.levels[i] && item == s.levels[i][key] {
        Keep(h, all, key, item.value, item.expireAt, n - 1 - i, n - 1 - i, period);
      } else {
        NewItemIsFresh(cfg, s, e, h, delay, i, key, item);
      }
    }
    forall p | p in s'.pending
      ensures Accounted(all, p.key, p.val, Some(p.since), n - 2 - p.level, period)
    {
      PendingIsFresh(cfg, s, e, h, period, p);
    }
  }

  lemma {:induction false} RunKeepsFresh<V>(cfg: Config, s: State<V>, es: seq<Event<V>>, h: set<Origin<V>>, delay: nat)
    requires cfg.writeBackTTL > 0 && Timely(cfg, s, es, delay)
    requires Fresh(s, h, cfg.writeBackTTL + delay)
    ensures Fresh(Run(cfg, s, es), h + History(cfg, s, es), cfg.writeBackTTL + delay)
    ensures |Run(cfg, s, es).levels| == |s.levels|
    decreases |es|
  {
    if es == [] {
      assert h + History(cfg, s, es) == h;
    } else {
      StepItems(cfg, s, es[0]);
      StepKeepsFresh(cfg, s, es[0], h, delay);
      RunKeepsFresh(cfg, Step(cfg, s, es[0]), es[1..], h + Offered(s, es[0]), delay);
      assert h + History(cfg, s, es) == h + Offered(s, es[0]) + History(cfg, Step(cfg, s, es[0]), es[1..]);
    }
  }

  /**
    Staleness. In every run of `n` levels with write-back TTL `W > 0` whose deferred write-backs run
    within `delay`: what a Get serves was Set without expiry, or Set at `o` with TTL `D` and the Get is no
    later than `o + D + (n - 1) * (W + delay)`, or loaded at `o` and the Get is no later than
    `o + n * (W + delay)`.
   */
  lemma StalenessBound<V>(cfg: Config, n: nat, start: int, es: seq<Event<V>>, g: Event<V>, delay: nat)
    requires cfg.writeBackTTL > 0 && g.Get?
    requires Timely(cfg, Empty(n, start), es, delay)
    ensures var s := Run(cfg, Empty(n, start), es);
            FetchAt(s, g).value.Ok? ==>
              exists o | o in History(cfg, Empty(n, start), es) + Offered(s, g) ::
                InTime(o, g.key, FetchAt(s, g).value.value, s.now, n, cfg.writeBackTTL + delay)
  {
    var s0: State<V> := Empty(n, start);
    var s, period := Run(cfg, s0, es), cfg.writeBackTTL + delay;
    EmptyIsFresh<V>(n, start, period);
    hide Fresh, Run, Step, Timely, History, Offered, FetchAt, InTime, Accounted;
    RunKeepsFresh(cfg, s0, es, {}, delay);
    assert {} + History(cfg, s0, es) == History(cfg, s0, es);
    ServedInTime(s, g, History(cfg, s0, es), period);
  }

  lemma ServedInTime<V>(s: State<V>, g: Event<V>, h: set<Origin<V>>, period: nat)
    requires g.Get? && Fresh(s, h, period)
    ensures FetchAt(s, g).value.Ok? ==>
              exists o | o in h + Offered(s, g) ::
                InTime(o, g.key, FetchAt(s, g).value.value, s.now, |s.levels|, period)
  {
    if FetchAt(s, g).value.Ok? {
      FetchedIsFresh(s, g, h, period);
      var all, n, hit := h + Offered(s, g), |s.levels|, FetchAt(s, g).hit;
      hide *;
      Keep(all, all, g.key, FetchAt(s, g).value.value, Some(s.now), n - 1 - hit, n - 1, period);
      AccountedInTime(all, g.key, FetchAt(s, g).value.value, s.now, n, period);
    }
  }

  /** The value served at `now` comes from this origin, and not too late. */
  ghost predicate InTime<V>(o: Origin<V>, key: Key, val: V, now: int, n: nat, period: nat) {
    && o.key == key && o.val == val
    && match o
       case SetAt(_, _, at, ttl) => ttl == 0 || now <= at + ttl + (n - 1) * period
       case LoadedAt(_, _, at) => now <= at + n * period
  }

  lemma AccountedInTime<V>(h: set<Origin<V>>, key: Key, val: V, now: int, n: nat, period: nat)
    requires Accounted(h, key, val, Some(now), n - 1, period)
    ensures exists o | o in h :: InTime(o, key, val, now, n, period)
  {
    var o :| o in h && Covers(o, key, val, Some(now), n - 1, period);
    assert InTime(o, key, val, now, n, period);
  }

  lemma EmptyIsFresh<V>(n: nat, start: int, period: nat)
    ensures Fresh(Empty<V>(n, start), {}, period) && |Empty<V>(n, start).levels| == n
  {
  }

  /** Without deferral nothing is ever pending, so the bound holds with no delay at all. */
  lemma {:induction false} SynchronousIsTimely<V>(cfg: Config, s: State<V>, es: seq<Event<V>>)
    requires !cfg.deferred && s.pending == []
    ensures Timely(cfg, s, es, 0) && Run(cfg, s, es).pending == []
    decreases |es|
  {
    if es != [] {
      SynchronousIsTimely(cfg, Step(cfg, s, es[0]), es[1..]);
    }
  }

  // ----- Provenance -----

  ghost predicate Known<V>(h: set<Origin<V>>, key: Key, val: V) {
    exists o | o in h :: o.key == key && o.val == val
  }

  /** Whatever is stored, or waiting to be written, under the key has such an origin. */
  ghost predicate Sourced<V>(s: State<V>, h: set<Origin<V>>, key: Key) {
    && (forall i: nat | i < |s.levels| && key in s.levels[i] :: Known(h, key, s.levels[i][key].value))
    && (forall p | p in s.pending && p.key == key :: Known(h, key, p.val))
  }

  lemma StepKeepsSourced<V>(cfg: Config, s: State<V>, e: Event<V>, h: set<Origin<V>>, key: Key)
    requires Sourced(s, h, key)
    ensures Sourced(Step(cfg, s, e), h + Offered(s, e), key)
    ensures e.Get? && e.key == key && FetchAt(s, e).value.Ok? ==>
              Known(h + Offered(s, e), key, FetchAt(s, e).value.value)
  {
    var all := h + Offered(s, e);
    assert forall val | Known(h, key, val) :: Known(all, key, val);
    StepItems(cfg, s, e);
    StepPending(cfg, s, e);
    if e.Get? && FetchAt(s, e).value.Ok? && FetchAt(s, e).hit == |s.levels| {
      assert LoadedAt(e.key, e.loaded.value, s.now) in all;
    }
    if e.Set? {
      assert SetAt(e.key, e.val, s.now, e.ttl) in all;
    }
  }

  lemma {:induction false} RunKeepsSourced<V>(cfg: Config, s: State<V>, es: seq<Event<V>>, h: set<Origin<V>>, key: Key)
    requires Sourced(s, h, key)
    ensures Sourced(Run(cfg, s, es), h + History(cfg, s, es), key)
    decreases |es|
  {
    if es == [] {
      assert h + History(cfg, s, es) == h;
    } else {
      StepKeepsSourced(cfg, s, es[0], h, key);
      RunKeepsSourced(cfg, Step(cfg, s, es[0]), es[1..], h + Offered(s, es[0]), key);
      assert h + History(cfg, s, es) == h + Offered(s, es[0]) + History(cfg, Step(cfg, s, es[0]), es[1..]);
    }
  }

  lemma ServedIsSourced<V>(cfg: Config, s: State<V>, es: seq<Event<V>>, g: Event<V>, key: Key)
    requires Sourced(s, {}, key) && g.Get?
    ensures Sourced(Run(cfg, s, es), History(cfg, s, es), key)
    ensures g.key == key && FetchAt(Run(cfg, s, es), g).value.Ok? ==>
              Known(History(cfg, s, es) + Offered(Run(cfg, s, es), g), key, FetchAt(Run(cfg, s, es), g).value.value)
  {
    RunKeepsSourced(cfg, s, es, {}, key);
    assert {} + History(cfg, s, es) == History(cfg, s, es);
    StepKeepsSourced(cfg, Run(cfg, s, es), g, History(cfg, s, es), key);
  }

  /**
    Provenance. Whatever fails, in whatever mode, at whatever delay: an entry of any level, and the value
    any Get serves, was passed to Set or returned by the loader for that very key.
   */
  lemma Provenance<V>(cfg: Config, n: nat, start: int, es: seq<Event<V>>, g: Event<V>)
    requires g.Get?
    ensures var s0 := Empty(n, start);
            var s := Run(cfg, s0, es);
            && (forall i: nat, key | i < |s.levels| && key in s.levels[i] ::
                  Known(History(cfg, s0, es), key, s.levels[i][key].value))
            && (FetchAt(s, g).value.Ok? ==>
                  Known(History(cfg, s0, es) + Offered(s, g), g.key, FetchAt(s, g).value.value))
  {
    var s0: State<V> := Empty(n, start);
    var s := Run(cfg, s0, es);
    forall i: nat, key | i < |s.levels| && key in s.levels[i]
      ensures Known(History(cfg, s0, es), key, s.levels[i][key].value)
    {
      ServedIsSourced(cfg, s0, es, g, key);
    }
    ServedIsSourced(cfg, s0, es, g, g.key);
  }

  // ----- Deleting for good -----

  /** Delete of the key, or Clear, carried out by every level. */
  ghost predicate Removes<V>(e: Event<V>, key: Key, n: nat) {
    match e
    case Delete(k, faults) => k == key && forall i: nat | i < n :: CarriesOut(faults, i)
    case Clear(faults) => forall i: nat | i < n :: CarriesOut(faults, i)
    case _ => false
  }

  lemma RemovedEverywhere<V>(cfg: Config, s: State<V>, e: Event<V>, key: Key)
    requires Removes(e, key, |s.levels|)
    ensures var s1 := Step(cfg, s, e);
            && |s1.levels| == |s.levels| && s1.pending == s.pending && s1.now == s.now
            && forall i: nat | i < |s1.levels| :: key !in s1.levels[i]
  {
    forall i: nat | i < |s.levels|
      ensures key !in Step(cfg, s, e).levels[i]
    {
      assert CarriesOut(e.faults, i);
    }
  }

  /**
    Once every level has carried out a Delete or a Clear, and no write-back of the key is pending, the old value never
    comes back: over every later run, what is stored or served under the key was Set or loaded afterwards.
   */
  lemma DeletedIsForgotten<V>(cfg: Config, s: State<V>, e: Event<V>, es: seq<Event<V>>, g: Event<V>, key: Key)
    requires Removes(e, key, |s.levels|) && (forall p | p in s.pending :: p.key != key) && g.Get? && g.key == key
    ensures var s1 := Step(cfg, s, e);
            var s' := Run(cfg, s1, es);
            && (forall i: nat | i < |s'.levels| && key in s'.levels[i] ::
                  Known(History(cfg, s1, es), key, s'.levels[i][key].value))
            && (FetchAt(s', g).value.Ok? ==>
                  Known(History(cfg, s1, es) + Offered(s', g), key, FetchAt(s', g).value.value))
  {
    var s1 := Step(cfg, s, e);
    RemovedEverywhere(cfg, s, e, key);
    ServedIsSourced(cfg, s1, es, g, key);
  }

  /** The condition is exact: a write-back that is pending brings the old value back, although nothing offers it. */
  lemma PendingComesBack<V>(cfg: Config, s: State<V>, e: Event<V>, index: nat, g: Event<V>)
    requires cfg.writeBackTTL >= 0 && index < |s.pending| && s.pending[index].level < |s.levels|
    requires Removes(e, s.pending[index].key, |s.levels|)
    requires g == Event.Get(s.pending[index].key, map[], Err(NotFound), map[])
    ensures var s1 := Step(cfg, s, e);
            && FetchAt(Step(cfg, s1, RunPending(index, map[])), g).value == Ok(s.pending[index].val)
            && History(cfg, s1, [RunPending(index, map[])]) == {}
  {
    var w := s.pending[index];
    var s1 := Step(cfg, s, e);
    RemovedEverywhere(cfg, s, e, w.key);
    var s2 := Step(cfg, s1, RunPending(index, map[]));
    assert Live(s2.levels[w.level], w.key, s2.now) == Some(NewItem(w.val, cfg.writeBackTTL, s2.now));
    assert forall j: nat | j < w.level :: ReadReply(s2.levels[j], w.key, s2.now, map[], j).Err?;
    assert ReadReply(s2.levels[w.level], w.key, s2.now, map[], w.level) == Ok(w.val);
    assert FirstHit(s2.levels, w.key, s2.now, map[]) == w.level;
    var late: seq<Event<V>> := [RunPending(index, map[])];
    assert late[1..] == [];
  }
}
