/**
  What one operation of the multi-level cache means for its callers, and what every run keeps: read-repair
  against a plain map, agreement of the levels, the order of parallel writes, and deferred write-backs.
 */
module MultiLevelLaws {
  import opened Prelude
  import opened TtlStore
  import opened MultiLevel
  import opened MultiLevelRuns

  // ----- The staleness bound is attained -----

  /** Levels above `i` do not know the key; level `i` serves it until `until`. */
  ghost predicate FirstAt<V>(s: State<V>, key: Key, val: V, i: nat, until: int) {
    && i < |s.levels| && s.pending == [] && s.now <= until
    && (forall j | 0 <= j < i :: key !in s.levels[j])
    && key in s.levels[i] && s.levels[i][key] == Item(val, Some(until))
  }

  /** Every level above level `i` refuses the call, with an error that is not a miss. */
  function RefuseAbove(i: nat): (r: Faults)
    ensures forall j: nat :: j in r <==> j < i
    ensures forall j | j in r :: r[j] == Refused(Failure(0))
  {
    if i == 0 then map[] else RefuseAbove(i - 1)[i - 1 := Refused(Failure(0))]
  }

  /** The event offers the cache no value. */
  predicate Quiet<V>(e: Event<V>) {
    !e.Set? && (e.Get? ==> e.loaded.Err?)
  }

  /** A timely run that offers no value leads from one state to the other. */
  ghost predicate Leads<V>(cfg: Config, s: State<V>, es: seq<Event<V>>, s': State<V>, delay: nat) {
    Run(cfg, s, es) == s' && Timely(cfg, s, es, delay) && forall e | e in es :: Quiet(e)
  }

  lemma {:induction false} Chain<V>(cfg: Config, s: State<V>, a: seq<Event<V>>, s1: State<V>, b: seq<Event<V>>,
                                    s2: State<V>, delay: nat)
    requires Leads(cfg, s, a, s1, delay) && Leads(cfg, s1, b, s2, delay)
    ensures Leads(cfg, s, a + b, s2, delay)
    decreases |a|
  {
    hide Step, TimelyStep, Quiet;
    if a == [] {
      assert a + b == b;
    } else {
      assert (a + b)[1..] == a[1..] + b && (a + b)[0] == a[0];
      Chain(cfg, Step(cfg, s, a[0]), a[1..], s1, b, s2, delay);
    }
  }

  lemma OneEvent<V>(cfg: Config, s: State<V>, e: Event<V>, delay: nat)
    requires Quiet(e) && TimelyStep(s, e, delay)
    ensures Leads(cfg, s, [e], Step(cfg, s, e), delay)
  {
    assert [e][1..] == [];
    assert Run(cfg, Step(cfg, s, e), [e][1..]) == Step(cfg, s, e);
  }

  lemma {:induction false} NoMiss(failed: seq<Failed>)
    requires forall f | f in failed :: !IsNotFound(f.err)
    ensures Missed(failed) == []
  {
    if failed != [] {
      NoMiss(failed[1..]);
    }
  }

  lemma {:induction false} MissedAppend(a: seq<Failed>, b: seq<Failed>)
    ensures Missed(a + b) == Missed(a) + Missed(b)
  {
    hide IsNotFound;
    if a == [] {
      assert a + b == b;
    } else {
      var first := if IsNotFound(a[0].err) then [a[0].level] else [];
      MissedAppend(a[1..], b);
      assert (a + b)[0] == a[0] && (a + b)[1..] == a[1..] + b;
      assert Missed(a + b) == first + Missed(a[1..] + b);
      assert Missed(a) == first + Missed(a[1..]);
    }
  }

  /** With the levels above `i` refusing and level `i` truly missing, a fetch repairs level `i` and no other. */
  lemma OnlyMiss<V>(levels: seq<Level<V>>, key: Key, now: int, i: nat, h: nat)
    requires i < |levels| && key !in levels[i] && h == FirstHit(levels, key, now, RefuseAbove(i)) == i + 1
    ensures Missed(Failures(levels, key, now, RefuseAbove(i), h)) == [i]
  {
    var above := Failures(levels, key, now, RefuseAbove(i), i);
    var last := Failed(i, Wrapped(NotFound));
    assert Failures(levels, key, now, RefuseAbove(i), h) == above + [last];
    MissedAppend(above, [last]);
    NoMiss(above);
    assert [last][1..] == [];
  }

  lemma FirstAtIsHit<V>(s: State<V>, key: Key, val: V, i: nat, until: int, getFaults: Faults)
    requires FirstAt(s, key, val, i, until) && forall j | j in getFaults :: j < i
    ensures FirstHit(s.levels, key, s.now, getFaults) == i
    ensures GetResult(s.levels[i], key, s.now) == Ok(val)
    ensures FetchAt(s, Event.Get(key, getFaults, Err(NotFound), map[])).value == Ok(val)
  {
    assert forall j | 0 <= j < i :: ReadReply(s.levels[j], key, s.now, getFaults, j).Err?;
    assert ReadReply(s.levels[i], key, s.now, getFaults, i) == Ok(val);
    var h := FirstHit(s.levels, key, s.now, getFaults);
    assert !(h > i);
  }

  /** The levels down to `i` do not know the key, and a read with `Lift` fetches the value for level `i` alone. */
  ghost predicate Lifts<V>(s: State<V>, key: Key, val: V, i: nat, loaded: Result<V>) {
    && i < |s.levels| && s.pending == []
    && (forall j | 0 <= j <= i :: key !in s.levels[j])
    && var f := FetchAt(s, Event.Get(key, RefuseAbove(i), loaded, map[]));
       f.value == Ok(val) && f.targets == [i] && forall j: nat | j <= i :: f.levels[j] == s.levels[j]
  }

  lemma LiftFetched<V>(cfg: Config, s: State<V>, key: Key, val: V, i: nat, loaded: Result<V>) returns (s1: State<V>)
    requires cfg.writeBackTTL > 0 && Lifts(s, key, val, i, loaded)
    ensures s1 == Step(cfg, s, Event.Get(key, RefuseAbove(i), loaded, map[]))
    ensures s1.now == s.now && |s1.levels| == |s.levels|
    ensures s1.pending == if cfg.deferred then [Write(i, key, val, s.now)] else []
    ensures forall j | 0 <= j < i :: key !in s1.levels[j]
    ensures !cfg.deferred ==> key in s1.levels[i] && s1.levels[i][key] == NewItem(val, cfg.writeBackTTL, s.now)
  {
    s1 := Step(cfg, s, Event.Get(key, RefuseAbove(i), loaded, map[]));
  }

  /** Let the write-back of level `i` run, `delay` after the read. */
  lemma Settle<V>(cfg: Config, s: State<V>, key: Key, val: V, i: nat, delay: nat)
    returns (es: seq<Event<V>>, s': State<V>)
    requires cfg.writeBackTTL > 0 && (!cfg.deferred ==> delay == 0) && i < |s.levels|
    requires s.pending == if cfg.deferred then [Write(i, key, val, s.now)] else []
    requires forall j | 0 <= j < i :: key !in s.levels[j]
    requires !cfg.deferred ==> key in s.levels[i] && s.levels[i][key] == NewItem(val, cfg.writeBackTTL, s.now)
    ensures Leads(cfg, s, es, s', delay)
    ensures FirstAt(s', key, val, i, s.now + delay + cfg.writeBackTTL) && s'.now == s.now + delay
  {
    var tick: Event<V> := Event.Tick(delay);
    var run: Event<V> := RunPending(0, map[]);
    var s1 := Step(cfg, s, tick);
    s' := WrittenBack(cfg, s1, key, val, i, s.now);
    OneEvent(cfg, s, tick, delay);
    OneEvent(cfg, s1, run, delay);
    Chain(cfg, s, [tick], s1, [run], s', delay);
    es := [tick] + [run];
  }

  lemma WrittenBack<V>(cfg: Config, s: State<V>, key: Key, val: V, i: nat, since: int) returns (s': State<V>)
    requires cfg.writeBackTTL > 0 && i < |s.levels| && since <= s.now
    requires s.pending == if cfg.deferred then [Write(i, key, val, since)] else []
    requires forall j | 0 <= j < i :: key !in s.levels[j]
    requires !cfg.deferred ==> key in s.levels[i] && s.levels[i][key] == NewItem(val, cfg.writeBackTTL, s.now)
    ensures s' == Step(cfg, s, RunPending(0, map[]))
    ensures FirstAt(s', key, val, i, s.now + cfg.writeBackTTL) && s'.now == s.now
  {
    s' := Step(cfg, s, RunPending(0, map[]));
  }

  lemma Wait<V>(cfg: Config, s: State<V>, key: Key, val: V, i: nat, until: int, delay: nat)
    returns (es: seq<Event<V>>, s': State<V>)
    requires FirstAt(s, key, val, i, until)
    ensures Leads(cfg, s, es, s', delay)
    ensures s'.now == until && FirstAt(s', key, val, i, until)
  {
    var tick: Event<V> := Event.Tick(until - s.now);
    OneEvent(cfg, s, tick, delay);
    es, s' := [tick], Step(cfg, s, tick);
  }

  /** At its last instant a copy is read, for the next level up alone, and its write-back runs. */
  lemma ClimbOne<V>(cfg: Config, s: State<V>, key: Key, val: V, i: nat, delay: nat)
    returns (es: seq<Event<V>>, s': State<V>)
    requires cfg.writeBackTTL > 0 && (!cfg.deferred ==> delay == 0)
    requires FirstAt(s, key, val, i + 1, s.now)
    ensures Leads(cfg, s, es, s', delay)
    ensures s'.now == s.now + delay && FirstAt(s', key, val, i, s.now + delay + cfg.writeBackTTL)
  {
    ReadyToLift(s, key, val, i, s.now);
    var get: Event<V> := Event.Get(key, RefuseAbove(i), Err(NotFound), map[]);
    var s1 := LiftFetched(cfg, s, key, val, i, Err(NotFound));
    OneEvent(cfg, s, get, delay);
    hide Leads, FirstAt, Lifts, Step, TimelyStep;
    var rest: seq<Event<V>>;
    rest, s' := Settle(cfg, s1, key, val, i, delay);
    Chain(cfg, s, [get], s1, rest, s', delay);
    es := [get] + rest;
  }

  lemma ReadyToLift<V>(s: State<V>, key: Key, val: V, i: nat, until: int)
    requires FirstAt(s, key, val, i + 1, until)
    ensures Lifts(s, key, val, i, Err(NotFound))
  {
    FirstAtIsHit(s, key, val, i + 1, until, RefuseAbove(i));
    OnlyMiss(s.levels, key, s.now, i, i + 1);
  }

  /** The last instant of the copy at the top, reached from a copy at level `i`. */
  function Summit(i: nat, until: int, period: nat): int {
    if i == 0 then until else Summit(i - 1, until + period, period)
  }

  lemma {:induction false} SummitIs(i: nat, until: int, period: nat)
    ensures Summit(i, until, period) == until + i * period
    decreases i
  {
    if i > 0 {
      SummitIs(i - 1, until + period, period);
      assert i * period == (i - 1) * period + period;
    }
  }

  /** Wait for the last instant of the copy, lift it by one level, and go on there. */
  lemma {:induction false} Climb<V>(cfg: Config, s: State<V>, key: Key, val: V, i: nat, until: int, delay: nat)
    returns (es: seq<Event<V>>, s': State<V>)
    requires cfg.writeBackTTL > 0 && (!cfg.deferred ==> delay == 0)
    requires FirstAt(s, key, val, i, until)
    ensures Leads(cfg, s, es, s', delay)
    ensures s'.now == Summit(i, until, cfg.writeBackTTL + delay) && FirstAt(s', key, val, 0, s'.now)
    decreases i
  {
    hide Leads, FirstAt;
    var s1, s2;
    var waiting, lifting, rest: seq<Event<V>>;
    waiting, s1 := Wait(cfg, s, key, val, i, until, delay);
    if i == 0 {
      return waiting, s1;
    }
    lifting, s2 := ClimbOne(cfg, s1, key, val, i - 1, delay);
    rest, s' := Climb(cfg, s2, key, val, i - 1, until + (cfg.writeBackTTL + delay), delay);
    Chain(cfg, s, waiting, s1, lifting, s2, delay);
    Chain(cfg, s, waiting + lifting, s2, rest, s', delay);
    es := waiting + lifting + rest;
  }

  /** In an empty cache a read that only the lowest level takes part in loads the value for that level. */
  lemma ReadyToLoad<V>(n: nat, key: Key, val: V)
    requires n > 0
    ensures Lifts(Empty(n, 0), key, val, n - 1, Ok(val))
    ensures |Empty<V>(n, 0).levels| == n && Empty<V>(n, 0).now == 0
  {
    var s: State<V> := Empty(n, 0);
    assert forall j | 0 <= j < n :: ReadReply(s.levels[j], key, 0, RefuseAbove(n - 1), j).Err?;
    assert FirstHit(s.levels, key, 0, RefuseAbove(n - 1)) == n;
    OnlyMiss(s.levels, key, 0, n - 1, n);
  }

  lemma SetAtBottom<V>(cfg: Config, n: nat, key: Key, val: V, ttl: nat) returns (s: State<V>)
    requires n > 0 && ttl > 0
    ensures s == Step(cfg, Empty(n, 0), Event.Set(key, val, ttl, RefuseAbove(n - 1)))
    ensures FirstAt(s, key, val, n - 1, ttl)
  {
    s := Step(cfg, Empty(n, 0), Event.Set(key, val, ttl, RefuseAbove(n - 1)));
  }

  /**
    The staleness bound is attained: for every number of levels, TTL, write-back TTL and (when write-backs are
    deferred) delay. After a Set at time 0 that only the lowest level accepts, a timely run that offers no other
    value ends at the very last instant the bound allows, and a Get then still serves the value.
   */
  lemma StalenessBoundIsAttained<V>(cfg: Config, n: nat, key: Key, val: V, ttl: nat, delay: nat)
    returns (es: seq<Event<V>>, s: State<V>)
    requires cfg.writeBackTTL > 0 && n > 0 && ttl > 0 && (!cfg.deferred ==> delay == 0)
    ensures Leads(cfg, Step(cfg, Empty(n, 0), Event.Set(key, val, ttl, RefuseAbove(n - 1))), es, s, delay)
    ensures s.now == ttl + (n - 1) * (cfg.writeBackTTL + delay)
    ensures FetchAt(s, Event.Get(key, map[], Err(NotFound), map[])).value == Ok(val)
  {
    hide *;
    var s1 := SetAtBottom(cfg, n, key, val, ttl);
    es, s := Climb(cfg, s1, key, val, n - 1, ttl, delay);
    SummitIs(n - 1, ttl, cfg.writeBackTTL + delay);
    FirstAtIsHit(s, key, val, 0, s.now, map[]);
  }

  /** So is the bound for loaded values: one load at time 0, still served at `n * (W + delay)`. */
  lemma LoadedBoundIsAttained<V>(cfg: Config, n: nat, key: Key, val: V, delay: nat)
    returns (es: seq<Event<V>>, s: State<V>)
    requires cfg.writeBackTTL > 0 && n > 0 && (!cfg.deferred ==> delay == 0)
    ensures Leads(cfg, Step(cfg, Empty(n, 0), Event.Get(key, RefuseAbove(n - 1), Ok(val), map[])), es, s, delay)
    ensures s.now == n * (cfg.writeBackTTL + delay)
    ensures FetchAt(s, Event.Get(key, map[], Err(NotFound), map[])).value == Ok(val)
  {
    hide *;
    ReadyToLoad(n, key, val);
    var s1 := LiftFetched(cfg, Empty(n, 0), key, val, n - 1, Ok(val));
    var settling, rest: seq<Event<V>>;
    var s2;
    settling, s2 := Settle(cfg, s1, key, val, n - 1, delay);
    rest, s := Climb(cfg, s2, key, val, n - 1, delay + cfg.writeBackTTL, delay);
    Chain(cfg, s1, settling, s2, rest, s, delay);
    es := settling + rest;
    SummitIs(n - 1, delay + cfg.writeBackTTL, cfg.writeBackTTL + delay);
    OneMore(n, cfg.writeBackTTL + delay);
    FirstAtIsHit(s, key, val, 0, s.now, map[]);
  }

  lemma OneMore(n: nat, period: nat)
    requires n > 0
    ensures period + (n - 1) * period == n * period
  {
  }

  // ----- Read-repair refines a plain map -----

  /** A multi-level cache seen as one map: the first live entry. */
  function View<V>(levels: seq<Level<V>>, key: Key, now: int): Option<V> {
    if levels == [] then None
    else match Live(levels[0], key, now)
      case Some(item) => Some(item.value)
      case None => View(levels[1..], key, now)
  }

  lemma {:induction false} ViewIsFirstLive<V>(levels: seq<Level<V>>, key: Key, now: int, i: nat)
    requires i <= |levels|
    requires forall j | 0 <= j < i :: Live(levels[j], key, now) == None
    ensures i == |levels| ==> View(levels, key, now) == None
    ensures i < |levels| && Live(levels[i], key, now).Some? ==>
              View(levels, key, now) == Some(Live(levels[i], key, now).value.value)
    decreases i
  {
    if i > 0 {
      assert forall j | 0 <= j < i - 1 :: Live(levels[1..][j], key, now) == None;
      ViewIsFirstLive(levels[1..], key, now, i - 1);
    }
  }

  lemma {:induction false} ViewIsLocal<V>(a: seq<Level<V>>, b: seq<Level<V>>, key: Key, now: int)
    requires |a| == |b| && forall i | 0 <= i < |a| :: Live(a[i], key, now) == Live(b[i], key, now)
    ensures View(a, key, now) == View(b, key, now)
  {
    if a != [] {
      ViewIsLocal(a[1..], b[1..], key, now);
    }
  }

  lemma HealthyProbe<V>(levels: seq<Level<V>>, key: Key, now: int, i: nat)
    ensures var h := FirstHit(levels, key, now, map[]);
            && (forall j | 0 <= j < h :: Live(levels[j], key, now) == None)
            && (h < |levels| ==> Live(levels[h], key, now).Some?)
            && (i in Missed(Failures(levels, key, now, map[], h)) <==> i < h)
  {
    var h := FirstHit(levels, key, now, map[]);
    assert forall j | 0 <= j < h :: ReadReply(levels[j], key, now, map[], j).Err?;
    TargetIff(levels, key, now, map[], h, i);
  }

  /** The level stores the value. */
  predicate Applied(ttl: int, setFaults: Faults, i: nat) {
    ttl >= 0 && CarriesOut(setFaults, i)
  }

  lemma RepairedLevels<V>(levels: seq<Level<V>>, key: Key, now: int, loaded: Result<V>, ttl: int, setFaults: Faults)
    ensures var f := Fetch(levels, key, now, map[], loaded);
            var after := AfterRepair(levels, key, f, ttl, now, setFaults);
            && (forall i | f.hit <= i < |levels| :: after[i] == levels[i])
            && (f.value.Ok? ==> forall i | 0 <= i < f.hit ::
                  Live(after[i], key, now) ==
                    if Applied(ttl, setFaults, i) then Some(NewItem(f.value.value, ttl, now)) else None)
            && (f.value.Err? ==> forall i | 0 <= i < |levels| :: Live(after[i], key, now) == None)
  {
    forall i: nat { HealthyProbe(levels, key, now, i); }
  }

  /**
    A Get in which every level answers or truly misses returns the view of the key, or else what the loader
    gives; it changes the view of no other key and nothing below the level that answered; and a level above
    holds the returned value with the write-back TTL exactly when its write was applied.
   */
  lemma ReadRepairRefinesMap<V>(levels: seq<Level<V>>, key: Key, now: int, loaded: Result<V>, ttl: int,
                                setFaults: Faults)
    ensures var f := Fetch(levels, key, now, map[], loaded);
            var after := AfterRepair(levels, key, f, ttl, now, setFaults);
            && |after| == |levels|
            && f.value == (match View(levels, key, now)
                           case Some(v) => Ok(v)
                           case None => if loaded.Ok? then loaded else Err(Wrapped(loaded.error)))
            && (forall other | other != key :: View(after, other, now) == View(levels, other, now))
            && (forall i | f.hit <= i < |levels| :: after[i] == levels[i])
            && (f.value.Ok? ==> forall i | 0 <= i < f.hit ::
                  Live(after[i], key, now) ==
                    if Applied(ttl, setFaults, i) then Some(NewItem(f.value.value, ttl, now)) else None)
            && (f.value.Err? ==> forall i | 0 <= i < |levels| :: Live(after[i], key, now) == None)
  {
    hide *;
    FetchIsView(levels, key, now, loaded);
    OtherViewsStay(levels, key, now, loaded, ttl, setFaults);
    RepairedLevels(levels, key, now, loaded, ttl, setFaults);
  }

  lemma FetchIsView<V>(levels: seq<Level<V>>, key: Key, now: int, loaded: Result<V>)
    ensures var f := Fetch(levels, key, now, map[], loaded);
            && f.hit <= |levels|
            && (forall i | 0 <= i < f.hit :: Live(levels[i], key, now) == None)
            && (f.hit < |levels| ==> Live(levels[f.hit], key, now).Some?
                                     && f.value == Ok(Live(levels[f.hit], key, now).value.value))
            && f.value == (match View(levels, key, now)
                           case Some(v) => Ok(v)
                           case None => if loaded.Ok? then loaded else Err(Wrapped(loaded.error)))
  {
    HealthyProbe(levels, key, now, 0);
    ViewIsFirstLive(levels, key, now, FirstHit(levels, key, now, map[]));
  }

  lemma OtherViewsStay<V>(levels: seq<Level<V>>, key: Key, now: int, loaded: Result<V>, ttl: int, setFaults: Faults)
    ensures var after := AfterRepair(levels, key, Fetch(levels, key, now, map[], loaded), ttl, now, setFaults);
            && |after| == |levels|
            && forall other | other != key :: View(after, other, now) == View(levels, other, now)
  {
    var after := AfterRepair(levels, key, Fetch(levels, key, now, map[], loaded), ttl, now, setFaults);
    OtherEntriesStay(levels, key, now, loaded, ttl, setFaults);
    hide *;
    forall other | other != key
      ensures View(after, other, now) == View(levels, other, now)
    {
      ViewIsLocal(after, levels, other, now);
    }
  }

  lemma OtherEntriesStay<V>(levels: seq<Level<V>>, key: Key, now: int, loaded: Result<V>, ttl: int, setFaults: Faults)
    ensures var after := AfterRepair(levels, key, Fetch(levels, key, now, map[], loaded), ttl, now, setFaults);
            && |after| == |levels|
            && forall i, other | 0 <= i < |levels| && other != key ::
                 Live(after[i], other, now) == Live(levels[i], other, now)
  {
  }

  /** After a successful Get the view is the returned value, unless it was loaded and no level stored it. */
  lemma ViewAfterGet<V>(levels: seq<Level<V>>, key: Key, now: int, loaded: Result<V>, ttl: int, setFaults: Faults)
    requires Fetch(levels, key, now, map[], loaded).value.Ok?
    ensures var f := Fetch(levels, key, now, map[], loaded);
            View(AfterRepair(levels, key, f, ttl, now, setFaults), key, now) ==
              if f.hit == |levels| && forall i: nat | i < |levels| :: !Applied(ttl, setFaults, i) then None
              else Some(f.value.value)
  {
    hide *;
    FetchIsView(levels, key, now, loaded);
    OtherViewsStay(levels, key, now, loaded, ttl, setFaults);
    RepairedLevels(levels, key, now, loaded, ttl, setFaults);
    var f := Fetch(levels, key, now, map[], loaded);
    var after := AfterRepair(levels, key, f, ttl, now, setFaults);
    FirstLive(after, key, now, f, setFaults, ttl);
  }

  lemma FirstLive<V>(after: seq<Level<V>>, key: Key, now: int, f: Fetched<V>, setFaults: Faults, ttl: int)
    requires f.value.Ok? && f.hit <= |after|
    requires forall i | 0 <= i < f.hit :: Live(after[i], key, now) ==
               if Applied(ttl, setFaults, i) then Some(NewItem(f.value.value, ttl, now)) else None
    requires f.hit < |after| ==> Live(after[f.hit], key, now).Some?
                                 && f.value == Ok(Live(after[f.hit], key, now).value.value)
    ensures View(after, key, now) ==
              if f.hit == |after| && forall i: nat | i < |after| :: !Applied(ttl, setFaults, i) then None
              else Some(f.value.value)
  {
    HealthyProbe(after, key, now, 0);
    ViewIsFirstLive(after, key, now, FirstHit(after, key, now, map[]));
  }

  // ----- The levels agree -----

  ghost predicate Agree<V>(levels: seq<Level<V>>, now: int) {
    forall i: nat, j: nat, key | i < |levels| && j < |levels| && Live(levels[i], key, now).Some?
                                 && Live(levels[j], key, now).Some? ::
      Live(levels[i], key, now).value.value == Live(levels[j], key, now).value.value
  }

  /** The write reaches level `i` and is applied there. */
  predicate Stores(targets: seq<nat>, ttl: int, setFaults: Faults, i: nat) {
    i in targets && Applied(ttl, setFaults, i)
  }

  predicate Dissents<V(==)>(level: Level<V>, key: Key, val: V, now: int) {
    Live(level, key, now).Some? && Live(level, key, now).value.value != val
  }

  ghost predicate NoneStores(n: nat, targets: seq<nat>, ttl: int, setFaults: Faults) {
    forall i: nat | i < n :: !Stores(targets, ttl, setFaults, i)
  }

  /** No level that does not store the value keeps a different live one. */
  ghost predicate NoDissent<V>(levels: seq<Level<V>>, targets: seq<nat>, key: Key, val: V, ttl: int, now: int,
                               setFaults: Faults) {
    forall i: nat | i < |levels| :: Stores(targets, ttl, setFaults, i) || !Dissents(levels[i], key, val, now)
  }

  ghost predicate HarmlessWrite<V>(levels: seq<Level<V>>, targets: seq<nat>, key: Key, val: V, ttl: int, now: int,
                                   setFaults: Faults) {
    || NoneStores(|levels|, targets, ttl, setFaults)
    || NoDissent(levels, targets, key, val, ttl, now, setFaults)
  }

  /**
    Writing any levels keeps agreement exactly when no level stores the value, or no level that does not store it
    dissents. The condition reads the levels before the write.
   */
  lemma WritesKeepAgreementIff<V>(levels: seq<Level<V>>, targets: seq<nat>, key: Key, val: V, ttl: int, now: int,
                                  setFaults: Faults)
    requires Agree(levels, now)
    ensures Agree(AfterWrites(levels, targets, key, val, ttl, now, setFaults), now) <==>
            HarmlessWrite(levels, targets, key, val, ttl, now, setFaults)
  {
    hide AfterWrites, AfterWrite, Live, Stores, Dissents;
    var after := AfterWrites(levels, targets, key, val, ttl, now, setFaults);
    forall i: nat | i < |levels| {
      WrittenLevel(levels, targets, key, val, ttl, now, setFaults, i);
    }
    if NoneStores(|levels|, targets, ttl, setFaults) {
      assert after == levels;
    } else if NoDissent(levels, targets, key, val, ttl, now, setFaults) {
      hide NoneStores;
      AgreedWrite(levels, after, targets, key, val, ttl, now, setFaults);
    } else {
      var i: nat :| i < |levels| && !Stores(targets, ttl, setFaults, i) && Dissents(levels[i], key, val, now);
      var j: nat :| j < |levels| && Stores(targets, ttl, setFaults, j);
      hide NoneStores, NoDissent;
      Clash(after, i, j, key, val, ttl, now);
    }
  }

  /** What a write leaves at one level. */
  lemma WrittenLevel<V>(levels: seq<Level<V>>, targets: seq<nat>, key: Key, val: V, ttl: int, now: int,
                        setFaults: Faults, i: nat)
    requires i < |levels|
    ensures var after := AfterWrites(levels, targets, key, val, ttl, now, setFaults);
            && |after| == |levels|
            && (!Stores(targets, ttl, setFaults, i) ==> after[i] == levels[i])
            && (Stores(targets, ttl, setFaults, i) ==>
                  && Live(after[i], key, now) == Some(NewItem(val, ttl, now))
                  && forall k | k != key :: Live(after[i], k, now) == Live(levels[i], k, now))
  {
  }

  lemma AgreedWrite<V>(levels: seq<Level<V>>, after: seq<Level<V>>, targets: seq<nat>, key: Key, val: V, ttl: int,
                       now: int, setFaults: Faults)
    requires Agree(levels, now) && |after| == |levels|
    requires forall i: nat | i < |levels| ::
               if Stores(targets, ttl, setFaults, i)
               then && Live(after[i], key, now) == Some(NewItem(val, ttl, now))
                    && forall k | k != key :: Live(after[i], k, now) == Live(levels[i], k, now)
               else after[i] == levels[i] && !Dissents(levels[i], key, val, now)
    ensures Agree(after, now)
  {
    hide Live, Stores;
    forall i: nat, k | i < |levels| && Live(after[i], k, now).Some?
      ensures if k == key then Live(after[i], k, now).value.value == val
              else Live(after[i], k, now) == Live(levels[i], k, now)
    {
    }
  }

  lemma Clash<V>(after: seq<Level<V>>, i: nat, j: nat, key: Key, val: V, ttl: int, now: int)
    requires i < |after| && j < |after|
    requires Dissents(after[i], key, val, now) && Live(after[j], key, now) == Some(NewItem(val, ttl, now))
    ensures !Agree(after, now)
  {
    hide Live;
    assert Live(after[j], key, now).value.value == val;
  }

  /** For a Set: no level stored the value, or no level that did not store it has a different live one. */
  lemma SetKeepsAgreementIff<V>(levels: seq<Level<V>>, key: Key, val: V, ttl: int, now: int, setFaults: Faults)
    requires Agree(levels, now)
    ensures Agree(AfterWrites(levels, AllLevels(|levels|), key, val, ttl, now, setFaults), now) <==>
            || (forall i: nat | i < |levels| :: !Applied(ttl, setFaults, i))
            || (forall i: nat | i < |levels| ::
                  Applied(ttl, setFaults, i) || !Dissents(levels[i], key, val, now))
  {
    WritesKeepAgreementIff(levels, AllLevels(|levels|), key, val, ttl, now, setFaults);
    assert forall i: nat | i < |levels| ::
             Stores(AllLevels(|levels|), ttl, setFaults, i) <==> Applied(ttl, setFaults, i);
  }

  /** Whatever the event writes, it writes harmlessly. A deferred Get writes nothing yet. */
  ghost predicate Harmless<V>(cfg: Config, s: State<V>, e: Event<V>) {
    match e
    case Get(key, _, _, setFaults) =>
      var f := FetchAt(s, e);
      f.value.Ok? && !cfg.deferred ==>
        HarmlessWrite(f.levels, f.targets, key, f.value.value, cfg.writeBackTTL, s.now, setFaults)
    case Set(key, val, ttl, setFaults) =>
      HarmlessWrite(s.levels, AllLevels(|s.levels|), key, val, ttl, s.now, setFaults)
    case RunPending(index, setFaults) =>
      index < |s.pending| ==>
        var w := s.pending[index];
        HarmlessWrite(s.levels, [w.level], w.key, w.val, cfg.writeBackTTL, s.now, setFaults)
    case _ => true
  }

  lemma FewerKeepAgreement<V>(levels: seq<Level<V>>, now: int, after: seq<Level<V>>, later: int)
    requires Agree(levels, now) && |after| == |levels|
    requires forall i: nat, key | i < |after| && Live(after[i], key, later).Some? ::
               Live(after[i], key, later) == Live(levels[i], key, now)
    ensures Agree(after, later)
  {
    hide Live;
  }

  lemma ProbeIsInvisible<V>(s: State<V>, e: Event<V>)
    requires e.Get?
    ensures var f := FetchAt(s, e);
            && |f.levels| == |s.levels|
            && forall i: nat, key | i < |s.levels| :: Live(f.levels[i], key, s.now) == Live(s.levels[i], key, s.now)
  {
  }

  /** One event keeps agreement exactly when what it writes is harmless, under any failures, deferred or not. */
  lemma StepKeepsAgreementIff<V>(cfg: Config, s: State<V>, e: Event<V>)
    requires Agree(s.levels, s.now)
    ensures Agree(Step(cfg, s, e).levels, Step(cfg, s, e).now) <==> Harmless(cfg, s, e)
  {
    var s' := Step(cfg, s, e);
    if e.Get? {
      var f := FetchAt(s, e);
      ProbeIsInvisible(s, e);
      FewerKeepAgreement(s.levels, s.now, f.levels, s.now);
      if f.value.Ok? && !cfg.deferred {
        WritesKeepAgreementIff(f.levels, f.targets, e.key, f.value.value, cfg.writeBackTTL, s.now, e.setFaults);
      }
    } else if e.Set? {
      WritesKeepAgreementIff(s.levels, AllLevels(|s.levels|), e.key, e.val, e.ttl, s.now, e.setFaults);
    } else if e.RunPending? && e.index < |s.pending| {
      var w := s.pending[e.index];
      WritesKeepAgreementIff(s.levels, [w.level], w.key, w.val, cfg.writeBackTTL, s.now, e.setFaults);
    } else {
      FewerKeepAgreement(s.levels, s.now, s'.levels, s'.now);
    }
  }

  ghost predicate AgreesThroughout<V>(cfg: Config, s: State<V>, es: seq<Event<V>>)
    decreases |es|
  {
    && Agree(s.levels, s.now)
    && (es != [] ==> AgreesThroughout(cfg, Step(cfg, s, es[0]), es[1..]))
  }

  ghost predicate AlwaysHarmless<V>(cfg: Config, s: State<V>, es: seq<Event<V>>)
    decreases |es|
  {
    es != [] ==> Harmless(cfg, s, es[0]) && AlwaysHarmless(cfg, Step(cfg, s, es[0]), es[1..])
  }

  /**
    Whatever fails, whatever is deferred and whatever the levels lose: two live entries of one key are equal at
    every moment of a run exactly when each of its writes is harmless.
   */
  lemma {:induction false} LevelsAlwaysAgree<V>(cfg: Config, s: State<V>, es: seq<Event<V>>)
    requires Agree(s.levels, s.now)
    ensures AgreesThroughout(cfg, s, es) <==> AlwaysHarmless(cfg, s, es)
    decreases |es|
  {
    if es != [] {
      StepKeepsAgreementIff(cfg, s, es[0]);
      if Harmless(cfg, s, es[0]) {
        LevelsAlwaysAgree(cfg, Step(cfg, s, es[0]), es[1..]);
      }
    }
  }

  /** Gets meet hits and true misses only, and a Set is stored by every level or by none. */
  predicate Ordinary<V>(n: nat, e: Event<V>) {
    match e
    case Get(_, getFaults, _, _) => getFaults == map[]
    case Set(_, _, ttl, setFaults) =>
      || (forall i: nat | i < n :: Applied(ttl, setFaults, i))
      || (forall i: nat | i < n :: !Applied(ttl, setFaults, i))
    case _ => true
  }

  lemma HealthyGetIsHarmless<V>(cfg: Config, s: State<V>, e: Event<V>)
    requires Agree(s.levels, s.now) && e.Get? && e.getFaults == map[]
    ensures Harmless(cfg, s, e)
  {
    var f := FetchAt(s, e);
    FetchIsView(s.levels, e.key, s.now, e.loaded);
    ProbeIsInvisible(s, e);
    if f.value.Ok? && !cfg.deferred {
      forall i: nat | i < |f.levels|
        ensures !Dissents(f.levels[i], e.key, f.value.value, s.now)
      {
        assert Live(f.levels[i], e.key, s.now) == Live(s.levels[i], e.key, s.now);
        if i > f.hit {
          assert Live(s.levels[f.hit], e.key, s.now).Some?;
        }
      }
    }
  }

  /**
    So without deferral the levels agree throughout every run of such operations, even if Deletes, Clears and
    write-backs fail at arbitrary levels.
   */
  lemma {:induction false} OrdinaryRunsAgree<V>(cfg: Config, s: State<V>, es: seq<Event<V>>)
    requires !cfg.deferred && s.pending == [] && Agree(s.levels, s.now)
    requires forall e | e in es :: Ordinary(|s.levels|, e)
    ensures AgreesThroughout(cfg, s, es)
    decreases |es|
  {
    if es != [] {
      var e := es[0];
      assert es == [e] + es[1..] && e in es && forall x | x in es[1..] :: x in es;
      if e.Get? {
        HealthyGetIsHarmless(cfg, s, e);
      }
      StepKeepsAgreementIff(cfg, s, e);
      StepItems(cfg, s, e);
      OrdinaryRunsAgree(cfg, Step(cfg, s, e), es[1..]);
    }
  }

  /** A Set that one of two levels refuses breaks agreement, whatever the two values are. */
  lemma PartialSetBreaksAgreement<V>(cfg: Config, key: Key, a: V, b: V)
    requires a != b
    ensures var level: Level<V> := map[key := Item(a, None)];
            var s := State([level, level], 0, []);
            && Agree(s.levels, 0)
            && !Agree(Step(cfg, s, Event.Set(key, b, 0, map[1 := Refused(Failure(0))])).levels, 0)
  {
    var level: Level<V> := map[key := Item(a, None)];
    var s := State([level, level], 0, []);
    var faults: Faults := map[1 := Refused(Failure(0))];
    StepKeepsAgreementIff(cfg, s, Event.Set(key, b, 0, faults));
    assert Stores(AllLevels(2), 0, faults, 0);
    assert !Stores(AllLevels(2), 0, faults, 1) && Dissents(s.levels[1], key, b, 0);
  }

  /** With deferral nothing need fail: a write-back of a loaded value that runs after a Set breaks agreement. */
  lemma DeferredWriteBreaksAgreement<V>(ttl: nat, mode: Mode, key: Key, a: V, b: V)
    requires a != b
    ensures var cfg := Config(ttl, true, mode);
            var s1 := Step(cfg, Empty(2, 0), Event.Get(key, map[], Ok(a), map[]));
            var s2 := Step(cfg, s1, Event.Set(key, b, 0, map[]));
            && Agree(s2.levels, s2.now) && s2.pending != []
            && !Agree(Step(cfg, s2, RunPending(0, map[])).levels, s2.now)
  {
    var cfg := Config(ttl, true, mode);
    var w := LoadedLate(cfg, key, a);
    var s1 := Step(cfg, Empty(2, 0), Event.Get(key, map[], Ok(a), map[]));
    var s2 := Step(cfg, s1, Event.Set(key, b, 0, map[]));
    assert s2.levels[0][key] == s2.levels[1][key] == Item(b, None);
    var other: nat := 1 - w.level;
    LateWriteHarms(cfg, s2, w, other, b);
  }

  /** A deferred Get of an empty cache leaves a write-back of the loaded value for one of the levels. */
  lemma LoadedLate<V>(cfg: Config, key: Key, a: V) returns (w: Write<V>)
    requires cfg.deferred
    ensures var s1 := Step(cfg, Empty(2, 0), Event.Get(key, map[], Ok(a), map[]));
            && s1.levels == Empty<V>(2, 0).levels && s1.now == 0
            && s1.pending != [] && s1.pending[0] == w && w.level < 2 && w.key == key && w.val == a
  {
    var s0: State<V> := Empty(2, 0);
    HealthyProbe(s0.levels, key, 0, 0);
    HealthyProbe(s0.levels, key, 0, 1);
    var get: Event<V> := Event.Get(key, map[], Ok(a), map[]);
    var f := FetchAt(s0, get);
    assert FirstHit(s0.levels, key, 0, map[]) == 2 && 0 in f.targets;
    TargetsInRange(s0.levels, key, 0, map[], Ok(a));
    w := Write(f.targets[0], key, a, 0);
    assert f.targets[0] in f.targets;
    assert f.levels == s0.levels;
  }

  lemma LateWriteHarms<V>(cfg: Config, s: State<V>, w: Write<V>, other: nat, b: V)
    requires cfg.writeBackTTL >= 0 && s.pending != [] && s.pending[0] == w && w.val != b
    requires |s.levels| == 2 && w.level < 2 && other < 2 && other != w.level
    requires forall i: nat, k | i < 2 && k in s.levels[i] :: k == w.key && s.levels[i][k] == Item(b, None)
    requires w.key in s.levels[other]
    ensures Agree(s.levels, s.now) && !Agree(Step(cfg, s, RunPending(0, map[])).levels, s.now)
  {
    assert Stores([w.level], cfg.writeBackTTL, map[], w.level);
    assert !Stores([w.level], cfg.writeBackTTL, map[], other) && Dissents(s.levels[other], w.key, w.val, s.now);
    StepKeepsAgreementIff(cfg, s, RunPending(0, map[]));
  }

  // ----- The order of parallel writes -----

  /** The tasks of a parallel write one after the other, in the order in which they happen to run. */
  function InOrder<V>(levels: seq<Level<V>>, order: seq<nat>, key: Key, val: V, ttl: int, now: int, setFaults: Faults)
    : (seq<Level<V>>, seq<Error>)
    decreases |order|
  {
    if order == [] then (levels, []) else
      var reply := WriteReply(ttl, setFaults, order[0]);
      var (after, errs) :=
        InOrder(AfterWrites(levels, [order[0]], key, val, ttl, now, setFaults), order[1..], key, val, ttl, now,
                setFaults);
      (after, (if reply.Some? then [reply.value] else []) + errs)
  }

  lemma {:induction false} InOrderErrors<V>(levels: seq<Level<V>>, order: seq<nat>, key: Key, val: V, ttl: int,
                                            now: int, setFaults: Faults)
    ensures multiset(InOrder(levels, order, key, val, ttl, now, setFaults).1) == WriteErrors(order, ttl, setFaults)
    decreases |order|
  {
    if order != [] {
      var mid := AfterWrites(levels, [order[0]], key, val, ttl, now, setFaults);
      InOrderErrors(mid, order[1..], key, val, ttl, now, setFaults);
    }
  }

  /** Writing one level and then the others is writing them all. */
  lemma WriteOneThenRest<V>(levels: seq<Level<V>>, order: seq<nat>, key: Key, val: V, ttl: int, now: int,
                            setFaults: Faults)
    requires order != []
    ensures AfterWrites(AfterWrites(levels, [order[0]], key, val, ttl, now, setFaults), order[1..], key, val, ttl, now,
                        setFaults)
         == AfterWrites(levels, order, key, val, ttl, now, setFaults)
  {
    var mid := AfterWrites(levels, [order[0]], key, val, ttl, now, setFaults);
    forall i: nat | i < |levels|
      ensures AfterWrites(mid, order[1..], key, val, ttl, now, setFaults)[i]
           == AfterWrites(levels, order, key, val, ttl, now, setFaults)[i]
    {
      WriteTwice(levels[i], key, val, ttl, now, setFaults, i);
      hide AfterWrite;
      assert mid[i] == if i == order[0] then AfterWrite(levels[i], key, val, ttl, now, setFaults, i) else levels[i];
      assert i in order <==> i == order[0] || i in order[1..];
    }
  }

  lemma {:induction false} InOrderIs<V>(levels: seq<Level<V>>, order: seq<nat>, key: Key, val: V, ttl: int, now: int,
                                        setFaults: Faults)
    ensures InOrder(levels, order, key, val, ttl, now, setFaults).0
         == AfterWrites(levels, order, key, val, ttl, now, setFaults)
    decreases |order|
  {
    if order == [] {
      assert AfterWrites(levels, order, key, val, ttl, now, setFaults) == levels;
    } else {
      var mid := AfterWrites(levels, [order[0]], key, val, ttl, now, setFaults);
      InOrderIs(mid, order[1..], key, val, ttl, now, setFaults);
      WriteOneThenRest(levels, order, key, val, ttl, now, setFaults);
    }
  }

  lemma PickFrom(b: seq<nat>, i: nat) returns (p: nat)
    requires i in b
    ensures p < |b| && b[p] == i && multiset(Without(b, p)) == multiset(b) - multiset{i}
  {
    p :| p < |b| && b[p] == i;
    PickMember(b, p);
  }

  lemma {:induction false} PermutedErrors(a: seq<nat>, b: seq<nat>, ttl: int, setFaults: Faults)
    requires multiset(a) == multiset(b)
    ensures WriteErrors(a, ttl, setFaults) == WriteErrors(b, ttl, setFaults)
    decreases |a|
  {
    hide WriteErrors, WriteErrorsAt, Without;
    if a == [] {
      assert |multiset(b)| == |multiset(a)| == 0;
    } else {
      assert a[0] in multiset(b);
      var q := PickFrom(a, a[0]);
      var p := PickFrom(b, a[0]);
      WriteErrorsPick(a, q, ttl, setFaults);
      WriteErrorsPick(b, p, ttl, setFaults);
      PermutedErrors(Without(a, q), Without(b, p), ttl, setFaults);
    }
  }

  /** Every order of the same tasks ends in the same levels and collects the same errors. */
  lemma OrderIsIrrelevant<V>(levels: seq<Level<V>>, order: seq<nat>, targets: seq<nat>, key: Key, val: V, ttl: int,
                             now: int, setFaults: Faults)
    requires multiset(order) == multiset(targets)
    ensures var (after, errs) := InOrder(levels, order, key, val, ttl, now, setFaults);
            && after == AfterWrites(levels, targets, key, val, ttl, now, setFaults)
            && multiset(errs) == WriteErrors(targets, ttl, setFaults)
  {
    InOrderIs(levels, order, key, val, ttl, now, setFaults);
    InOrderErrors(levels, order, key, val, ttl, now, setFaults);
    PermutedErrors(order, targets, ttl, setFaults);
    assert forall i :: i in order <==> i in multiset(order);
    assert forall i :: i in targets <==> i in multiset(targets);
    assert AfterWrites(levels, order, key, val, ttl, now, setFaults)
        == AfterWrites(levels, targets, key, val, ttl, now, setFaults);
  }

  // ----- The error mode -----

  /** `r` is an answer to the Get: as the contract of `MultiCache.Get` has it, or at once when deferred. */
  ghost predicate IsReply<V>(cfg: Config, s: State<V>, e: Event<V>, r: Result<V>)
    requires e.Get?
  {
    if cfg.deferred then r == FetchAt(s, e).value
    else Answers(cfg.mode, FetchAt(s, e), cfg.writeBackTTL, e.setFaults, r)
  }

  /** `rs` are answers to the Gets of the run. */
  ghost predicate AreReplies<V>(cfg: Config, s: State<V>, es: seq<Event<V>>, rs: seq<Result<V>>)
    decreases |es|
  {
    if es == [] then rs == []
    else if es[0].Get? then
      rs != [] && IsReply(cfg, s, es[0], rs[0]) && AreReplies(cfg, Step(cfg, s, es[0]), es[1..], rs[1..])
    else AreReplies(cfg, Step(cfg, s, es[0]), es[1..], rs)
  }

  /** Every write-back that a Get waits for succeeds. */
  ghost predicate WriteBacksSucceed<V>(cfg: Config, s: State<V>, es: seq<Event<V>>)
    decreases |es|
  {
    es != [] ==>
      && (es[0].Get? ==> Awaited(cfg, s, es[0]) == multiset{})
      && WriteBacksSucceed(cfg, Step(cfg, s, es[0]), es[1..])
  }

  /** The errors of the write-backs that the Get waits for. */
  ghost function Awaited<V>(cfg: Config, s: State<V>, e: Event<V>): multiset<Error>
    requires e.Get?
  {
    if cfg.deferred then multiset{} else WriteErrors(FetchAt(s, e).targets, cfg.writeBackTTL, e.setFaults)
  }

  /** These, for each Get of the run. */
  ghost function AwaitedErrors<V>(cfg: Config, s: State<V>, es: seq<Event<V>>): seq<multiset<Error>>
    decreases |es|
  {
    if es == [] then []
    else (if es[0].Get? then [Awaited(cfg, s, es[0])] else []) + AwaitedErrors(cfg, Step(cfg, s, es[0]), es[1..])
  }

  lemma StepIgnoresMode<V>(strict: Config, tolerant: Config, s: State<V>, e: Event<V>)
    requires tolerant == strict.(mode := Tolerant)
    ensures Step(strict, s, e) == Step(tolerant, s, e)
  {
  }

  lemma ReplyByMode<V>(strict: Config, tolerant: Config, s: State<V>, e: Event<V>, r: Result<V>, t: Result<V>)
    requires strict.mode == Strict && tolerant == strict.(mode := Tolerant)
    requires e.Get? && IsReply(strict, s, e, r) && IsReply(tolerant, s, e, t)
    ensures t == FetchAt(s, e).value
    ensures r == t <==> Awaited(strict, s, e) == multiset{}
    ensures r != t ==> t.Ok? && r.Err? && r.error.Joined? && multiset(r.error.errs) == Awaited(strict, s, e)
  {
  }

  /**
    Runs that differ only in the mode go through the same states. A run answers alike in strict and in tolerant
    mode exactly when every write-back that a Get waits for succeeds; where one of these fails, tolerant mode has the
    value and strict mode joins exactly the errors that occurred.
   */
  lemma {:induction false} ModesAgreeIff<V>(strict: Config, tolerant: Config, s: State<V>, es: seq<Event<V>>,
                                            rs: seq<Result<V>>, ts: seq<Result<V>>)
    requires strict.mode == Strict && tolerant == strict.(mode := Tolerant)
    requires AreReplies(strict, s, es, rs) && AreReplies(tolerant, s, es, ts)
    ensures Run(strict, s, es) == Run(tolerant, s, es)
    ensures |rs| == |ts| && (rs == ts <==> WriteBacksSucceed(strict, s, es))
    ensures var errs := AwaitedErrors(strict, s, es);
            |errs| == |rs| &&
            forall i | 0 <= i < |rs| ::
              if errs[i] == multiset{} then rs[i] == ts[i]
              else ts[i].Ok? && rs[i].Err? && rs[i].error.Joined? && multiset(rs[i].error.errs) == errs[i]
    decreases |es|
  {
    hide Step, IsReply, Awaited;
    if es != [] {
      var e, s' := es[0], Step(strict, s, es[0]);
      StepIgnoresMode(strict, tolerant, s, e);
      if e.Get? {
        ReplyByMode(strict, tolerant, s, e, rs[0], ts[0]);
        ModesAgreeIff(strict, tolerant, s', es[1..], rs[1..], ts[1..]);
        assert rs == [rs[0]] + rs[1..] && ts == [ts[0]] + ts[1..];
      } else {
        ModesAgreeIff(strict, tolerant, s', es[1..], rs, ts);
      }
    }
  }

  // ----- Deferred write-backs -----

  /** What a level stores under one key. */
  function Entry<V>(level: Level<V>, key: Key): Option<Item<V>> {
    if key in level then Some(level[key]) else None
  }

  /** The event leaves `key` to its pending write-backs, each of which fails or not as `setFaults` says. */
  ghost predicate LeavesAlone<V>(s: State<V>, e: Event<V>, key: Key, setFaults: Faults) {
    match e
    case Get(k, _, _, _) => k != key
    case Set(k, _, _, _) => k != key
    case Delete(k, _) => k != key
    case Clear(_) => false
    case Evict(_, k) => k != key
    case RunPending(index, faults) => index < |s.pending| && s.pending[index].key == key ==> faults == setFaults
    case Tick(d) => d == 0
  }

  ghost predicate AllLeaveAlone<V>(cfg: Config, s: State<V>, es: seq<Event<V>>, key: Key, setFaults: Faults)
    decreases |es|
  {
    es == [] || (LeavesAlone(s, es[0], key, setFaults)
                 && AllLeaveAlone(cfg, Step(cfg, s, es[0]), es[1..], key, setFaults))
  }

  /** Each level already has the entry `goal` gives it, or its write-back of `val` is still pending. */
  ghost predicate Draining<V>(s: State<V>, key: Key, val: Result<V>, ttl: int, now: int, setFaults: Faults,
                              base: seq<Level<V>>, targets: seq<nat>) {
    && |s.levels| == |base| && s.now == now
    && (forall p | p in s.pending && p.key == key :: val == Ok(p.val) && p.level in targets)
    && (forall i: nat | i < |base| ::
          || (Entry(s.levels[i], key) == Entry(base[i], key) && (i in targets ==> Awaits(s, key, i)))
          || (i in targets && val.Ok? && Entry(s.levels[i], key) ==
                Entry(AfterWrite(base[i], key, val.value, ttl, now, setFaults, i), key)))
  }

  ghost predicate Awaits<V>(s: State<V>, key: Key, i: nat) {
    exists p | p in s.pending :: p.key == key && p.level == i
  }

  lemma StepKeepsDraining<V>(cfg: Config, s: State<V>, e: Event<V>, key: Key, val: Result<V>, setFaults: Faults,
                             base: seq<Level<V>>, targets: seq<nat>)
    requires cfg.deferred && LeavesAlone(s, e, key, setFaults)
    requires Draining(s, key, val, cfg.writeBackTTL, s.now, setFaults, base, targets)
    ensures Draining(Step(cfg, s, e), key, val, cfg.writeBackTTL, s.now, setFaults, base, targets)
  {
    if e.RunPending? && e.index < |s.pending| {
      RunPendingKeepsDraining(cfg, s, e, key, val, setFaults, base, targets);
    } else {
      var s' := Step(cfg, s, e);
      forall p | p in s.pending
        ensures p in s'.pending
      {
      }
      assert forall i: nat | Awaits(s, key, i) :: Awaits(s', key, i);
      OtherEventKeepsEntries(cfg, s, e, key, setFaults);
    }
  }

  lemma OtherEventKeepsEntries<V>(cfg: Config, s: State<V>, e: Event<V>, key: Key, setFaults: Faults)
    requires cfg.deferred && LeavesAlone(s, e, key, setFaults) && !(e.RunPending? && e.index < |s.pending|)
    ensures var s' := Step(cfg, s, e);
            && |s'.levels| == |s.levels| && s'.now == s.now
            && (forall i: nat | i < |s.levels| :: Entry(s'.levels[i], key) == Entry(s.levels[i], key))
            && (forall p | p in s'.pending && p.key == key :: p in s.pending)
  {
  }

  lemma RunPendingKeepsDraining<V>(cfg: Config, s: State<V>, e: Event<V>, key: Key, val: Result<V>,
                                   setFaults: Faults, base: seq<Level<V>>, targets: seq<nat>)
    requires e.RunPending? && e.index < |s.pending| && LeavesAlone(s, e, key, setFaults)
    requires Draining(s, key, val, cfg.writeBackTTL, s.now, setFaults, base, targets)
    ensures Draining(Step(cfg, s, e), key, val, cfg.writeBackTTL, s.now, setFaults, base, targets)
  {
    var s', w := Step(cfg, s, e), s.pending[e.index];
    assert s.pending == s.pending[..e.index] + [w] + s.pending[e.index + 1..];
    assert w in s.pending;
    forall i: nat | i < |base| && Awaits(s, key, i) && !(w.key == key && w.level == i)
      ensures Awaits(s', key, i)
    {
      var p :| p in s.pending && p.key == key && p.level == i;
      assert p in s'.pending;
    }
  }

  lemma {:induction false} RunKeepsDraining<V>(cfg: Config, s: State<V>, es: seq<Event<V>>, key: Key, val: Result<V>,
                                               setFaults: Faults, base: seq<Level<V>>, targets: seq<nat>)
    requires cfg.deferred && AllLeaveAlone(cfg, s, es, key, setFaults)
    requires Draining(s, key, val, cfg.writeBackTTL, s.now, setFaults, base, targets)
    ensures Draining(Run(cfg, s, es), key, val, cfg.writeBackTTL, s.now, setFaults, base, targets)
    decreases |es|
  {
    if es != [] {
      StepKeepsDraining(cfg, s, es[0], key, val, setFaults, base, targets);
      assert Step(cfg, s, es[0]).now == s.now;
      RunKeepsDraining(cfg, Step(cfg, s, es[0]), es[1..], key, val, setFaults, base, targets);
    }
  }

  /**
    A deferred Get serves what the synchronous one serves. Let any operations on other keys and any
    write-backs run afterwards, in any order: once no write-back of the key is pending, every level stores
    under the key exactly what the synchronous Get would have left there.
   */
  lemma DeferredDrainsToSynchronous<V>(ttl: int, mode: Mode, s: State<V>, g: Event<V>, es: seq<Event<V>>)
    requires g.Get? && (forall p | p in s.pending :: p.key != g.key)
    requires AllLeaveAlone(Config(ttl, true, mode), Step(Config(ttl, true, mode), s, g), es, g.key, g.setFaults)
    ensures var late := Run(Config(ttl, true, mode), Step(Config(ttl, true, mode), s, g), es);
            var sync := Step(Config(ttl, false, mode), s, g);
            |late.levels| == |sync.levels| &&
            ((forall p | p in late.pending :: p.key != g.key) ==>
               forall i | 0 <= i < |sync.levels| :: Entry(late.levels[i], g.key) == Entry(sync.levels[i], g.key))
  {
    var cfg := Config(ttl, true, mode);
    var f, s1 := FetchAt(s, g), Step(cfg, s, g);
    if f.value.Ok? {
      var queue := Enqueue(f.targets, g.key, f.value.value, s.now);
      forall i: nat | i < |f.levels| && i in f.targets
        ensures Awaits(s1, g.key, i)
      {
        var t :| 0 <= t < |f.targets| && f.targets[t] == i;
        assert queue[t] in s1.pending;
      }
      assert forall p | p in s1.pending && p.key == g.key :: p in queue;
    }
    RunKeepsDraining(cfg, s1, es, g.key, f.value, g.setFaults, f.levels, f.targets);
  }

  ghost predicate OnlyWriteBacks<V>(es: seq<Event<V>>, setFaults: Faults) {
    forall e | e in es :: e.RunPending? && e.setFaults == setFaults
  }

  /** Write-backs of one key touch no other. */
  lemma {:induction false} WriteBacksLeaveOthers<V>(cfg: Config, s: State<V>, es: seq<Event<V>>, key: Key,
                                                    setFaults: Faults)
    requires OnlyWriteBacks(es, setFaults) && forall p | p in s.pending :: p.key == key
    ensures AllLeaveAlone(cfg, s, es, key, setFaults)
    ensures var s' := Run(cfg, s, es);
            && |s'.levels| == |s.levels| && s'.now == s.now
            && forall i: nat, k | i < |s.levels| && k != key :: Entry(s'.levels[i], k) == Entry(s.levels[i], k)
    decreases |es|
  {
    if es != [] {
      assert es[0] in es && forall e | e in es[1..] :: e in es;
      StepPending(cfg, s, es[0]);
      var s1 := Step(cfg, s, es[0]);
      assert |s1.levels| == |s.levels| && s1.now == s.now
             && forall i: nat, k | i < |s.levels| && k != key :: Entry(s1.levels[i], k) == Entry(s.levels[i], k);
      hide Step, Entry;
      WriteBacksLeaveOthers(cfg, s1, es[1..], key, setFaults);
    }
  }

  lemma SameEntries<V>(a: seq<Level<V>>, b: seq<Level<V>>)
    requires |a| == |b| && forall i: nat, k | i < |a| :: Entry(a[i], k) == Entry(b[i], k)
    ensures a == b
  {
    forall i: nat | i < |a|
      ensures a[i] == b[i]
    {
      assert forall k :: k in a[i] <==> Entry(a[i], k).Some?;
      assert forall k :: k in b[i] <==> Entry(b[i], k).Some?;
      assert forall k | k in a[i] :: Entry(a[i], k) == Some(a[i][k]) == Entry(b[i], k);
    }
  }

  /**
    In particular, when only its write-backs run after a deferred Get, then once all have run, in whatever order, the
    cache is in the very state in which the synchronous Get leaves it. The deferred Get answers as tolerant mode does.
   */
  lemma DrainedIsSynchronous<V>(ttl: int, mode: Mode, s: State<V>, g: Event<V>, es: seq<Event<V>>)
    requires g.Get? && s.pending == [] && OnlyWriteBacks(es, g.setFaults)
    ensures var late := Run(Config(ttl, true, mode), Step(Config(ttl, true, mode), s, g), es);
            late.pending == [] ==> late == Step(Config(ttl, false, mode), s, g)
    ensures forall r, r' |
              IsReply(Config(ttl, true, mode), s, g, r) && IsReply(Config(ttl, false, Tolerant), s, g, r') :: r == r'
  {
    var cfg := Config(ttl, true, mode);
    var s1, sync := Step(cfg, s, g), Step(Config(ttl, false, mode), s, g);
    assert sync.now == s1.now == s.now && sync.pending == [] && |sync.levels| == |s1.levels|;
    OthersAlike(ttl, mode, s, g);
    assert forall p | p in s1.pending :: p.key == g.key;
    hide Step, Entry;
    WriteBacksLeaveOthers(cfg, s1, es, g.key, g.setFaults);
    DeferredDrainsToSynchronous(ttl, mode, s, g, es);
    if Run(cfg, s1, es).pending == [] {
      SameEntries(Run(cfg, s1, es).levels, sync.levels);
    }
  }

  lemma OthersAlike<V>(ttl: int, mode: Mode, s: State<V>, g: Event<V>)
    requires g.Get?
    ensures var late, sync := Step(Config(ttl, true, mode), s, g), Step(Config(ttl, false, mode), s, g);
            |late.levels| == |sync.levels| &&
            forall i: nat, k | i < |sync.levels| && k != g.key :: Entry(late.levels[i], k) == Entry(sync.levels[i], k)
  {
  }
}
