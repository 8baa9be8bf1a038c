/**
  The multi-level cache: an ordered probe with a loader behind it, repair of the levels that missed,
  and the operations on all levels. A level is a TTL map behind a connection that may fail; the
  failures of one call are given by a map from level index to fault.
 */
module MultiLevel {
  import opened Prelude
  import opened TtlStore

  /** `Refused`: the level did nothing. `LostReply`: it did the work, but the caller sees an error. */
  datatype Fault = Refused(err: Error) | LostReply(err: Error)

  /** A level without an entry is healthy during the call. */
  type Faults = map<nat, Fault>

  datatype Mode = Strict | Tolerant | Unknown(code: int)

  datatype Failed = Failed(level: nat, err: Error)

  /** The level does what it is asked, whatever it replies. */
  predicate CarriesOut(faults: Faults, i: nat) {
    !(i in faults && faults[i].Refused?)
  }

  // ----- One level -----

  function ReadReply<V>(level: Level<V>, key: Key, now: int, faults: Faults, i: nat): Result<V> {
    if i in faults then Err(faults[i].err) else GetResult(level, key, now)
  }

  function AfterRead<V>(level: Level<V>, key: Key, now: int, faults: Faults, i: nat): Level<V> {
    if i in faults && faults[i].Refused? then level else AfterGet(level, key, now)
  }

  function WriteReply(ttl: int, faults: Faults, i: nat): Option<Error> {
    if i in faults then Some(faults[i].err) else SetError(ttl)
  }

  function AfterWrite<V>(level: Level<V>, key: Key, val: V, ttl: int, now: int, faults: Faults, i: nat): Level<V> {
    if i in faults && faults[i].Refused? then level else AfterSet(level, key, val, ttl, now)
  }

  // ----- All levels -----

  /** The first level from `i` on that answers, or the number of levels. */
  function FirstHit<V>(levels: seq<Level<V>>, key: Key, now: int, getFaults: Faults, i: nat := 0): (h: nat)
    requires i <= |levels|
    ensures i <= h <= |levels|
    ensures h < |levels| ==> ReadReply(levels[h], key, now, getFaults, h).Ok?
    ensures forall j | i <= j < h :: ReadReply(levels[j], key, now, getFaults, j).Err?
    decreases |levels| - i
  {
    if i == |levels| || ReadReply(levels[i], key, now, getFaults, i).Ok? then i
    else FirstHit(levels, key, now, getFaults, i + 1)
  }

  function AfterProbe<V>(levels: seq<Level<V>>, key: Key, now: int, getFaults: Faults, h: nat): seq<Level<V>> {
    seq(|levels|, i requires 0 <= i < |levels| =>
      if i <= h then AfterRead(levels[i], key, now, getFaults, i) else levels[i])
  }

  /** The levels the probe passed over, with the error each gave. */
  function Failures<V>(levels: seq<Level<V>>, key: Key, now: int, getFaults: Faults, h: nat): seq<Failed>
    requires h <= |levels|
    requires forall j | 0 <= j < h :: ReadReply(levels[j], key, now, getFaults, j).Err?
  {
    seq(h, i requires 0 <= i < h => Failed(i, ReadReply(levels[i], key, now, getFaults, i).error))
  }

  /** The levels among `failed` that reported a true miss, in order. */
  function Missed(failed: seq<Failed>): seq<nat> {
    if failed == [] then [] else
      (if IsNotFound(failed[0].err) then [failed[0].level] else []) + Missed(failed[1..])
  }

  /** Each target written once, whatever the order; writing a level twice is writing it once. */
  function AfterWrites<V>(levels: seq<Level<V>>, targets: seq<nat>, key: Key, val: V, ttl: int, now: int,
                          setFaults: Faults): (r: seq<Level<V>>)
    ensures |r| == |levels|
  {
    seq(|levels|, i requires 0 <= i < |levels| =>
      if i in targets then AfterWrite(levels[i], key, val, ttl, now, setFaults, i) else levels[i])
  }

  function WriteErrorsAt(i: nat, ttl: int, setFaults: Faults): multiset<Error> {
    match WriteReply(ttl, setFaults, i)
    case None => multiset{}
    case Some(e) => multiset{e}
  }

  /** The errors of the writes to `targets`, with multiplicity. */
  function WriteErrors(targets: seq<nat>, ttl: int, setFaults: Faults): (r: multiset<Error>)
    ensures targets == [] ==> r == multiset{}
  {
    if targets == [] then multiset{}
    else WriteErrorsAt(targets[0], ttl, setFaults) + WriteErrors(targets[1..], ttl, setFaults)
  }

  /** `err` is nil when every write succeeded, and otherwise joins exactly the errors of the failed writes. */
  ghost predicate JoinsWriteErrors(err: Option<Error>, targets: seq<nat>, ttl: int, setFaults: Faults) {
    match err
    case None => WriteErrors(targets, ttl, setFaults) == multiset{}
    case Some(e) => e.Joined? && multiset(e.errs) == WriteErrors(targets, ttl, setFaults) != multiset{}
  }

  function AllLevels(n: nat): (r: seq<nat>)
    ensures |r| == n && forall i: nat :: i in r <==> i < n
  {
    if n == 0 then [] else AllLevels(n - 1) + [n - 1]
  }

  function AfterDelete<V>(levels: seq<Level<V>>, key: Key, faults: Faults): seq<Level<V>> {
    seq(|levels|, i requires 0 <= i < |levels| =>
      if i in faults && faults[i].Refused? then levels[i] else levels[i] - {key})
  }

  function AfterClear<V>(levels: seq<Level<V>>, faults: Faults): seq<Level<V>> {
    seq(|levels|, i requires 0 <= i < |levels| =>
      if i in faults && faults[i].Refused? then levels[i] else map[])
  }

  // ----- Get, as one function of the pre-state -----

  /** What the probe and the loader fetch, and the levels that are to be repaired with it. */
  datatype Fetched<V> = Fetched(value: Result<V>, levels: seq<Level<V>>, targets: seq<nat>, hit: nat)

  function Fetch<V>(levels: seq<Level<V>>, key: Key, now: int, getFaults: Faults, loaded: Result<V>): Fetched<V> {
    var h := FirstHit(levels, key, now, getFaults);
    var probed := AfterProbe(levels, key, now, getFaults, h);
    var targets := Missed(Failures(levels, key, now, getFaults, h));
    if h < |levels| then Fetched(ReadReply(levels[h], key, now, getFaults, h), probed, targets, h)
    else if loaded.Ok? then Fetched(loaded, probed, targets, h)
    else Fetched(Err(Wrapped(loaded.error)), probed, [], h)
  }

  function AfterRepair<V>(levels: seq<Level<V>>, key: Key, f: Fetched<V>, ttl: int, now: int, setFaults: Faults)
    : seq<Level<V>>
  {
    if f.value.Err? then f.levels else AfterWrites(f.levels, f.targets, key, f.value.value, ttl, now, setFaults)
  }

  function Without(s: seq<nat>, p: nat): (r: seq<nat>)
    requires p < |s|
    ensures |r| == |s| - 1
  {
    s[..p] + s[p + 1..]
  }

  lemma WriteTwice<V>(level: Level<V>, key: Key, val: V, ttl: int, now: int, setFaults: Faults, i: nat)
    ensures var once := AfterWrite(level, key, val, ttl, now, setFaults, i);
            AfterWrite(once, key, val, ttl, now, setFaults, i) == once
  {
  }

  lemma {:induction false} WriteErrorsPick(targets: seq<nat>, p: nat, ttl: int, setFaults: Faults)
    requires p < |targets|
    ensures WriteErrors(targets, ttl, setFaults) ==
              WriteErrorsAt(targets[p], ttl, setFaults) + WriteErrors(Without(targets, p), ttl, setFaults)
  {
    hide WriteErrorsAt;
    if p == 0 {
      assert Without(targets, 0) == targets[1..];
    } else {
      WriteErrorsPick(targets[1..], p - 1, ttl, setFaults);
      assert Without(targets, p)[1..] == Without(targets[1..], p - 1);
    }
  }

  lemma PickMember(s: seq<nat>, p: nat)
    requires p < |s|
    ensures forall i :: i in s <==> i == s[p] || i in Without(s, p)
    ensures multiset(s) == multiset{s[p]} + multiset(Without(s, p))
  {
    assert s == s[..p] + [s[p]] + s[p + 1..];
  }

  /** Each target has still to run, or has run. */
  ghost predicate RunOrWaiting(targets: seq<nat>, waiting: seq<nat>, ran: seq<nat>) {
    forall i :: i in targets <==> i in waiting || i in ran
  }

  lemma TaskRuns(targets: seq<nat>, waiting: seq<nat>, ran: seq<nat>, p: nat)
    requires RunOrWaiting(targets, waiting, ran) && p < |waiting|
    ensures waiting[p] in targets && RunOrWaiting(targets, Without(waiting, p), ran + [waiting[p]])
  {
    PickMember(waiting, p);
    assert forall i :: i in ran + [waiting[p]] <==> i in ran || i == waiting[p];
  }

  lemma Collect(errs: seq<Error>, i: nat, ttl: int, setFaults: Faults)
    ensures var reply := WriteReply(ttl, setFaults, i);
            multiset(if reply.Some? then errs + [reply.value] else errs) ==
              multiset(errs) + WriteErrorsAt(i, ttl, setFaults)
  {
  }

  /** The write to level `i` fails with this error: the level's own, or the store's refusal of a negative TTL. */
  predicate FailsWith(ttl: int, setFaults: Faults, i: nat, e: Error) {
    if i in setFaults then setFaults[i].err == e else ttl < 0 && e == InvalidTTL
  }

  lemma OneWriteFails(i: nat, ttl: int, setFaults: Faults, e: Error)
    ensures e in WriteErrorsAt(i, ttl, setFaults) <==> FailsWith(ttl, setFaults, i, e)
  {
  }

  /** An error is among them exactly when the write to some target fails with it. */
  lemma {:induction false} WriteErrorsIff(targets: seq<nat>, ttl: int, setFaults: Faults, e: Error)
    ensures e in WriteErrors(targets, ttl, setFaults) <==> exists i | i in targets :: FailsWith(ttl, setFaults, i, e)
  {
    if targets != [] {
      WriteErrorsIff(targets[1..], ttl, setFaults, e);
      OneWriteFails(targets[0], ttl, setFaults, e);
      hide FailsWith, WriteErrorsAt;
      assert forall i :: i in targets <==> i == targets[0] || i in targets[1..];
    }
  }

  lemma NoWriteFails(n: nat, ttl: int, setFaults: Faults)
    requires WriteErrors(AllLevels(n), ttl, setFaults) == multiset{}
    ensures n == 0 || (ttl >= 0 && forall i: nat | i < n :: i !in setFaults)
  {
    forall i: nat | i < n
      ensures i !in setFaults && ttl >= 0
    {
      var e := if i in setFaults then setFaults[i].err else InvalidTTL;
      WriteErrorsIff(AllLevels(n), ttl, setFaults, e);
      if i in setFaults || ttl < 0 {
        assert i in AllLevels(n) && FailsWith(ttl, setFaults, i, e);
      }
    }
  }

  /** The levels a probe with first hit `h` reads. */
  function Probed(n: nat, h: nat): seq<nat> {
    AllLevels(if h < n then h + 1 else n)
  }

  /** Reading a cache again under another level gives the same reply, and removes nothing more. */
  lemma ReadAgain<V>(level: Level<V>, first: Level<V>, read: bool, key: Key, now: int, faults: Faults, i: nat)
    requires level == if read then AfterGet(first, key, now) else first
    ensures ReadReply(level, key, now, faults, i) == ReadReply(first, key, now, faults, i)
    ensures AfterRead(level, key, now, faults, i) ==
              if read || CarriesOut(faults, i) then AfterGet(first, key, now) else first
  {
  }

  /** Writing a cache again under another level changes nothing more. */
  lemma WriteAgain<V>(level: Level<V>, first: Level<V>, written: bool, key: Key, val: V, ttl: int, now: int,
                      setFaults: Faults, i: nat)
    requires level == if written then AfterSet(first, key, val, ttl, now) else first
    ensures AfterWrite(level, key, val, ttl, now, setFaults, i) ==
              if written || CarriesOut(setFaults, i) then AfterSet(first, key, val, ttl, now) else first
  {
  }

  lemma FetchUnfolds<V>(levels: seq<Level<V>>, key: Key, now: int, getFaults: Faults, loaded: Result<V>)
    ensures var f, h := Fetch(levels, key, now, getFaults, loaded), FirstHit(levels, key, now, getFaults);
            && f.hit == h
            && f.levels == AfterProbe(levels, key, now, getFaults, h)
            && f.value == (if h < |levels| then ReadReply(levels[h], key, now, getFaults, h)
                           else if loaded.Ok? then loaded else Err(Wrapped(loaded.error)))
            && f.targets == Missed(if f.value.Err? then [] else Failures(levels, key, now, getFaults, h))
    ensures Failures(levels, key, now, getFaults, 0) == []
  {
  }

  lemma ProbeStep<V>(levels: seq<Level<V>>, key: Key, now: int, getFaults: Faults, i: nat)
    requires i < |levels| && i <= FirstHit(levels, key, now, getFaults)
    ensures var h, reply := FirstHit(levels, key, now, getFaults), ReadReply(levels[i], key, now, getFaults, i);
            && (reply.Ok? <==> i == h)
            && (reply.Err? ==> Failures(levels, key, now, getFaults, i + 1) ==
                                 Failures(levels, key, now, getFaults, i) + [Failed(i, reply.error)])
  {
  }

  /**
    `r` is an answer of Get in this mode: the fetched value, unless a write-back failed. Then strict mode answers with
    the errors that occurred, in some order, and a mode that does not exist with an error of its own.
   */
  ghost predicate Answers<V>(mode: Mode, f: Fetched<V>, ttl: int, setFaults: Faults, r: Result<V>) {
    var errs := WriteErrors(f.targets, ttl, setFaults);
    if f.value.Err? || errs == multiset{} then r == f.value
    else match mode
      case Strict => r.Err? && r.error.Joined? && multiset(r.error.errs) == errs
      case Tolerant => r == f.value
      case Unknown(_) => r == Err(Misconfigured)
  }

  class MultiCache<V> {
    const caches: seq<SlowMapStore<V>>
    const writeBackTTL: int
    const mode: Mode

    constructor (caches: seq<SlowMapStore<V>>, writeBackTTL: int, mode: Mode)
      ensures this.caches == caches && this.writeBackTTL == writeBackTTL && this.mode == mode
    {
      this.caches, this.writeBackTTL, this.mode := caches, writeBackTTL, mode;
    }

    /** The levels are different caches. */
    ghost predicate Valid() {
      forall i, j | 0 <= i < j < |caches| :: caches[i] != caches[j]
    }

    ghost function Levels(): (r: seq<Level<V>>)
      reads caches
      ensures |r| == |caches| && forall i | 0 <= i < |r| :: r[i] == caches[i].data
    {
      seq(|caches|, i requires 0 <= i < |caches| reads caches => caches[i].data)
    }

    /** Some task on this cache, under whichever of its levels, is carried out. */
    ghost predicate Executes(c: SlowMapStore<V>, tasks: seq<nat>, faults: Faults) {
      exists i | i in tasks :: i < |caches| && caches[i] == c && CarriesOut(faults, i)
    }

    lemma ExecutesMore(tasks: seq<nat>, i: nat, faults: Faults)
      requires i < |caches|
      ensures forall c :: Executes(c, tasks + [i], faults) <==>
                Executes(c, tasks, faults) || (caches[i] == c && CarriesOut(faults, i))
    {
      hide CarriesOut;
      assert forall j :: j in tasks + [i] <==> j in tasks || j == i;
    }

    lemma ExecutesSame(a: seq<nat>, b: seq<nat>, faults: Faults)
      requires forall i :: i in a <==> i in b
      ensures forall c :: Executes(c, a, faults) <==> Executes(c, b, faults)
    {
      hide CarriesOut;
    }

    /** For different levels a cache carries out just the tasks of its own level. */
    lemma ExecutesOwn(tasks: seq<nat>, faults: Faults)
      requires Valid()
      ensures forall j: nat | j < |caches| ::
                Executes(caches[j], tasks, faults) <==> j in tasks && CarriesOut(faults, j)
    {
      hide CarriesOut;
    }

    method CacheGet(i: nat, key: Key, now: int, faults: Faults) returns (r: Result<V>)
      requires i < |caches|
      modifies caches[i]
      ensures r == ReadReply(old(caches[i].data), key, now, faults, i)
      ensures caches[i].data == AfterRead(old(caches[i].data), key, now, faults, i)
    {
      if i in faults && faults[i].Refused? {
        return Err(faults[i].err);
      }
      r := caches[i].Get(key, now);
      if i in faults {
        r := Err(faults[i].err);
      }
    }

    method CacheSet(i: nat, key: Key, val: V, ttl: int, now: int, faults: Faults) returns (err: Option<Error>)
      requires i < |caches|
      modifies caches[i]
      ensures err == WriteReply(ttl, faults, i)
      ensures caches[i].data == AfterWrite(old(caches[i].data), key, val, ttl, now, faults, i)
    {
      if i in faults && faults[i].Refused? {
        return Some(faults[i].err);
      }
      err := caches[i].Set(key, val, ttl, now);
      if i in faults {
        err := Some(faults[i].err);
      }
    }

    method FetchPolicySequential(key: Key, now: int, getFaults: Faults, loaded: Result<V>)
      returns (r: Result<V>, failed: seq<Failed>)
      modifies caches
      ensures var f := Fetch(old(Levels()), key, now, getFaults, loaded);
              r == f.value && Missed(failed) == f.targets
      ensures var h := FirstHit(old(Levels()), key, now, getFaults);
              && failed == (if r.Err? then [] else Failures(old(Levels()), key, now, getFaults, h))
              && forall c | c in caches ::
                   c.data == if Executes(c, Probed(|caches|, h), getFaults) then AfterGet(old(c.data), key, now)
                             else old(c.data)
      ensures Valid() ==> Levels() == Fetch(old(Levels()), key, now, getFaults, loaded).levels
    {
      hide Executes, CarriesOut, ReadReply, AfterGet, AfterRead, FirstHit, Failures, Missed, Fetch;
      ghost var before := Levels();
      FetchUnfolds(before, key, now, getFaults, loaded);
      NothingExecutes(getFaults);
      ghost var h := FirstHit(before, key, now, getFaults);
      failed := [];
      var i := 0;
      while i < |caches|
        invariant 0 <= i <= |caches| && i <= h
        invariant failed == Failures(before, key, now, getFaults, i)
        invariant forall c | c in caches ::
                    c.data == if Executes(c, AllLevels(i), getFaults) then AfterGet(old(c.data), key, now)
                              else old(c.data)
      {
        ReadAgain(caches[i].data, before[i], Executes(caches[i], AllLevels(i), getFaults), key, now, getFaults, i);
        ExecutesMore(AllLevels(i), i, getFaults);
        ProbeStep(before, key, now, getFaults, i);
        var val := CacheGet(i, key, now, getFaults);
        if val.Ok? {
          assert AllLevels(i) + [i] == Probed(|caches|, h);
          LevelsProbed(before, key, now, getFaults, h);
          return val, failed;
        }
        failed := failed + [Failed(i, val.error)];
        i := i + 1;
      }
      assert AllLevels(i) == Probed(|caches|, h);
      LevelsProbed(before, key, now, getFaults, h);
      if loaded.Err? {
        return Err(Wrapped(loaded.error)), [];
      }
      return loaded, failed;
    }

    lemma LevelsProbed(before: seq<Level<V>>, key: Key, now: int, getFaults: Faults, h: nat)
      requires |before| == |caches| && h <= |caches|
      requires Valid() ==> forall j: nat | j < |caches| ::
                 caches[j].data == if Executes(caches[j], Probed(|caches|, h), getFaults)
                                   then AfterGet(before[j], key, now) else before[j]
      ensures Valid() ==> Levels() == AfterProbe(before, key, now, getFaults, h)
    {
      if Valid() {
        ExecutesOwn(Probed(|caches|, h), getFaults);
      }
    }

    method MissedCacheFilter(failed: seq<Failed>) returns (ret: seq<nat>)
      ensures ret == Missed(failed)
    {
      ret := [];
      var i := 0;
      while i < |failed|
        invariant 0 <= i <= |failed|
        invariant Missed(failed) == ret + Missed(failed[i..])
      {
        if IsNotFound(failed[i].err) {
          ret := ret + [failed[i].level];
        }
        i := i + 1;
      }
    }

    /**
      One Set per target, in an order chosen by the scheduler; the errors are joined. The loop picks any
      task that has not run yet, so what is proved holds of every order.
     */
    method RunSets(targets: seq<nat>, key: Key, val: V, ttl: int, now: int, setFaults: Faults)
      returns (errs: seq<Error>)
      requires forall i | i in targets :: i < |caches|
      modifies caches
      ensures multiset(errs) == WriteErrors(targets, ttl, setFaults)
      ensures forall c | c in caches ::
                c.data == if Executes(c, targets, setFaults) then AfterSet(old(c.data), key, val, ttl, now)
                          else old(c.data)
      ensures Valid() ==> Levels() == AfterWrites(old(Levels()), targets, key, val, ttl, now, setFaults)
    {
      hide WriteErrors, WriteErrorsAt, WriteReply, Without, AfterSet, AfterWrite, AfterWrites, Executes, CarriesOut;
      ghost var before := Levels();
      var waiting := targets;
      errs := [];
      ghost var ran: seq<nat> := [];
      NothingExecutes(setFaults);
      assert RunOrWaiting(targets, waiting, ran);
      while waiting != []
        invariant RunOrWaiting(targets, waiting, ran)
        invariant multiset(errs) + WriteErrors(waiting, ttl, setFaults) == WriteErrors(targets, ttl, setFaults)
        invariant forall c | c in caches ::
                    c.data == if Executes(c, ran, setFaults) then AfterSet(old(c.data), key, val, ttl, now)
                              else old(c.data)
        decreases |waiting|
      {
        var p: nat :| p < |waiting|;
        var i := waiting[p];
        TaskRuns(targets, waiting, ran, p);
        WriteErrorsPick(waiting, p, ttl, setFaults);
        Collect(errs, i, ttl, setFaults);
        ExecutesMore(ran, i, setFaults);
        WriteAgain(caches[i].data, before[i], Executes(caches[i], ran, setFaults), key, val, ttl, now, setFaults, i);
        var err := CacheSet(i, key, val, ttl, now, setFaults);
        if err.Some? {
          errs := errs + [err.value];
        }
        ran := ran + [i];
        waiting := Without(waiting, p);
      }
      assert forall i :: i in ran <==> i in targets;
      ExecutesSame(ran, targets, setFaults);
      LevelsWritten(before, targets, key, val, ttl, now, setFaults);
    }

    lemma NothingExecutes(faults: Faults)
      ensures forall c :: !Executes(c, [], faults)
    {
    }

    lemma LevelsWritten(before: seq<Level<V>>, targets: seq<nat>, key: Key, val: V, ttl: int, now: int,
                        setFaults: Faults)
      requires |before| == |caches|
      requires Valid() ==> forall j: nat | j < |caches| ::
                 caches[j].data == if Executes(caches[j], targets, setFaults)
                                   then AfterSet(before[j], key, val, ttl, now) else before[j]
      ensures Valid() ==> Levels() == AfterWrites(before, targets, key, val, ttl, now, setFaults)
    {
      if Valid() {
        ExecutesOwn(targets, setFaults);
      }
    }

    method WriteBackParallel(targets: seq<nat>, key: Key, val: V, now: int, setFaults: Faults)
      returns (err: Option<Error>)
      requires forall i | i in targets :: i < |caches|
      modifies caches
      ensures JoinsWriteErrors(err, targets, writeBackTTL, setFaults)
      ensures forall c | c in caches ::
                c.data == if Executes(c, targets, setFaults) then AfterSet(old(c.data), key, val, writeBackTTL, now)
                          else old(c.data)
      ensures Valid() ==> Levels() == AfterWrites(old(Levels()), targets, key, val, writeBackTTL, now, setFaults)
    {
      hide Executes, AfterSet, WriteErrors;
      var errs := RunSets(targets, key, val, writeBackTTL, now, setFaults);
      return if errs == [] then None else Some(Joined(errs));
    }

    method Get(key: Key, now: int, getFaults: Faults, loaded: Result<V>, setFaults: Faults) returns (r: Result<V>)
      modifies caches
      ensures Answers(mode, Fetch(old(Levels()), key, now, getFaults, loaded), writeBackTTL, setFaults, r)
      ensures var f := Fetch(old(Levels()), key, now, getFaults, loaded);
              forall c | c in caches ::
                c.data ==
                  var read := if Executes(c, Probed(|caches|, f.hit), getFaults) then AfterGet(old(c.data), key, now)
                              else old(c.data);
                  if f.value.Ok? && Executes(c, f.targets, setFaults)
                  then AfterSet(read, key, f.value.value, writeBackTTL, now) else read
      ensures Valid() ==>
                Levels() == AfterRepair(old(Levels()), key, Fetch(old(Levels()), key, now, getFaults, loaded),
                                        writeBackTTL, now, setFaults)
    {
      ghost var f := Fetch(Levels(), key, now, getFaults, loaded);
      TargetsInRange(Levels(), key, now, getFaults, loaded);
      FetchUnfolds(Levels(), key, now, getFaults, loaded);
      hide Fetch, Executes, AfterSet, AfterGet, WriteErrors;
      var val, failed := FetchPolicySequential(key, now, getFaults, loaded);
      if val.Err? {
        return val;
      }
      var targets := MissedCacheFilter(failed);
      var err := WriteBackParallel(targets, key, val.value, now, setFaults);
      if err.Some? {
        match mode {
          case Strict => return Err(err.value);
          case Tolerant => return val;
          case Unknown(_) => return Err(Misconfigured);
        }
      }
      return val;
    }

    /** Only the first error to arrive is reported. */
    method Set(key: Key, val: V, ttl: int, now: int, setFaults: Faults) returns (err: Option<Error>)
      modifies caches
      ensures err.None? <==> |caches| == 0 || (ttl >= 0 && forall i: nat | i < |caches| :: i !in setFaults)
      ensures err.Some? ==> exists i: nat | i < |caches| :: FailsWith(ttl, setFaults, i, err.value)
      ensures forall c | c in caches ::
                c.data == if Executes(c, AllLevels(|caches|), setFaults) then AfterSet(old(c.data), key, val, ttl, now)
                          else old(c.data)
      ensures Valid() ==> Levels() == AfterWrites(old(Levels()), AllLevels(|caches|), key, val, ttl, now, setFaults)
    {
      hide Executes, AfterSet, WriteErrors, AfterWrites;
      var all := AllLevels(|caches|);
      var errs := RunSets(all, key, val, ttl, now, setFaults);
      forall e {
        WriteErrorsIff(all, ttl, setFaults, e);
      }
      if errs == [] {
        assert WriteErrors(all, ttl, setFaults) == multiset{};
        NoWriteFails(|caches|, ttl, setFaults);
        return None;
      }
      assert errs[0] in multiset(errs);
      return Some(errs[0]);
    }

    method Delete(key: Key, faults: Faults) returns (err: Option<Error>)
      modifies caches
      ensures err == CollectedError(|caches|, faults)
      ensures forall c | c in caches ::
                c.data == if Executes(c, AllLevels(|caches|), faults) then old(c.data) - {key} else old(c.data)
      ensures Valid() ==> Levels() == AfterDelete(old(Levels()), key, faults)
    {
      ghost var before := Levels();
      var errs := [];
      for i := 0 to |caches|
        invariant errs == Collected(i, faults)
        invariant forall c | c in caches ::
                    c.data == if Executes(c, AllLevels(i), faults) then old(c.data) - {key} else old(c.data)
      {
        ExecutesMore(AllLevels(i), i, faults);
        if i !in faults || faults[i].LostReply? {
          caches[i].Delete(key);
        }
        if i in faults {
          errs := errs + [faults[i].err];
        }
      }
      if Valid() {
        ExecutesOwn(AllLevels(|caches|), faults);
        assert Levels() == AfterDelete(before, key, faults);
      }
      err := if errs == [] then None else Some(Joined(errs));
    }

    method Clear(faults: Faults) returns (err: Option<Error>)
      modifies caches
      ensures err == CollectedError(|caches|, faults)
      ensures forall c | c in caches ::
                c.data == if Executes(c, AllLevels(|caches|), faults) then map[] else old(c.data)
      ensures Valid() ==> Levels() == AfterClear(old(Levels()), faults)
    {
      ghost var before := Levels();
      var errs := [];
      for i := 0 to |caches|
        invariant errs == Collected(i, faults)
        invariant forall c | c in caches ::
                    c.data == if Executes(c, AllLevels(i), faults) then map[] else old(c.data)
      {
        ExecutesMore(AllLevels(i), i, faults);
        if i !in faults || faults[i].LostReply? {
          caches[i].Clear();
        }
        if i in faults {
          errs := errs + [faults[i].err];
        }
      }
      if Valid() {
        ExecutesOwn(AllLevels(|caches|), faults);
        assert Levels() == AfterClear(before, faults);
      }
      err := if errs == [] then None else Some(Joined(errs));
    }
  }

  /** The errors of the first `n` levels, in level order. */
  function Collected(n: nat, faults: Faults): seq<Error> {
    if n == 0 then []
    else Collected(n - 1, faults) + if n - 1 in faults then [faults[n - 1].err] else []
  }

  function CollectedError(n: nat, faults: Faults): Option<Error> {
    if Collected(n, faults) == [] then None else Some(Joined(Collected(n, faults)))
  }

  /**
    Delete and Clear report nothing exactly when no level fails, and otherwise all the errors of the levels that
    failed, whether or not they did the work, in level order: `at` lists these levels.
   */
  lemma {:induction false} CollectedIs(n: nat, faults: Faults) returns (at: seq<nat>)
    ensures forall i: nat :: i in at <==> i < n && i in faults
    ensures forall j, k | 0 <= j < k < |at| :: at[j] < at[k]
    ensures |Collected(n, faults)| == |at| && forall j | 0 <= j < |at| :: Collected(n, faults)[j] == faults[at[j]].err
    ensures CollectedError(n, faults) == if at == [] then None else Some(Joined(Collected(n, faults)))
  {
    if n == 0 {
      return [];
    }
    at := CollectedIs(n - 1, faults);
    assert forall j | 0 <= j < |at| :: at[j] in at;
    if n - 1 in faults {
      at := at + [n - 1];
    }
  }

  /** A level is picked for repair exactly when the probe saw a true miss there. */
  lemma {:induction false} MissedIff(failed: seq<Failed>, i: nat)
    ensures i in Missed(failed) <==> exists f | f in failed :: f.level == i && IsNotFound(f.err)
  {
    if failed != [] {
      MissedIff(failed[1..], i);
      assert failed == [failed[0]] + failed[1..];
    }
  }

  lemma TargetIff<V>(levels: seq<Level<V>>, key: Key, now: int, getFaults: Faults, h: nat, i: nat)
    requires h <= |levels|
    requires forall j | 0 <= j < h :: ReadReply(levels[j], key, now, getFaults, j).Err?
    ensures i in Missed(Failures(levels, key, now, getFaults, h)) <==>
            i < h && IsNotFound(ReadReply(levels[i], key, now, getFaults, i).error)
  {
    var failed := Failures(levels, key, now, getFaults, h);
    MissedIff(failed, i);
    if i < h {
      assert failed[i] in failed;
    }
  }

  lemma TargetsInRange<V>(levels: seq<Level<V>>, key: Key, now: int, getFaults: Faults, loaded: Result<V>)
    ensures var f := Fetch(levels, key, now, getFaults, loaded);
            forall i | i in f.targets :: i < f.hit && i < |levels|
  {
    var h := FirstHit(levels, key, now, getFaults);
    forall i | i in Missed(Failures(levels, key, now, getFaults, h))
      ensures i < h
    {
      TargetIff(levels, key, now, getFaults, h, i);
    }
  }

  /**
    What a fetch does under any failures. The loader is asked exactly when no level answers; the levels to repair
    are exactly those probed in vain that reported a true miss, and none at all when the loader fails; the probe
    itself removes nothing but an expired entry of the key.
   */
  lemma FetchLaw<V>(levels: seq<Level<V>>, key: Key, now: int, getFaults: Faults, loaded: Result<V>, i: nat)
    requires i < |levels|
    ensures var f := Fetch(levels, key, now, getFaults, loaded);
            var answers := (j: nat) => j < |levels| && ReadReply(levels[j], key, now, getFaults, j).Ok?;
            && (answers(i) ==> f.hit <= i)
            && (f.hit < |levels| ==> answers(f.hit) && f.value == ReadReply(levels[f.hit], key, now, getFaults, f.hit))
            && (f.hit >= |levels| ==> f.value == if loaded.Ok? then loaded else Err(Wrapped(loaded.error)))
            && (i in f.targets <==>
                  f.value.Ok? && i < f.hit && Misses(ReadReply(levels[i], key, now, getFaults, i)))
            && |f.levels| == |levels|
            && (f.levels[i] == levels[i] ||
                (i <= f.hit && Live(levels[i], key, now) == None && f.levels[i] == levels[i] - {key}))
  {
    TargetIff(levels, key, now, getFaults, FirstHit(levels, key, now, getFaults), i);
  }

  /**
    The same in terms of the failures themselves. A level before the hit is repaired exactly when it is healthy, so
    that it has no live entry, or the error it gave has the sentinel somewhere inside.
   */
  lemma RepairedIff<V>(levels: seq<Level<V>>, key: Key, now: int, getFaults: Faults, loaded: Result<V>, i: nat)
    requires i < |levels|
    ensures var f := Fetch(levels, key, now, getFaults, loaded);
            && (i < f.hit && i !in getFaults ==> Live(levels[i], key, now).None?)
            && (i in f.targets <==>
                  f.value.Ok? && i < f.hit && (i in getFaults ==> HasSentinel(getFaults[i].err)))
  {
    FetchLaw(levels, key, now, getFaults, loaded, i);
    if i in getFaults {
      IsNotFoundIff(getFaults[i].err);
    }
    var h := FirstHit(levels, key, now, getFaults);
    if i < h {
      assert ReadReply(levels[i], key, now, getFaults, i).Err?;
    }
  }

  /**
    What Get answers, in terms of the failures. It is the fetched value or its error, unless that was fetched and some
    target's write failed; then strict mode joins exactly the errors of these writes, and only a mode that does not
    exist gives another error.
   */
  lemma AnswersAre<V>(mode: Mode, f: Fetched<V>, ttl: int, setFaults: Faults, r: Result<V>)
    requires Answers(mode, f, ttl, setFaults, r)
    ensures var failed := exists i | i in f.targets :: i in setFaults || ttl < 0;
            if f.value.Err? || !failed || mode == Tolerant then r == f.value
            else if mode == Strict then
              && r.Err? && r.error.Joined?
              && forall e :: e in r.error.errs <==> exists i | i in f.targets :: FailsWith(ttl, setFaults, i, e)
            else r == Err(Misconfigured)
  {
    var errs := WriteErrors(f.targets, ttl, setFaults);
    forall e {
      WriteErrorsIff(f.targets, ttl, setFaults, e);
    }
    if i :| i in f.targets && (i in setFaults || ttl < 0) {
      var e := if i in setFaults then setFaults[i].err else InvalidTTL;
      assert FailsWith(ttl, setFaults, i, e);
      assert e in errs;
    } else {
      assert forall e :: e !in errs;
    }
    if f.value.Ok? && errs != multiset{} && mode == Strict {
      assert forall e :: e in r.error.errs <==> e in multiset(r.error.errs);
    }
  }
}
