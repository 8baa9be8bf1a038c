/**
  The lock sections of the TTL store as atomic steps of a machine. A Get holds the read lock only
  while it copies the item, looks at the clock afterwards, and takes the write lock again to delete
  an expired key; a Set computes its deadline before it takes the lock.
 */
module StoreInterleaving {
  import opened Prelude
  import opened TtlStore

  datatype Phase<V> =
    | Checking(key: Key, item: Item<V>, wantTTL: bool)   // copied under the read lock, clock not read yet
    | Evicting(key: Key)                                 // found it expired, write lock not taken yet
    | Rereading(key: Key, item: Item<V>)                 // GetWithTTL: copy checked, second read pending
    | Timing(key: Key, item: Item<V>, found: Option<int>)   // second read found this deadline, clock not read yet
    | Writing(key: Key, item: Item<V>)                   // Set: deadline computed, write lock not taken yet

  /** A value returned to a caller, with the instant its expiry was checked. */
  datatype Served<V> = Served(key: Key, value: V, checkedAt: int)

  /** What a GetWithTTL returned; the time left was read after the value was checked. */
  datatype Report<V> = Report(key: Key, value: V, ttl: int, readAt: int)

  /** `written` records every item some Set has put under a key; no step reads it. */
  datatype World<V(==)> = World(
    data: Level<V>, now: int, threads: map<nat, Phase<V>>,
    written: set<(Key, Item<V>)>, served: set<Served<V>>, reported: set<Report<V>>)

  datatype Step<V> =
    | BeginGet(tid: nat, key: Key, wantTTL: bool)
    | BeginSet(tid: nat, key: Key, val: V, ttl: int)
    | Proceed(tid: nat)
    | Delete(key: Key)
    | Clear
    | Tick(elapsed: nat)

  function Start<V(==)>(now: int): World<V> {
    World(map[], now, map[], {}, {}, {})
  }

  function Next<V(==)>(w: World<V>, step: Step<V>): World<V> {
    match step
    case BeginGet(tid, key, wantTTL) =>
      if tid in w.threads || key !in w.data then w
      else w.(threads := w.threads[tid := Checking(key, w.data[key], wantTTL)])
    case BeginSet(tid, key, val, ttl) =>
      if tid in w.threads || ttl < 0 then w
      else w.(threads := w.threads[tid := Writing(key, NewItem(val, ttl, w.now))])
    case Proceed(tid) =>
      if tid in w.threads then Resume(w, tid) else w
    case Delete(key) => w.(data := w.data - {key})
    case Clear => w.(data := map[])
    case Tick(d) => w.(now := w.now + d)
  }

  /** The deadline the second read of a GetWithTTL finds; a key that is gone reads as the zero item, with none. */
  function DeadlineNow<V(==)>(w: World<V>, key: Key): Option<int> {
    if key in w.data then w.data[key].expireAt else None
  }

  function TimeLeft(deadline: Option<int>, now: int): int {
    match deadline
    case None => 0
    case Some(at) => at - now
  }

  /** One thread runs its next section. */
  function Resume<V(==)>(w: World<V>, tid: nat): World<V>
    requires tid in w.threads
  {
    var rest := w.threads - {tid};
    match w.threads[tid]
    case Checking(key, item, wantTTL) =>
      if Expired(item, w.now) then w.(threads := w.threads[tid := Evicting(key)])
      else if wantTTL then
        w.(threads := w.threads[tid := Rereading(key, item)],
           served := w.served + {Served(key, item.value, w.now)})
      else w.(threads := rest, served := w.served + {Served(key, item.value, w.now)})
    case Evicting(key) => w.(threads := rest, data := w.data - {key})
    case Rereading(key, item) =>
      w.(threads := w.threads[tid := Timing(key, item, DeadlineNow(w, key))])
    case Timing(key, item, found) =>
      w.(threads := rest, reported := w.reported + {Report(key, item.value, TimeLeft(found, w.now), w.now)})
    case Writing(key, item) =>
      w.(threads := rest, data := w.data[key := item], written := w.written + {(key, item)})
  }

  function Run<V(==)>(w: World<V>, steps: seq<Step<V>>): World<V>
    decreases |steps|
  {
    if steps == [] then w else Run(Next(w, steps[0]), steps[1..])
  }

  /** Every item in the map or in a reader's hands was written under that key. */
  ghost predicate Traced<V>(w: World<V>) {
    && (forall k | k in w.data :: (k, w.data[k]) in w.written)
    && (forall t | t in w.threads :: PhaseTraced(w, w.threads[t]))
    && (forall s | s in w.served :: WasLive(w, s))
    && (forall r | r in w.reported :: Wrote(w, r.key, r.value) && (r.ttl == 0 || WasLeft(w, r)))
  }

  ghost predicate PhaseTraced<V>(w: World<V>, phase: Phase<V>) {
    && (phase.Checking? || phase.Rereading? || phase.Timing? ==> (phase.key, phase.item) in w.written)
    && (phase.Timing? ==> phase.found == None || HadDeadline(w, phase.key, phase.found))
  }

  ghost predicate Wrote<V>(w: World<V>, key: Key, value: V) {
    exists p | p in w.written :: p.0 == key && p.1.value == value
  }

  ghost predicate HadDeadline<V>(w: World<V>, key: Key, deadline: Option<int>) {
    exists p | p in w.written :: p.0 == key && p.1.expireAt == deadline
  }

  /** The time left is that of some item written under the key. */
  ghost predicate WasLeft<V>(w: World<V>, r: Report<V>) {
    exists p | p in w.written :: p.0 == r.key && r.ttl == Remaining(p.1, r.readAt)
  }

  ghost predicate WasLive<V>(w: World<V>, s: Served<V>) {
    exists p | p in w.written :: p.0 == s.key && p.1.value == s.value && !Expired(p.1, s.checkedAt)
  }

  lemma NextKeepsTraced<V>(w: World<V>, step: Step<V>)
    requires Traced(w)
    ensures Traced(Next(w, step)) && w.written <= Next(w, step).written
  {
    var w' := Next(w, step);
    assert forall p | p in w.written :: p in w'.written;
    forall r | r in w'.reported
      ensures Wrote(w', r.key, r.value) && (r.ttl == 0 || WasLeft(w', r))
    {
      ReportStaysTraced(w, step, r);
    }
    forall t | t in w'.threads
      ensures PhaseTraced(w', w'.threads[t])
    {
      ThreadStaysTraced(w, step, t);
    }
    forall s | s in w'.served
      ensures WasLive(w', s)
    {
      ServedStaysTraced(w, step, s);
    }
  }

  lemma ReportStaysTraced<V>(w: World<V>, step: Step<V>, r: Report<V>)
    requires Traced(w) && r in Next(w, step).reported
    ensures Wrote(Next(w, step), r.key, r.value) && (r.ttl == 0 || WasLeft(Next(w, step), r))
  {
    var w' := Next(w, step);
    if r in w.reported {
      assert Wrote(w, r.key, r.value) && (r.ttl == 0 || WasLeft(w, r));
    } else {
      var phase := w.threads[step.tid];
      assert PhaseTraced(w, phase) && (r.key, phase.item) in w'.written;
      if phase.found != None {
        var p :| p in w.written && p.0 == r.key && p.1.expireAt == phase.found;
        assert p in w'.written && r.ttl == Remaining(p.1, r.readAt);
      }
    }
  }

  lemma ThreadStaysTraced<V>(w: World<V>, step: Step<V>, t: nat)
    requires Traced(w) && t in Next(w, step).threads
    ensures PhaseTraced(Next(w, step), Next(w, step).threads[t])
  {
    var w' := Next(w, step);
    var phase := w'.threads[t];
    if t in w.threads && phase == w.threads[t] {
      assert PhaseTraced(w, phase) && w.written <= w'.written;
    } else if t in w.threads {
      assert PhaseTraced(w, w.threads[t]);
      if phase.Timing? && phase.found != None {
        assert (phase.key, w.data[phase.key]) in w'.written;
      }
    }
  }

  lemma ServedStaysTraced<V>(w: World<V>, step: Step<V>, s: Served<V>)
    requires Traced(w) && s in Next(w, step).served
    ensures WasLive(Next(w, step), s)
  {
    var w' := Next(w, step);
    if s in w.served {
      var p :| p in w.written && p.0 == s.key && p.1.value == s.value && !Expired(p.1, s.checkedAt);
      assert p in w'.written;
    } else {
      assert PhaseTraced(w, w.threads[step.tid]);
      assert (s.key, w.threads[step.tid].item) in w'.written;
    }
  }

  lemma {:induction false} RunKeepsTraced<V>(w: World<V>, steps: seq<Step<V>>)
    requires Traced(w)
    ensures Traced(Run(w, steps))
    decreases |steps|
  {
    if steps != [] {
      NextKeepsTraced(w, steps[0]);
      RunKeepsTraced(Next(w, steps[0]), steps[1..]);
    }
  }

  /**
    Under every interleaving a Get hands out only a value that some Set stored under that key and
    that had not expired when it was checked.
   */
  lemma ServedWasWrittenAndLive<V>(now: int, steps: seq<Step<V>>, s: Served<V>)
    requires s in Run(Start(now), steps).served
    ensures WasLive(Run(Start(now), steps), s)
  {
    RunKeepsTraced(Start<V>(now), steps);
  }

  /** The same for GetWithTTL: the value was stored under the key, and so was an item with the time left, or it is 0. */
  lemma ReportedWasWritten<V>(now: int, steps: seq<Step<V>>, r: Report<V>)
    requires r in Run(Start(now), steps).reported
    ensures var w := Run(Start(now), steps);
            Wrote(w, r.key, r.value) && (r.ttl == 0 || WasLeft(w, r))
  {
    RunKeepsTraced(Start<V>(now), steps);
  }

  /**
    Clear forgets: unless some reader still has a copy in hand, whatever is served or reported afterwards, over every
    run, was stored afterwards.
   */
  lemma ClearForgets<V>(w: World<V>, steps: seq<Step<V>>)
    requires forall t | t in w.threads :: w.threads[t].Evicting? || w.threads[t].Writing?
    ensures var w1 := Next(w, Clear).(written := {}, served := {}, reported := {});
            var w' := Run(w1, steps);
            && (forall s | s in w'.served :: WasLive(w', s))
            && (forall r | r in w'.reported :: Wrote(w', r.key, r.value))
  {
    RunKeepsTraced(Next(w, Clear).(written := {}, served := {}, reported := {}), steps);
  }

  // ----- Without interleaving -----

  /** The sections of one operation in a row are the operation of the store: what a Get serves and what it leaves. */
  lemma GetAlone<V>(w: World<V>, tid: nat, key: Key)
    requires tid !in w.threads
    ensures var w' := Next(Next(Next(w, BeginGet(tid, key, false)), Proceed(tid)), Proceed(tid));
            && w'.data == AfterGet(w.data, key, w.now) && w'.threads == w.threads
            && w'.served == match GetResult(w.data, key, w.now)
                            case Ok(v) => w.served + {Served(key, v, w.now)}
                            case Err(_) => w.served
  {
    if key in w.data {
      var w1 := Next(w, BeginGet(tid, key, false));
      assert w1.threads[tid] == Checking(key, w.data[key], false);
      assert w1.threads - {tid} == w.threads;
      if Expired(w.data[key], w.now) {
        var w2 := Next(w1, Proceed(tid));
        assert w2.threads[tid] == Evicting(key) && w2.threads - {tid} == w.threads;
      }
    }
  }

  lemma GetWithTTLAlone<V>(w: World<V>, tid: nat, key: Key)
    requires tid !in w.threads
    ensures var w2 := Next(Next(w, BeginGet(tid, key, true)), Proceed(tid));
            var w' := Next(Next(w2, Proceed(tid)), Proceed(tid));
            && w'.data == AfterGet(w.data, key, w.now) && w'.threads == w.threads
            && w'.reported == match GetWithTTLResult(w.data, key, w.now)
                              case Ok((v, ttl)) => w.reported + {Report(key, v, ttl, w.now)}
                              case Err(_) => w.reported
  {
    if key in w.data {
      var item := w.data[key];
      var w1 := Next(w, BeginGet(tid, key, true));
      assert w1.threads[tid] == Checking(key, item, true);
      assert w1.threads - {tid} == w.threads;
      var w2 := Next(w1, Proceed(tid));
      assert w2.threads[tid] == if Expired(item, w.now) then Evicting(key) else Rereading(key, item);
      assert w2.threads - {tid} == w.threads;
      var w3 := Next(w2, Proceed(tid));
      if !Expired(item, w.now) {
        assert w3.threads[tid] == Timing(key, item, item.expireAt) && w3.threads - {tid} == w.threads;
      }
    }
  }

  lemma SetAlone<V>(w: World<V>, tid: nat, key: Key, val: V, ttl: int)
    requires tid !in w.threads
    ensures var w' := Next(Next(w, BeginSet(tid, key, val, ttl)), Proceed(tid));
            w'.data == AfterSet(w.data, key, val, ttl, w.now) && w'.threads == w.threads
  {
    if ttl >= 0 {
      var w1 := Next(w, BeginSet(tid, key, val, ttl));
      assert w1.threads[tid] == Writing(key, NewItem(val, ttl, w.now)) && w1.threads - {tid} == w.threads;
    }
  }

  // ----- The delayed eviction -----

  /** The reader may yet evict something live: the key's item outlives the copy's deadline, or its own decision. */
  predicate Overtaken<V(==)>(phase: Phase<V>, data: Level<V>, now: int) {
    match phase
    case Evicting(key) => Live(data, key, now).Some?
    case Checking(key, item, _) =>
      item.expireAt.Some? && key in data && !Expired(data[key], Later(now, item.expireAt.value + 1))
    case _ => false
  }

  function Later(a: int, b: int): int {
    if a < b then b else a
  }

  ghost predicate NoneOvertaken<V>(w: World<V>) {
    forall t | t in w.threads :: !Overtaken(w.threads[t], w.data, w.now)
  }

  /**
    The step is a Set that stores its item under a reader of the key: one about to evict while the item is live, or
    one whose copy has a deadline that the item outlives.
   */
  ghost predicate Overtakes<V>(w: World<V>, step: Step<V>) {
    && step.Proceed? && step.tid in w.threads && w.threads[step.tid].Writing?
    && var key, item := w.threads[step.tid].key, w.threads[step.tid].item;
       exists t | t in w.threads :: w.threads[t].key == key && Overtaken(w.threads[t], map[key := item], w.now)
  }

  ghost predicate NeverOvertakes<V>(w: World<V>, steps: seq<Step<V>>)
    decreases |steps|
  {
    steps == [] || (!Overtakes(w, steps[0]) && NeverOvertakes(Next(w, steps[0]), steps[1..]))
  }

  ghost predicate NoneOvertakenThroughout<V>(w: World<V>, steps: seq<Step<V>>)
    decreases |steps|
  {
    NoneOvertaken(w) && (steps != [] ==> NoneOvertakenThroughout(Next(w, steps[0]), steps[1..]))
  }

  /** Only such a Set can make an eviction harmful, and each of them does. */
  lemma StepOvertakesIff<V>(w: World<V>, step: Step<V>)
    requires NoneOvertaken(w)
    ensures NoneOvertaken(Next(w, step)) <==> !Overtakes(w, step)
  {
    var w' := Next(w, step);
    if step.Proceed? && step.tid in w.threads && w.threads[step.tid].Writing? {
      var key, item := w.threads[step.tid].key, w.threads[step.tid].item;
      forall t | t in w'.threads
        ensures Overtaken(w'.threads[t], w'.data, w'.now) <==>
                  w.threads[t].key == key && Overtaken(w.threads[t], map[key := item], w.now)
      {
        assert !Overtaken(w.threads[t], w.data, w.now);
      }
      assert !Overtaken(w.threads[step.tid], map[key := item], w.now);
    }
  }

  lemma {:induction false} RunOvertakesIff<V>(w: World<V>, steps: seq<Step<V>>)
    requires NoneOvertaken(w)
    ensures NoneOvertakenThroughout(w, steps) <==> NeverOvertakes(w, steps)
    ensures NeverOvertakes(w, steps) ==> NoneOvertaken(Run(w, steps))
    decreases |steps|
  {
    hide Overtakes, NoneOvertaken, Next;
    if steps != [] {
      StepOvertakesIff(w, steps[0]);
      if !Overtakes(w, steps[0]) {
        RunOvertakesIff(Next(w, steps[0]), steps[1..]);
      }
    }
  }

  /**
    When no Set of the run overtakes a reader, every eviction is invisible: no step of a reader changes what any
    other reader can see.
   */
  lemma EvictionInvisible<V>(w: World<V>, steps: seq<Step<V>>, tid: nat, key: Key)
    requires NoneOvertaken(w) && NeverOvertakes(w, steps)
    ensures var w' := Run(w, steps);
            tid in w'.threads && !w'.threads[tid].Writing? ==>
              Live(Next(w', Proceed(tid)).data, key, w'.now) == Live(w'.data, key, w'.now)
  {
    RunOvertakesIff(w, steps);
    var w' := Run(w, steps);
    assert tid in w'.threads ==> !Overtaken(w'.threads[tid], w'.data, w'.now);
  }

  /** Left to itself, the reader at last evicts something that is live. */
  ghost predicate Loses<V>(w: World<V>, tid: nat, own: seq<Step<V>>) {
    && tid in w.threads && !w.threads[tid].Writing?
    && (forall step | step in own :: step.Tick? || step == Proceed(tid))
    && var w', key := Run(w, own), w.threads[tid].key;
       tid in w'.threads && Live(Next(w', Proceed(tid)).data, key, w'.now) != Live(w'.data, key, w'.now)
  }

  /** An overtaken reader that waits for its copy's deadline evicts a live item. */
  lemma OvertakenReaderLoses<V>(w: World<V>, tid: nat) returns (own: seq<Step<V>>)
    requires tid in w.threads && Overtaken(w.threads[tid], w.data, w.now)
    ensures Loses(w, tid, own)
  {
    var phase := w.threads[tid];
    if phase.Evicting? {
      return [];
    }
    var wait := Later(w.now, phase.item.expireAt.value + 1) - w.now;
    own := [Step.Tick(wait), Proceed(tid)];
    var w1 := Next(w, own[0]);
    assert w1.threads[tid] == phase && Expired(phase.item, w1.now);
    assert own[1..][1..] == [];
    assert Run(w, own) == Run(w1, own[1..]) == Run(Next(w1, Proceed(tid)), []);
  }

  lemma {:induction false} ReaderStaysReader<V>(w: World<V>, tid: nat, own: seq<Step<V>>)
    requires tid in w.threads ==> !w.threads[tid].Writing?
    requires forall step | step in own :: step.Tick? || step == Proceed(tid)
    ensures NeverOvertakes(w, own)
    ensures tid in Run(w, own).threads ==> !Run(w, own).threads[tid].Writing?
    decreases |own|
  {
    if own != [] {
      assert own[0] in own && forall step | step in own[1..] :: step in own;
      ReaderStaysReader(Next(w, own[0]), tid, own[1..]);
    }
  }

  /** The condition is exact: a step overtakes somebody just when some reader, left to itself after it, loses one. */
  lemma OvertakingIsHarmfulIff<V>(w: World<V>, step: Step<V>)
    requires NoneOvertaken(w)
    ensures Overtakes(w, step) <==> exists tid, own :: Loses(Next(w, step), tid, own)
  {
    var w' := Next(w, step);
    StepOvertakesIff(w, step);
    if Overtakes(w, step) {
      var tid :| tid in w'.threads && Overtaken(w'.threads[tid], w'.data, w'.now);
      var own := OvertakenReaderLoses(w', tid);
    } else {
      forall tid, own | Loses(w', tid, own)
        ensures false
      {
        ReaderStaysReader(w', tid, own);
        EvictionInvisible(w', own, tid, w'.threads[tid].key);
      }
    }
  }

  /**
    What one such Set does to a reader that is about to evict: the eviction becomes visible exactly when the Set is
    for the same key and its item is live.
   */
  lemma CommitUnderEvictionIff<V>(w: World<V>, reader: nat, writer: nat, key: Key)
    requires NoneOvertaken(w)
    requires reader in w.threads && w.threads[reader] == Evicting(key)
    requires writer in w.threads && w.threads[writer].Writing?
    ensures var w' := Next(w, Proceed(writer));
            Live(Next(w', Proceed(reader)).data, key, w'.now) != Live(w'.data, key, w'.now) <==>
              w.threads[writer].key == key && !Expired(w.threads[writer].item, w.now)
  {
    assert Live(w.data, key, w.now) == None;
    var w' := Next(w, Proceed(writer));
    assert w'.threads[reader] == Evicting(key);
  }

  /**
    And to a reader that has only copied its item: its next two sections, with any waiting before each, lose
    something visible exactly when the copy has expired at the check, the Set was for the same key, and the new
    item is still live at the eviction.
   */
  lemma CommitUnderCheckIff<V>(w: World<V>, reader: nat, writer: nat, wait: nat, wait': nat)
    requires NoneOvertaken(w)
    requires reader in w.threads && w.threads[reader].Checking?
    requires writer in w.threads && w.threads[writer].Writing?
    ensures var key := w.threads[reader].key;
            var w1 := Next(Next(w, Proceed(writer)), Tick(wait));
            var w2 := Next(w1, Proceed(reader));
            var w3 := Next(w2, Tick(wait'));
            var w4 := Next(w3, Proceed(reader));
            && w2.data == w1.data
            && (Live(w4.data, key, w4.now) != Live(w3.data, key, w3.now) <==>
                  && Expired(w.threads[reader].item, w1.now)
                  && w.threads[writer].key == key && !Expired(w.threads[writer].item, w3.now))
  {
    var key, item := w.threads[reader].key, w.threads[reader].item;
    var w0 := Next(w, Proceed(writer));
    assert w0.threads[reader] == w.threads[reader];
    assert w.threads[writer].key == key ==> w0.data[key] == w.threads[writer].item;
    assert !Overtaken(w.threads[reader], w.data, w.now);
  }

  function Race<V>(key: Key, first: V, second: V, ttl: nat): seq<Step<V>> {
    [BeginSet(1, key, first, ttl), Proceed(1), Step.Tick(ttl + 1)] +
    [BeginGet(0, key, false), Proceed(0), BeginSet(1, key, second, 0), Proceed(1)]
  }

  /**
    That happens: whatever the key, the two values and the deadline, one fixed schedule stores a value without
    expiry and then loses it to a reader that looked before.
   */
  lemma EvictionCanDropFreshItem<V>(key: Key, first: V, second: V, ttl: nat)
    requires ttl > 0
    ensures var w := Run(Start(0), Race(key, first, second, ttl));
            && Live(w.data, key, w.now) == Some(Item(second, None))
            && 0 in w.threads
            && Live(Next(w, Proceed(0)).data, key, w.now) == None
  {
    var stale := Item(first, Some(ttl));
    var opening := [BeginSet(1, key, first, ttl), Proceed(1), Step.Tick(ttl + 1)];
    var reading := [BeginGet(0, key, false), Proceed(0), BeginSet(1, key, second, 0), Proceed(1)];
    var w0: World<V> := Start(0);
    var w1 := w0.(threads := map[1 := Writing(key, stale)]);
    var w2 := World(map[key := stale], ttl + 1, map[], {(key, stale)}, {}, {});
    assert Run(w0, opening) == w2 by {
      assert Next(w0, opening[0]) == w1;
      assert Next(w1, opening[1]) == w2.(now := 0);
      assert Run(Next(w1, opening[1]), opening[2..]) == w2;
      assert opening[1..][1..] == opening[2..];
    }
    assert Race(key, first, second, ttl) == opening + reading;
    Unroll(w0, opening, reading);
    var w3 := w2.(threads := map[0 := Checking(key, stale, false)]);
    var w4 := w2.(threads := map[0 := Evicting(key)]);
    var w5 := w4.(threads := map[0 := Evicting(key), 1 := Writing(key, Item(second, None))]);
    assert Next(w2, reading[0]) == w3;
    assert Next(w3, reading[1]) == w4;
    assert Next(w4, reading[2]) == w5;
    RunFour(w2, reading);
    assert Next(w5, reading[3]).threads[0] == Evicting(key);
  }

  lemma RunFour<V>(w: World<V>, s: seq<Step<V>>)
    requires |s| == 4
    ensures Run(w, s) == Next(Next(Next(Next(w, s[0]), s[1]), s[2]), s[3])
  {
    assert s == [s[0]] + ([s[1]] + ([s[2]] + [s[3]]));
    Unroll(w, [s[0]], [s[1]] + ([s[2]] + [s[3]]));
    Unroll(Next(w, s[0]), [s[1]], [s[2]] + [s[3]]);
    Unroll(Next(Next(w, s[0]), s[1]), [s[2]], [s[3]]);
  }

  lemma {:induction false} Unroll<V>(w: World<V>, a: seq<Step<V>>, b: seq<Step<V>>)
    ensures Run(w, a + b) == Run(Run(w, a), b)
    decreases |a|
  {
    if a == [] {
      assert a + b == b;
    } else {
      assert (a + b)[0] == a[0] && (a + b)[1..] == a[1..] + b;
      Unroll(Next(w, a[0]), a[1..], b);
    }
  }

  // ----- The two sections of GetWithTTL -----

  /** While a thread does not move, it keeps what it has in hand. */
  lemma {:induction false} ThreadStays<V>(w: World<V>, steps: seq<Step<V>>, tid: nat)
    requires tid in w.threads && Proceed(tid) !in steps
    ensures tid in Run(w, steps).threads && Run(w, steps).threads[tid] == w.threads[tid]
    decreases |steps|
  {
    if steps != [] {
      assert steps[0] in steps && forall step | step in steps[1..] :: step in steps;
      ThreadStays(Next(w, steps[0]), steps[1..], tid);
    }
  }

  /**
    When a report's time belongs to its value, whatever happens between the second read and the clock: exactly when
    the second read finds the deadline of the copied item, or when each of the two deadlines is either absent or the
    very instant at which the clock is read, so that both read 0.
   */
  lemma ReportIsConsistentIff<V>(w: World<V>, tid: nat, between: seq<Step<V>>)
    requires tid in w.threads && w.threads[tid].Rereading? && Proceed(tid) !in between
    ensures var key, item, found := w.threads[tid].key, w.threads[tid].item, DeadlineNow(w, w.threads[tid].key);
            var w' := Run(Next(w, Proceed(tid)), between);
            var readsZero := (d: Option<int>) => d == None || d == Some(w'.now);
            && Report(key, item.value, TimeLeft(found, w'.now), w'.now) in Next(w', Proceed(tid)).reported
            && (TimeLeft(found, w'.now) == Remaining(item, w'.now) <==>
                  found == item.expireAt || (readsZero(found) && readsZero(item.expireAt)))
  {
    ThreadStays(Next(w, Proceed(tid)), between, tid);
  }

  /** The step stores, deletes or evicts the key, or belongs to the thread. */
  predicate Disturbs<V(==)>(w: World<V>, step: Step<V>, key: Key, tid: nat) {
    match step
    case Proceed(t) =>
      t == tid || (t in w.threads && (w.threads[t].Writing? || w.threads[t].Evicting?) && w.threads[t].key == key)
    case Delete(k) => k == key
    case Clear => true
    case _ => false
  }

  ghost predicate Undisturbed<V>(w: World<V>, steps: seq<Step<V>>, key: Key, tid: nat)
    decreases |steps|
  {
    steps == [] || (!Disturbs(w, steps[0], key, tid) && Undisturbed(Next(w, steps[0]), steps[1..], key, tid))
  }

  lemma {:induction false} UndisturbedKeeps<V>(w: World<V>, steps: seq<Step<V>>, key: Key, tid: nat)
    requires key in w.data && tid in w.threads && Undisturbed(w, steps, key, tid)
    ensures var w' := Run(w, steps);
            && key in w'.data && w'.data[key] == w.data[key]
            && tid in w'.threads && w'.threads[tid] == w.threads[tid]
    decreases |steps|
  {
    if steps != [] {
      UndisturbedKeeps(Next(w, steps[0]), steps[1..], key, tid);
    }
  }

  /**
    If nothing stores, deletes or evicts the key between the two reads of a GetWithTTL, whatever else runs there and
    whatever runs before the clock is read, then value and time come from one item.
   */
  lemma UndisturbedReportIsConsistent<V>(w: World<V>, tid: nat, key: Key, between: seq<Step<V>>, after: seq<Step<V>>,
                                         last: seq<Step<V>>)
    requires tid !in w.threads && key in w.data && Proceed(tid) !in last
    requires Undisturbed(Next(w, BeginGet(tid, key, true)), between, key, tid)
    requires var w1 := Run(Next(w, BeginGet(tid, key, true)), between);
             !Expired(w.data[key], w1.now) && Undisturbed(Next(w1, Proceed(tid)), after, key, tid)
    ensures var w1 := Run(Next(w, BeginGet(tid, key, true)), between);
            var w2 := Run(Next(w1, Proceed(tid)), after);
            var w3 := Run(Next(w2, Proceed(tid)), last);
            Report(key, w.data[key].value, Remaining(w.data[key], w3.now), w3.now) in Next(w3, Proceed(tid)).reported
  {
    var w0 := Next(w, BeginGet(tid, key, true));
    UndisturbedKeeps(w0, between, key, tid);
    var w1 := Next(Run(w0, between), Proceed(tid));
    assert w1.threads[tid] == Rereading(key, w.data[key]);
    UndisturbedKeeps(w1, after, key, tid);
    ReportIsConsistentIff(Run(w1, after), tid, last);
  }

  /** A Set between the reads tears the report: a value stored for ever comes with the time left of another one. */
  lemma ReportCanBeTorn<V>(w: World<V>, key: Key, second: V, ttl: nat)
    requires ttl > 0 && key in w.data && w.data[key].expireAt.None? && 0 !in w.threads && 1 !in w.threads
    ensures var w' := Run(w, [BeginGet(0, key, true), Proceed(0), BeginSet(1, key, second, ttl), Proceed(1)]);
            Report(key, w.data[key].value, ttl, w.now) in Next(Next(w', Proceed(0)), Proceed(0)).reported
  {
    var item := w.data[key];
    var steps := [BeginGet(0, key, true), Proceed(0), BeginSet(1, key, second, ttl), Proceed(1)];
    var w1 := Next(w, steps[0]);
    assert w1.threads[0] == Checking(key, item, true);
    var w2 := Next(w1, steps[1]);
    assert w2.threads[0] == Rereading(key, item);
    var w4 := Next(Next(w2, steps[2]), steps[3]);
    assert w4.threads[0] == Rereading(key, item) && w4.data[key] == Item(second, Some(w.now + ttl));
    RunFour(w, steps);
    assert Next(w4, Proceed(0)).threads[0] == Timing(key, item, Some(w.now + ttl));
  }

  /** A Delete there is worse: a value with a deadline is reported with 0, which means "never expires". */
  lemma DeletedReportSaysForever<V>(w: World<V>, key: Key)
    requires key in w.data && w.data[key].expireAt.Some? && !Expired(w.data[key], w.now) && 0 !in w.threads
    ensures var w' := Next(Next(Next(w, BeginGet(0, key, true)), Proceed(0)), Delete(key));
            Report(key, w.data[key].value, 0, w.now) in Next(Next(w', Proceed(0)), Proceed(0)).reported
  {
    var w1 := Next(w, BeginGet(0, key, true));
    assert w1.threads[0] == Checking(key, w.data[key], true);
    var w2 := Next(w1, Proceed(0));
    assert w2.threads[0] == Rereading(key, w.data[key]);
    assert Next(Next(w2, Delete(key)), Proceed(0)).threads[0] == Timing(key, w.data[key], None);
  }
}
