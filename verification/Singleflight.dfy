/**
  Merging of concurrent calls, as a protocol. A group holds at most one flight per key; callers join the
  flight of their key or start one, and receive what their flight returned. A flight runs with the context of
  the caller that started it. Get and GetWithTTL share one group, so a flight also has the kind of the call that
  started it. The wrapper around a loader lets a caller whose context has ended give up; the decorator makes it
  wait. Runs with `GiveUp` are those of the wrapper.
 */
module Singleflight {
  import opened Prelude

  datatype Kind = Plain | WithTTL

  /** What a flight returns: a value, or a value with its remaining time. */
  datatype Payload<V> = Value(v: V) | ValueTTL(v: V, ttl: int)

  datatype Flight<V> =
    | Running(key: Key, kind: Kind, starter: nat)
    | Landed(key: Key, kind: Kind, starter: nat, result: Result<Payload<V>>)

  datatype Received<V> = Got(payload: Payload<V>) | Failed(err: Error) | Panicked

  datatype Caller<V> =
    | Waiting(flight: nat, kind: Kind)
    | Left
    | Finished(flight: nat, kind: Kind, received: Received<V>)

  /**
    Flights are numbered in the order in which they start; `next` is the number of the next one. `ended` has the
    callers whose context has ended.
   */
  datatype State<V> = State(group: map<Key, nat>, flights: map<nat, Flight<V>>, next: nat,
                            callers: map<nat, Caller<V>>, ended: set<nat>)

  datatype Event<V> =
    | Join(caller: nat, key: Key, kind: Kind)
    | Land(flight: nat, result: Result<Payload<V>>, onEnd: Result<Payload<V>>)
      // The call returns, and its key leaves the group: `onEnd` if the starter's context has ended.
    | Deliver(caller: nat)
    | EndContext(caller: nat)
    | GiveUp(caller: nat)

  function Start<V>(): State<V> {
    State(map[], map[], 0, map[], {})
  }

  function KindOf<V>(p: Payload<V>): Kind {
    if p.Value? then Plain else WithTTL
  }

  /** The receiver asserts the type of its own kind. */
  function Receive<V>(kind: Kind, result: Result<Payload<V>>): Received<V> {
    match result
    case Err(e) => Failed(e)
    case Ok(p) => if KindOf(p) == kind then Got(p) else Panicked
  }

  predicate Fits<V>(kind: Kind, result: Result<Payload<V>>) {
    result.Ok? ==> KindOf(result.value) == kind
  }

  /** The flight is running and can return so. */
  predicate Lands<V>(s: State<V>, e: Event<V>) {
    && e.Land? && e.flight in s.flights && s.flights[e.flight].Running?
    && Fits(s.flights[e.flight].kind, e.result) && Fits(s.flights[e.flight].kind, e.onEnd)
  }

  function Step<V>(s: State<V>, e: Event<V>): State<V> {
    match e
    case Join(c, key, kind) =>
      if c in s.callers then s
      else if key in s.group then s.(callers := s.callers[c := Waiting(s.group[key], kind)])
      else
        State(s.group[key := s.next], s.flights[s.next := Running(key, kind, c)], s.next + 1,
              s.callers[c := Waiting(s.next, kind)], s.ended)
    case Land(f, result, onEnd) =>
      if Lands(s, e) then
        var flight := s.flights[f];
        var returned := if flight.starter in s.ended then onEnd else result;
        s.(group := s.group - {flight.key},
           flights := s.flights[f := Landed(flight.key, flight.kind, flight.starter, returned)])
      else s
    case Deliver(c) =>
      if c in s.callers && s.callers[c].Waiting? && s.callers[c].flight in s.flights
         && s.flights[s.callers[c].flight].Landed? then
        var w := s.callers[c];
        s.(callers := s.callers[c := Finished(w.flight, w.kind, Receive(w.kind, s.flights[w.flight].result))])
      else s
    case EndContext(c) => s.(ended := s.ended + {c})
    case GiveUp(c) =>
      if c in s.callers && s.callers[c].Waiting? && c in s.ended then s.(callers := s.callers[c := Left]) else s
  }

  function Run<V>(s: State<V>, es: seq<Event<V>>): State<V>
    decreases |es|
  {
    if es == [] then s else Run(Step(s, es[0]), es[1..])
  }

  // ----- One running call per key -----

  /** The group and the running flights are the same thing. */
  ghost predicate Consistent<V>(s: State<V>) {
    FlightsConsistent(s) && CallersConsistent(s)
  }

  ghost predicate FlightsConsistent<V>(s: State<V>) {
    && (forall f | f in s.flights :: f < s.next)
    && (forall k | k in s.group ::
          && s.group[k] in s.flights
          && s.flights[s.group[k]].Running? && s.flights[s.group[k]].key == k)
    && (forall f | f in s.flights && s.flights[f].Running? ::
          s.flights[f].key in s.group && s.group[s.flights[f].key] == f)
    && (forall f | f in s.flights && s.flights[f].Landed? && s.flights[f].result.Ok? ::
          KindOf(s.flights[f].result.value) == s.flights[f].kind)
  }

  ghost predicate CallersConsistent<V>(s: State<V>) {
    && (forall c | c in s.callers && !s.callers[c].Left? :: s.callers[c].flight in s.flights)
    && (forall c | c in s.callers && s.callers[c].Finished? ::
          && s.flights[s.callers[c].flight].Landed?
          && s.callers[c].received == Receive(s.callers[c].kind, s.flights[s.callers[c].flight].result))
  }

  lemma StepKeepsFlights<V>(s: State<V>, e: Event<V>)
    requires FlightsConsistent(s)
    ensures FlightsConsistent(Step(s, e))
  {
  }

  lemma StepKeepsConsistent<V>(s: State<V>, e: Event<V>)
    requires Consistent(s)
    ensures Consistent(Step(s, e))
  {
    StepKeepsFlights(s, e);
  }

  lemma {:induction false} RunKeepsConsistent<V>(s: State<V>, es: seq<Event<V>>)
    requires Consistent(s)
    ensures Consistent(Run(s, es))
    decreases |es|
  {
    if es != [] {
      StepKeepsConsistent(s, es[0]);
      RunKeepsConsistent(Step(s, es[0]), es[1..]);
    }
  }

  /** In every reachable state two running calls have different keys. */
  lemma OneRunningCallPerKey<V>(es: seq<Event<V>>, f: nat, g: nat)
    ensures var s := Run(Start<V>(), es);
            (f in s.flights && g in s.flights && s.flights[f].Running? && s.flights[g].Running?
             && s.flights[f].key == s.flights[g].key) ==> f == g
  {
    RunKeepsConsistent(Start<V>(), es);
  }

  // ----- What a caller receives -----

  /** The caller stays with its flight, unless it gives up; a flight keeps its key, kind and result. */
  ghost predicate StaysWith<V>(s: State<V>, c: nat, f: nat, key: Key, kind: Kind, flightKind: Kind) {
    && c in s.callers && f in s.flights
    && s.flights[f].key == key && s.flights[f].kind == flightKind
    && (s.callers[c].Left? || (s.callers[c].flight == f && s.callers[c].kind == kind))
  }

  lemma StepStaysWith<V>(s: State<V>, e: Event<V>, c: nat, f: nat, key: Key, kind: Kind, flightKind: Kind)
    requires Consistent(s) && StaysWith(s, c, f, key, kind, flightKind)
    ensures StaysWith(Step(s, e), c, f, key, kind, flightKind)
  {
  }

  lemma {:induction false} RunStaysWith<V>(s: State<V>, es: seq<Event<V>>, c: nat, f: nat, key: Key, kind: Kind,
                                           flightKind: Kind)
    requires Consistent(s) && StaysWith(s, c, f, key, kind, flightKind)
    ensures Consistent(Run(s, es)) && StaysWith(Run(s, es), c, f, key, kind, flightKind)
    decreases |es|
  {
    if es != [] {
      StepKeepsConsistent(s, es[0]);
      StepStaysWith(s, es[0], c, f, key, kind, flightKind);
      hide Step, Consistent, StaysWith;
      RunStaysWith(Step(s, es[0]), es[1..], c, f, key, kind, flightKind);
    }
  }

  /**
    A caller that joins is given a flight of its key that is running at that moment. If it ever finishes, it has
    received the result of that very flight; and it panics exactly when that flight was started by a call of the
    other kind and succeeded.
   */
  lemma CallerReceivesItsFlight<V>(before: seq<Event<V>>, c: nat, key: Key, kind: Kind, later: seq<Event<V>>)
    requires c !in Run(Start<V>(), before).callers
    ensures var s0 := Run(Start<V>(), before);
            var s1 := Step(s0, Join(c, key, kind));
            var s := Run(s1, later);
            && key in s1.group && s1.group[key] in s1.flights
            && s1.flights[s1.group[key]].Running? && s1.flights[s1.group[key]].key == key
            && (key in s0.group ==> s1.group == s0.group && s1.flights == s0.flights)
            && (key !in s0.group ==> s1.flights[s1.group[key]] == Running(key, kind, c))
            && (c in s.callers && s.callers[c].Finished? ==>
                  var f := s1.group[key];
                  && f in s.flights && s.flights[f].Landed? && s.flights[f].key == key
                  && s.callers[c].received ==
                       match s.flights[f].result
                       case Err(e) => Failed(e)
                       case Ok(p) => if s1.flights[f].kind == kind then Got(p) else Panicked)
  {
    var s0 := Run(Start<V>(), before);
    RunKeepsConsistent(Start<V>(), before);
    var join: Event<V> := Join(c, key, kind);
    StepKeepsConsistent(s0, join);
    var s1 := Step(s0, join);
    RunStaysWith(s1, later, c, s1.group[key], key, kind, s1.flights[s1.group[key]].kind);
  }

  /** The event joins a flight of the other kind. */
  ghost predicate MixesKinds<V>(s: State<V>, e: Event<V>) {
    && e.Join? && e.caller !in s.callers && e.key in s.group && s.group[e.key] in s.flights
    && s.flights[s.group[e.key]].kind != e.kind
  }

  ghost predicate NeverMixes<V>(s: State<V>, es: seq<Event<V>>)
    decreases |es|
  {
    es == [] || (!MixesKinds(s, es[0]) && NeverMixes(Step(s, es[0]), es[1..]))
  }

  ghost predicate KindsMatch<V>(s: State<V>) {
    forall c | c in s.callers && !s.callers[c].Left? && s.callers[c].flight in s.flights ::
      s.flights[s.callers[c].flight].kind == s.callers[c].kind
  }

  lemma StepKeepsKinds<V>(s: State<V>, e: Event<V>)
    requires Consistent(s) && KindsMatch(s) && !MixesKinds(s, e)
    ensures KindsMatch(Step(s, e))
  {
  }

  lemma {:induction false} RunKeepsKinds<V>(s: State<V>, es: seq<Event<V>>)
    requires Consistent(s) && KindsMatch(s) && NeverMixes(s, es)
    ensures Consistent(Run(s, es)) && KindsMatch(Run(s, es))
    decreases |es|
  {
    if es != [] {
      StepKeepsConsistent(s, es[0]);
      StepKeepsKinds(s, es[0]);
      hide Step, Consistent, KindsMatch, MixesKinds;
      RunKeepsKinds(Step(s, es[0]), es[1..]);
    }
  }

  /** If no key ever has calls of both kinds in flight together, no caller panics. */
  lemma NoPanicUnlessMixed<V>(es: seq<Event<V>>, c: nat)
    requires NeverMixes(Start<V>(), es)
    ensures var s := Run(Start<V>(), es);
            c in s.callers && s.callers[c].Finished? ==> !s.callers[c].received.Panicked?
  {
    RunKeepsConsistent(Start<V>(), es);
    RunKeepsKinds(Start<V>(), es);
  }

  lemma RunTwo<V>(s: State<V>, e: Event<V>, e': Event<V>, rest: seq<Event<V>>)
    ensures Run(s, [e, e'] + rest) == Run(Step(Step(s, e), e'), rest)
    ensures Run(s, [e] + rest) == Run(Step(s, e), rest)
    ensures Run(s, [e, e']) == Step(Step(s, e), e')
  {
    hide Step;
    assert ([e, e'] + rest)[1..] == [e'] + rest && ([e'] + rest)[1..] == rest && ([e] + rest)[1..] == rest;
    assert [e, e'][1..] == [e'] && [e'][1..] == [];
    assert Run(s, [e, e']) == Run(Step(s, e), [e']) == Run(Step(Step(s, e), e'), []);
  }

  function TwoCallers<V>(key: Key, kind: Kind, kind': Kind): State<V> {
    State(map[key := 0], map[0 := Running(key, kind, 0)], 1, map[0 := Waiting(0, kind), 1 := Waiting(0, kind')], {})
  }

  lemma TwoJoin<V>(key: Key, kind: Kind, kind': Kind)
    ensures Step(Step(Start<V>(), Join(0, key, kind)), Join(1, key, kind')) == TwoCallers<V>(key, kind, kind')
  {
  }

  /** The panic is reachable: for every key and value, a GetWithTTL that joins the flight of a Get ends in it. */
  lemma MixedCallPanics<V>(key: Key, v: V, onEnd: Error)
    ensures var es := [Join(0, key, Plain), Join(1, key, WithTTL), Land(0, Ok(Value(v)), Err(onEnd)), Deliver(1)];
            var s := Run(Start(), es);
            1 in s.callers && s.callers[1] == Finished(0, WithTTL, Panicked)
  {
    var es := [Join(0, key, Plain), Join(1, key, WithTTL), Land(0, Ok(Value(v)), Err(onEnd)), Deliver(1)];
    TwoJoin<V>(key, Plain, WithTTL);
    var s2 := TwoCallers<V>(key, Plain, WithTTL);
    assert es == [es[0], es[1]] + [es[2], es[3]];
    RunTwo(Start(), es[0], es[1], [es[2], es[3]]);
    RunTwo(s2, es[2], es[3], []);
    assert Step(s2, es[2]).flights[0] == Landed(key, Plain, 0, Ok(Value(v)));
  }

  // ----- A caller that gives up -----

  /** It can do so only while it waits, and after its context has ended. */
  lemma GivesUpIff<V>(s: State<V>, c: nat)
    ensures var s' := Step(s, GiveUp(c));
            if c in s.callers && s.callers[c].Waiting? && c in s.ended
            then s' == s.(callers := s.callers[c := Left])
            else s' == s
  {
  }

  /** Equal but for one caller. */
  ghost predicate SameElsewhere<V>(s: State<V>, t: State<V>, c: nat) {
    && s.group == t.group && s.flights == t.flights && s.next == t.next && s.ended == t.ended
    && s.callers.Keys == t.callers.Keys && forall d | d in s.callers && d != c :: s.callers[d] == t.callers[d]
  }

  lemma StepElsewhere<V>(s: State<V>, t: State<V>, e: Event<V>, c: nat)
    requires SameElsewhere(s, t, c) && c in s.callers && s.callers[c].Left?
    ensures SameElsewhere(Step(s, e), Step(t, e), c) && c in Step(s, e).callers && Step(s, e).callers[c].Left?
  {
  }

  lemma {:induction false} LeftStays<V>(s: State<V>, t: State<V>, es: seq<Event<V>>, c: nat)
    requires SameElsewhere(s, t, c) && c in s.callers && s.callers[c].Left?
    ensures SameElsewhere(Run(s, es), Run(t, es), c) && c in Run(s, es).callers && Run(s, es).callers[c].Left?
    decreases |es|
  {
    if es != [] {
      StepElsewhere(s, t, es[0], c);
      hide Step, SameElsewhere;
      LeftStays(Step(s, es[0]), Step(t, es[0]), es[1..], c);
    }
  }

  /**
    A waiting caller that gives up after its context has ended is out at that moment and at every later one: nothing
    is ever delivered to it. Its flight runs on, and every flight and every other caller is at each moment as if it
    had gone on waiting.
   */
  lemma GivenUpIsOut<V>(s: State<V>, c: nat, es: seq<Event<V>>)
    requires c in s.callers && s.callers[c].Waiting? && c in s.ended
    ensures var s' := Run(Step(s, GiveUp(c)), es);
            && c in s'.callers && s'.callers[c] == Left
            && SameElsewhere(s', Run(s, es), c)
  {
    LeftStays(Step(s, GiveUp(c)), s, es, c);
  }

  // ----- A caller whose context ends -----

  /** The same run, had the context of `c` not ended. */
  function Unended<V>(es: seq<Event<V>>, c: nat): seq<Event<V>> {
    if es == [] then []
    else (if es[0] == EndContext(c) || es[0] == GiveUp(c) then [] else [es[0]]) + Unended(es[1..], c)
  }

  /** One flight, up to what it returned. */
  predicate SameFlight<V>(a: Flight<V>, b: Flight<V>) {
    a.key == b.key && a.kind == b.kind && a.starter == b.starter && a.Running? == b.Running?
  }

  /** One caller, up to what it received. */
  predicate SamePlace<V>(a: Caller<V>, b: Caller<V>) {
    && a.Left? == b.Left? && a.Waiting? == b.Waiting?
    && (!a.Left? ==> a.flight == b.flight && a.kind == b.kind)
  }

  /** Equal up to results, and but for one caller, whose context has not ended in `t`. */
  ghost predicate SameShape<V>(s: State<V>, t: State<V>, c: nat) {
    && s.group == t.group && s.next == t.next && s.ended - {c} == t.ended
    && s.flights.Keys == t.flights.Keys && s.callers.Keys == t.callers.Keys
    && (forall f | f in s.flights :: SameFlight(s.flights[f], t.flights[f]))
    && (forall d | d in s.callers && d != c :: SamePlace(s.callers[d], t.callers[d]))
  }

  lemma StepKeepsShape<V>(s: State<V>, t: State<V>, e: Event<V>, c: nat)
    requires SameShape(s, t, c)
    ensures SameShape(Step(s, e), if e == EndContext(c) || e == GiveUp(c) then t else Step(t, e), c)
  {
    if e.Land? {
      assert Lands(s, e) <==> Lands(t, e);
    } else if e.Join? {
      JoinKeepsShape(s, t, e, c);
    } else {
      OtherStepKeepsShape(s, t, e, c);
    }
  }

  lemma JoinKeepsShape<V>(s: State<V>, t: State<V>, e: Event<V>, c: nat)
    requires SameShape(s, t, c) && e.Join?
    ensures SameShape(Step(s, e), Step(t, e), c)
  {
  }

  lemma OtherStepKeepsShape<V>(s: State<V>, t: State<V>, e: Event<V>, c: nat)
    requires SameShape(s, t, c) && !e.Land? && !e.Join?
    ensures SameShape(Step(s, e), if e == EndContext(c) || e == GiveUp(c) then t else Step(t, e), c)
  {
  }

  /**
    Whether the context of `c` ends changes nothing about who starts a flight, who joins which, when flights land
    and who waits, gives up or is served: only results can differ.
   */
  lemma {:induction false} EndedContextKeepsShape<V>(s: State<V>, t: State<V>, es: seq<Event<V>>, c: nat)
    requires SameShape(s, t, c)
    ensures SameShape(Run(s, es), Run(t, Unended(es, c)), c)
    decreases |es|
  {
    hide SameShape, Step;
    if es != [] {
      StepKeepsShape(s, t, es[0], c);
      UnendedStep(t, es, c);
      EndedContextKeepsShape(Step(s, es[0]), if es[0] == EndContext(c) || es[0] == GiveUp(c) then t else Step(t, es[0]),
                             es[1..], c);
    }
  }

  lemma UnendedStep<V>(t: State<V>, es: seq<Event<V>>, c: nat)
    requires es != []
    ensures var t' := if es[0] == EndContext(c) || es[0] == GiveUp(c) then t else Step(t, es[0]);
            Run(t, Unended(es, c)) == Run(t', Unended(es[1..], c))
  {
    var rest := Unended(es[1..], c);
    if es[0] == EndContext(c) || es[0] == GiveUp(c) {
      assert Unended(es, c) == rest;
    } else {
      assert Unended(es, c)[0] == es[0] && Unended(es, c)[1..] == rest;
    }
  }

  /** Flight `f` was started by `c`, and it lands differently because the context of `c` has ended. */
  predicate Spoils<V(==)>(s: State<V>, e: Event<V>, c: nat, f: nat) {
    && Lands(s, e) && e.flight == f && s.flights[f].starter == c
    && c in s.ended && e.result != e.onEnd
  }

  ghost predicate Spoilt<V>(s: State<V>, es: seq<Event<V>>, c: nat, f: nat)
    decreases |es|
  {
    es != [] && (Spoils(s, es[0], c, f) || Spoilt(Step(s, es[0]), es[1..], c, f))
  }

  lemma {:induction false} LandedStays<V>(s: State<V>, es: seq<Event<V>>, c: nat, f: nat)
    requires f in s.flights && s.flights[f].Landed? && f < s.next
    ensures f in Run(s, es).flights && Run(s, es).flights[f] == s.flights[f] && !Spoilt(s, es, c, f)
    decreases |es|
  {
    if es != [] {
      var s' := Step(s, es[0]);
      assert f in s'.flights && s'.flights[f] == s.flights[f];
      LandedStays(s', es[1..], c, f);
    }
  }

  lemma StepSpoilsIff<V>(s: State<V>, t: State<V>, e: Event<V>, c: nat, f: nat)
    requires SameShape(s, t, c) && (f in s.flights ==> s.flights[f] == t.flights[f])
    ensures var s', t' := Step(s, e), if e == EndContext(c) || e == GiveUp(c) then t else Step(t, e);
            && (f in s'.flights && f in t'.flights ==> (s'.flights[f] == t'.flights[f] <==> !Spoils(s, e, c, f)))
            && (Spoils(s, e, c, f) ==> && f in s'.flights && s'.flights[f].Landed?
                                       && f in t'.flights && t'.flights[f].Landed?)
  {
  }

  /** A flight returns the same in both runs exactly when it is not spoilt. */
  lemma {:induction false} FlightSpoiltIff<V>(s: State<V>, t: State<V>, es: seq<Event<V>>, c: nat, f: nat)
    requires Consistent(s) && SameShape(s, t, c) && (f in s.flights ==> s.flights[f] == t.flights[f])
    ensures var s', t' := Run(s, es), Run(t, Unended(es, c));
            && (Spoilt(s, es, c, f) ==> f in s'.flights)
            && (f in s'.flights ==> f in t'.flights && (s'.flights[f] == t'.flights[f] <==> !Spoilt(s, es, c, f)))
    decreases |es|
  {
    if es != [] {
      var s1, t1 := Step(s, es[0]), if es[0] == EndContext(c) || es[0] == GiveUp(c) then t else Step(t, es[0]);
      StepKeepsShape(s, t, es[0], c);
      StepSpoilsIff(s, t, es[0], c, f);
      StepKeepsConsistent(s, es[0]);
      UnendedStep(t, es, c);
      hide Step, Spoils;
      if Spoils(s, es[0], c, f) {
        LandedStays(s1, es[1..], c, f);
        LandedStays(t1, Unended(es[1..], c), c, f);
      } else {
        FlightSpoiltIff(s1, t1, es[1..], c, f);
      }
    }
  }

  /** Equal but for what has become of one caller. */
  ghost predicate SameButFor<V>(s: State<V>, t: State<V>, c: nat) {
    && s.group == t.group && s.flights == t.flights && s.next == t.next && s.ended - {c} == t.ended
    && s.callers.Keys == t.callers.Keys
    && forall d | d in s.callers && d != c :: s.callers[d] == t.callers[d]
  }

  lemma SameFlightsSameCallers<V>(s: State<V>, t: State<V>, c: nat)
    requires Consistent(s) && Consistent(t)
    ensures SameButFor(s, t, c) <==>
            SameShape(s, t, c) && forall f | f in s.flights :: f in t.flights && s.flights[f] == t.flights[f]
    ensures SameShape(s, t, c) ==> s.flights.Keys == t.flights.Keys
  {
  }

  /**
    The end of one caller's context is felt by nobody else exactly when it spoils no flight: when none that this
    caller started lands afterwards with a result that it would not have had otherwise.
   */
  lemma CancellationIsLocalIff<V>(s: State<V>, t: State<V>, es: seq<Event<V>>, c: nat)
    requires Consistent(s) && Consistent(t) && SameButFor(s, t, c)
    ensures SameButFor(Run(s, es), Run(t, Unended(es, c)), c) <==> forall f :: !Spoilt(s, es, c, f)
  {
    hide *;
    var s', t' := Run(s, es), Run(t, Unended(es, c));
    SameFlightsSameCallers(s, t, c);
    RunKeepsConsistent(s, es);
    RunKeepsConsistent(t, Unended(es, c));
    EndedContextKeepsShape(s, t, es, c);
    forall f: nat
      ensures Spoilt(s, es, c, f) ==> f in s'.flights
      ensures f in s'.flights ==>
                f in t'.flights && (s'.flights[f] == t'.flights[f] <==> !Spoilt(s, es, c, f))
    {
      FlightSpoiltIff(s, t, es, c, f);
    }
    SameFlightsSameCallers(s', t', c);
    if !SameButFor(s', t', c) {
      var f :| f in s'.flights && s'.flights[f] != t'.flights[f];
      assert Spoilt(s, es, c, f);
    }
  }

  lemma SpoiltStep<V>(s: State<V>, e: Event<V>, c: nat, f: nat)
    requires Consistent(s)
    requires Spoils(s, e, c, f) || (f in s.flights && s.flights[f].starter == c)
    ensures f in Step(s, e).flights && Step(s, e).flights[f].starter == c
  {
  }

  lemma {:induction false} SpoiltWasStarted<V>(s: State<V>, es: seq<Event<V>>, c: nat, f: nat)
    requires Consistent(s)
    requires Spoilt(s, es, c, f) || (f in s.flights && s.flights[f].starter == c)
    ensures f in Run(s, es).flights && Run(s, es).flights[f].starter == c
    decreases |es|
  {
    if es != [] {
      StepKeepsConsistent(s, es[0]);
      if Spoils(s, es[0], c, f) || (f in s.flights && s.flights[f].starter == c) {
        SpoiltStep(s, es[0], c, f);
      }
      hide Step, Consistent, Spoils;
      SpoiltWasStarted(Step(s, es[0]), es[1..], c, f);
    }
  }

  /** A caller that starts no flight affects nobody when its context ends, whatever it does. */
  lemma JoinersCancellationIsLocal<V>(s: State<V>, t: State<V>, es: seq<Event<V>>, c: nat)
    requires Consistent(s) && Consistent(t) && SameButFor(s, t, c)
    requires forall f | f in Run(s, es).flights :: Run(s, es).flights[f].starter != c
    ensures SameButFor(Run(s, es), Run(t, Unended(es, c)), c)
  {
    forall f: nat | Spoilt(s, es, c, f)
      ensures false
    {
      SpoiltWasStarted(s, es, c, f);
    }
    CancellationIsLocalIff(s, t, es, c);
  }

  /**
    Otherwise it can fail everybody: a caller joins a flight whose starter's context then ends. The loader would
    have returned a value, but notices the end, and the other caller, whose own context is alive, gets the error.
   */
  lemma StartersEndFailsOthers<V>(key: Key, v: V, onEnd: Error)
    ensures var join, join' := Join(0, key, Plain), Join(1, key, Plain);
            var land := Land(0, Ok(Value(v)), Err(onEnd));
            var s := Run(Start(), [join, join', EndContext(0), land, Deliver(1)]);
            var t := Run(Start(), [join, join', land, Deliver(1)]);
            && 1 !in s.ended && 1 in s.callers && s.callers[1] == Finished(0, Plain, Failed(onEnd))
            && 1 in t.callers && t.callers[1] == Finished(0, Plain, Got(Value(v)))
  {
    var join, join': Event<V> := Join(0, key, Plain), Join(1, key, Plain);
    var end, land, deliver := EndContext(0), Land(0, Ok(Value(v)), Err(onEnd)), Deliver(1);
    var s2 := TwoCallers<V>(key, Plain, Plain);
    TwoJoin<V>(key, Plain, Plain);
    assert [join, join', end, land, deliver] == [join, join'] + ([end] + [land, deliver]);
    assert [join, join', land, deliver] == [join, join'] + [land, deliver];
    RunTwo(Start(), join, join', [end] + [land, deliver]);
    RunTwo(Start(), join, join', [land, deliver]);
    RunTwo(s2, end, land, [land, deliver]);
    LandAndDeliver(s2, key, Ok(Value(v)), Err(onEnd));
    LandAndDeliver(Step(s2, end), key, Ok(Value(v)), Err(onEnd));
  }

  lemma LandAndDeliver<V>(s: State<V>, key: Key, result: Result<Payload<V>>, onEnd: Result<Payload<V>>)
    requires 0 in s.flights && s.flights[0] == Running(key, Plain, 0) && Fits(Plain, result) && Fits(Plain, onEnd)
    requires 1 in s.callers && s.callers[1] == Waiting(0, Plain)
    ensures var s' := Run(s, [Land(0, result, onEnd), Deliver(1)]);
            && s'.ended == s.ended && 1 in s'.callers
            && s'.callers[1] == Finished(0, Plain, Receive(Plain, if 0 in s.ended then onEnd else result))
  {
    RunTwo(s, Land(0, result, onEnd), Deliver(1), []);
  }
}
