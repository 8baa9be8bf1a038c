/** The builder of a single cache: it compiles the stages, appends the decorators, and collects what is wrong. */
module Building {
  import opened Prelude
  import opened Compile
  import opened LoaderStack

  /** The error compilation adds when it refuses the stages. */
  function StageErrors<V>(s: Stages<V>): seq<Error> {
    if !Refused(s) then [] else if s.factoryCustomized then [Misconfigured] else [InvalidTTL]
  }

  /** A built cache: the innermost cache the factory made, and the decorators around it. */
  datatype Built<!V> = Built(plan: Plan<V>, decorators: Stack<V>)

  /** What construction gives for these decorators. */
  function Construct<V>(stages: Stages<V>, factory: Factory, decorators: Stack<V>): Result<Built<V>> {
    match Make(stages, factory)
    case Err(e) => Err(Wrapped(e))
    case Ok(plan) => Ok(Built(plan, decorators))
  }

  /** The errors of one Build. */
  function BuildErrors<V>(stages: Stages<V>, features: Features<V>): seq<Error> {
    StageErrors(stages) + TTLErrors(features)
  }

  /** A negative TTL anywhere, and a factory given together with staged features, are the errors a Build collects. */
  lemma BuildErrorsAre<V>(stages: Stages<V>, features: Features<V>)
    ensures var errs := BuildErrors(stages, features);
            var l := stages.logic;
            && (Misconfigured in errs <==>
                  stages.factoryCustomized
                  && (l.enabled || stages.codec.Some? || stages.typeAdapter.Some? || stages.transforms != []))
            && (InvalidTTL in errs <==>
                  || (!stages.factoryCustomized && l.enabled && (l.logicTTL < 0 || l.writeBackTTL < 0))
                  || (features.missLoader.Some? && features.missLoader.value < 0)
                  || (features.nilCache.Some? && features.nilCache.value.1 < 0))
            && forall e | e in errs :: e == Misconfigured || e == InvalidTTL
  {
  }

  class Builder<V> {
    const stages: Stages<V>
    const features: Features<V>
    var factory: Factory
    var decorators: Stack<V>
    var errs: seq<Error>

    constructor (stages: Stages<V>, features: Features<V>)
      ensures this.stages == stages && this.features == features
      ensures factory == Given && decorators == [] && errs == []
    {
      this.stages, this.features, factory, decorators, errs := stages, features, Given, [], [];
    }

    method CompileStages()
      modifies this`factory, this`errs
      ensures errs == old(errs) + StageErrors(stages)
      ensures factory == if stages.factoryCustomized || Refused(stages) then old(factory)
                         else if stages.logic.enabled then LogicFactory else TypedFactory
    {
      if stages.factoryCustomized {
        if HasStagedFeatures(stages) {
          errs := errs + [Misconfigured];
        }
        return;
      }
      if stages.logic.enabled {
        var valid := CheckTTLConfigValid();
        if !valid {
          return;
        }
        factory := LogicFactory;
        return;
      }
      factory := TypedFactory;
    }

    method CheckTTLConfigValid() returns (valid: bool)
      modifies this`errs
      ensures valid <==> TTLsValid(stages.logic)
      ensures errs == if valid then old(errs) else old(errs) + [InvalidTTL]
    {
      if stages.logic.logicTTL < 0 || stages.logic.writeBackTTL < 0 {
        errs := errs + [InvalidTTL];
        return false;
      }
      return true;
    }

    method DecorateCacheMissedLoader()
      modifies this`decorators, this`errs
      ensures var ttl := features.missLoader;
              && decorators == old(decorators) + (if ttl.Some? && ttl.value >= 0 then [MissedLoader(ttl.value)] else [])
              && errs == old(errs) + if ttl.Some? && ttl.value < 0 then [InvalidTTL] else []
    {
      if features.missLoader.None? {
        return;
      }
      if features.missLoader.value < 0 {
        errs := errs + [InvalidTTL];
        return;
      }
      decorators := decorators + [MissedLoader(features.missLoader.value)];
    }

    method DecoratePenetrationProtection()
      modifies this`decorators, this`errs
      ensures var on := features.nilCache;
              && decorators == old(decorators)
                   + (if on.Some? && on.value.1 >= 0 then [NilCache(on.value.0, on.value.1)] else [])
              && errs == old(errs) + if on.Some? && on.value.1 < 0 then [InvalidTTL] else []
    {
      if features.nilCache.None? {
        return;
      }
      if features.nilCache.value.1 < 0 {
        errs := errs + [InvalidTTL];
        return;
      }
      decorators := decorators + [NilCache(features.nilCache.value.0, features.nilCache.value.1)];
    }

    method DecorateSingleflight()
      modifies this`decorators
      ensures decorators == old(decorators) + if features.singleFlight then [Flight] else []
    {
      if features.singleFlight {
        decorators := decorators + [Flight];
      }
    }

    /** Every Build appends the decorators, and the errors, once more. */
    method Build() returns (r: Result<Built<V>>)
      modifies this
      ensures decorators == old(decorators) + Layers(features)
      ensures errs == old(errs) + BuildErrors(stages, features)
      ensures factory == if stages.factoryCustomized || Refused(stages) then old(factory)
                         else if stages.logic.enabled then LogicFactory else TypedFactory
      ensures r == if errs == [] then Construct(stages, factory, decorators) else Err(Joined(errs))
    {
      hide Construct, Refused, StageErrors;
      CompileStages();
      DecorateCacheMissedLoader();
      DecoratePenetrationProtection();
      DecorateSingleflight();
      if errs != [] {
        return Err(Joined(errs));
      }
      r := Construct(stages, factory, decorators);
    }

    /** Building `n` times in a row. */
    method BuildTimes(n: nat) returns (r: Result<Built<V>>)
      requires factory == Given && decorators == [] && errs == [] && n > 0
      modifies this
      ensures r.Ok? <==> Compiled(stages).Ok? && TTLErrors(features) == []
      ensures r.Ok? ==> r.value == Built(Compiled(stages).value, Repeat(Layers(features), n))
      ensures var e := BuildErrors(stages, features);
              if e != [] then r.Err? && r.error.Joined? && |r.error.errs| == n * |e|
                              && forall x :: x in r.error.errs <==> x in e
              else Compiled(stages).Err? ==> r == Err(Wrapped(Compiled(stages).error))
    {
      r := Err(Misconfigured);
      for i := 0 to n
        invariant decorators == Repeat(Layers(features), i)
        invariant i == 0 ==> factory == Given && errs == []
        invariant |errs| == i * |BuildErrors(stages, features)|
        invariant forall x :: x in errs <==> i > 0 && x in BuildErrors(stages, features)
        invariant stages.factoryCustomized ==> factory == Given
        invariant i > 0 && !Refused(stages) && !stages.factoryCustomized ==>
                    factory == if stages.logic.enabled then LogicFactory else TypedFactory
        invariant i > 0 ==>
                    r == if errs == [] then Construct(stages, factory, decorators) else Err(Joined(errs))
      {
        r := Build();
      }
    }
  }
}
