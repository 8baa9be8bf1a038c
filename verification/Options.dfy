/**
  Construction options. An option changes the configuration; `Group` is a list of options that stops at the
  first error, while the top-level list is always applied to its end.
 */
module Options {
  import opened Prelude

  /** Observables, factories and decorators are opaque names. */
  datatype Opt =
    | Observe(ob: nat)
    | UseFactory(factory: nat)
    | Decorate(decorator: nat)
    | Fail(err: Error)
    | Group(opts: seq<Opt>)

  datatype Settings = Settings(error: Option<Error>, ob: Option<nat>, factory: Option<nat>, decorators: seq<nat>)

  const DEFAULTS: Settings := Settings(None, None, None, [])

  function ApplyOne(cfg: Settings, opt: Opt): Settings
    decreases opt, 0
  {
    match opt
    case Observe(ob) => cfg.(ob := Some(ob))
    case UseFactory(factory) => cfg.(factory := Some(factory))
    case Decorate(d) => cfg.(decorators := cfg.decorators + [d])
    case Fail(e) => cfg.(error := Some(e))
    case Group(opts) => ApplyGroup(cfg, opts)
  }

  function ApplyGroup(cfg: Settings, opts: seq<Opt>): Settings
    decreases opts, |opts|
  {
    if opts == [] || cfg.error.Some? then cfg else ApplyGroup(ApplyOne(cfg, opts[0]), opts[1..])
  }

  function ApplyAll(cfg: Settings, opts: seq<Opt>): Settings
    decreases |opts|
  {
    if opts == [] then cfg else ApplyAll(ApplyOne(cfg, opts[0]), opts[1..])
  }

  /** What the opaque names stand for: constructors of caches `C`, any of which may fail. */
  datatype Makers<!C> = Makers(
    make: (nat, Option<nat>) -> Result<C>,          // factory, observable
    decorate: (nat, C, Option<nat>) -> Result<C>)   // decorator, inner cache, observable

  /** The decorators from the innermost outwards, up to the first that fails. */
  function Wrap<C>(inner: Result<C>, decorators: seq<nat>, ob: Option<nat>, makers: Makers<C>): Result<C>
    decreases |decorators|
  {
    if decorators == [] || inner.Err? then inner
    else Wrap(makers.decorate(decorators[0], inner.value, ob), decorators[1..], ob, makers)
  }

  /** Calling a factory that was never given is a nil-function call; here it is the error `Misconfigured`. */
  function Construct<C>(opts: seq<Opt>, makers: Makers<C>): Result<C> {
    Assemble(ApplyAll(DEFAULTS, opts), makers)
  }

  function Assemble<C>(cfg: Settings, makers: Makers<C>): Result<C> {
    if cfg.error.Some? then Err(cfg.error.value)
    else if cfg.factory.None? then Err(Misconfigured)
    else Wrap(makers.make(cfg.factory.value, cfg.ob), cfg.decorators, cfg.ob, makers)
  }

  class Configs {
    var cfg: Settings

    constructor ()
      ensures cfg == DEFAULTS
    {
      cfg := DEFAULTS;
    }

    method Apply(opt: Opt)
      modifies this
      ensures cfg == ApplyOne(old(cfg), opt)
      decreases opt, 0
    {
      match opt {
        case Observe(ob) => cfg := cfg.(ob := Some(ob));
        case UseFactory(factory) => cfg := cfg.(factory := Some(factory));
        case Decorate(d) => cfg := cfg.(decorators := cfg.decorators + [d]);
        case Fail(e) => cfg := cfg.(error := Some(e));
        case Group(opts) =>
          var i := 0;
          while i < |opts|
            invariant 0 <= i <= |opts|
            invariant ApplyGroup(old(cfg), opts) == ApplyGroup(cfg, opts[i..])
          {
            if cfg.error.Some? {
              break;
            }
            Apply(opts[i]);
            i := i + 1;
          }
      }
    }
  }

  method New<C>(opts: seq<Opt>, makers: Makers<C>) returns (r: Result<C>)
    ensures r == Construct(opts, makers)
  {
    var c := new Configs();
    for i := 0 to |opts|
      invariant ApplyAll(DEFAULTS, opts) == ApplyAll(c.cfg, opts[i..])
    {
      c.Apply(opts[i]);
    }
    if c.cfg.error.Some? {
      return Err(c.cfg.error.value);
    }
    if c.cfg.factory.None? {
      return Err(Misconfigured);
    }
    r := makers.make(c.cfg.factory.value, c.cfg.ob);
    if r.Err? {
      return;
    }
    var decorators := c.cfg.decorators;
    for i := 0 to |decorators|
      invariant r.Ok?
      invariant Construct(opts, makers) == Wrap(r, decorators[i..], c.cfg.ob, makers)
    {
      r := makers.decorate(decorators[i], r.value, c.cfg.ob);
      if r.Err? {
        return;
      }
    }
  }

  // ----- Grouping does not matter -----

  function FlattenOne(opt: Opt): seq<Opt>
    decreases opt, 0
  {
    match opt
    case Group(opts) => Flatten(opts)
    case _ => [opt]
  }

  function Flatten(opts: seq<Opt>): seq<Opt>
    decreases opts, |opts|
  {
    if opts == [] then [] else FlattenOne(opts[0]) + Flatten(opts[1..])
  }

  predicate Fails(opts: seq<Opt>) {
    exists o | o in Flatten(opts) :: o.Fail?
  }

  lemma {:induction false} ApplyAllAppend(cfg: Settings, a: seq<Opt>, b: seq<Opt>)
    ensures ApplyAll(cfg, a + b) == ApplyAll(ApplyAll(cfg, a), b)
    decreases |a|
  {
    if a == [] {
      assert a + b == b;
    } else {
      assert (a + b)[1..] == a[1..] + b;
      ApplyAllAppend(ApplyOne(cfg, a[0]), a[1..], b);
    }
  }

  /** Errors are never cleared, and an option list sets one exactly when some leaf fails. */
  lemma {:induction false} ErrorIff(cfg: Settings, opts: seq<Opt>)
    ensures ApplyAll(cfg, opts).error.Some? <==> cfg.error.Some? || Fails(opts)
    ensures ApplyGroup(cfg, opts).error.Some? <==> cfg.error.Some? || Fails(opts)
    decreases opts, |opts|
  {
    if opts != [] {
      var first := opts[0];
      if first.Group? {
        ErrorIff(cfg, first.opts);
      } else {
        assert FlattenOne(first) == [first];
      }
      ErrorIff(ApplyOne(cfg, first), opts[1..]);
      assert forall o :: o in Flatten(opts) <==> o in FlattenOne(first) || o in Flatten(opts[1..]);
    }
  }

  lemma {:induction false} FlatteningKeepsSettings(cfg: Settings, opts: seq<Opt>)
    requires cfg.error.None? && !Fails(opts)
    ensures ApplyAll(cfg, opts) == ApplyAll(cfg, Flatten(opts)) == ApplyGroup(cfg, opts)
    decreases opts, |opts|
  {
    if opts != [] {
      var first := opts[0];
      assert forall o :: o in Flatten(opts) <==> o in FlattenOne(first) || o in Flatten(opts[1..]);
      ErrorIff(cfg, [first]);
      assert Flatten([first]) == FlattenOne(first) by { assert [first][1..] == []; }
      assert ApplyOne(cfg, first) == ApplyAll(cfg, [first]) by { assert [first][1..] == []; }
      if first.Group? {
        FlatteningKeepsSettings(cfg, first.opts);
      }
      ApplyAllAppend(cfg, FlattenOne(first), Flatten(opts[1..]));
      FlatteningKeepsSettings(ApplyOne(cfg, first), opts[1..]);
    }
  }

  // ----- What a list of options builds -----

  function Observers(leaves: seq<Opt>): seq<nat> {
    if leaves == [] then []
    else Observers(leaves[..|leaves| - 1])
         + if leaves[|leaves| - 1].Observe? then [leaves[|leaves| - 1].ob] else []
  }

  function Factories(leaves: seq<Opt>): seq<nat> {
    if leaves == [] then []
    else Factories(leaves[..|leaves| - 1])
         + if leaves[|leaves| - 1].UseFactory? then [leaves[|leaves| - 1].factory] else []
  }

  function Decorators(leaves: seq<Opt>): seq<nat> {
    if leaves == [] then []
    else Decorators(leaves[..|leaves| - 1])
         + if leaves[|leaves| - 1].Decorate? then [leaves[|leaves| - 1].decorator] else []
  }

  function Last(s: seq<nat>): Option<nat> {
    if s == [] then None else Some(s[|s| - 1])
  }

  lemma {:induction false} LeavesAre(leaves: seq<Opt>)
    requires forall o | o in leaves :: !o.Group? && !o.Fail?
    ensures ApplyAll(DEFAULTS, leaves) ==
              Settings(None, Last(Observers(leaves)), Last(Factories(leaves)), Decorators(leaves))
    decreases |leaves|
  {
    if leaves != [] {
      var n := |leaves| - 1;
      LeavesAre(leaves[..n]);
      assert leaves == leaves[..n] + [leaves[n]];
      ApplyAllAppend(DEFAULTS, leaves[..n], [leaves[n]]);
      assert [leaves[n]][1..] == [];
      assert ApplyAll(ApplyAll(DEFAULTS, leaves[..n]), [leaves[n]])
          == ApplyOne(ApplyAll(DEFAULTS, leaves[..n]), leaves[n]);
    }
  }

  lemma {:induction false} FlatHasNoGroups(opts: seq<Opt>)
    ensures forall o | o in Flatten(opts) :: !o.Group?
    decreases opts, |opts|
  {
    if opts != [] {
      if opts[0].Group? {
        FlatHasNoGroups(opts[0].opts);
      }
      FlatHasNoGroups(opts[1..]);
    }
  }

  /**
    What any nesting of options builds, if none of them fails: the last factory's cache inside all decorators in
    the order in which they are listed, everything with the last observable.
   */
  lemma ConstructIs<C>(opts: seq<Opt>, makers: Makers<C>)
    requires !Fails(opts)
    ensures var leaves := Flatten(opts);
            var ob, factory := Last(Observers(leaves)), Last(Factories(leaves));
            Construct(opts, makers) ==
              if factory.None? then Err(Misconfigured)
              else Wrap(makers.make(factory.value, ob), Decorators(leaves), ob, makers)
  {
    FlatteningKeepsSettings(DEFAULTS, opts);
    FlatHasNoGroups(opts);
    LeavesAre(Flatten(opts));
  }

  /** Only the order within each kind matters: lists whose leaves agree kind by kind build the same. */
  lemma KindsAreIndependent<C>(a: seq<Opt>, b: seq<Opt>, makers: Makers<C>)
    requires !Fails(a) && !Fails(b)
    requires Observers(Flatten(a)) == Observers(Flatten(b))
    requires Factories(Flatten(a)) == Factories(Flatten(b))
    requires Decorators(Flatten(a)) == Decorators(Flatten(b))
    ensures Construct(a, makers) == Construct(b, makers)
  {
    ConstructIs(a, makers);
    ConstructIs(b, makers);
  }

  /** `Wrap` is the composition of the decorators: the last one listed is the outermost. */
  lemma {:induction false} WrapOutermost<C>(inner: Result<C>, decorators: seq<nat>, d: nat, ob: Option<nat>,
                                            makers: Makers<C>)
    ensures var below := Wrap(inner, decorators, ob, makers);
            Wrap(inner, decorators + [d], ob, makers) ==
              if below.Err? then below else makers.decorate(d, below.value, ob)
    decreases |decorators|
  {
    if decorators == [] {
      assert ([] + [d])[0] == d && ([] + [d])[1..] == [];
    } else if inner.Ok? {
      assert (decorators + [d])[1..] == decorators[1..] + [d];
      WrapOutermost(makers.decorate(decorators[0], inner.value, ob), decorators[1..], d, ob, makers);
    }
  }

  /**
    With failing options: any nesting fails exactly when its flat list of leaves does, which is when some leaf
    fails. (Which of several errors is reported does depend on the nesting: a group stops at its first one.)
   */
  lemma NestingIsIrrelevant<C>(opts: seq<Opt>, makers: Makers<C>)
    ensures Fails(opts) ==> Construct(opts, makers).Err? && Construct(Flatten(opts), makers).Err?
    ensures !Fails(opts) ==> Construct(opts, makers) == Construct(Flatten(opts), makers)
  {
    ErrorIff(DEFAULTS, opts);
    ErrorIff(DEFAULTS, Flatten(opts));
    FlattenTwice(opts);
    if !Fails(opts) {
      FlatteningKeepsSettings(DEFAULTS, opts);
    }
  }

  lemma {:induction false} FlattenAppend(a: seq<Opt>, b: seq<Opt>)
    ensures Flatten(a + b) == Flatten(a) + Flatten(b)
    decreases |a|
  {
    if a == [] {
      assert a + b == b;
    } else {
      assert (a + b)[1..] == a[1..] + b;
      FlattenAppend(a[1..], b);
    }
  }

  lemma {:induction false} FlattenTwice(opts: seq<Opt>)
    ensures Flatten(Flatten(opts)) == Flatten(opts)
    decreases opts, |opts|
  {
    if opts != [] {
      var first := opts[0];
      FlattenAppend(FlattenOne(first), Flatten(opts[1..]));
      FlattenTwice(opts[1..]);
      if first.Group? {
        FlattenTwice(first.opts);
      } else {
        assert [first][1..] == [];
      }
    }
  }

  /** With failing options too, neighbours of different kinds can be exchanged. */
  lemma KindsCommute<C>(before: seq<Opt>, a: Opt, b: Opt, after: seq<Opt>, makers: Makers<C>)
    requires !a.Group? && !b.Group? && !(a.Observe? && b.Observe?) && !(a.UseFactory? && b.UseFactory?)
    requires !(a.Decorate? && b.Decorate?) && !(a.Fail? && b.Fail?)
    ensures Construct(before + [a, b] + after, makers) == Construct(before + [b, a] + after, makers)
  {
    var cfg := ApplyAll(DEFAULTS, before);
    ApplyAllAppend(DEFAULTS, before + [a, b], after);
    ApplyAllAppend(DEFAULTS, before + [b, a], after);
    ApplyAllAppend(DEFAULTS, before, [a, b]);
    ApplyAllAppend(DEFAULTS, before, [b, a]);
    ApplyPair(cfg, a, b);
    ApplyPair(cfg, b, a);
  }

  lemma ApplyPair(cfg: Settings, a: Opt, b: Opt)
    ensures ApplyAll(cfg, [a, b]) == ApplyOne(ApplyOne(cfg, a), b)
  {
    var one := ApplyOne(cfg, a);
    assert [a, b][1..] == [b] && [b][1..] == [];
    assert ApplyAll(one, [b]) == ApplyAll(ApplyOne(one, b), []);
  }

  // ----- Which error is reported -----

  /** The error of the last option of the list that fails by itself, outside any group. */
  function LastOwn(opts: seq<Opt>): Option<Error> {
    if opts == [] then None
    else if LastOwn(opts[1..]).Some? then LastOwn(opts[1..])
    else if opts[0].Fail? then Some(opts[0].err)
    else None
  }

  function FirstFailing(leaves: seq<Opt>): Option<Error> {
    if leaves == [] then None
    else if leaves[0].Fail? then Some(leaves[0].err)
    else FirstFailing(leaves[1..])
  }

  lemma {:induction false} FirstFailingAppend(a: seq<Opt>, b: seq<Opt>)
    ensures FirstFailing(a + b) == if FirstFailing(a).Some? then FirstFailing(a) else FirstFailing(b)
    decreases |a|
  {
    if a == [] {
      assert a + b == b;
    } else {
      assert (a + b)[1..] == a[1..] + b;
      FirstFailingAppend(a[1..], b);
    }
  }

  lemma {:induction false} GroupError(cfg: Settings, opts: seq<Opt>)
    ensures ApplyGroup(cfg, opts).error == if cfg.error.Some? then cfg.error else FirstFailing(Flatten(opts))
    decreases opts, |opts|
  {
    if opts != [] && cfg.error.None? {
      var first := opts[0];
      FirstFailingAppend(FlattenOne(first), Flatten(opts[1..]));
      if first.Group? {
        GroupError(cfg, first.opts);
      } else {
        assert [first][1..] == [];
      }
      GroupError(ApplyOne(cfg, first), opts[1..]);
    }
  }

  lemma {:induction false} ListError(cfg: Settings, opts: seq<Opt>)
    ensures ApplyAll(cfg, opts).error ==
              if LastOwn(opts).Some? then LastOwn(opts)
              else if cfg.error.Some? then cfg.error else FirstFailing(Flatten(opts))
    decreases |opts|
  {
    if opts != [] {
      var first := opts[0];
      FirstFailingAppend(FlattenOne(first), Flatten(opts[1..]));
      if first.Group? {
        GroupError(cfg, first.opts);
      } else {
        assert [first][1..] == [];
      }
      ListError(ApplyOne(cfg, first), opts[1..]);
    }
  }

  /**
    Construction reports the error of the last option that fails by itself, since nothing stops the list, and
    otherwise that of the first failing leaf of the groups, since it stops them all.
   */
  lemma ReportedError<C>(opts: seq<Opt>, makers: Makers<C>)
    requires Fails(opts)
    ensures var e := if LastOwn(opts).Some? then LastOwn(opts) else FirstFailing(Flatten(opts));
            e.Some? && Construct(opts, makers) == Err(e.value)
  {
    ListError(DEFAULTS, opts);
    ErrorIff(DEFAULTS, opts);
  }
}
