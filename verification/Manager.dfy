/** The component manager: building all components, trimming the disabled ones, ordering the rest. */
module Managers {
  import opened Wrappers
  import opened MapOrder
  import opened Requirements
  import opened Building
  import opened Trimming
  import opened Ordering

  class Manager {
    const listOf: map<Ty, Ty>                 // lateDependentsOf: the list that a list implementation belongs to
    var factories: map<Ty, Factory>           // componentFactories
    var components: map<Ty, set<Ty>>          // the dependencies of each component
    var dependents: multiset<Ty>              // the dependents counter of each component
    var ordered: seq<Ty>

    constructor (factories: map<Ty, Factory>, listOf: map<Ty, Ty>)
      ensures this.factories == factories && this.listOf == listOf
    {
      this.listOf, this.factories := listOf, factories;
      components, dependents, ordered := map[], multiset{}, [];
    }

    function Snap(): State
      reads this
    {
      State(factories, components, dependents)
    }

    /** resolve; ctx is false when the request comes from Build and not from a dependent. */
    method Resolve(req: Req, ctx: bool, deps: set<Ty>, ghost fs: map<Ty, Factory>, ghost rank: map<Ty, nat>, ghost busy: set<Ty>)
      returns (ok: bool, deps': set<Ty>)
      requires Askable(fs, listOf, rank, Snap(), busy, Needs(req), Sound(req), ctx) && (ctx || req.Comp?)
      modifies this
      ensures ok ==> Answered(fs, listOf, old(Snap()), Snap(), busy, Needs(req), ctx, deps, deps') && Sound(req)
      ensures ok ==> factories.Keys <= old(factories.Keys)
      ensures !ok ==> !BuildableBy(fs, listOf, rank)
      decreases factories.Keys, 2, req
    {
      match req {
        case TheManager =>
          NothingAnswered(fs, listOf, Snap(), busy, ctx, deps);
          return true, deps;
        case TheContext =>
          NothingAnswered(fs, listOf, Snap(), busy, ctx, deps);
          return true, deps;
        case Util(reqs, fails) =>
          ok, deps' := ResolveAll(reqs, deps, fs, rank, busy);
          ok := ok && !fails;
        case Comp(ty) =>
          ok, deps' := ResolveComponent(ty, ctx, deps, fs, rank, busy);
      }
    }

    method ResolveAll(reqs: seq<Req>, deps: set<Ty>, ghost fs: map<Ty, Factory>, ghost rank: map<Ty, nat>, ghost busy: set<Ty>)
      returns (ok: bool, deps': set<Ty>)
      requires Askable(fs, listOf, rank, Snap(), busy, NeedsAll(reqs), SoundAll(reqs), true)
      modifies this
      ensures ok ==> Answered(fs, listOf, old(Snap()), Snap(), busy, NeedsAll(reqs), true, deps, deps') && SoundAll(reqs)
      ensures ok ==> factories.Keys <= old(factories.Keys)
      ensures !ok ==> !BuildableBy(fs, listOf, rank)
      decreases factories.Keys, 2, reqs
    {
      hide Askable, Answered, NeedsAll, Needs, BuildableBy, Sound;
      ghost var m0 := Snap();
      deps' := deps;
      AskableParted(fs, listOf, rank, m0, busy, NeedsAll(reqs), SoundAll(reqs), true);
      NothingAnswered(fs, listOf, m0, busy, true, deps);
      NeedsNone(reqs);
      for i := 0 to |reqs|
        invariant factories.Keys <= m0.factories.Keys
        invariant Answered(fs, listOf, m0, Snap(), busy, NeedsAll(reqs[..i]), true, deps, deps')
        invariant forall j :: 0 <= j < i ==> Sound(reqs[j])
      {
        ghost var m, d := Snap(), deps';
        AskNext(fs, listOf, rank, m0, m, busy, reqs, i, deps, d);
        ok, deps' := Resolve(reqs[i], true, deps', fs, rank, busy);
        if !ok {
          return;
        }
        NeedsNext(reqs, i);
        AnsweredThen(fs, listOf, m0, m, Snap(), busy, NeedsAll(reqs[..i]), Needs(reqs[i]), deps, d, deps');
      }
      assert reqs[..|reqs|] == reqs;
      ok := true;
    }

    method ResolveComponent(ty: Ty, ctx: bool, deps: set<Ty>, ghost fs: map<Ty, Factory>, ghost rank: map<Ty, nat>, ghost busy: set<Ty>)
      returns (ok: bool, deps': set<Ty>)
      requires Askable(fs, listOf, rank, Snap(), busy, multiset{ty}, true, ctx)
      modifies this
      ensures ok ==> Answered(fs, listOf, old(Snap()), Snap(), busy, multiset{ty}, ctx, deps, deps')
      ensures ok ==> factories.Keys <= old(factories.Keys)
      ensures !ok ==> !BuildableBy(fs, listOf, rank)
      decreases factories.Keys, 1
    {
      hide Askable, Answered, Available, BuildableBy;
      ghost var m0 := Snap();
      AskableParted(fs, listOf, rank, m0, busy, multiset{ty}, true, ctx);
      if ty in factories {
        ok := BuildComponent(ty, ctx, fs, rank, busy);
        if !ok {
          return false, deps;
        }
      } else if ty in components {
        AlreadyBuilt(fs, listOf, rank, m0, busy, ty, ctx);
      } else {
        Unknown(fs, listOf, rank, m0, busy, ty, ctx);
        return false, deps;
      }
      Uncounted(fs, listOf, m0, Snap(), busy, ty, deps);
      if ctx {
        Count(fs, listOf, rank, m0, Snap(), busy, ty, deps);
        dependents := dependents + multiset{ty};
        if ty in listOf && dependents[ty] > 1 {
          return false, deps;
        }
      }
      return true, deps + {ty};
    }

    /** Takes the factory of ty out of the map and calls it with everything it asks for. */
    method BuildComponent(ty: Ty, ghost ctx: bool, ghost fs: map<Ty, Factory>, ghost rank: map<Ty, nat>, ghost busy: set<Ty>) returns (ok: bool)
      requires ty in factories && factories.Keys <= fs.Keys && Askable(fs, listOf, rank, Snap(), busy, multiset{ty}, true, ctx)
      modifies this
      ensures ok ==> Available(fs, listOf, old(Snap()), Snap(), busy, ty) && factories.Keys <= old(factories.Keys)
      ensures !ok ==> !BuildableBy(fs, listOf, rank)
      decreases factories.Keys, 0
    {
      hide Askable, Answered, Available;
      ghost var m0 := Snap();
      var factory := factories[ty];
      Start(fs, listOf, rank, m0, busy, ty, ctx);
      factories := factories - {ty};
      var compDeps;
      ok, compDeps := ResolveAll(factory.reqs, {}, fs, rank, busy + {ty});
      if !ok || factory.fails {
        return false;
      }
      Finish(fs, listOf, m0, Snap(), busy, ty, compDeps);
      components := components[ty := compDeps];
    }

    /** Builds all components: succeeds exactly when nothing is missing, cyclic, failing, or a list implementation used twice. */
    method Build() returns (ok: bool)
      modifies this
      ensures ok <==> Buildable(old(factories), listOf)
      ensures ok ==> factories.Keys == {} && components == DepsOf(old(factories)) && dependents == Owed(old(factories), old(factories).Keys)
    {
      hide Sane, Askable, Answered, BuildableBy;
      ghost var fs := factories;
      ghost var rank: map<Ty, nat> :| Buildable(fs, listOf) ==> BuildableBy(fs, listOf, rank);
      components, dependents := map[], multiset{};
      BuildStart(fs, listOf);
      while factories.Keys != {}
        invariant factories.Keys <= fs.Keys
        invariant Sane(fs, listOf, Snap(), {}) && dependents + Owed(fs, factories.Keys) == Owed(fs, fs.Keys)
        decreases factories.Keys
      {
        var ty := Pick(factories.Keys);
        ghost var m := Snap();
        BuildAsk(fs, listOf, rank, m, ty);
        var deps;
        ok, deps := Resolve(Comp(ty), false, {}, fs, rank, {});
        if !ok {
          return;
        }
        BuildNext(fs, listOf, m, Snap(), ty, {}, deps);
      }
      AllBuilt(fs, listOf, Snap());
      ok := true;
    }

    function Graphed(opts: map<Ty, Options>): Graph
      reads this
    {
      Graph(components, dependents, listOf, opts)
    }

    /** The first loop of TrimDisabled: list implementations that are switched off leave their lists. */
    method DropImpls(opts: map<Ty, Options>)
      requires Proper(Graphed(opts)) && Registered(Graphed(opts))
      modifies this`components, this`dependents
      ensures Graphed(opts) == Without(old(Graphed(opts)), old(components.Keys))
    {
      hide Without, Proper, Registered;
      ghost var g := Graphed(opts);
      WithoutNone(g);
      ProperOptions(g);
      var todo := components.Keys;
      ghost var done: set<Ty> := {};
      while todo != {}
        invariant done + todo == g.deps.Keys && done !! todo
        invariant Graphed(opts) == Without(g, done)
      {
        var ty := Pick(todo);
        if ty in listOf && opts[ty].enable.Some? && !opts[ty].enable.value {
          WithoutMore(g, done, ty);
          var list := listOf[ty];
          components := components[list := components[list] - {ty}];
          dependents := dependents[ty := dependents[ty] - 1];
        } else {
          WithoutSame(g, done, ty);
        }
        todo := todo - {ty};
        done := done + {ty};
      }
    }

    /** Whether a component is to be disabled now. */
    method ShouldDisable(opts: map<Ty, Options>, ty: Ty, ghost g: Graph, ghost gone: set<Ty>) returns (b: bool)
      requires g.deps.Keys <= opts.Keys && g.opts == opts && g.listOf == listOf && ty in components && Trimmed(g, components, dependents, gone)
      ensures b == Eligible(g, gone, ty)
    {
      match opts[ty].mux {
        case Some(base) =>
          b := true;
          if base.parent.Some? && base.parent.value in components && base.chosen {
            if base.parentEnable.Some? {
              b := !base.parentEnable.value;
            } else {
              b := dependents[base.parent.value] == 0;
            }
          }
        case None =>
          if opts[ty].enable.Some? && ty !in listOf {
            b := !opts[ty].enable.value;
          } else {
            b := dependents[ty] == 0;
          }
      }
    }

    /** Disables one component: its dependencies lose a dependent. */
    method Disable(ty: Ty, ghost g: Graph, ghost gone: set<Ty>)
      requires Proper(g) && ty in components && Trimmed(g, components, dependents, gone)
      modifies this`components, this`dependents
      ensures Trimmed(g, components, dependents, gone + {ty})
      ensures components == old(components) - {ty}
    {
      hide Proper, Releasing, Left;
      var todo := components[ty];
      ghost var done: set<Ty> := {};
      ReleaseNone(g, dependents, gone);
      while todo != {}
        invariant components == old(components) && done + todo == g.deps[ty] && done !! todo
        invariant Releasing(g, dependents, gone, done)
      {
        var dep := Pick(todo);
        ReleaseOne(g, dependents, gone, done, ty, dep);
        dependents := dependents[dep := dependents[dep] - 1];
        todo := todo - {dep};
        done := done + {dep};
      }
      assert done == g.deps[ty];
      ReleaseAll(g, components, dependents, gone, ty);
      components := components - {ty};
    }

    /** The disabling loop: passes over the components until one changes nothing. */
    method DisableAll(opts: map<Ty, Options>) returns (disabled: set<Ty>, ghost order: seq<Ty>)
      requires Proper(Graphed(opts))
      modifies this`components, this`dependents
      ensures Maximal(old(Graphed(opts)), order) && disabled == Elems(order)
      ensures Trimmed(old(Graphed(opts)), components, dependents, disabled)
    {
      ghost var g := Graphed(opts);
      TrimmedNone(g);
      disabled, order := {}, [];
      while true
        invariant Run(g, order) && disabled == Elems(order) && Trimmed(g, components, dependents, disabled)
        decreases components.Keys
      {
        ghost var before := components.Keys;
        var hasChange := false;
        var todo := components.Keys;
        while todo != {}
          invariant todo <= components.Keys <= before
          invariant hasChange ==> components.Keys < before
          invariant Run(g, order) && disabled == Elems(order) && Trimmed(g, components, dependents, disabled)
          invariant !hasChange ==> forall c :: c in components && c !in todo ==> !Eligible(g, disabled, c)
        {
          var ty := Pick(todo);
          todo := todo - {ty};
          var should := ShouldDisable(opts, ty, g, disabled);
          if should {
            RunGrows(g, order, ty);
            Disable(ty, g, disabled);
            hasChange := true;
            disabled := disabled + {ty};
            order := order + [ty];
          }
        }
        if !hasChange {
          return;
        }
      }
    }

    /** The check after the loop; the component that fails it, if any. */
    method Validate(opts: map<Ty, Options>, disabled: set<Ty>, ghost g: Graph) returns (fatal: Option<Ty>)
      requires g.opts == opts && g.deps.Keys <= opts.Keys && Trimmed(g, components, dependents, disabled)
      ensures fatal.None? <==> Valid(g, disabled)
      ensures fatal.Some? ==> fatal.value in disabled && opts[fatal.value].mux.None? && dependents[fatal.value] > 0
    {
      hide Left;
      var todo := disabled;
      while todo != {}
        invariant todo <= disabled
        invariant forall c :: c in disabled - todo && opts[c].mux.None? ==> Left(g, disabled, c) == 0
      {
        var ty := Pick(todo);
        todo := todo - {ty};
        if opts[ty].mux.None? && dependents[ty] > 0 {
          return Some(ty);
        }
      }
      return None;
    }

    /** Inserts a component after its dependencies; reports a component that is met while its dependencies are being inserted. */
    method InsertDeps(of: Ty, keys: map<Ty, int>, ghost rank: map<Ty, nat>) returns (err: seq<Ty>, keys': map<Ty, int>)
      requires Inserting(components, ordered, keys) && Below(components, keys, rank, of)
      modifies this`ordered
      ensures err != [] ==> !LeadsDown(Live(components), rank)
      ensures err == [] ==> Inserting(components, ordered, keys') && Advanced(keys, keys') && of !in keys'
      decreases Untouched(keys)
    {
      keys' := keys;
      if of !in keys {
        return [], keys;
      }
      if keys[of] == 1 {
        return [of], keys;
      }
      keys' := keys[of := 1];
      var todo := components[of];
      while todo != {}
        invariant todo <= components[of]
        invariant Inserting(components, ordered, keys') && Advanced(keys[of := 1], keys')
        invariant forall d :: d in components[of] - todo ==> d !in keys'
      {
        var dep := Pick(todo);
        todo := todo - {dep};
        BelowDependency(components, keys, keys', rank, of, dep);
        InsertMeasure(keys, keys', of);
        ghost var before := keys';
        err, keys' := InsertDeps(dep, keys', rank);
        if err != [] {
          return err + [of], keys';
        }
      }
      InsertLast(components, ordered, keys', of);
      ordered := ordered + [of];
      keys' := keys' - {of};
      err := [];
    }

    /** Orders the components; panics exactly when one depends on itself through others. */
    method OrderComponents() returns (err: seq<Ty>)
      modifies this`ordered
      ensures err == [] <==> NoCycle(Live(components))
      ensures err == [] ==> Ordered(components, ordered)
    {
      hide LeadsDown;
      ghost var rank: map<Ty, nat> :| NoCycle(Live(components)) ==> LeadsDown(Live(components), rank);
      ordered := [];
      var keys := map key | key in components :: 2;
      while keys.Keys != {}
        invariant Inserting(components, ordered, keys) && forall c :: c in keys ==> keys[c] == 2
        decreases keys.Keys
      {
        var key := Pick(keys.Keys);
        ghost var before := keys;
        err, keys := InsertDeps(key, keys, rank);
        if err != [] {
          return;
        }
        InsertNext(components, before, keys, rank, key);
      }
      InsertedAll(components, ordered, keys);
      err := [];
    }

    /**
     Disables what is not wanted and orders the rest; fatal names a component that may not be disabled.
     The order of initialization exists: a cycle is never reported.
     */
    method TrimDisabled(opts: map<Ty, Options>) returns (fatal: Option<Ty>, ghost order: seq<Ty>)
      requires Proper(Graphed(opts)) && Registered(Graphed(opts))
      modifies this`components, this`dependents, this`ordered
      ensures Proper(Without(old(Graphed(opts)), old(components.Keys)))
      ensures Maximal(Without(old(Graphed(opts)), old(components.Keys)), order)
      ensures Trimmed(Without(old(Graphed(opts)), old(components.Keys)), components, dependents, Elems(order))
      ensures fatal.None? <==> Valid(Without(old(Graphed(opts)), old(components.Keys)), Elems(order))
      ensures fatal.None? ==> Ordered(components, ordered)
      ensures fatal.Some? ==> fatal.value in order && fatal.value in opts && opts[fatal.value].mux.None? && dependents[fatal.value] > 0
    {
      hide Proper, Registered, Maximal, Trimmed, Valid, Without, Ordered;
      ghost var g0 := Graphed(opts);
      DropImpls(opts);
      ghost var g := Without(g0, g0.deps.Keys);
      WithoutProper(g0);
      ProperOptions(g);
      var disabled;
      disabled, order := DisableAll(opts);
      fatal := Validate(opts, disabled, g);
      if fatal.None? {
        TrimmedNoCycle(g, components, dependents, disabled);
        var err := OrderComponents();
        assert err == [];
      }
    }
  }
}
