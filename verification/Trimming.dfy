/** Which components are disabled, and why the order in which they are looked at does not matter. */
module Trimming {
  import opened Wrappers
  import opened MapOrder
  import opened Requirements
  import opened Ordering

  /** The mux that a mux implementation belongs to, whether it is the chosen one, and the mux's own enable flag. */
  datatype MuxBase = MuxBase(parent: Option<Ty>, chosen: bool, parentEnable: Option<bool>)

  datatype Options = Options(enable: Option<bool>, mux: Option<MuxBase>)

  /** The component graph that the disabling loop starts from. */
  datatype Graph = Graph(deps: map<Ty, set<Ty>>, counts: multiset<Ty>, listOf: map<Ty, Ty>, opts: map<Ty, Options>)

  ghost predicate Proper(g: Graph) {
    && g.deps.Keys <= g.opts.Keys
    && (forall c, d :: Lists(g.deps, c, d) ==> d in g.deps)
    && (forall t :: |Listers(g.deps, g.deps.Keys, t)| <= g.counts[t])
    && NoCycle(g.deps)
  }

  /** The dependents counter of t once the components of `gone` have been disabled. */
  function Left(g: Graph, gone: set<Ty>, t: Ty): int {
    g.counts[t] - |Listers(g.deps, gone, t)|
  }

  /** Whether c is to be disabled when the components of `gone` already are. */
  predicate Eligible(g: Graph, gone: set<Ty>, c: Ty)
    requires g.deps.Keys <= g.opts.Keys && c in g.deps
  {
    match g.opts[c].mux
    case Some(base) =>
      if base.parent.Some? && base.parent.value in g.deps.Keys - gone && base.chosen then
        if base.parentEnable.Some? then !base.parentEnable.value else Left(g, gone, base.parent.value) == 0
      else
        true
    case None =>
      if g.opts[c].enable.Some? && c !in g.listOf then !g.opts[c].enable.value else Left(g, gone, c) == 0
  }

  /** Components disabled one after the other, each when it was eligible. */
  ghost predicate Run(g: Graph, order: seq<Ty>)
    requires g.deps.Keys <= g.opts.Keys
  {
    forall i :: 0 <= i < |order| ==> order[i] in g.deps && order[i] !in order[..i] && Eligible(g, Elems(order[..i]), order[i])
  }

  /** A run after which nothing more can be disabled. */
  ghost predicate Maximal(g: Graph, order: seq<Ty>)
    requires g.deps.Keys <= g.opts.Keys
  {
    Run(g, order) && forall c :: c in g.deps && c !in order ==> !Eligible(g, Elems(order), c)
  }

  lemma {:induction false} FewerListers(g: Graph, some: set<Ty>, more: set<Ty>, t: Ty)
    requires some <= more
    ensures |Listers(g.deps, some, t)| <= |Listers(g.deps, more, t)|
  {
    var a, b := Listers(g.deps, some, t), Listers(g.deps, more, t);
    assert a <= b;
    SubsetSize(a, b);
  }

  lemma {:induction false} SubsetSize<T>(a: set<T>, b: set<T>)
    requires a <= b
    ensures |a| <= |b|
  {
    assert b == a + (b - a);
  }

  /** What is eligible stays eligible when more is disabled. */
  lemma {:induction false} EligibleMonotone(g: Graph, some: set<Ty>, more: set<Ty>, c: Ty)
    requires Proper(g) && c in g.deps && some <= more <= g.deps.Keys && Eligible(g, some, c)
    ensures Eligible(g, more, c)
  {
    var t := if g.opts[c].mux.Some? && g.opts[c].mux.value.parent.Some? then g.opts[c].mux.value.parent.value else c;
    FewerListers(g, some, more, t);
    FewerListers(g, more, g.deps.Keys, t);
  }

  lemma {:induction false} RunAt(g: Graph, order: seq<Ty>, i: nat)
    requires g.deps.Keys <= g.opts.Keys && Run(g, order) && i < |order|
    ensures order[i] in g.deps && Eligible(g, Elems(order[..i]), order[i])
  {
  }

  lemma {:induction false} MaximalHas(g: Graph, full: seq<Ty>, c: Ty)
    requires g.deps.Keys <= g.opts.Keys && Maximal(g, full) && c in g.deps
    ensures Elems(full) <= g.deps.Keys && (Eligible(g, Elems(full), c) ==> c in Elems(full))
  {
    hide Eligible;
  }

  lemma {:induction false} RunWithinMaximal(g: Graph, order: seq<Ty>, full: seq<Ty>, i: nat)
    requires Proper(g) && Run(g, order) && Maximal(g, full) && i <= |order|
    ensures Elems(order[..i]) <= Elems(full)
  {
    hide Run, Maximal, Eligible;
    if i > 0 {
      RunWithinMaximal(g, order, full, i - 1);
      RunAt(g, order, i - 1);
      TakeNext(order, i - 1);
      ElemsAppend(order[..i - 1], order[i - 1]);
      MaximalHas(g, full, order[i - 1]);
      EligibleMonotone(g, Elems(order[..i - 1]), Elems(full), order[i - 1]);
    }
  }

  /** Every maximal run disables the same components, whatever order the components are iterated in. */
  lemma {:induction false} MaximalRunsAgree(g: Graph, one: seq<Ty>, two: seq<Ty>)
    requires Proper(g) && Maximal(g, one) && Maximal(g, two)
    ensures Elems(one) == Elems(two)
  {
    assert one[..|one|] == one && two[..|two|] == two;
    RunWithinMaximal(g, one, two, |one|);
    RunWithinMaximal(g, two, one, |two|);
  }

  /** The validation after the loop: nobody is left to depend on what is disabled, mux implementations aside. */
  predicate Valid(g: Graph, gone: set<Ty>) {
    forall c :: c in gone && c in g.opts && g.opts[c].mux.None? ==> Left(g, gone, c) == 0
  }

  /** After validation the survivors have all their dependencies, mux implementations aside. */
  lemma {:induction false} SurvivorsComplete(g: Graph, order: seq<Ty>, c: Ty, d: Ty)
    requires Proper(g) && Run(g, order) && Valid(g, Elems(order))
    requires c in g.deps && c !in order && d in g.deps[c] && d in g.opts && g.opts[d].mux.None?
    ensures d in g.deps && d !in order
  {
    assert Lists(g.deps, c, d);
    assert Elems(order) <= g.deps.Keys;
    LeftPositive(g, Elems(order), c, d);
  }

  /** A survivor without enable flag is needed by another survivor, if each of its dependents counts it once. */
  lemma {:induction false} SurvivorNeeded(g: Graph, order: seq<Ty>, c: Ty) returns (user: Ty)
    requires Proper(g) && Maximal(g, order) && c in g.deps && c !in order
    requires Unflagged(g, c)
    requires g.counts[c] == |Listers(g.deps, g.deps.Keys, c)|
    ensures user in g.deps && user !in order && c in g.deps[user]
  {
    var gone, all := Listers(g.deps, Elems(order), c), Listers(g.deps, g.deps.Keys, c);
    assert Elems(order) <= g.deps.Keys;
    assert gone <= all;
    assert Left(g, Elems(order), c) != 0;
    assert |gone| != |all|;
    assert gone + (all - gone) == all;
    user := Witness(all - gone);
    assert Lists(g.deps, user, c);
  }

  /** One user that asks for a component twice: disabling the user takes one of the two references back, and the component stays. */
  lemma {:induction false} CountedTwice()
    ensures var g := Graph(map[0 := {1}, 1 := {}], multiset{1, 1}, map[], map[0 := Options(Some(false), None), 1 := Options(None, None)]);
            Proper(g) && Maximal(g, [0]) && Listers(g.deps, g.deps.Keys - Elems([0]), 1) == {}
  {
    var g := Graph(map[0 := {1}, 1 := {}], multiset{1, 1}, map[], map[0 := Options(Some(false), None), 1 := Options(None, None)]);
    forall t ensures |Listers(g.deps, g.deps.Keys, t)| <= g.counts[t] {
      assert Listers(g.deps, g.deps.Keys, t) == if t == 1 then {0} else {};
    }
    assert LeadsDown(g.deps, map[0 := 1, 1 := 0]);
    assert [0][..0] == [] && Elems<Ty>([]) == {};
    assert Elems([0]) == {0};
    assert Listers(g.deps, {0}, 1) == {0};
  }

  // ---------- One component after another ----------

  lemma {:induction false} RunGrows(g: Graph, order: seq<Ty>, c: Ty)
    requires g.deps.Keys <= g.opts.Keys && Run(g, order) && c in g.deps && c !in order && Eligible(g, Elems(order), c)
    ensures Run(g, order + [c])
    ensures Elems(order + [c]) == Elems(order) + {c}
  {
    ElemsAppend(order, c);
    var more := order + [c];
    assert more[..|order|] == order;
    forall i | 0 <= i < |more| ensures more[i] in g.deps && more[i] !in more[..i] && Eligible(g, Elems(more[..i]), more[i]) {
      if i < |order| {
        assert more[..i] == order[..i];
      }
    }
  }

  lemma {:induction false} LeftAfter(g: Graph, gone: set<Ty>, c: Ty, t: Ty)
    requires c in g.deps && c !in gone
    ensures Left(g, gone + {c}, t) == Left(g, gone, t) - (if t in g.deps[c] then 1 else 0)
  {
    assert Listers(g.deps, gone + {c}, t) == Listers(g.deps, gone, t) + (if t in g.deps[c] then {c} else {});
  }

  lemma {:induction false} LeftPositive(g: Graph, gone: set<Ty>, c: Ty, t: Ty)
    requires Proper(g) && c in g.deps && c !in gone && gone <= g.deps.Keys && t in g.deps[c]
    ensures Left(g, gone, t) > 0
  {
    var some, all := Listers(g.deps, gone, t), Listers(g.deps, g.deps.Keys, t);
    assert Lists(g.deps, c, t) && c in all && some <= all - {c};
    SubsetSize(some, all - {c});
  }

  // ---------- Who survives ----------

  /** After a maximal run: an implementation of a mux. */
  ghost predicate ImplStays(g: Graph, order: seq<Ty>, base: MuxBase) {
    && base.chosen
    && base.parent.Some? && base.parent.value in g.deps && base.parent.value !in order
    && (base.parentEnable == Some(true) || (base.parentEnable == None && Referred(g, order, base.parent.value)))
  }

  /** The references to t are more than the disabled components have taken back. */
  ghost predicate Referred(g: Graph, order: seq<Ty>, t: Ty) {
    |set c | c in order && c in g.deps && t in g.deps[c]| != g.counts[t]
  }

  lemma {:induction false} ReferredIsLeft(g: Graph, order: seq<Ty>, t: Ty)
    ensures Referred(g, order, t) <==> Left(g, Elems(order), t) != 0
  {
    assert Listers(g.deps, Elems(order), t) == set c | c in order && c in g.deps && t in g.deps[c];
  }

  /** A component that a maximal run has disabled could be disabled at its end as well. */
  lemma {:induction false} DisabledStaysEligible(g: Graph, order: seq<Ty>, c: Ty)
    requires Proper(g) && Maximal(g, order) && c in g.deps
    ensures c in order <==> Eligible(g, Elems(order), c)
  {
    if c in order {
      var i :| 0 <= i < |order| && order[i] == c;
      assert Elems(order) <= g.deps.Keys;
      EligibleMonotone(g, Elems(order[..i]), Elems(order), c);
    }
  }

  /**
   Who survives a maximal run, by the options and the survivors: an implementation of a mux exactly when it is the chosen one, its
   mux survives, and the mux is switched on, or has no enable flag and is still referred to; another component with an enable flag, and
   on no list, exactly when the flag is true; and all others exactly when they are still referred to.
   */
  lemma {:induction false} SurvivesIff(g: Graph, order: seq<Ty>, c: Ty)
    requires Proper(g) && Maximal(g, order) && c in g.deps
    ensures g.opts[c].mux.Some? ==> (c !in order <==> ImplStays(g, order, g.opts[c].mux.value))
    ensures g.opts[c].mux.None? && g.opts[c].enable.Some? && c !in g.listOf ==> (c !in order <==> g.opts[c].enable.value)
    ensures g.opts[c].mux.None? && (g.opts[c].enable.None? || c in g.listOf) ==> (c !in order <==> Referred(g, order, c))
  {
    DisabledStaysEligible(g, order, c);
    ReferredIsLeft(g, order, c);
    if g.opts[c].mux.Some? && g.opts[c].mux.value.parent.Some? {
      ReferredIsLeft(g, order, g.opts[c].mux.value.parent.value);
    }
  }

  /** Validation passes exactly when no component but mux implementations has been disabled with references left. */
  lemma {:induction false} ValidIffReferred(g: Graph, order: seq<Ty>)
    requires Proper(g)
    ensures Valid(g, Elems(order)) <==> forall c :: c in order && c in g.opts && g.opts[c].mux.None? ==> !Referred(g, order, c)
  {
    forall c ensures Referred(g, order, c) <==> Left(g, Elems(order), c) != 0 {
      ReferredIsLeft(g, order, c);
    }
  }

  /** Where every dependent counts once, that is: when no survivor depends on what has been disabled, mux implementations aside. */
  lemma {:induction false} ValidIffComplete(g: Graph, order: seq<Ty>)
    requires Proper(g) && Run(g, order) && forall c :: c in g.deps ==> g.counts[c] == |Listers(g.deps, g.deps.Keys, c)|
    ensures Valid(g, Elems(order)) <==>
            forall c, user :: c in order && g.opts[c].mux.None? && user in g.deps && user !in order ==> c !in g.deps[user]
  {
    assert Elems(order) <= g.deps.Keys;
    if Valid(g, Elems(order)) {
      forall c, user | c in order && g.opts[c].mux.None? && user in g.deps && user !in order ensures c !in g.deps[user] {
        if c in g.deps[user] {
          SurvivorsComplete(g, order, user, c);
        }
      }
    }
    if forall c, user :: c in order && g.opts[c].mux.None? && user in g.deps && user !in order ==> c !in g.deps[user] {
      forall c | c in order && c in g.opts && g.opts[c].mux.None? ensures Left(g, Elems(order), c) == 0 {
        assert Listers(g.deps, Elems(order), c) == Listers(g.deps, g.deps.Keys, c);
      }
    }
  }

  /** Where a dependent counts twice, validation also fails when nobody is left who depends on what has been disabled. */
  lemma {:induction false} CountedTwiceFails()
    ensures var g := Graph(map[0 := {1}, 1 := {}], multiset{1, 1}, map[], map[0 := Options(Some(false), None), 1 := Options(Some(false), None)]);
            Proper(g) && Maximal(g, [0, 1]) && !Valid(g, Elems([0, 1])) && g.deps.Keys - Elems([0, 1]) == {}
  {
    var g := Graph(map[0 := {1}, 1 := {}], multiset{1, 1}, map[], map[0 := Options(Some(false), None), 1 := Options(Some(false), None)]);
    forall t ensures |Listers(g.deps, g.deps.Keys, t)| <= g.counts[t] {
      assert Listers(g.deps, g.deps.Keys, t) == if t == 1 then {0} else {};
    }
    assert LeadsDown(g.deps, map[0 := 1, 1 := 0]);
    assert Elems([0, 1]) == {0, 1} && Elems([0]) == {0} && [0, 1][..1] == [0];
    assert Listers(g.deps, {0, 1}, 1) == {0};
  }

  // ---------- When counting is exact ----------

  /** c stays only if another component needs it: it is not a mux implementation, and it has no enable flag or is on a list. */
  predicate Unflagged(g: Graph, c: Ty) {
    c in g.opts && g.opts[c].mux.None? && (g.opts[c].enable.None? || c in g.listOf)
  }

  /** Whatever the options, the lists and the order of disabling, c survives without a flag only when a survivor lists it. */
  ghost predicate KeptOnlyIfNeeded(deps: map<Ty, set<Ty>>, counts: multiset<Ty>, c: Ty) {
    forall listOf, opts, order :: Proper(Graph(deps, counts, listOf, opts)) && Maximal(Graph(deps, counts, listOf, opts), order)
                                  && Unflagged(Graph(deps, counts, listOf, opts), c) && c !in order ==>
      Listers(deps, deps.Keys - Elems(order), c) != {}
  }

  /** Components that are switched off can be disabled one after the other. */
  lemma {:induction false} SwitchedOffRun(g: Graph, some: set<Ty>) returns (order: seq<Ty>)
    requires Proper(g) && some <= g.deps.Keys && g.listOf == map[]
    requires forall c :: c in some ==> g.opts[c] == Options(Some(false), None)
    ensures Run(g, order) && Elems(order) == some
  {
    order := [];
    assert Elems(order) == {};
    if some != {} {
      var c := Any(some);
      order := SwitchedOffRun(g, some - {c});
      RunGrows(g, order, c);
      order := order + [c];
    }
  }

  lemma {:induction false} OneStays(g: Graph, order: seq<Ty>, c: Ty)
    requires Proper(g) && Run(g, order) && c in g.deps && Elems(order) == g.deps.Keys - {c} && Unflagged(g, c) && c !in g.listOf
    requires g.counts[c] > |Listers(g.deps, g.deps.Keys, c)|
    ensures Maximal(g, order)
  {
    hide Run;
    FewerListers(g, Elems(order), g.deps.Keys, c);
    forall t | t in g.deps && t !in order ensures !Eligible(g, Elems(order), t) {
      assert t !in Elems(order);
    }
  }

  /** With all others switched off, a component counted more often than it is listed stays, and nobody is left who lists it. */
  lemma {:induction false} CountedMoreStays(deps: map<Ty, set<Ty>>, counts: multiset<Ty>, c: Ty)
    requires (forall a, d :: Lists(deps, a, d) ==> d in deps) && NoCycle(deps) && c in deps
    requires forall t :: |Listers(deps, deps.Keys, t)| <= counts[t]
    requires counts[c] > |Listers(deps, deps.Keys, c)|
    ensures !KeptOnlyIfNeeded(deps, counts, c)
  {
    var opts := map t | t in deps :: if t == c then Options(None, None) else Options(Some(false), None);
    var g := Graph(deps, counts, map[], opts);
    var order := SwitchedOffRun(g, deps.Keys - {c});
    OneStays(g, order, c);
    var rank :| LeadsDown(deps, rank);
    assert deps.Keys - Elems(order) == {c} && !Lists(deps, c, c);
    assert Unflagged(g, c) && c !in Elems(order);
    assert Listers(deps, deps.Keys - Elems(order), c) == {};
  }

  /** A component without enable flag stays only when it is needed, for all options and orders, exactly when each of its dependents counts once. */
  lemma {:induction false} KeptOnlyIfNeededIff(deps: map<Ty, set<Ty>>, counts: multiset<Ty>, c: Ty)
    requires (forall a, d :: Lists(deps, a, d) ==> d in deps) && NoCycle(deps) && c in deps
    requires forall t :: |Listers(deps, deps.Keys, t)| <= counts[t]
    ensures KeptOnlyIfNeeded(deps, counts, c) <==> counts[c] == |Listers(deps, deps.Keys, c)|
  {
    if counts[c] > |Listers(deps, deps.Keys, c)| {
      CountedMoreStays(deps, counts, c);
    } else {
      forall listOf, opts, order | Proper(Graph(deps, counts, listOf, opts)) && Maximal(Graph(deps, counts, listOf, opts), order)
                                   && Unflagged(Graph(deps, counts, listOf, opts), c) && c !in order
        ensures Listers(deps, deps.Keys - Elems(order), c) != {}
      {
        var user := SurvivorNeeded(Graph(deps, counts, listOf, opts), order, c);
        assert user in Listers(deps, deps.Keys - Elems(order), c);
      }
    }
  }

  // ---------- List implementations that are switched off ----------

  predicate Dropped(listOf: map<Ty, Ty>, opts: map<Ty, Options>, d: Ty) {
    d in listOf && d in opts && opts[d].enable == Some(false)
  }

  function DroppedOf(g: Graph, done: set<Ty>): set<Ty> {
    set d | d in done && Dropped(g.listOf, g.opts, d)
  }

  function Kept(g: Graph, done: set<Ty>, c: Ty): set<Ty>
    requires c in g.deps
  {
    set d | d in g.deps[c] && !(d in done && Dropped(g.listOf, g.opts, d) && g.listOf[d] == c)
  }

  /** The graph after those of `done` that are switched off have been taken off their lists. */
  function Without(g: Graph, done: set<Ty>): Graph {
    g.(deps := map c | c in g.deps :: Kept(g, done, c),
       counts := g.counts - multiset(DroppedOf(g, done)))
  }

  /** Every list implementation is a dependency of its list and of nothing else. */
  ghost predicate Registered(g: Graph) {
    forall t :: t in g.listOf && t in g.deps ==> Lists(g.deps, g.listOf[t], t) && g.counts[t] == 1
  }

  lemma {:induction false} WithoutCounts(g: Graph, done: set<Ty>, t: Ty)
    requires t !in done && Dropped(g.listOf, g.opts, t) && g.counts[t] == 1
    ensures Without(g, done).counts[t] == 1 && Without(g, done + {t}).counts == Without(g, done).counts[t := 0]
  {
    var some := DroppedOf(g, done);
    assert DroppedOf(g, done + {t}) == some + {t};
    assert t !in multiset(some);
    assert g.counts - multiset(some + {t}) == (g.counts - multiset(some))[t := 0];
  }

  lemma {:induction false} WithoutDeps(g: Graph, done: set<Ty>, t: Ty)
    requires t !in done && Dropped(g.listOf, g.opts, t) && g.listOf[t] in g.deps
    ensures Without(g, done + {t}).deps == Without(g, done).deps[g.listOf[t] := Without(g, done).deps[g.listOf[t]] - {t}]
  {
    forall c | c in g.deps ensures Kept(g, done + {t}, c) == if c == g.listOf[t] then Kept(g, done, c) - {t} else Kept(g, done, c) {}
  }

  /** Taking one more off its list. */
  lemma {:induction false} WithoutMore(g: Graph, done: set<Ty>, t: Ty)
    requires Proper(g) && Registered(g) && t in g.deps && t !in done && Dropped(g.listOf, g.opts, t)
    ensures var w, list := Without(g, done), g.listOf[t];
            && list in w.deps && w.counts[t] == 1
            && Without(g, done + {t}) == w.(deps := w.deps[list := w.deps[list] - {t}], counts := w.counts[t := 0])
  {
    assert Lists(g.deps, g.listOf[t], t);
    WithoutCounts(g, done, t);
    WithoutDeps(g, done, t);
  }

  lemma {:induction false} WithoutSame(g: Graph, done: set<Ty>, t: Ty)
    requires !Dropped(g.listOf, g.opts, t)
    ensures Without(g, done + {t}) == Without(g, done)
  {
    assert DroppedOf(g, done + {t}) == DroppedOf(g, done);
    forall c | c in g.deps ensures Kept(g, done + {t}, c) == Kept(g, done, c) {}
    assert Without(g, done + {t}).deps == Without(g, done).deps;
  }

  lemma {:induction false} WithoutProper(g: Graph)
    requires Proper(g) && Registered(g)
    ensures Proper(Without(g, g.deps.Keys))
  {
    var w := Without(g, g.deps.Keys);
    assert forall c, d :: Lists(w.deps, c, d) ==> Lists(g.deps, c, d);
    forall t ensures |Listers(w.deps, w.deps.Keys, t)| <= w.counts[t] {
      WithoutCount(g, t);
    }
    var rank :| LeadsDown(g.deps, rank);
    assert LeadsDown(w.deps, rank);
  }

  lemma {:induction false} WithoutCount(g: Graph, t: Ty)
    requires Proper(g) && Registered(g)
    ensures var w := Without(g, g.deps.Keys); |Listers(w.deps, w.deps.Keys, t)| <= w.counts[t]
  {
    var w := Without(g, g.deps.Keys);
    var before, after := Listers(g.deps, g.deps.Keys, t), Listers(w.deps, w.deps.Keys, t);
    if t in g.deps && Dropped(g.listOf, g.opts, t) {
      assert Lists(g.deps, g.listOf[t], t);
      assert after <= before - {g.listOf[t]};
      SubsetSize(after, before - {g.listOf[t]});
    } else {
      assert after <= before;
      SubsetSize(after, before);
    }
  }

  /** A list implementation that is switched off is disabled in the end. */
  lemma {:induction false} DroppedIsDisabled(g: Graph, order: seq<Ty>, t: Ty)
    requires Proper(g) && Registered(g) && t in g.deps && Dropped(g.listOf, g.opts, t) && g.opts[t].mux.None?
    requires Maximal(Without(g, g.deps.Keys), order)
    ensures t in order
  {
    var w := Without(g, g.deps.Keys);
    WithoutProper(g);
    assert Elems(order) <= w.deps.Keys;
    FewerListers(w, Elems(order), w.deps.Keys, t);
    assert t in multiset(DroppedOf(g, g.deps.Keys));
    assert Left(w, Elems(order), t) == 0;
  }

  /** A list implementation survives exactly when it is not switched off and its list survives. */
  lemma {:induction false} ListImplSurvivesIff(g: Graph, order: seq<Ty>, t: Ty)
    requires Proper(g) && Registered(g) && t in g.deps && t in g.listOf && g.opts[t].mux.None?
    requires Maximal(Without(g, g.deps.Keys), order)
    ensures t !in order <==> g.opts[t].enable != Some(false) && g.listOf[t] !in order
  {
    var w := Without(g, g.deps.Keys);
    WithoutProper(g);
    SurvivesIff(w, order, t);
    assert Elems(order) <= w.deps.Keys;
    if g.opts[t].enable == Some(false) {
      DroppedIsDisabled(g, order, t);
    } else {
      var list := g.listOf[t];
      assert Lists(g.deps, list, t) && g.counts[t] == 1;
      OneLister(g, list, t);
      assert t !in multiset(DroppedOf(g, g.deps.Keys)) && w.counts[t] == 1;
      assert (set c | c in order && c in w.deps && t in w.deps[c]) == if list in order then {list} else {};
    }
  }

  lemma {:induction false} OneLister(g: Graph, list: Ty, t: Ty)
    requires Proper(g) && Lists(g.deps, list, t) && g.counts[t] == 1 && g.opts[t].enable != Some(false) && t in g.opts
    ensures forall c :: c in g.deps ==> (t in Without(g, g.deps.Keys).deps[c] <==> c == list)
  {
    var all := Listers(g.deps, g.deps.Keys, t);
    assert list in all && |all| <= 1;
    forall c | c in all ensures c == list {
      SubsetSize({c, list}, all);
    }
    assert !Dropped(g.listOf, g.opts, t);
    forall c | c in g.deps ensures t in Without(g, g.deps.Keys).deps[c] <==> c == list {
      assert c in all <==> t in g.deps[c];
    }
  }

  lemma {:induction false} WithoutNone(g: Graph)
    ensures Without(g, {}) == g
  {
    assert DroppedOf(g, {}) == {};
    forall c | c in g.deps ensures Kept(g, {}, c) == g.deps[c] {}
    assert Without(g, {}).deps == g.deps;
  }

  /** The components and counters left when `gone` has been disabled. */
  ghost predicate Trimmed(g: Graph, components: map<Ty, set<Ty>>, dependents: multiset<Ty>, gone: set<Ty>) {
    && gone <= g.deps.Keys && components.Keys == g.deps.Keys - gone
    && (forall c :: c in components ==> components[c] == g.deps[c])
    && forall t :: dependents[t] == Left(g, gone, t)
  }

  lemma {:induction false} TrimmedNone(g: Graph)
    requires Proper(g)
    ensures Trimmed(g, g.deps, g.counts, {}) && Elems<Ty>([]) == {}
  {
    forall t ensures Left(g, {}, t) == g.counts[t] {
      assert Listers(g.deps, {}, t) == {};
    }
  }

  /** Part of the dependencies of c have lost a dependent. */
  ghost predicate Releasing(g: Graph, dependents: multiset<Ty>, gone: set<Ty>, released: set<Ty>) {
    forall t :: dependents[t] == Left(g, gone, t) - (if t in released then 1 else 0)
  }

  lemma {:induction false} ReleaseOne(g: Graph, dependents: multiset<Ty>, gone: set<Ty>, released: set<Ty>, c: Ty, t: Ty)
    requires Proper(g) && c in g.deps && c !in gone && gone <= g.deps.Keys && t in g.deps[c] && t !in released
    requires Releasing(g, dependents, gone, released)
    ensures dependents[t] > 0 && Releasing(g, dependents[t := dependents[t] - 1], gone, released + {t})
  {
    LeftPositive(g, gone, c, t);
  }

  lemma {:induction false} ReleaseAll(g: Graph, components: map<Ty, set<Ty>>, dependents: multiset<Ty>, gone: set<Ty>, c: Ty)
    requires c in components && components.Keys == g.deps.Keys - gone && gone <= g.deps.Keys
    requires forall x :: x in components ==> components[x] == g.deps[x]
    requires Releasing(g, dependents, gone, g.deps[c])
    ensures Trimmed(g, components - {c}, dependents, gone + {c})
  {
    forall t ensures dependents[t] == Left(g, gone + {c}, t) {
      LeftAfter(g, gone, c, t);
    }
  }

  lemma {:induction false} ReleaseNone(g: Graph, dependents: multiset<Ty>, gone: set<Ty>)
    requires forall t :: dependents[t] == Left(g, gone, t)
    ensures Releasing(g, dependents, gone, {})
  {
  }

  lemma {:induction false} ProperOptions(g: Graph)
    requires Proper(g)
    ensures g.deps.Keys <= g.opts.Keys
  {
  }

  /** What is left of an acyclic graph has an order. */
  lemma {:induction false} TrimmedNoCycle(g: Graph, components: map<Ty, set<Ty>>, dependents: multiset<Ty>, gone: set<Ty>)
    requires Proper(g) && Trimmed(g, components, dependents, gone)
    ensures NoCycle(Live(components))
  {
    var rank :| LeadsDown(g.deps, rank);
    assert forall c, d :: Lists(components, c, d) ==> Lists(g.deps, c, d);
    assert LeadsDown(components, rank);
    LiveNoCycle(components);
  }

  lemma {:induction false} BuiltRegistered(fs: map<Ty, Factory>, list: Ty, t: Ty)
    requires list in fs && t in NeedsAll(fs[list].reqs) && Owed(fs, fs.Keys)[t] <= 1
    ensures Lists(DepsOf(fs), list, t) && Owed(fs, fs.Keys)[t] == 1
  {
    OwedCountsListers(fs, fs.Keys, t);
    assert t in DepSet(fs[list]);
    assert list in Listers(DepsOf(fs), fs.Keys, t);
    SubsetSize({list}, Listers(DepsOf(fs), fs.Keys, t));
  }

  lemma {:induction false} BuiltDeps(fs: map<Ty, Factory>, listOf: map<Ty, Ty>)
    requires Buildable(fs, listOf)
    ensures DepsOf(fs).Keys == fs.Keys && NoCycle(DepsOf(fs)) && forall c, d :: Lists(DepsOf(fs), c, d) ==> d in fs
    ensures forall t :: t in listOf ==> Owed(fs, fs.Keys)[t] <= 1
  {
    var rank :| BuildableBy(fs, listOf, rank);
    assert forall c, d :: Lists(DepsOf(fs), c, d) ==> d in NeedsAll(fs[c].reqs);
    assert LeadsDown(DepsOf(fs), rank);
  }

  /** What Build leaves, with the list implementations asked for by their lists, may be trimmed. */
  lemma {:induction false} BuiltIsProper(fs: map<Ty, Factory>, listOf: map<Ty, Ty>, opts: map<Ty, Options>)
    requires Buildable(fs, listOf) && fs.Keys <= opts.Keys
    requires forall t :: t in listOf && t in fs ==> listOf[t] in fs && t in NeedsAll(fs[listOf[t]].reqs)
    ensures Proper(Graph(DepsOf(fs), Owed(fs, fs.Keys), listOf, opts)) && Registered(Graph(DepsOf(fs), Owed(fs, fs.Keys), listOf, opts))
  {
    var deps, counts := DepsOf(fs), Owed(fs, fs.Keys);
    hide NoCycle, Buildable, DepsOf;
    BuiltDeps(fs, listOf);
    forall t ensures |Listers(deps, deps.Keys, t)| <= counts[t] {
      OwedCountsListers(fs, fs.Keys, t);
    }
    forall t | t in listOf && t in deps ensures Lists(deps, listOf[t], t) && counts[t] == 1 {
      BuiltRegistered(fs, listOf[t], t);
    }
  }
}
