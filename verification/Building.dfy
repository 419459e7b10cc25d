/** What holds between two steps of building all components. */
module Building {
  import opened Requirements

  /** factories not yet started; the dependencies of each component built; the dependents counter of each component. */
  datatype State = State(factories: map<Ty, Factory>, components: map<Ty, set<Ty>>, dependents: multiset<Ty>)

  ghost predicate Aged(components: map<Ty, set<Ty>>, age: map<Ty, nat>) {
    && LeadsDown(components, age)
    && forall c :: c in components ==> c in age && age[c] < |components|
  }

  ghost predicate Layered(components: map<Ty, set<Ty>>) {
    exists age :: Aged(components, age)
  }

  ghost predicate Done(fs: map<Ty, Factory>, components: map<Ty, set<Ty>>) {
    && (forall c :: c in components ==> c in fs && !fs[c].fails && SoundAll(fs[c].reqs) && components[c] == DepSet(fs[c]))
    && (forall c, d :: Lists(components, c, d) ==> d in components)
    && Layered(components)
  }

  /** Every factory of fs is waiting, being built, or done. */
  ghost predicate Parted(fs: map<Ty, Factory>, m: State, busy: set<Ty>) {
    && m.factories.Keys + busy + m.components.Keys == fs.Keys
    && m.factories.Keys !! busy !! m.components.Keys
    && forall c :: c in m.factories ==> m.factories[c] == fs[c]
  }

  ghost predicate Sane(fs: map<Ty, Factory>, lists: map<Ty, Ty>, m: State, busy: set<Ty>) {
    && Parted(fs, m, busy) && Done(fs, m.components)
    && forall t :: t in lists ==> m.dependents[t] <= 1
  }

  /** Nothing that is being built is needed again, if the factories can be built at all. */
  ghost predicate Permitted(fs: map<Ty, Factory>, lists: map<Ty, Ty>, rank: map<Ty, nat>, busy: set<Ty>, needs: multiset<Ty>, sound: bool) {
    BuildableBy(fs, lists, rank) ==>
      sound && forall t, b :: t in needs ==> t in fs && t in rank && (b in busy ==> b in rank && rank[t] < rank[b])
  }

  /** The references still to be counted fit into the total. */
  ghost predicate Room(fs: map<Ty, Factory>, m: State, needs: multiset<Ty>)
    requires m.factories.Keys <= fs.Keys
  {
    m.dependents + Owed(fs, m.factories.Keys) + needs <= Owed(fs, fs.Keys)
  }

  /** From m to m', `needs` have been resolved, and `counted` of them as dependencies. */
  ghost predicate Resolved(fs: map<Ty, Factory>, m: State, m': State, needs: multiset<Ty>, counted: multiset<Ty>)
    requires m.factories.Keys <= fs.Keys
  {
    && m'.factories.Keys <= m.factories.Keys && m.components.Keys <= m'.components.Keys
    && (forall t :: t in needs ==> t in m'.components)
    && m'.dependents + Owed(fs, m'.factories.Keys) == m.dependents + Owed(fs, m.factories.Keys) + counted
  }

  /** A request may be resolved now, as one of the dependencies of a component when ctx is set. */
  ghost predicate Askable(fs: map<Ty, Factory>, lists: map<Ty, Ty>, rank: map<Ty, nat>, m: State, busy: set<Ty>, needs: multiset<Ty>, sound: bool, ctx: bool) {
    && Sane(fs, lists, m, busy) && Permitted(fs, lists, rank, busy, needs, sound)
    && Room(fs, m, if ctx then needs else multiset{})
  }

  /** It has been resolved: everything it needs is built, counted if ctx is set, and among deps'. */
  ghost predicate Answered(fs: map<Ty, Factory>, lists: map<Ty, Ty>, m: State, m': State, busy: set<Ty>, needs: multiset<Ty>, ctx: bool, deps: set<Ty>, deps': set<Ty>)
    requires m.factories.Keys <= fs.Keys
  {
    && Sane(fs, lists, m', busy) && Resolved(fs, m, m', needs, if ctx then needs else multiset{})
    && deps' == deps + Elements(needs)
  }

  function Elements(needs: multiset<Ty>): set<Ty> {
    set t | t in needs
  }

  lemma {:induction false} NothingAnswered(fs: map<Ty, Factory>, lists: map<Ty, Ty>, m: State, busy: set<Ty>, ctx: bool, deps: set<Ty>)
    requires Sane(fs, lists, m, busy)
    ensures Answered(fs, lists, m, m, busy, multiset{}, ctx, deps, deps)
  {
    assert Elements(multiset{}) == {};
  }

  lemma {:induction false} AnsweredThen(fs: map<Ty, Factory>, lists: map<Ty, Ty>, a: State, b: State, c: State, busy: set<Ty>, needs: multiset<Ty>, more: multiset<Ty>, d: set<Ty>, d': set<Ty>, d'': set<Ty>)
    requires a.factories.Keys <= fs.Keys && Answered(fs, lists, a, b, busy, needs, true, d, d') && Answered(fs, lists, b, c, busy, more, true, d', d'')
    ensures Answered(fs, lists, a, c, busy, needs + more, true, d, d'')
  {
    hide Sane;
    ResolvedThen(fs, a, b, c, needs, more);
    assert Elements(needs + more) == Elements(needs) + Elements(more);
  }

  lemma {:induction false} PermittedPart(fs: map<Ty, Factory>, lists: map<Ty, Ty>, rank: map<Ty, nat>, busy: set<Ty>, all: multiset<Ty>, sound: bool, needs: multiset<Ty>, sound': bool)
    requires Permitted(fs, lists, rank, busy, all, sound) && needs <= all && (sound ==> sound')
    ensures Permitted(fs, lists, rank, busy, needs, sound')
  {
    hide BuildableBy;
    forall t | t in needs ensures t in all {
      assert 0 < needs[t] <= all[t];
    }
  }

  /** The next request of a list may be resolved after those before it. */
  lemma {:induction false} AskNext(fs: map<Ty, Factory>, lists: map<Ty, Ty>, rank: map<Ty, nat>, a: State, b: State, busy: set<Ty>, reqs: seq<Req>, i: nat, d: set<Ty>, d': set<Ty>)
    requires Askable(fs, lists, rank, a, busy, NeedsAll(reqs), SoundAll(reqs), true) && i < |reqs| && a.factories.Keys <= fs.Keys
    requires Answered(fs, lists, a, b, busy, NeedsAll(reqs[..i]), true, d, d')
    ensures Askable(fs, lists, rank, b, busy, Needs(reqs[i]), Sound(reqs[i]), true)
  {
    hide Sane, Resolved, Room, Permitted, NeedsAll, Needs;
    NeedsNext(reqs, i);
    var before, next := NeedsAll(reqs[..i]), Needs(reqs[i]);
    assert next <= NeedsAll(reqs);
    PermittedPart(fs, lists, rank, busy, NeedsAll(reqs), SoundAll(reqs), next, Sound(reqs[i]));
    RoomThen(fs, a, b, before, NeedsAll(reqs), next);
  }

  lemma {:induction false} ResolvedThen(fs: map<Ty, Factory>, a: State, b: State, c: State, needs: multiset<Ty>, more: multiset<Ty>)
    requires a.factories.Keys <= fs.Keys && Resolved(fs, a, b, needs, needs) && Resolved(fs, b, c, more, more)
    ensures Resolved(fs, a, c, needs + more, needs + more)
  {
  }

  lemma {:induction false} RoomThen(fs: map<Ty, Factory>, a: State, b: State, counted: multiset<Ty>, all: multiset<Ty>, needs: multiset<Ty>)
    requires a.factories.Keys <= fs.Keys && Resolved(fs, a, b, counted, counted) && Room(fs, a, all) && counted + needs <= all
    ensures Room(fs, b, needs)
  {
  }

  function Started(m: State, c: Ty): State {
    m.(factories := m.factories - {c})
  }

  lemma {:induction false} StartRoom(fs: map<Ty, Factory>, m: State, c: Ty, needs: multiset<Ty>)
    requires m.factories.Keys <= fs.Keys && c in m.factories && Room(fs, m, needs)
    ensures Room(fs, Started(m, c), NeedsAll(fs[c].reqs))
  {
    OwedWithout(fs, m.factories.Keys, c);
    assert Started(m, c).factories.Keys == m.factories.Keys - {c};
  }

  /** A factory is taken out of the map before it is built. */
  lemma {:induction false} Start(fs: map<Ty, Factory>, lists: map<Ty, Ty>, rank: map<Ty, nat>, m: State, busy: set<Ty>, c: Ty, ctx: bool)
    requires Askable(fs, lists, rank, m, busy, multiset{c}, true, ctx) && c in m.factories
    ensures Askable(fs, lists, rank, Started(m, c), busy + {c}, NeedsAll(fs[c].reqs), SoundAll(fs[c].reqs), true)
    ensures m.factories[c] == fs[c] && c !in busy
  {
    hide Done, Room;
    StartRoom(fs, m, c, if ctx then multiset{c} else multiset{});
    assert Started(m, c).factories.Keys == m.factories.Keys - {c};
    assert c in multiset{c};
  }

  function Finished(m: State, c: Ty, deps: set<Ty>): State {
    m.(components := m.components[c := deps])
  }

  lemma {:induction false} AgeOne(components: map<Ty, set<Ty>>, c: Ty, deps: set<Ty>)
    requires Layered(components)
    requires c !in components && deps <= components.Keys
    requires forall x, d :: Lists(components, x, d) ==> d in components
    ensures Layered(components[c := deps])
  {
    var age :| Aged(components, age);
    var more := components[c := deps];
    var age' := age[c := |components|];
    assert |more| == |components| + 1 by {
      assert more.Keys == components.Keys + {c};
      assert |more.Keys| == |more|;
    }
    forall x, d | Lists(more, x, d) ensures x in age' && d in age' && age'[d] < age'[x] {
      assert x != c ==> Lists(components, x, d);
    }
    assert Aged(more, age');
  }

  lemma {:induction false} FinishDone(fs: map<Ty, Factory>, components: map<Ty, set<Ty>>, c: Ty, deps: set<Ty>)
    requires Done(fs, components) && c in fs && c !in components && deps <= components.Keys
    requires !fs[c].fails && SoundAll(fs[c].reqs) && deps == DepSet(fs[c])
    ensures Done(fs, components[c := deps])
  {
    AgeOne(components, c, deps);
    var more := components[c := deps];
    forall x, d | Lists(more, x, d) ensures d in more {
      assert x != c ==> Lists(components, x, d);
    }
  }

  lemma {:induction false} Regroup<T>(a: multiset<T>, b: multiset<T>, c: multiset<T>)
    ensures a + b + c == a + (b + c) + multiset{}
  {
  }

  lemma {:induction false} FinishResolved(fs: map<Ty, Factory>, m: State, m': State, c: Ty, deps: set<Ty>)
    requires m.factories.Keys <= fs.Keys && c in m.factories
    requires Resolved(fs, Started(m, c), m', NeedsAll(fs[c].reqs), NeedsAll(fs[c].reqs))
    ensures Resolved(fs, m, Finished(m', c, deps), multiset{c}, multiset{})
    ensures DepSet(fs[c]) <= m'.components.Keys
  {
    OwedWithout(fs, m.factories.Keys, c);
    assert Started(m, c).factories.Keys == m.factories.Keys - {c};
    Regroup(m.dependents, Owed(fs, m.factories.Keys - {c}), NeedsAll(fs[c].reqs));
    forall t | t in DepSet(fs[c]) ensures t in m'.components {
      assert t in NeedsAll(fs[c].reqs);
    }
  }

  lemma {:induction false} FinishParted(fs: map<Ty, Factory>, m: State, busy: set<Ty>, c: Ty, deps: set<Ty>)
    requires Parted(fs, m, busy + {c}) && c !in busy
    ensures Parted(fs, Finished(m, c, deps), busy) && c in fs && c !in m.components
  {
    assert Finished(m, c, deps).components.Keys == m.components.Keys + {c};
    assert c in busy + {c};
  }

  lemma {:induction false} Finish(fs: map<Ty, Factory>, lists: map<Ty, Ty>, m: State, m': State, busy: set<Ty>, c: Ty, deps: set<Ty>)
    requires m.factories.Keys <= fs.Keys && c in m.factories && c !in busy
    requires Answered(fs, lists, Started(m, c), m', busy + {c}, NeedsAll(fs[c].reqs), true, {}, deps)
    requires !fs[c].fails && SoundAll(fs[c].reqs)
    ensures Available(fs, lists, m, Finished(m', c, deps), busy, c)
  {
    hide Done, Parted, Resolved;
    assert deps == DepSet(fs[c]);
    FinishResolved(fs, m, m', c, deps);
    FinishParted(fs, m', busy, c, deps);
    FinishDone(fs, m'.components, c, deps);
  }

  function Counted(m: State, c: Ty): State {
    m.(dependents := m.dependents + multiset{c})
  }

  lemma {:induction false} CountFits(fs: map<Ty, Factory>, m0: State, m: State, c: Ty)
    requires m0.factories.Keys <= fs.Keys && m.factories.Keys <= fs.Keys
    requires Resolved(fs, m0, m, multiset{c}, multiset{}) && Room(fs, m0, multiset{c})
    ensures Resolved(fs, m0, Counted(m, c), multiset{c}, multiset{c})
    ensures Counted(m, c).dependents[c] <= Owed(fs, fs.Keys)[c]
  {
    var left := Owed(fs, m.factories.Keys);
    assert m.dependents + multiset{c} + left == m.dependents + left + multiset{c};
    assert (m.dependents + multiset{c} + left)[c] >= (m.dependents + multiset{c})[c];
  }

  /** c has been built, if it was not before, and nothing counted for it yet. */
  ghost predicate Available(fs: map<Ty, Factory>, lists: map<Ty, Ty>, m: State, m': State, busy: set<Ty>, c: Ty)
    requires m.factories.Keys <= fs.Keys
  {
    Sane(fs, lists, m', busy) && Resolved(fs, m, m', multiset{c}, multiset{})
  }

  lemma {:induction false} AlreadyBuilt(fs: map<Ty, Factory>, lists: map<Ty, Ty>, rank: map<Ty, nat>, m: State, busy: set<Ty>, c: Ty, ctx: bool)
    requires Askable(fs, lists, rank, m, busy, multiset{c}, true, ctx) && c in m.components
    ensures Available(fs, lists, m, m, busy, c)
  {
  }

  lemma {:induction false} Uncounted(fs: map<Ty, Factory>, lists: map<Ty, Ty>, m0: State, m: State, busy: set<Ty>, c: Ty, deps: set<Ty>)
    requires m0.factories.Keys <= fs.Keys && Available(fs, lists, m0, m, busy, c)
    ensures Answered(fs, lists, m0, m, busy, multiset{c}, false, deps, deps + {c}) && c in m.components
  {
    hide Sane;
    assert c in multiset{c};
    assert Elements(multiset{c}) == {c};
  }

  lemma {:induction false} AskableParted(fs: map<Ty, Factory>, lists: map<Ty, Ty>, rank: map<Ty, nat>, m: State, busy: set<Ty>, needs: multiset<Ty>, sound: bool, ctx: bool)
    requires Askable(fs, lists, rank, m, busy, needs, sound, ctx)
    ensures m.factories.Keys <= fs.Keys && (BuildableBy(fs, lists, rank) ==> sound)
    ensures forall c :: c in m.factories ==> m.factories[c] == fs[c]
    ensures Sane(fs, lists, m, busy)
  {
  }

  /** Counting one more reference to a component that exists. */
  lemma {:induction false} Count(fs: map<Ty, Factory>, lists: map<Ty, Ty>, rank: map<Ty, nat>, m0: State, m: State, busy: set<Ty>, c: Ty, deps: set<Ty>)
    requires Askable(fs, lists, rank, m0, busy, multiset{c}, true, true)
    requires Available(fs, lists, m0, m, busy, c)
    ensures c in lists && Counted(m, c).dependents[c] > 1 ==> !BuildableBy(fs, lists, rank)
    ensures !(c in lists && Counted(m, c).dependents[c] > 1) ==> Answered(fs, lists, m0, Counted(m, c), busy, multiset{c}, true, deps, deps + {c})
  {
    hide Done, Resolved, Room;
    CountFits(fs, m0, m, c);
    assert Elements(multiset{c}) == {c};
  }

  /** A type that is neither waiting nor built is unknown or being built: nothing can be built then. */
  lemma {:induction false} Unknown(fs: map<Ty, Factory>, lists: map<Ty, Ty>, rank: map<Ty, nat>, m: State, busy: set<Ty>, c: Ty, ctx: bool)
    requires Askable(fs, lists, rank, m, busy, multiset{c}, true, ctx)
    requires c !in m.factories && c !in m.components
    ensures !BuildableBy(fs, lists, rank)
  {
    assert c in multiset{c};
    assert c in fs ==> c in busy;
  }

  lemma {:induction false} DoneBuildable(fs: map<Ty, Factory>, lists: map<Ty, Ty>, components: map<Ty, set<Ty>>)
    requires Done(fs, components) && components.Keys == fs.Keys && forall t :: t in lists ==> Owed(fs, fs.Keys)[t] <= 1
    ensures Buildable(fs, lists) && components == DepsOf(fs)
  {
    var age :| Aged(components, age);
    forall c, t | c in fs && t in NeedsAll(fs[c].reqs) ensures t in fs && t in age && age[t] < age[c] {
      assert Lists(components, c, t);
    }
    assert forall c :: c in fs ==> components[c] == DepsOf(fs)[c];
    assert BuildableBy(fs, lists, age);
  }

  /** When everything is built, it was buildable, and the counters hold every reference. */
  lemma {:induction false} AllBuilt(fs: map<Ty, Factory>, lists: map<Ty, Ty>, m: State)
    requires Sane(fs, lists, m, {}) && m.factories.Keys == {}
    requires m.dependents + Owed(fs, {}) == Owed(fs, fs.Keys)
    ensures Buildable(fs, lists) && m.components == DepsOf(fs) && m.dependents == Owed(fs, fs.Keys)
  {
    hide Done;
    assert m.components.Keys == fs.Keys;
    DoneBuildable(fs, lists, m.components);
  }

  lemma {:induction false} BuildStart(fs: map<Ty, Factory>, lists: map<Ty, Ty>)
    ensures Sane(fs, lists, State(fs, map[], multiset{}), {})
  {
    assert Aged(map[], map[]);
  }

  /** Build may ask for any factory that is left. */
  lemma {:induction false} BuildAsk(fs: map<Ty, Factory>, lists: map<Ty, Ty>, rank: map<Ty, nat>, m: State, c: Ty)
    requires Sane(fs, lists, m, {}) && m.dependents + Owed(fs, m.factories.Keys) == Owed(fs, fs.Keys) && c in m.factories
    ensures Askable(fs, lists, rank, m, {}, multiset{c}, true, false)
  {
  }

  lemma {:induction false} BuildNext(fs: map<Ty, Factory>, lists: map<Ty, Ty>, m: State, m': State, c: Ty, deps: set<Ty>, deps': set<Ty>)
    requires Sane(fs, lists, m, {}) && m.dependents + Owed(fs, m.factories.Keys) == Owed(fs, fs.Keys) && c in m.factories
    requires Answered(fs, lists, m, m', {}, multiset{c}, false, deps, deps')
    ensures Sane(fs, lists, m', {}) && m'.dependents + Owed(fs, m'.factories.Keys) == Owed(fs, fs.Keys)
    ensures m'.factories.Keys < m.factories.Keys
  {
    hide Done;
    assert c in multiset{c};
    assert c in m'.components;
  }
}
