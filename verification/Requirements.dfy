/** What component factories ask for, and when a set of factories can be built at all. */
module Requirements {
  import opened MapOrder

  /** A component type. */
  type Ty = int

  /** A parameter of a factory: the manager, the context of the dependent, a util that is constructed on the spot, or a component. */
  datatype Req =
    | TheManager
    | TheContext
    | Util(reqs: seq<Req>, fails: bool)
    | Comp(ty: Ty)

  /** The requests of a component in the order they are resolved: parameters, late dependencies, mux implementations. */
  datatype Factory = Factory(reqs: seq<Req>, fails: bool)

  /** The component references made by resolving a request, with repetitions. */
  function Needs(r: Req): multiset<Ty> {
    match r
    case Comp(ty) => multiset{ty}
    case Util(reqs, _) => NeedsAll(reqs)
    case _ => multiset{}
  }

  function NeedsAll(rs: seq<Req>): multiset<Ty> {
    if rs == [] then multiset{} else NeedsAll(rs[..|rs| - 1]) + Needs(rs[|rs| - 1])
  }

  /** No util constructor fails. */
  predicate Sound(r: Req) {
    r.Util? ==> !r.fails && SoundAll(r.reqs)
  }

  predicate SoundAll(rs: seq<Req>) {
    forall i :: 0 <= i < |rs| ==> Sound(rs[i])
  }

  /** The request is for the component, or for a util one of whose own requests is. */
  predicate Mentions(r: Req, t: Ty) {
    match r
    case Comp(ty) => ty == t
    case Util(reqs, _) => exists i :: 0 <= i < |reqs| && Mentions(reqs[i], t)
    case _ => false
  }

  /** A component is referred to exactly when some request mentions it, through utils if need be. */
  lemma {:induction false} NeedsIff(r: Req, t: Ty)
    ensures t in Needs(r) <==> Mentions(r, t)
  {
    if r.Util? {
      NeedsAllIff(r.reqs, |r.reqs|, t);
      assert r.reqs[..|r.reqs|] == r.reqs;
    }
  }

  lemma {:induction false} NeedsAllIff(rs: seq<Req>, n: nat, t: Ty)
    requires n <= |rs|
    ensures t in NeedsAll(rs[..n]) <==> exists i :: 0 <= i < n && Mentions(rs[i], t)
    decreases rs, n
  {
    if n > 0 {
      NeedsAllIff(rs, n - 1, t);
      assert rs[..n][..n - 1] == rs[..n - 1];
      NeedsIff(rs[n - 1], t);
    }
  }

  /** The request is for a util that cannot be constructed, or that requests one. */
  predicate HasFailingUtil(r: Req) {
    r.Util? && (r.fails || exists i :: 0 <= i < |r.reqs| && HasFailingUtil(r.reqs[i]))
  }

  lemma {:induction false} SoundIff(r: Req)
    ensures Sound(r) <==> !HasFailingUtil(r)
  {
    if r.Util? {
      forall i | 0 <= i < |r.reqs| ensures Sound(r.reqs[i]) <==> !HasFailingUtil(r.reqs[i]) {
        SoundIff(r.reqs[i]);
      }
    }
  }

  lemma {:induction false} NeedsOfPart(rs: seq<Req>, i: nat, j: nat)
    requires i <= j <= |rs|
    ensures NeedsAll(rs[..i]) <= NeedsAll(rs[..j])
  {
    if i < j {
      assert rs[..j][..j - 1] == rs[..j - 1];
      NeedsOfPart(rs, i, j - 1);
    }
  }

  lemma {:induction false} NeedsNone(rs: seq<Req>)
    ensures NeedsAll(rs[..0]) == multiset{}
  {
    assert rs[..0] == [];
  }

  lemma {:induction false} NeedsNext(rs: seq<Req>, i: nat)
    requires i < |rs|
    ensures NeedsAll(rs[..i + 1]) == NeedsAll(rs[..i]) + Needs(rs[i])
    ensures NeedsAll(rs[..i]) + Needs(rs[i]) <= NeedsAll(rs)
  {
    assert rs[..i + 1][..i] == rs[..i];
    assert rs[..|rs|] == rs;
    NeedsOfPart(rs, i + 1, |rs|);
  }

  /** All the references made by the factories of `some`. */
  ghost function Owed(fs: map<Ty, Factory>, some: set<Ty>): multiset<Ty>
    requires some <= fs.Keys
    decreases some
  {
    if some == {} then multiset{} else
      var c := Any(some);
      Owed(fs, some - {c}) + NeedsAll(fs[c].reqs)
  }

  /** Starting one factory moves its references out of what is owed. */
  lemma {:induction false} OwedWithout(fs: map<Ty, Factory>, some: set<Ty>, c: Ty)
    requires c in some && some <= fs.Keys
    ensures Owed(fs, some) == Owed(fs, some - {c}) + NeedsAll(fs[c].reqs)
    decreases some
  {
    var d := Any(some);
    if c != d {
      OwedWithout(fs, some - {d}, c);
      OwedWithout(fs, some - {c}, d);
      assert some - {d} - {c} == some - {c} - {d};
    }
  }

  /** rank puts every component above what it refers to, nothing fails, and list implementations are referred to at most once. */
  ghost predicate BuildableBy(fs: map<Ty, Factory>, listOf: map<Ty, Ty>, rank: map<Ty, nat>) {
    && (forall c :: c in fs ==> c in rank && !fs[c].fails && SoundAll(fs[c].reqs))
    && (forall c, t :: c in fs && t in NeedsAll(fs[c].reqs) ==> t in fs && t in rank && rank[t] < rank[c])
    && (forall t :: t in listOf ==> Owed(fs, fs.Keys)[t] <= 1)
  }

  ghost predicate Buildable(fs: map<Ty, Factory>, listOf: map<Ty, Ty>) {
    exists rank :: BuildableBy(fs, listOf, rank)
  }

  // ---------- Counting references ----------

  predicate Lists(deps: map<Ty, set<Ty>>, c: Ty, d: Ty) {
    c in deps && d in deps[c]
  }

  function Listers(deps: map<Ty, set<Ty>>, among: set<Ty>, t: Ty): set<Ty> {
    set c | c in among && Lists(deps, c, t)
  }

  ghost predicate LeadsDown(deps: map<Ty, set<Ty>>, rank: map<Ty, nat>) {
    forall c, d :: Lists(deps, c, d) ==> c in rank && d in rank && rank[d] < rank[c]
  }

  /** No component depends on itself through others. */
  ghost predicate NoCycle(deps: map<Ty, set<Ty>>) {
    exists rank :: LeadsDown(deps, rank)
  }

  function DepSet(f: Factory): set<Ty> {
    set t | t in NeedsAll(f.reqs)
  }

  function DepsOf(fs: map<Ty, Factory>): map<Ty, set<Ty>> {
    map c | c in fs :: DepSet(fs[c])
  }

  /** Every component is referred to at least once per component that lists it. */
  lemma {:induction false} OwedCountsListers(fs: map<Ty, Factory>, some: set<Ty>, t: Ty)
    requires some <= fs.Keys
    ensures |Listers(DepsOf(fs), some, t)| <= Owed(fs, some)[t]
    decreases some
  {
    if some == {} {
      assert Listers(DepsOf(fs), some, t) == {};
    } else {
      var c := Any(some);
      OwedCountsListers(fs, some - {c}, t);
      assert Listers(DepsOf(fs), some, t) == Listers(DepsOf(fs), some - {c}, t) + (if t in NeedsAll(fs[c].reqs) then {c} else {});
    }
  }
}
