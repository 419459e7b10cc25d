/** The initialization order of the components that are left. */
module Ordering {
  import opened MapOrder
  import opened Requirements

  /** The dependencies that are themselves components. */
  function Live(deps: map<Ty, set<Ty>>): map<Ty, set<Ty>> {
    map c | c in deps :: deps[c] * deps.Keys
  }

  /** Every component comes after those of its dependencies that are components. */
  ghost predicate InOrder(deps: map<Ty, set<Ty>>, ordered: seq<Ty>) {
    forall i, d :: 0 <= i < |ordered| && Lists(deps, ordered[i], d) && d in deps ==> d in ordered[..i]
  }

  /** keys holds the components not in `ordered` yet: 2 when untouched, 1 while their dependencies are being inserted. */
  ghost predicate Inserting(deps: map<Ty, set<Ty>>, ordered: seq<Ty>, keys: map<Ty, int>) {
    && NoDup(ordered) && InOrder(deps, ordered)
    && (forall c :: c in ordered <==> c in deps && c !in keys)
    && forall c :: c in keys ==> c in deps && (keys[c] == 1 || keys[c] == 2)
  }

  function Untouched(keys: map<Ty, int>): set<Ty> {
    set c | c in keys && keys[c] == 2
  }

  /** If no component depends on itself, `of` is below every component being inserted. */
  ghost predicate Below(deps: map<Ty, set<Ty>>, keys: map<Ty, int>, rank: map<Ty, nat>, of: Ty) {
    LeadsDown(Live(deps), rank) ==>
      forall b :: b in keys && keys[b] == 1 && of in deps ==> b in rank && of in rank && rank[of] < rank[b]
  }

  /** keys' comes from keys by inserting some untouched components. */
  predicate Advanced(keys: map<Ty, int>, keys': map<Ty, int>) {
    && (forall c :: c in keys' ==> c in keys && keys'[c] == keys[c])
    && forall c :: c in keys && keys[c] == 1 ==> c in keys'
  }

  lemma {:induction false} BelowDependency(deps: map<Ty, set<Ty>>, keys: map<Ty, int>, keys': map<Ty, int>, rank: map<Ty, nat>, of: Ty, d: Ty)
    requires Below(deps, keys, rank, of) && Lists(deps, of, d) && of in keys && Advanced(keys[of := 1], keys')
    ensures Below(deps, keys', rank, d)
  {
    if d in deps && LeadsDown(Live(deps), rank) {
      assert Lists(Live(deps), of, d);
    }
  }

  lemma {:induction false} InsertLast(deps: map<Ty, set<Ty>>, ordered: seq<Ty>, keys: map<Ty, int>, of: Ty)
    requires Inserting(deps, ordered, keys) && of in keys
    requires forall d :: Lists(deps, of, d) ==> d !in keys
    ensures Inserting(deps, ordered + [of], keys - {of})
  {
    var more := ordered + [of];
    forall i, d | 0 <= i < |more| && Lists(deps, more[i], d) && d in deps ensures d in more[..i] {
      if i < |ordered| {
        assert more[..i] == ordered[..i];
      } else {
        assert more[..i] == ordered;
      }
    }
    assert forall c :: c in more <==> c in ordered || c == of;
  }

  function Position(ordered: seq<Ty>, c: Ty): nat {
    if ordered == [] then 0 else if ordered[|ordered| - 1] == c then |ordered| else Position(ordered[..|ordered| - 1], c)
  }

  lemma {:induction false} PositionAt(ordered: seq<Ty>, i: nat)
    requires NoDup(ordered) && i < |ordered|
    ensures Position(ordered, ordered[i]) == i + 1
  {
    if i < |ordered| - 1 {
      PositionAt(ordered[..|ordered| - 1], i);
    }
  }

  /** A complete order shows that there is no cycle. */
  lemma {:induction false} OrderedNoCycle(deps: map<Ty, set<Ty>>, ordered: seq<Ty>)
    requires NoDup(ordered) && InOrder(deps, ordered) && forall c :: c in ordered <==> c in deps
    ensures NoCycle(Live(deps))
  {
    var rank := map c | c in deps :: Position(ordered, c);
    forall c, d | Lists(Live(deps), c, d) ensures c in rank && d in rank && rank[d] < rank[c] {
      var i :| 0 <= i < |ordered| && ordered[i] == c;
      assert Lists(deps, ordered[i], d);
      var j :| 0 <= j < |ordered[..i]| && ordered[..i][j] == d;
      PositionAt(ordered, i);
      PositionAt(ordered, j);
    }
    assert LeadsDown(Live(deps), rank);
  }

  lemma {:induction false} LiveNoCycle(deps: map<Ty, set<Ty>>)
    requires NoCycle(deps)
    ensures NoCycle(Live(deps))
  {
    var rank :| LeadsDown(deps, rank);
    assert forall c, d :: Lists(Live(deps), c, d) ==> Lists(deps, c, d);
    assert LeadsDown(Live(deps), rank);
  }

  lemma {:induction false} InsertMeasure(keys: map<Ty, int>, keys': map<Ty, int>, of: Ty)
    requires of in keys && keys[of] == 2 && Advanced(keys[of := 1], keys')
    ensures Untouched(keys') < Untouched(keys)
  {
    forall c | c in Untouched(keys') ensures c in Untouched(keys) && c != of {
      assert keys'[c] == keys[of := 1][c];
    }
    assert of in Untouched(keys);
  }

  /** `ordered` holds every component once, after its dependencies. */
  ghost predicate Ordered(deps: map<Ty, set<Ty>>, ordered: seq<Ty>) {
    NoDup(ordered) && Elems(ordered) == deps.Keys && InOrder(deps, ordered)
  }

  /** Nothing is being inserted between two rounds of orderComponents. */
  lemma {:induction false} InsertNext(deps: map<Ty, set<Ty>>, keys: map<Ty, int>, keys': map<Ty, int>, rank: map<Ty, nat>, of: Ty)
    requires of in keys && Advanced(keys, keys') && of !in keys' && forall c :: c in keys ==> keys[c] == 2
    ensures keys'.Keys < keys.Keys && forall c :: c in keys' ==> keys'[c] == 2
  {
    forall c | c in keys' ensures c in keys && keys'[c] == keys[c] {}
  }

  lemma {:induction false} InsertedAll(deps: map<Ty, set<Ty>>, ordered: seq<Ty>, keys: map<Ty, int>)
    requires Inserting(deps, ordered, keys) && keys.Keys == {}
    ensures Ordered(deps, ordered) && NoCycle(Live(deps))
  {
    OrderedNoCycle(deps, ordered);
  }
}
