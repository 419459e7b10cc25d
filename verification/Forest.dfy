/** Parent maps: who is above whom, what stays acyclic, and the nearest kept ancestor. */
module Forest {

  type Id = int
  type Parents = map<Id, Id>

  /** Every parent is ranked strictly above its child. */
  ghost predicate Ranked(par: Parents, rank: map<Id, nat>) {
    forall x :: x in par ==> x in rank && par[x] in rank && rank[par[x]] < rank[x]
  }

  ghost predicate Acyclic(par: Parents) {
    exists rank :: Ranked(par, rank)
  }

  ghost function Rank(par: Parents): (rank: map<Id, nat>)
    requires Acyclic(par)
    ensures Ranked(par, rank)
  {
    var rank :| Ranked(par, rank);
    rank
  }

  ghost function Depth(par: Parents, x: Id): nat
    requires Acyclic(par)
  {
    if x in Rank(par) then Rank(par)[x] else 0
  }

  /** a is x itself or one of its ancestors. */
  ghost predicate Under(par: Parents, a: Id, x: Id)
    requires Acyclic(par)
    decreases Depth(par, x)
  {
    x == a || (x in par && Under(par, a, par[x]))
  }

  /** The closest ancestor of x that is kept; a node without parent is always kept. */
  ghost function Nearest(par: Parents, keep: set<Id>, x: Id): Id
    requires Acyclic(par) && x in par
    decreases Depth(par, x)
  {
    var p := par[x];
    if p in keep || p !in par then p else Nearest(par, keep, p)
  }

  lemma {:induction false} NoSelfParent(par: Parents, x: Id)
    requires Acyclic(par) && x in par
    ensures par[x] != x
  {
    assert Ranked(par, Rank(par));
  }

  lemma {:induction false} UnderRank(par: Parents, rank: map<Id, nat>, a: Id, x: Id)
    requires Acyclic(par) && Ranked(par, rank) && Under(par, a, x) && a != x
    ensures a in rank && x in rank && rank[a] < rank[x]
    decreases Depth(par, x)
  {
    if par[x] != a {
      UnderRank(par, rank, a, par[x]);
    }
  }

  lemma {:induction false} UnderTransitive(par: Parents, a: Id, b: Id, x: Id)
    requires Acyclic(par) && Under(par, a, b) && Under(par, b, x)
    ensures Under(par, a, x)
    decreases Depth(par, x)
  {
    if x != b {
      UnderTransitive(par, a, b, par[x]);
    }
  }

  /** Nothing is above its own parent. */
  lemma {:induction false} NotUnderChild(par: Parents, x: Id)
    requires Acyclic(par) && x in par
    ensures !Under(par, x, par[x])
  {
    if Under(par, x, par[x]) {
      NoSelfParent(par, x);
      UnderRank(par, Rank(par), x, par[x]);
    }
  }

  lemma {:induction false} SubmapAcyclic(par: Parents, par': Parents)
    requires Acyclic(par)
    requires forall x :: x in par' ==> x in par && par'[x] == par[x]
    ensures Acyclic(par')
  {
    assert Ranked(par', Rank(par));
  }

  lemma {:induction false} UnderSubmap(par: Parents, par': Parents, a: Id, x: Id)
    requires Acyclic(par) && Acyclic(par')
    requires forall y :: y in par' ==> y in par && par'[y] == par[y]
    requires Under(par', a, x)
    ensures Under(par, a, x)
    decreases Depth(par', x)
  {
    if x != a {
      UnderSubmap(par, par', a, par'[x]);
    }
  }

  ghost function GraftRank(r: map<Id, nat>, q: map<Id, nat>, nodes: set<Id>, base: nat, x: Id): nat {
    if x in nodes then (if x in q then q[x] else 0) + base else if x in r then r[x] else 0
  }

  /** Two acyclic maps over separate nodes, joined by one edge from the second to the first, stay acyclic. */
  lemma {:induction false} GraftAcyclic(par: Parents, sub: Parents, joined: Parents, nodes: set<Id>, root: Id, p: Id)
    requires Acyclic(par) && Acyclic(sub)
    requires forall x :: x in par ==> x !in nodes && par[x] !in nodes
    requires forall x :: x in sub ==> x in nodes && sub[x] in nodes
    requires root in nodes && root !in sub && p !in nodes
    requires forall x :: x in joined ==> (x == root && joined[x] == p) || (x in par && joined[x] == par[x]) || (x in sub && joined[x] == sub[x])
    ensures Acyclic(joined)
  {
    var r, q := Rank(par), Rank(sub);
    var base: nat := if p in r then r[p] + 1 else 1;
    var rank := map x | x in r.Keys + nodes + {p} :: GraftRank(r, q, nodes, base, x);
    forall x | x in joined ensures x in rank && joined[x] in rank && rank[joined[x]] < rank[x] {
      if x != root && x in sub && joined[x] == sub[x] {
        assert q[sub[x]] < q[x];
      } else if x != root {
        assert r[par[x]] < r[x];
      }
    }
    assert Ranked(joined, rank);
  }

  lemma {:induction false} AddLeafAcyclic(par: Parents, x: Id, p: Id)
    requires Acyclic(par) && x !in par && x != p && (forall y :: y in par ==> par[y] != x)
    ensures Acyclic(par[x := p])
  {
    var rank := Rank(par);
    var base: nat := if p in rank then rank[p] else 0;
    var rank' := rank[p := base][x := base + 1];
    var par' := par[x := p];
    forall y | y in par'
      ensures y in rank' && par'[y] in rank' && rank'[par'[y]] < rank'[y]
    {
      if y != x {
        assert rank[par[y]] < rank[y];
        assert rank'[y] == rank[y] && rank'[par[y]] == rank[par[y]];
      }
    }
    assert Ranked(par', rank');
  }

  /** Reparenting m under p closes no cycle exactly when p is not below m. */
  lemma {:induction false} ReparentAcyclic(par: Parents, m: Id, p: Id)
    requires Acyclic(par) && m in par
    ensures Acyclic(par[m := p]) <==> !Under(par, m, p)
  {
    var par' := par[m := p];
    if Under(par, m, p) {
      if Acyclic(par') {
        UnderAfterReparent(par, par', m, p, p);
        NotUnderChild(par', m);
      }
    } else {
      var rank := Rank(par);
      var base: nat := if p in rank then rank[p] + 1 else 1;
      var rank' := map x | x in rank.Keys + {p} ::
        if x !in rank then 0 else if Under(par, m, x) then rank[x] + base else rank[x];
      assert Ranked(par', rank');
    }
  }

  lemma {:induction false} UnderAfterReparent(par: Parents, par': Parents, m: Id, p: Id, x: Id)
    requires Acyclic(par) && Acyclic(par') && m in par && par' == par[m := p]
    requires Under(par, m, x)
    ensures Under(par', m, x)
    decreases Depth(par, x)
  {
    if x != m {
      UnderAfterReparent(par, par', m, p, par[x]);
    }
  }

  /** Taking an unkept node out, its children passing to its parent, changes no nearest kept ancestor. */
  lemma {:induction false} ContractKeepsNearest(par: Parents, par': Parents, keep: set<Id>, n: Id, x: Id)
    requires Acyclic(par) && Acyclic(par') && n in par && n !in keep
    requires par' == map y | y in par && y != n :: if par[y] == n then par[n] else par[y]
    requires x in par'
    ensures Nearest(par', keep, x) == Nearest(par, keep, x)
    decreases Depth(par, x)
  {
    var p := par'[x];
    NoSelfParent(par, n);
    assert Ranked(par, Rank(par));
    if p !in keep && p in par {
      ContractKeepsNearest(par, par', keep, n, p);
    }
  }

  /** The nearest kept ancestor is the first one: it is above x, it is kept or has no parent, and nothing between is kept. */
  lemma {:induction false} NearestIsFirst(par: Parents, keep: set<Id>, x: Id)
    requires Acyclic(par) && x in par
    ensures var n := Nearest(par, keep, x);
            && Under(par, n, par[x]) && (n in keep || n !in par)
            && forall y :: Under(par, y, par[x]) && Under(par, n, y) && y != n ==> y !in keep
    decreases Depth(par, x)
  {
    var p := par[x];
    if p in keep || p !in par {
      forall y | Under(par, y, p) && Under(par, p, y) ensures y == p {
        if y != p {
          UnderRank(par, Rank(par), y, p);
          UnderRank(par, Rank(par), p, y);
        }
      }
    } else {
      NearestIsFirst(par, keep, p);
    }
  }

  lemma {:induction false} NearestIsParent(par: Parents, keep: set<Id>, x: Id)
    requires Acyclic(par) && x in par && (par[x] in keep || par[x] !in par)
    ensures Nearest(par, keep, x) == par[x]
  {
  }

  /** A property that passes from parent to child holds everywhere below a node that has it. */
  lemma {:induction false} InductDown(par: Parents, root: Id, has: set<Id>, x: Id)
    requires Acyclic(par) && root in has && Under(par, root, x)
    requires forall y :: y in par && y != root && par[y] in has ==> y in has
    ensures x in has
    decreases Depth(par, x)
  {
    if x != root {
      InductDown(par, root, has, par[x]);
    }
  }

  /** When every node but the root has a parent, every node is below the root. */
  lemma {:induction false} AllUnderRoot(par: Parents, nodes: set<Id>, root: Id, x: Id)
    requires Acyclic(par) && x in nodes
    requires forall y :: y in nodes && y != root ==> y in par && par[y] in nodes
    ensures Under(par, root, x)
    decreases Depth(par, x)
  {
    if x != root {
      AllUnderRoot(par, nodes, root, par[x]);
    }
  }

  /** Nothing is below two different children of one node. */
  lemma {:induction false} SiblingsApart(par: Parents, n: Id, c: Id, d: Id, x: Id)
    requires Acyclic(par) && c in par && d in par && par[c] == n && par[d] == n && c != d && Under(par, c, x)
    ensures !Under(par, d, x)
    decreases Depth(par, x)
  {
    NotUnderChild(par, c);
    NotUnderChild(par, d);
    if x != c && x != d {
      SiblingsApart(par, n, c, d, par[x]);
    }
  }
}
