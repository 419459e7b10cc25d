/** The span tree as a value: its fields, what it means to be well formed, and the effect of each edit. */
module TreeModel {
  import opened Wrappers
  import opened Forest

  /** A span; parent is the span id of References[0], pseudoType the tag that marks a pseudo span, traceSource the tag that names its source. */
  datatype Span = Span(id: Id, parent: Option<Id>, pseudoType: Option<string>, traceSource: Option<string>, start: int, duration: int, logs: seq<int>)

  datatype Tree = Tree(
    spans: map<Id, Span>,         // spanMap
    children: map<Id, set<Id>>,   // childrenMap
    stack: map<Id, seq<Id>>,      // visitorStack: the unprocessed children of each entered span
    exited: set<Id>,
    root: Id)

  function ParentsOf(spans: map<Id, Span>): Parents {
    map x | x in spans && spans[x].parent.Some? :: spans[x].parent.value
  }

  function Par(t: Tree): Parents {
    ParentsOf(t.spans)
  }

  function Kids(t: Tree, p: Id): set<Id> {
    if p in t.children then t.children[p] else {}
  }

  predicate Child(t: Tree, p: Id, c: Id) {
    c in t.spans && t.spans[c].parent == Some(p)
  }

  /** References[0] is the inverse of childrenMap, and no span is above itself. */
  ghost predicate Consistent(t: Tree) {
    && (forall x :: x in t.spans ==> t.spans[x].id == x)
    && (forall p, c :: c in Kids(t, p) <==> Child(t, p, c))
    && Acyclic(Par(t))
  }

  /** Besides: the root is the only span without parent, and every parent is in the tree. */
  ghost predicate WellFormed(t: Tree) {
    && Consistent(t)
    && t.root in t.spans && t.spans[t.root].parent == None
    && (forall x :: x in t.spans && x != t.root ==> t.spans[x].parent.Some?)
    && (forall p, c :: Child(t, p, c) ==> p in t.spans)
  }

  lemma {:induction false} ParentsIn(t: Tree)
    requires forall p, c :: Child(t, p, c) ==> p in t.spans
    ensures forall x :: x in Par(t) ==> Par(t)[x] in t.spans
  {
    forall x | x in Par(t) ensures Par(t)[x] in t.spans {
      assert Child(t, Par(t)[x], x);
    }
  }

  predicate Idle(t: Tree) {
    t.stack == map[] && t.exited == {}
  }

  /** n and everything below it. */
  ghost function Subtree(t: Tree, n: Id): set<Id>
    requires Acyclic(Par(t))
  {
    set x | x in t.spans && Under(Par(t), n, x)
  }

  lemma {:induction false} Reachable(t: Tree)
    requires WellFormed(t)
    ensures Subtree(t, t.root) == t.spans.Keys
  {
    ParentsIn(t);
    forall x | x in t.spans ensures Under(Par(t), t.root, x) {
      AllUnderRoot(Par(t), t.spans.Keys, t.root, x);
    }
  }

  // ---------- NewSpanTree ----------

  /** The tree built from the first spans of a list; a parentless span read later replaces the root. */
  function Built(spans: seq<Span>): Tree {
    if spans == [] then Tree(map[], map[], map[], {}, 0) else
      var t := Built(spans[..|spans| - 1]);
      var s := spans[|spans| - 1];
      match s.parent
      case None => t.(spans := t.spans[s.id := s], root := s.id)
      case Some(p) => t.(spans := t.spans[s.id := s], children := t.children[p := Kids(t, p) + {s.id}])
  }

  predicate DistinctIds(spans: seq<Span>) {
    forall i, j :: 0 <= i < j < |spans| ==> spans[i].id != spans[j].id
  }

  lemma {:induction false} BuiltSpans(spans: seq<Span>)
    requires DistinctIds(spans)
    ensures forall i :: 0 <= i < |spans| ==> spans[i].id in Built(spans).spans && Built(spans).spans[spans[i].id] == spans[i]
    ensures forall x :: x in Built(spans).spans ==> Built(spans).spans[x].id == x && exists i :: 0 <= i < |spans| && spans[i].id == x
    ensures forall p, c :: c in Kids(Built(spans), p) <==> Child(Built(spans), p, c)
  {
    if spans != [] {
      var n := |spans| - 1;
      BuiltSpans(spans[..n]);
      var t, t' := Built(spans[..n]), Built(spans);
      assert spans[n].id !in t.spans;
      BuiltInverse(spans);
      forall i | 0 <= i < |spans| ensures spans[i].id in t'.spans && t'.spans[spans[i].id] == spans[i] {
        if i < n {
          assert spans[..n][i] == spans[i] && spans[i].id in t.spans && t.spans[spans[i].id] == spans[i] && spans[i].id != spans[n].id;
        }
      }
      forall x | x in t'.spans ensures t'.spans[x].id == x && exists i :: 0 <= i < |spans| && spans[i].id == x {
        if x != spans[n].id {
          var i :| 0 <= i < |spans[..n]| && spans[..n][i].id == x;
          assert spans[i].id == x;
        }
      }
    }
  }

  lemma {:induction false} BuiltInverse(spans: seq<Span>)
    requires spans != []
    requires var t := Built(spans[..|spans| - 1]); spans[|spans| - 1].id !in t.spans && forall p, c :: c in Kids(t, p) <==> Child(t, p, c)
    ensures forall p, c :: c in Kids(Built(spans), p) <==> Child(Built(spans), p, c)
  {
    var t, t' := Built(spans[..|spans| - 1]), Built(spans);
    forall p, c ensures c in Kids(t', p) <==> Child(t', p, c) {
      assert c in Kids(t, p) <==> Child(t, p, c);
    }
  }

  lemma {:induction false} BuiltRoot(spans: seq<Span>) returns (r: nat)
    requires exists i :: 0 <= i < |spans| && spans[i].parent == None
    ensures r < |spans| && spans[r].parent == None && Built(spans).root == spans[r].id
  {
    var n := |spans| - 1;
    if spans[n].parent == None {
      r := n;
    } else {
      var i :| 0 <= i < |spans| && spans[i].parent == None;
      assert spans[..n][i].parent == None;
      r := BuiltRoot(spans[..n]);
    }
  }

  /** Spans with distinct ids make a well-formed tree exactly when one of them alone has no parent, and following parents stays among them and never comes back. */
  lemma {:induction false} BuiltWellFormedIff(spans: seq<Span>, r: nat)
    requires DistinctIds(spans) && r < |spans| && spans[r].parent == None
    ensures WellFormed(Built(spans)) <==>
      && (forall i :: 0 <= i < |spans| && i != r ==> spans[i].parent.Some?)
      && (forall i :: 0 <= i < |spans| && spans[i].parent.Some? ==> exists j :: 0 <= j < |spans| && spans[j].id == spans[i].parent.value)
      && Acyclic(Par(Built(spans)))
  {
    var t := Built(spans);
    BuiltSpans(spans);
    var r' := BuiltRoot(spans);
    if WellFormed(t) {
      assert t.root == spans[r].id by {
        assert spans[r].id in t.spans;
      }
      assert r == r';
      forall i | 0 <= i < |spans| && spans[i].parent.Some? ensures exists j :: 0 <= j < |spans| && spans[j].id == spans[i].parent.value {
        assert Child(t, spans[i].parent.value, spans[i].id);
      }
    }
  }

  function Push(stack: map<Id, seq<Id>>, p: Id, c: Id): map<Id, seq<Id>> {
    if p in stack then stack[p := stack[p] + [c]] else stack
  }

  // ---------- Add ----------

  function AddF(t: Tree, span: Span, p: Id): Tree {
    t.(spans := t.spans[span.id := span.(parent := Some(p))],
       children := t.children[p := Kids(t, p) + {span.id}],
       stack := Push(t.stack, p, span.id))
  }

  lemma {:induction false} AddInverse(t: Tree, span: Span, p: Id)
    requires forall q, c :: c in Kids(t, q) <==> Child(t, q, c)
    requires span.id !in t.spans || Child(t, p, span.id)
    ensures var t' := AddF(t, span, p); forall q, c :: c in Kids(t', q) <==> Child(t', q, c)
  {
    var t' := AddF(t, span, p);
    forall q, c ensures c in Kids(t', q) <==> Child(t', q, c) {
      assert c in Kids(t, q) <==> Child(t, q, c);
    }
  }

  lemma {:induction false} AddWellFormed(t: Tree, span: Span, p: Id)
    requires WellFormed(t) && p in t.spans && (span.id !in t.spans || Child(t, p, span.id))
    ensures WellFormed(AddF(t, span, p))
  {
    var t' := AddF(t, span, p);
    var x := span.id;
    AddInverse(t, span, p);
    if x !in t.spans {
      ParentsIn(t);
      AddLeafAcyclic(Par(t), x, p);
      assert Par(t') == Par(t)[x := p];
    } else {
      assert Par(t') == Par(t);
    }
    forall q, c | Child(t', q, c) ensures q in t'.spans {
      assert c == x || Child(t, q, c);
    }
  }

  /** Adding keeps the tree well formed exactly when the parent is in it and the id is new, or the span is re-added in place. */
  lemma {:induction false} AddWellFormedIff(t: Tree, span: Span, p: Id)
    requires WellFormed(t)
    ensures WellFormed(AddF(t, span, p)) <==> p in t.spans && (span.id !in t.spans || Child(t, p, span.id))
  {
    var t' := AddF(t, span, p);
    var x := span.id;
    assert Child(t', p, x);
    if p in t.spans && (x !in t.spans || Child(t, p, x)) {
      AddWellFormed(t, span, p);
    } else if p == x {
      if Acyclic(Par(t')) {
        NoSelfParent(Par(t'), x);
      }
    } else if p in t.spans && x != t.root {
      var q := t.spans[x].parent.value;
      assert x in Kids(t, q);
      assert x in Kids(t', q) && !Child(t', q, x);
    }
  }

  // ---------- Move ----------

  function MoveF(t: Tree, m: Id, p: Id): Tree
    requires m in t.spans && t.spans[m].parent.Some?
  {
    var from := t.spans[m].parent.value;
    var added := t.children[p := Kids(t, p) + {m}];
    t.(spans := t.spans[m := t.spans[m].(parent := Some(p))],
       children := if from in added then added[from := added[from] - {m}] else added,
       stack := Push(t.stack, p, m))
  }

  /**
   Moving keeps the tree well formed exactly when the new parent is in the tree, is not below the moved span,
   and is not its parent already: in that last case the span is taken out of the children it was just put into.
   */
  lemma {:induction false} MoveWellFormedIff(t: Tree, m: Id, p: Id)
    requires WellFormed(t) && m in t.spans && m != t.root
    ensures WellFormed(MoveF(t, m, p)) <==> p in t.spans && !Child(t, p, m) && !Under(Par(t), m, p)
  {
    var t' := MoveF(t, m, p);
    var from := t.spans[m].parent.value;
    assert Par(t') == Par(t)[m := p];
    ReparentAcyclic(Par(t), m, p);
    assert m in Kids(t, from);
    if Child(t, p, m) {
      assert m !in Kids(t', p) && Child(t', p, m);
    } else if p in t.spans && !Under(Par(t), m, p) {
      forall q, c ensures c in Kids(t', q) <==> Child(t', q, c) {
        assert c in Kids(t, q) <==> Child(t, q, c);
      }
      forall q, c | Child(t', q, c) ensures q in t'.spans {
        assert c == m || Child(t, q, c);
      }
      assert WellFormed(t');
    } else {
      assert Child(t', p, m);
    }
  }

  // ---------- Delete ----------

  /** t' is t without the subtree of n. */
  ghost predicate Deleted(t: Tree, t': Tree, n: Id)
    requires Acyclic(Par(t))
  {
    var gone := Subtree(t, n);
    && t'.spans == t.spans - gone
    && (forall q :: Kids(t', q) == if q in gone then {} else Kids(t, q) - {n})
    && t'.stack == t.stack && t'.exited == t.exited && t'.root == t.root
  }

  lemma {:induction false} SubtreeClosed(t: Tree, n: Id, x: Id)
    requires Acyclic(Par(t)) && x in Par(t) && Par(t)[x] in Subtree(t, n)
    ensures x in Subtree(t, n)
  {
  }

  lemma {:induction false} DeleteConsistent(t: Tree, t': Tree, n: Id)
    requires Consistent(t) && n in t.spans && Deleted(t, t', n)
    ensures Consistent(t') && Par(t') == Par(t) - Subtree(t, n)
  {
    var gone := Subtree(t, n);
    assert Par(t') == Par(t) - gone;
    SubmapAcyclic(Par(t), Par(t'));
    forall q, c ensures c in Kids(t', q) <==> Child(t', q, c) {
      assert c in Kids(t, q) <==> Child(t, q, c);
      if Child(t, q, c) {
        assert Par(t)[c] == q;
        if q in t.spans && q in gone {
          SubtreeClosed(t, n, c);
        }
        if c in gone && c != n {
          assert Under(Par(t), n, q);
        }
      }
    }
  }

  /** Deleting a span other than the root keeps the tree well formed. */
  lemma {:induction false} DeleteWellFormed(t: Tree, t': Tree, n: Id)
    requires WellFormed(t) && n in t.spans && n != t.root && Deleted(t, t', n)
    ensures WellFormed(t')
  {
    DeleteConsistent(t, t', n);
    assert t.root !in Par(t);
    assert t.root !in Subtree(t, n);
    forall x | x in t'.spans && x != t.root
      ensures t'.spans[x].parent.Some? && t'.spans[x].parent.value in t'.spans
    {
      ParentStays(t, t', n, x);
    }
  }

  /** The parent of a span that is left is left as well. */
  lemma {:induction false} ParentStays(t: Tree, t': Tree, n: Id, x: Id)
    requires WellFormed(t) && n in t.spans && Deleted(t, t', n) && x in t'.spans && x != t.root
    ensures x in t.spans && t'.spans[x].parent.Some? && t'.spans[x].parent.value in t'.spans
  {
    assert x in t.spans && x !in Subtree(t, n) && t'.spans[x] == t.spans[x];
    var p := t.spans[x].parent.value;
    assert Child(t, p, x) && Par(t)[x] == p;
    if p in Subtree(t, n) {
      SubtreeClosed(t, n, x);
    }
  }

  // ---------- SetRoot ----------

  /** t' keeps exactly the subtree of n, with n as the root. */
  ghost predicate Rerooted(t: Tree, t': Tree, n: Id)
    requires Acyclic(Par(t)) && n in t.spans
  {
    var kept := Subtree(t, n);
    && t'.spans.Keys == kept
    && (forall x :: x in kept ==> t'.spans[x] == if x == n then t.spans[x].(parent := None) else t.spans[x])
    && (forall q :: Kids(t', q) == if q in kept then Kids(t, q) else {})
    && t'.stack == t.stack && t'.exited == t.exited && t'.root == n
  }

  lemma {:induction false} RerootInverse(t: Tree, t': Tree, n: Id)
    requires WellFormed(t) && n in t.spans && Rerooted(t, t', n)
    ensures forall q, c :: c in Kids(t', q) <==> Child(t', q, c)
    ensures forall q, c :: Child(t', q, c) ==> q in t'.spans
  {
    forall q, c ensures (c in Kids(t', q) <==> Child(t', q, c)) && (Child(t', q, c) ==> q in t'.spans) {
      assert c in Kids(t, q) <==> Child(t, q, c);
      if Child(t, q, c) {
        assert Par(t)[c] == q;
        if c == n {
          NotUnderChild(Par(t), n);
        }
      }
    }
  }

  lemma {:induction false} RerootWellFormed(t: Tree, t': Tree, n: Id)
    requires WellFormed(t) && n in t.spans && Rerooted(t, t', n)
    ensures WellFormed(t')
  {
    RerootInverse(t, t', n);
    RerootParents(t, t', n);
  }

  lemma {:induction false} RerootParents(t: Tree, t': Tree, n: Id)
    requires WellFormed(t) && n in t.spans && Rerooted(t, t', n)
    ensures Acyclic(Par(t')) && n in t'.spans && forall x :: x in t'.spans && x != n ==> t'.spans[x].parent.Some?
  {
    assert n in Subtree(t, n);
    forall x | x in t'.spans && x != n ensures x in Par(t) && t'.spans[x] == t.spans[x] {
      assert x in Subtree(t, n) && Under(Par(t), n, x);
    }
    SubmapAcyclic(Par(t), Par(t'));
  }

  // ---------- AddTree ----------

  /** t' is t with the whole of u hung below p. */
  ghost predicate Grafted(t: Tree, t': Tree, u: Tree, p: Id)
    requires u.root in u.spans
  {
    && t'.spans.Keys == t.spans.Keys + u.spans.Keys
    && (forall x :: x in u.spans ==> t'.spans[x] == if x == u.root then u.spans[x].(parent := Some(p)) else u.spans[x])
    && (forall x :: x in t.spans && x !in u.spans ==> t'.spans[x] == t.spans[x])
    && (forall q :: Kids(t', q) == Kids(t, q) + Kids(u, q) + (if q == p then {u.root} else {}))
    && t'.stack == Push(t.stack, p, u.root) && t'.exited == t.exited && t'.root == t.root
  }

  lemma {:induction false} GraftChildren(t: Tree, t': Tree, u: Tree, p: Id)
    requires u.root in u.spans && u.spans[u.root].parent == None && Grafted(t, t', u, p)
    requires forall x :: x in t.spans ==> x !in u.spans
    ensures forall q, c :: Child(t', q, c) <==> Child(t, q, c) || Child(u, q, c) || (q == p && c == u.root)
  {
  }

  lemma {:induction false} RootHasNone(t: Tree)
    requires WellFormed(t)
    ensures t.root in t.spans && t.spans[t.root].parent == None
  {
  }

  lemma {:induction false} Inverted(t: Tree)
    requires WellFormed(t)
    ensures forall q, c :: c in Kids(t, q) <==> Child(t, q, c)
  {
  }

  lemma {:induction false} GraftInverse(t: Tree, t': Tree, u: Tree, p: Id)
    requires WellFormed(t) && WellFormed(u) && Grafted(t, t', u, p)
    requires forall x :: x in t.spans ==> x !in u.spans
    ensures forall q, c :: c in Kids(t', q) <==> Child(t', q, c)
  {
    hide WellFormed, Kids, Child;
    GraftChildren(t, t', u, p) by { RootHasNone(u); }
    Inverted(t);
    Inverted(u);
    forall q, c ensures c in Kids(t', q) <==> Child(t', q, c) {
      assert c in Kids(t, q) <==> Child(t, q, c);
      assert c in Kids(u, q) <==> Child(u, q, c);
    }
  }

  lemma {:induction false} GraftParents(t: Tree, t': Tree, u: Tree, p: Id)
    requires WellFormed(t) && WellFormed(u) && Grafted(t, t', u, p) && p in t.spans
    requires forall x :: x in t.spans ==> x !in u.spans
    ensures Acyclic(Par(t'))
  {
    ParentsIn(t);
    ParentsIn(u);
    GraftChildren(t, t', u, p);
    forall x | x in Par(t')
      ensures (x == u.root && Par(t')[x] == p) || (x in Par(t) && Par(t')[x] == Par(t)[x]) || (x in Par(u) && Par(t')[x] == Par(u)[x])
    {
      assert Child(t', Par(t')[x], x);
    }
    GraftAcyclic(Par(t), Par(u), Par(t'), u.spans.Keys, u.root, p);
  }

  lemma {:induction false} GraftWellFormed(t: Tree, t': Tree, u: Tree, p: Id)
    requires WellFormed(t) && WellFormed(u) && Grafted(t, t', u, p) && p in t.spans
    requires forall x :: x in t.spans ==> x !in u.spans
    ensures WellFormed(t')
  {
    GraftChildren(t, t', u, p);
    GraftInverse(t, t', u, p);
    GraftParents(t, t', u, p);
    GraftRoots(t, t', u, p);
  }

  lemma {:induction false} GraftRoots(t: Tree, t': Tree, u: Tree, p: Id)
    requires WellFormed(t) && WellFormed(u) && Grafted(t, t', u, p)
    requires forall x :: x in t.spans ==> x !in u.spans
    ensures (forall x :: x in t'.spans ==> t'.spans[x].id == x) && t'.root in t'.spans && t'.spans[t'.root].parent == None
    ensures forall x :: x in t'.spans && x != t'.root ==> t'.spans[x].parent.Some?
  {
    hide Acyclic, Child, Kids;
  }
}
