/** What each visitor does to the tree, step by step and over a whole visit. */
module Visitors {
  import opened Wrappers
  import opened Forest
  import opened MapOrder
  import opened TreeModel
  import opened Traversal
  import opened GoIntegers

  // ---------- ExtractNestingVisitor ----------

  predicate Matched(matches: string -> bool, span: Span) {
    span.pseudoType.Some? && matches(span.pseudoType.value)
  }

  /** The root and the spans the filter does not match. */
  function Keepers(matches: string -> bool, t: Tree): set<Id> {
    set x | x in t.spans && (x == t.root || !Matched(matches, t.spans[x]))
  }

  /** t is t0 with the children `order` of n moved up to p. */
  ghost predicate Lifted(t0: Tree, t: Tree, n: Id, p: Id, order: seq<Id>) {
    && t.spans.Keys == t0.spans.Keys
    && (forall x :: x in t0.spans ==> t.spans[x] == if x in order then t0.spans[x].(parent := Some(p)) else t0.spans[x])
    && (forall q :: Kids(t, q) ==
          if q == p then Kids(t0, q) + Elems(order) else if q == n then Kids(t0, q) - Elems(order) else Kids(t0, q))
    && p in t0.stack && t.stack == t0.stack[p := t0.stack[p] + order]
    && t.exited == t0.exited && t.root == t0.root
  }

  lemma {:induction false} LiftKids(t0: Tree, t: Tree, n: Id, p: Id, order: seq<Id>, c: Id)
    requires Lifted(t0, t, n, p, order) && n != p && c in t.spans && t.spans[c].parent == Some(n)
    ensures forall q :: Kids(MoveF(t, c, p), q) ==
              if q == p then Kids(t0, q) + Elems(order + [c]) else if q == n then Kids(t0, q) - Elems(order + [c]) else Kids(t0, q)
  {
    ElemsAppend(order, c);
  }

  /** Moving one more child up. */
  lemma {:induction false} LiftOne(t0: Tree, t: Tree, n: Id, p: Id, order: seq<Id>, c: Id)
    requires Lifted(t0, t, n, p, order) && n != p
    requires c in t0.spans && Child(t0, n, c) && c !in order
    ensures c in t.spans && t.spans[c].parent == Some(n)
    ensures Lifted(t0, MoveF(t, c, p), n, p, order + [c])
  {
    LiftKids(t0, t, n, p, order, c);
    hide Kids;
    var t' := MoveF(t, c, p);
    assert forall x :: x in order + [c] <==> x in order || x == c;
    assert t0.stack[p] + order + [c] == t0.stack[p] + (order + [c]);
    assert t'.stack == t0.stack[p := t0.stack[p] + (order + [c])];
  }

  /** What is needed of the span whose children are lifted. */
  ghost predicate Liftable(t0: Tree, n: Id, p: Id, order: seq<Id>) {
    && EngineOk(t0, {}) && Visitable(t0, n, {}) && Child(t0, p, n)
    && NoDup(order) && Elems(order) == Kids(t0, n)
  }

  lemma {:induction false} LiftedParents(t0: Tree, t: Tree, n: Id, p: Id, order: seq<Id>)
    requires Liftable(t0, n, p, order) && Lifted(t0, t, n, p, order)
    ensures p != n && n != t0.root && p in t0.stack
    ensures forall q, c :: Child(t, q, c) <==> if Child(t0, n, c) then q == p else Child(t0, q, c)
    ensures Acyclic(Par(t))
  {
    assert Par(t0)[n] == p;
    NoSelfParent(Par(t0), n);
    forall c ensures c in order <==> Child(t0, n, c) {
      assert c in Kids(t0, n) <==> Child(t0, n, c);
      assert c in order <==> c in Elems(order);
    }
    var rank := Rank(Par(t0));
    forall x | x in Par(t) ensures x in rank && Par(t)[x] in rank && rank[Par(t)[x]] < rank[x] {
      assert x in Par(t0) && rank[Par(t0)[x]] < rank[x] && rank[p] < rank[n];
    }
    assert Ranked(Par(t), rank);
  }

  lemma {:induction false} LiftedInverse(t0: Tree, t: Tree, n: Id, p: Id, order: seq<Id>)
    requires Lifted(t0, t, n, p, order) && p != n && Elems(order) == Kids(t0, n)
    requires forall q, c :: c in Kids(t0, q) <==> Child(t0, q, c)
    requires forall q, c :: Child(t, q, c) <==> if Child(t0, n, c) then q == p else Child(t0, q, c)
    ensures forall q, c :: c in Kids(t, q) <==> Child(t, q, c)
  {
    forall q, c ensures c in Kids(t, q) <==> Child(t, q, c) {
      assert c in Kids(t0, q) <==> Child(t0, q, c);
      assert c in Kids(t0, n) <==> Child(t0, n, c);
      assert Child(t0, n, c) && Child(t0, q, c) ==> q == n;
    }
  }

  lemma {:induction false} ChildlessAlone(t: Tree, n: Id)
    requires Acyclic(Par(t)) && forall c :: !Child(t, n, c)
    ensures forall x :: x in Subtree(t, n) ==> x == n
  {
    assert forall y :: y in Par(t) ==> Child(t, Par(t)[y], y);
    forall x | x in Subtree(t, n) ensures x == n {
      LeafAlone(Par(t), n, x);
    }
  }

  lemma {:induction false} LiftedConsistent(t0: Tree, t: Tree, n: Id, p: Id, order: seq<Id>)
    requires Liftable(t0, n, p, order) && Lifted(t0, t, n, p, order)
    ensures Consistent(t) && forall c :: !Child(t, n, c)
    ensures forall x :: x in Subtree(t, n) ==> x == n
  {
    hide Region, Entries, Queues, Visitable, Lifted;
    LiftedParents(t0, t, n, p, order);
    RegionInverse(t0);
    LiftedInverse(t0, t, n, p, order);
    LiftedIds(t0, t, n, p, order);
    NoneBelow(t0, t, n, p);
    ChildlessAlone(t, n);
  }

  lemma {:induction false} LiftedIds(t0: Tree, t: Tree, n: Id, p: Id, order: seq<Id>)
    requires Region(t0, {}) && Lifted(t0, t, n, p, order)
    ensures forall x :: x in t.spans ==> t.spans[x].id == x
  {
  }

  lemma {:induction false} NoneBelow(t0: Tree, t: Tree, n: Id, p: Id)
    requires p != n && forall q, c :: Child(t, q, c) <==> if Child(t0, n, c) then q == p else Child(t0, q, c)
    ensures forall c :: !Child(t, n, c)
  {
  }

  lemma {:induction false} RegionInverse(t: Tree)
    requires Region(t, {})
    ensures forall q, c :: c in Kids(t, q) <==> Child(t, q, c)
  {
    forall q, c ensures c in Kids(t, q) <==> Child(t, q, c) {
      assert q !in {};
    }
  }

  /** From before Enter to after it when the span was matched: its children moved up, itself gone. */
  lemma {:induction false} ExtractedShape(t0: Tree, t: Tree, t': Tree, n: Id, p: Id, order: seq<Id>)
    requires Liftable(t0, n, p, order) && Lifted(t0, t, n, p, order) && LeafGone(t, t', n)
    ensures forall q, c :: Child(t', q, c) <==> if Child(t0, n, c) then q == p else c != n && Child(t0, q, c)
    ensures forall x :: Entered(t', x) <==> Entered(t0, x)
    ensures t'.spans.Keys == t0.spans.Keys - {n} && !Entered(t0, n) && !Child(t0, n, n)
  {
    LiftedParents(t0, t, n, p, order);
    hide Region, Entries, Queues;
    assert forall q, c :: Child(t', q, c) <==> Child(t, q, c) && c != n;
  }

  lemma {:induction false} ExtractedParents(t0: Tree, t: Tree, t': Tree, n: Id, p: Id, order: seq<Id>)
    requires Liftable(t0, n, p, order) && Lifted(t0, t, n, p, order) && LeafGone(t, t', n)
    ensures n in Par(t0) && Par(t0)[n] == p
    ensures Par(t') == map y | y in Par(t0) && y != n :: if Par(t0)[y] == n then p else Par(t0)[y]
  {
    hide EngineOk, Visitable, Lifted, LeafGone, Entered;
    ExtractedShape(t0, t, t', n, p, order);
    ContractedParents(t0, t', n, p);
  }

  lemma {:induction false} ContractedParents(t0: Tree, t': Tree, n: Id, p: Id)
    requires Child(t0, p, n) && !Child(t0, n, n)
    requires forall q, c :: Child(t', q, c) <==> if Child(t0, n, c) then q == p else c != n && Child(t0, q, c)
    ensures n in Par(t0) && Par(t0)[n] == p
    ensures Par(t') == map y | y in Par(t0) && y != n :: if Par(t0)[y] == n then p else Par(t0)[y]
  {
    var par := Par(t0);
    forall y ensures y in Par(t') <==> y in par && y != n {
      if y in Par(t') { assert Child(t', Par(t')[y], y); }
      if y in par {
        assert Child(t0, par[y], y);
        assert y != n ==> Child(t', if Child(t0, n, y) then p else par[y], y);
      }
    }
    forall y | y in Par(t') ensures Par(t')[y] == if par[y] == n then p else par[y] {
      assert Child(t', Par(t')[y], y) && Child(t0, par[y], y);
    }
  }

  lemma {:induction false} ExtractedRegion(t0: Tree, t: Tree, t': Tree, n: Id, p: Id, order: seq<Id>)
    requires Liftable(t0, n, p, order) && Lifted(t0, t, n, p, order) && LeafGone(t, t', n)
    ensures Region(t', {})
  {
    LiftedParents(t0, t, n, p, order);
    LiftedConsistent(t0, t, n, p, order);
    assert Region(t, {});
    LeafGoneRegion(t, t', n);
  }

  lemma {:induction false} ExtractedEntries(t0: Tree, t: Tree, t': Tree, n: Id, p: Id, order: seq<Id>)
    requires Liftable(t0, n, p, order) && Lifted(t0, t, n, p, order) && LeafGone(t, t', n)
    ensures Entries(t', {})
  {
    ExtractedShape(t0, t, t', n, p, order);
    forall c | Child(t0, n, c) ensures !Entered(t0, c) {
      ChildrenUnentered(t0, n, c, {});
    }
  }

  lemma {:induction false} ExtractedQueue(t0: Tree, t: Tree, t': Tree, n: Id, p: Id, order: seq<Id>)
    requires Liftable(t0, n, p, order) && Lifted(t0, t, n, p, order) && LeafGone(t, t', n)
    ensures p in t0.stack && Queues(t', {})
    ensures t'.stack == t0.stack[p := t0.stack[p] + order]
    ensures forall i :: |t0.stack[p]| <= i < |t'.stack[p]| ==> !Child(t0, p, t'.stack[p][i])
  {
    ExtractedShape(t0, t, t', n, p, order);
    ExtractedStack(t0, t, t', n, p, order);
    OrderNew(t0, n, p, order);
    hide Lifted, LeafGone, Region, Entries, Visitable;
    QueuesLonger(t0, t', n, p, order);
  }

  lemma {:induction false} ExtractedStack(t0: Tree, t: Tree, t': Tree, n: Id, p: Id, order: seq<Id>)
    requires Liftable(t0, n, p, order) && Lifted(t0, t, n, p, order) && LeafGone(t, t', n)
    ensures p in t0.stack && t'.stack == t0.stack[p := t0.stack[p] + order]
    ensures t'.root == t0.root && t'.exited == t0.exited
    ensures forall x :: x in t'.spans && !Child(t0, n, x) ==> t'.spans[x].parent == t0.spans[x].parent
  {
    forall x | x in order ensures Child(t0, n, x) {
      assert x in Elems(order);
    }
  }

  /** The children that are moved up are on no list yet. */
  lemma {:induction false} OrderNew(t0: Tree, n: Id, p: Id, order: seq<Id>)
    requires Liftable(t0, n, p, order) && p in t0.stack
    ensures forall c :: c in order ==> Child(t0, n, c) && !Entered(t0, c) && c !in t0.stack[p] && !Child(t0, p, c)
  {
    assert Par(t0)[n] == p;
    NoSelfParent(Par(t0), n);
    forall c | c in order ensures Child(t0, n, c) && !Entered(t0, c) && c !in t0.stack[p] && !Child(t0, p, c) {
      assert c in Elems(order);
      ChildrenUnentered(t0, n, c, {});
    }
  }

  lemma {:induction false} QueuesLonger(t0: Tree, t': Tree, n: Id, p: Id, order: seq<Id>)
    requires Queues(t0, {}) && p in t0.stack && NoDup(order) && !Entered(t0, n) && n !in t0.stack[p] && Child(t0, p, n)
    requires t'.stack == t0.stack[p := t0.stack[p] + order] && forall x :: Entered(t', x) <==> Entered(t0, x)
    requires forall q, c :: Child(t', q, c) <==> if Child(t0, n, c) then q == p else c != n && Child(t0, q, c)
    requires forall c :: c in order ==> Child(t0, n, c) && !Entered(t0, c) && c !in t0.stack[p] && !Child(t0, p, c)
    ensures Queues(t', {})
    ensures forall i :: |t0.stack[p]| <= i < |t'.stack[p]| ==> !Child(t0, p, t'.stack[p][i])
  {
    var q, q' := t0.stack[p], t'.stack[p];
    forall i, j | 0 <= i < j < |q'| ensures q'[i] != q'[j] {
      if j >= |q| {
        assert q'[j] == order[j - |q|] && order[j - |q|] in order;
        if i >= |q| {
          assert q'[i] == order[i - |q|];
        } else {
          assert q'[i] == q[i] && q[i] in q;
        }
      }
    }
    forall s, c | s in t'.stack && c in t'.stack[s] ensures Child(t', s, c) && !Entered(t', c) {
      if s != p || c in q {
        assert Child(t0, s, c) && !Entered(t0, c) && c in t0.stack[s];
        assert s == p ==> c != n;
        assert Entered(t0, s);
      } else {
        assert c in order;
      }
    }
    forall i | |q| <= i < |q'| ensures !Child(t0, p, q'[i]) {
      assert q'[i] == order[i - |q|];
    }
  }

  lemma {:induction false} ExtractedFrame(t0: Tree, t: Tree, t': Tree, n: Id, p: Id, order: seq<Id>)
    requires Liftable(t0, n, p, order) && Lifted(t0, t, n, p, order) && LeafGone(t, t', n)
    ensures Frame(t0, t', n)
  {
    ExtractedShape(t0, t, t', n, p, order);
    ExtractedQueue(t0, t, t', n, p, order);
    ExtractedStack(t0, t, t', n, p, order);
    forall c | Child(t0, n, c) ensures !Entered(t0, c) && c in order {
      ChildrenUnentered(t0, n, c, {});
      assert c in Elems(order);
    }
    hide Lifted, LeafGone, Visitable, Queues, Region, Frame;
    FrameOfMoved(t0, t', n, p, order);
  }

  lemma {:induction false} FrameOfMoved(t0: Tree, t': Tree, n: Id, p: Id, order: seq<Id>)
    requires (forall x :: Entered(t0, x) ==> x in t0.spans) && p in t0.stack && !Entered(t0, n) && Child(t0, p, n)
    requires t'.root == t0.root && t'.exited == t0.exited && t'.spans.Keys == t0.spans.Keys - {n}
    requires t'.stack == t0.stack[p := t0.stack[p] + order] && forall x :: Entered(t', x) <==> Entered(t0, x)
    requires forall q, c :: Child(t', q, c) <==> if Child(t0, n, c) then q == p else c != n && Child(t0, q, c)
    requires forall c :: Child(t0, n, c) ==> !Entered(t0, c) && c in order
    requires forall x :: x in t'.spans && !Child(t0, n, x) ==> t'.spans[x].parent == t0.spans[x].parent
    requires forall i :: |t0.stack[p]| <= i < |t'.stack[p]| ==> !Child(t0, p, t'.stack[p][i])
    ensures Frame(t0, t', n)
  {
    forall x, s | s in t0.stack && Child(t', s, x) ensures Child(t0, s, x) || x in t'.stack[s] {
      if Child(t0, n, x) {
        assert s == p && x in order;
      }
    }
    forall x, q | Child(t0, q, x) && Entered(t0, q) && x != n && !Entered(t0, x) ensures Child(t', q, x) && !Entered(t', x) {
      assert !Child(t0, n, x);
    }
  }

  lemma {:induction false} ExtractedOk(t0: Tree, t: Tree, t': Tree, n: Id, p: Id, order: seq<Id>)
    requires Liftable(t0, n, p, order) && Lifted(t0, t, n, p, order) && LeafGone(t, t', n)
    ensures EngineOk(t', {}) && Frame(t0, t', n)
  {
    ExtractedRegion(t0, t, t', n, p, order);
    ExtractedEntries(t0, t, t', n, p, order);
    ExtractedQueue(t0, t, t', n, p, order);
    ExtractedFrame(t0, t, t', n, p, order);
  }

  /** What extraction never changes: the keepers, what spans carry, and every nearest keeper above. */
  ghost predicate ExtractRel(matches: string -> bool, t: Tree, t': Tree) {
    var keep := Keepers(matches, t);
    && t'.root == t.root && Acyclic(Par(t)) && Acyclic(Par(t'))
    && keep <= t'.spans.Keys <= t.spans.Keys
    && (forall x :: x in t'.spans ==> t'.spans[x] == t.spans[x].(parent := t'.spans[x].parent))
    && (forall x :: x in Par(t') <==> x in Par(t) && x in t'.spans)
    && (forall x :: x in Par(t') ==> Nearest(Par(t'), keep, x) == Nearest(Par(t), keep, x))
  }

  /** Every entered span is a keeper: a matched one is gone before it is pushed. */
  ghost predicate ExtractInv(matches: string -> bool, t: Tree) {
    forall x :: Entered(t, x) ==> x in Keepers(matches, t)
  }

  lemma {:induction false} ExtractRelTransitive(matches: string -> bool, a: Tree, b: Tree, c: Tree)
    requires ExtractRel(matches, a, b) && ExtractRel(matches, b, c)
    ensures ExtractRel(matches, a, c)
  {
    assert Keepers(matches, b) == Keepers(matches, a);
  }

  lemma {:induction false} ExtractedRel(matches: string -> bool, t0: Tree, t: Tree, t': Tree, n: Id, p: Id, order: seq<Id>)
    requires Liftable(t0, n, p, order) && Lifted(t0, t, n, p, order) && LeafGone(t, t', n)
    requires Matched(matches, t0.spans[n]) && n != t0.root
    ensures ExtractRel(matches, t0, t')
  {
    var keep := Keepers(matches, t0);
    ExtractedParents(t0, t, t', n, p, order);
    ExtractedRegion(t0, t, t', n, p, order);
    forall x | x in Par(t') ensures Nearest(Par(t'), keep, x) == Nearest(Par(t0), keep, x) {
      ContractKeepsNearest(Par(t0), Par(t'), keep, n, x);
    }
    forall x | x in t'.spans ensures t'.spans[x] == t0.spans[x].(parent := t'.spans[x].parent) {}
  }

  /** Exactly the keepers are left, each below the nearest keeper that was above it. */
  ghost predicate ExtractResult(matches: string -> bool, t: Tree, t': Tree)
    requires WellFormed(t)
  {
    var keep := Keepers(matches, t);
    && t'.spans.Keys == keep
    && forall x :: x in keep ==>
        t'.spans[x] == t.spans[x].(parent := if x == t.root then None else Some(Nearest(Par(t), keep, x)))
  }

  lemma {:induction false} ExtractDone(matches: string -> bool, t: Tree, t': Tree)
    requires WellFormed(t) && WellFormed(t') && ExtractRel(matches, t, t')
    requires t'.spans.Keys <= Keepers(matches, t')
    ensures ExtractResult(matches, t, t')
  {
    var keep := Keepers(matches, t);
    assert Keepers(matches, t') == keep;
    forall x | x in keep && x != t.root
      ensures t'.spans[x].parent == Some(Nearest(Par(t), keep, x))
    {
      assert x in Par(t');
      assert Child(t', Par(t')[x], x);
      NearestIsParent(Par(t'), keep, x);
    }
  }

  /** x is a pseudo span of one of the kinds to be taken out. */
  predicate OfKind(matches: string -> bool, t: Tree, x: Id, kind: string) {
    x in t.spans && t.spans[x].pseudoType == Some(kind) && matches(kind)
  }

  /** Which spans are gone: those with a pseudo type that matches, but never the root; where there is no pseudo type nothing goes. */
  lemma {:induction false} ExtractedIff(matches: string -> bool, t: Tree, t': Tree, x: Id)
    requires WellFormed(t) && ExtractResult(matches, t, t') && x in t.spans
    ensures x !in t'.spans <==> x != t.root && exists kind :: OfKind(matches, t, x, kind)
    ensures t.spans[x].pseudoType == None ==> x in t'.spans
  {
    if t.spans[x].pseudoType.Some? {
      assert OfKind(matches, t, x, t.spans[x].pseudoType.value) <==> matches(t.spans[x].pseudoType.value);
    }
  }

  /** Where a span that is left hangs: below the first of the spans above it that is left as well. */
  lemma {:induction false} ExtractedParent(matches: string -> bool, t: Tree, t': Tree, x: Id)
    requires WellFormed(t) && ExtractResult(matches, t, t') && x in t'.spans && x != t.root
    ensures t'.spans[x].parent.Some? && t.spans[x].parent.Some?
    ensures var p, up := t'.spans[x].parent.value, t.spans[x].parent.value;
            && p in t'.spans && Under(Par(t), p, up)
            && forall y :: Under(Par(t), p, y) && Under(Par(t), y, up) && y != p ==> y !in t'.spans
  {
    var keep := Keepers(matches, t);
    assert x in Par(t) && Child(t, Par(t)[x], x);
    var p := Nearest(Par(t), keep, x);
    NearestIsFirst(Par(t), keep, x);
    AncestorsStay(t, p, Par(t)[x]);
  }

  /** What is above a span of a well-formed tree is in the tree. */
  lemma {:induction false} AncestorsStay(t: Tree, a: Id, x: Id)
    requires WellFormed(t) && x in t.spans && Under(Par(t), a, x)
    ensures a in t.spans && (a !in Par(t) ==> a == t.root)
    decreases Depth(Par(t), x)
  {
    if a != x {
      assert Child(t, Par(t)[x], x);
      AncestorsStay(t, a, Par(t)[x]);
    }
  }

  // ---------- PruneChildlessVisitor ----------

  predicate Pseudo(span: Span) {
    span.pseudoType.Some?
  }

  /** Pruning takes away pseudo spans other than the root, and only when all their children are gone. */
  ghost predicate PruneRel(t: Tree, t': Tree) {
    && t'.root == t.root
    && (forall x :: x in t'.spans ==> x in t.spans && t'.spans[x] == t.spans[x])
    && (forall x :: x in t.spans && x !in t'.spans ==> Pseudo(t.spans[x]) && x != t.root)
    && (forall x, c :: x in t.spans && x !in t'.spans && Child(t, x, c) ==> c !in t'.spans)
  }

  /** A pseudo span that has exited and was not pruned has a child. */
  ghost predicate PruneInv(t: Tree) {
    forall x :: x in t.exited && x in t.spans && Pseudo(t.spans[x]) && x != t.root ==> exists c :: Child(t, x, c)
  }

  lemma {:induction false} PruneRelTransitive(a: Tree, b: Tree, c: Tree)
    requires PruneRel(a, b) && PruneRel(b, c)
    ensures PruneRel(a, c)
  {
    forall x, k | x in a.spans && x !in c.spans && Child(a, x, k) ensures k !in c.spans {
      if x in b.spans && k in b.spans {
        assert Child(b, x, k);
      }
    }
  }

  /** x or something below it is not pseudo. */
  ghost predicate LeadsToEvent(t: Tree, x: Id)
    requires Acyclic(Par(t))
  {
    exists y :: y in t.spans && !Pseudo(t.spans[y]) && Under(Par(t), x, y)
  }

  /** Exactly the root and the spans that lead to a non-pseudo span are left, unchanged. */
  ghost predicate PruneResult(t: Tree, t': Tree)
    requires Acyclic(Par(t))
  {
    && (forall x :: x in t'.spans <==> x in t.spans && (x == t.root || LeadsToEvent(t, x)))
    && (forall x :: x in t'.spans ==> t'.spans[x] == t.spans[x])
  }

  /** A pruned span takes everything below it along. */
  lemma {:induction false} PrunedBelow(t: Tree, t': Tree, x: Id, y: Id)
    requires WellFormed(t) && PruneRel(t, t') && x in t.spans && x !in t'.spans
    requires y in t.spans && Under(Par(t), x, y)
    ensures y !in t'.spans
    decreases Depth(Par(t), y)
  {
    if y != x {
      assert Child(t, Par(t)[y], y);
      PrunedBelow(t, t', x, Par(t)[y]);
    }
  }

  /** Going down from a pseudo span that was left one meets a span that is not pseudo. */
  lemma {:induction false} EventBelow(t: Tree, x: Id) returns (y: Id)
    requires WellFormed(t) && x in t.spans && x != t.root
    requires forall z :: z in t.spans && Pseudo(t.spans[z]) && z != t.root ==> exists c :: Child(t, z, c)
    ensures y in t.spans && !Pseudo(t.spans[y]) && Under(Par(t), x, y)
    decreases Height(t, x)
  {
    if !Pseudo(t.spans[x]) {
      y := x;
    } else {
      var c :| Child(t, x, c);
      assert Par(t)[c] == x;
      HeightFalls(t, x, c);
      y := EventBelow(t, c);
      assert Under(Par(t), x, c);
      UnderTransitive(Par(t), x, c, y);
    }
  }

  /** Spans ranked strictly below x. */
  ghost function Height(t: Tree, x: Id): set<Id>
    requires Acyclic(Par(t))
  {
    set y | y in t.spans && y in Rank(Par(t)) && x in Rank(Par(t)) && Rank(Par(t))[y] > Rank(Par(t))[x]
  }

  lemma {:induction false} HeightFalls(t: Tree, x: Id, c: Id)
    requires Acyclic(Par(t)) && Child(t, x, c)
    ensures Height(t, c) < Height(t, x)
  {
    assert Par(t)[c] == x && Ranked(Par(t), Rank(Par(t)));
    assert c in Height(t, x) && c !in Height(t, c);
  }

  lemma {:induction false} SameParents(t: Tree, t': Tree, x: Id, y: Id)
    requires Acyclic(Par(t)) && Acyclic(Par(t')) && PruneRel(t, t') && Under(Par(t'), x, y)
    ensures Under(Par(t), x, y)
  {
    UnderSubmap(Par(t), Par(t'), x, y);
  }

  lemma {:induction false} PruneDone(t: Tree, t': Tree)
    requires WellFormed(t) && WellFormed(t') && PruneRel(t, t')
    requires forall x :: x in t'.spans && Pseudo(t'.spans[x]) && x != t'.root ==> exists c :: Child(t', x, c)
    ensures PruneResult(t, t')
  {
    forall x | x in t.spans ensures x in t'.spans <==> x == t.root || LeadsToEvent(t, x) {
      if x in t'.spans && x != t.root {
        var y := EventBelow(t', x);
        SameParents(t, t', x, y);
      }
      if x !in t'.spans && LeadsToEvent(t, x) {
        var y :| y in t.spans && !Pseudo(t.spans[y]) && Under(Par(t), x, y);
        PrunedBelow(t, t', x, y);
      }
    }
  }

  /** y is below x or is x, and has no pseudo type. */
  ghost predicate EventUnder(t: Tree, x: Id, y: Id)
    requires Acyclic(Par(t))
  {
    y in t.spans && t.spans[y].pseudoType == None && Under(Par(t), x, y)
  }

  /** Which spans are left: the root, and those with a span without pseudo type below them or that have none themselves. */
  lemma {:induction false} PrunedIff(t: Tree, t': Tree, x: Id)
    requires Acyclic(Par(t)) && PruneResult(t, t') && x in t.spans
    ensures x in t'.spans <==> x == t.root || exists y :: EventUnder(t, x, y)
    ensures t.spans[x].pseudoType == None ==> x in t'.spans
  {
    if LeadsToEvent(t, x) {
      var y :| y in t.spans && !Pseudo(t.spans[y]) && Under(Par(t), x, y);
      assert EventUnder(t, x, y);
    }
    if t.spans[x].pseudoType == None {
      assert EventUnder(t, x, x);
    }
  }

  // ---------- CompactDurationVisitor ----------

  const DUMMY_DURATION: int := 1_000_000_000

  function End(span: Span): int {
    span.start + span.duration
  }

  function Children(t: Tree, x: Id): set<Id> {
    set c | c in t.spans && Child(t, x, c)
  }

  ghost function SpanStarts(t: Tree, ids: set<Id>): set<int> {
    set c | c in ids && c in t.spans :: t.spans[c].start
  }

  ghost function SpanEnds(t: Tree, ids: set<Id>): set<int> {
    set c | c in ids && c in t.spans :: End(t.spans[c])
  }

  ghost function LogStarts(logs: seq<int>): set<int> {
    Elems(logs)
  }

  ghost function LogEnds(logs: seq<int>): set<int> {
    set x | x in Elems(logs) :: x + DUMMY_DURATION
  }

  /** When the children and logs of x begin. */
  ghost function Starts(t: Tree, x: Id): set<int>
    requires x in t.spans
  {
    SpanStarts(t, Children(t, x)) + LogStarts(t.spans[x].logs)
  }

  /** When they end; a log lasts a nominal second. */
  ghost function Ends(t: Tree, x: Id): set<int>
    requires x in t.spans
  {
    SpanEnds(t, Children(t, x)) + LogEnds(t.spans[x].logs)
  }

  ghost predicate Least(lo: int, s: set<int>) {
    lo in s && forall y :: y in s ==> lo <= y
  }

  ghost predicate Greatest(hi: int, s: set<int>) {
    hi in s && forall y :: y in s ==> y <= hi
  }

  /** The interval of x is [lo, hi], or that with 5% of its length added at both ends for the root. */
  ghost predicate Spans(t: Tree, x: Id, lo: int, hi: int)
    requires x in t.spans
  {
    var padding := if x == t.root then TruncDiv(hi - lo, 20) else 0;
    t.spans[x].start == lo - padding && t.spans[x].duration == hi - lo + 2 * padding
  }

  /** A pseudo span with children or logs covers exactly the hull of them. */
  ghost predicate Compacted(t: Tree, x: Id)
    requires x in t.spans
  {
    Pseudo(t.spans[x]) && Starts(t, x) != {} ==>
      exists lo, hi :: Least(lo, Starts(t, x)) && Greatest(hi, Ends(t, x)) && Spans(t, x, lo, hi)
  }

  /** Only the interval of a pseudo span with children or logs changes, and not after it has exited. */
  ghost predicate CompactRel(t: Tree, t': Tree) {
    && t'.root == t.root && t'.spans.Keys == t.spans.Keys
    && (forall x :: x in t.spans ==> t'.spans[x] == t.spans[x].(start := t'.spans[x].start, duration := t'.spans[x].duration))
    && (forall x :: x in t.spans && t'.spans[x] != t.spans[x] ==> x !in t.exited && Pseudo(t.spans[x]) && Starts(t, x) != {})
  }

  ghost predicate CompactInv(t: Tree) {
    forall x :: x in t.exited ==> x in t.spans && Compacted(t, x) && forall c :: Child(t, x, c) ==> c in t.exited
  }

  lemma {:induction false} CompactSameChildren(a: Tree, b: Tree)
    requires CompactRel(a, b)
    ensures forall x, c :: Child(b, x, c) <==> Child(a, x, c)
    ensures forall x :: x in a.spans ==> (Starts(b, x) == {} <==> Starts(a, x) == {})
  {
    assert forall x :: x in a.spans ==> b.spans[x].parent == a.spans[x].parent && b.spans[x].logs == a.spans[x].logs;
    forall x | x in a.spans ensures Starts(b, x) == {} <==> Starts(a, x) == {} {
      StartsEmpty(a, x);
      StartsEmpty(b, x);
      assert forall c :: Child(b, x, c) <==> Child(a, x, c);
    }
  }

  lemma {:induction false} StartsEmpty(t: Tree, x: Id)
    requires x in t.spans
    ensures Starts(t, x) == {} <==> t.spans[x].logs == [] && forall c :: !Child(t, x, c)
    ensures Ends(t, x) == {} <==> Starts(t, x) == {}
  {
    if c :| Child(t, x, c) {
      assert c in Children(t, x);
      assert t.spans[c].start in Starts(t, x) && End(t.spans[c]) in Ends(t, x);
    }
    if t.spans[x].logs != [] {
      assert t.spans[x].logs[0] in Starts(t, x) && t.spans[x].logs[0] + DUMMY_DURATION in Ends(t, x);
    }
  }

  lemma {:induction false} CompactRelTransitive(a: Tree, b: Tree, c: Tree)
    requires CompactRel(a, b) && CompactRel(b, c) && a.exited <= b.exited
    ensures CompactRel(a, c)
  {
    CompactSameChildren(a, b);
  }

  /** A span keeps its hull as long as its children have exited. */
  lemma {:induction false} CompactedStays(a: Tree, b: Tree, x: Id)
    requires CompactRel(a, b) && CompactInv(a) && x in a.exited
    ensures x in b.spans && Compacted(b, x) && b.spans[x] == a.spans[x]
  {
    CompactSameChildren(a, b);
    assert Starts(b, x) == Starts(a, x);
    assert Ends(b, x) == Ends(a, x);
    if Pseudo(b.spans[x]) && Starts(b, x) != {} {
      var lo, hi :| Least(lo, Starts(a, x)) && Greatest(hi, Ends(a, x)) && Spans(a, x, lo, hi);
      assert Spans(b, x, lo, hi);
    }
  }

  lemma {:induction false} CompactInvStays(a: Tree, b: Tree)
    requires CompactRel(a, b) && CompactInv(a) && b.exited == a.exited
    ensures CompactInv(b)
  {
    CompactSameChildren(a, b);
    forall x | x in b.exited
      ensures x in b.spans && Compacted(b, x) && forall c :: Child(b, x, c) ==> c in b.exited
    {
      CompactedStays(a, b, x);
    }
  }

  /** Every pseudo span covers exactly its children and logs; everything else is as it was. */
  ghost predicate CompactResult(t: Tree, t': Tree) {
    && CompactRel(t, t')
    && forall x :: x in t'.spans ==> Compacted(t', x)
  }

  /** A child of x, or a log of x, which lasts a second, takes the time from s to e. */
  predicate Takes(t: Tree, x: Id, s: int, e: int) {
    x in t.spans && (TakenByChild(t, x, s, e) || (s in t.spans[x].logs && e == s + 1_000_000_000))
  }

  predicate TakenByChild(t: Tree, x: Id, s: int, e: int) {
    exists c | c in t.spans :: t.spans[c].parent == Some(x) && s == t.spans[c].start && e == t.spans[c].start + t.spans[c].duration
  }

  /** x runs from the first start to the last end of what takes time in it; lo and hi are these two. */
  ghost predicate Hull(t: Tree, x: Id, lo: int, hi: int) {
    && (forall s, e :: Takes(t, x, s, e) ==> lo <= s && e <= hi)
    && (exists e :: Takes(t, x, lo, e)) && exists s :: Takes(t, x, s, hi)
  }

  lemma {:induction false} StartTakes(t: Tree, x: Id, s: int)
    requires x in t.spans
    ensures s in Starts(t, x) <==> exists e :: Takes(t, x, s, e)
  {
    if s in SpanStarts(t, Children(t, x)) {
      var c :| c in Children(t, x) && t.spans[c].start == s;
      assert TakenByChild(t, x, s, t.spans[c].start + t.spans[c].duration);
      assert Takes(t, x, s, t.spans[c].start + t.spans[c].duration);
    }
    if s in LogStarts(t.spans[x].logs) {
      assert Takes(t, x, s, s + 1_000_000_000);
    }
    if e :| Takes(t, x, s, e) {
      if TakenByChild(t, x, s, e) {
        var c :| c in t.spans && t.spans[c].parent == Some(x) && s == t.spans[c].start;
        assert c in Children(t, x);
      }
    }
  }

  lemma {:induction false} EndTakes(t: Tree, x: Id, e: int)
    requires x in t.spans
    ensures e in Ends(t, x) <==> exists s :: Takes(t, x, s, e)
  {
    if e in SpanEnds(t, Children(t, x)) {
      var c :| c in Children(t, x) && End(t.spans[c]) == e;
      assert TakenByChild(t, x, t.spans[c].start, e);
      assert Takes(t, x, t.spans[c].start, e);
    }
    if e in LogEnds(t.spans[x].logs) {
      assert e - 1_000_000_000 in t.spans[x].logs;
      assert Takes(t, x, e - 1_000_000_000, e);
    }
    if s :| Takes(t, x, s, e) {
      if TakenByChild(t, x, s, e) {
        var c :| c in t.spans && t.spans[c].parent == Some(x) && s == t.spans[c].start && e == t.spans[c].start + t.spans[c].duration;
        assert c in Children(t, x) && End(t.spans[c]) == e;
      } else {
        assert s in Elems(t.spans[x].logs);
      }
    }
  }

  /**
   What a pseudo span covers after the visit: exactly the hull of its children and logs, as they are then, and the root a twentieth of
   that more at both ends, cut off to whole units; and a span without pseudo type keeps its interval.
   */
  lemma {:induction false} CompactedHull(t: Tree, t': Tree, x: Id)
    requires CompactResult(t, t') && x in t.spans
    ensures x in t'.spans
    ensures t.spans[x].pseudoType == None ==> t'.spans[x] == t.spans[x]
    ensures t.spans[x].pseudoType != None && (exists s, e :: Takes(t', x, s, e)) ==>
              exists lo, hi :: Hull(t', x, lo, hi) && Padded(t'.spans[x], lo, hi, x == t.root)
  {
    if t.spans[x].pseudoType != None && exists s, e :: Takes(t', x, s, e) {
      var s, e :| Takes(t', x, s, e);
      StartTakes(t', x, s);
      assert Compacted(t', x);
      hide Takes, Starts, Ends;
      var lo, hi :| Least(lo, Starts(t', x)) && Greatest(hi, Ends(t', x)) && Spans(t', x, lo, hi);
      LeastGreatestHull(t', x, lo, hi);
      PaddedSpan(t', x, lo, hi);
    }
  }

  lemma {:induction false} LeastGreatestHull(t: Tree, x: Id, lo: int, hi: int)
    requires x in t.spans && Least(lo, Starts(t, x)) && Greatest(hi, Ends(t, x))
    ensures Hull(t, x, lo, hi)
  {
    hide Takes, Starts, Ends;
    StartTakes(t, x, lo);
    EndTakes(t, x, hi);
    forall s, e | Takes(t, x, s, e) ensures lo <= s && e <= hi {
      StartTakes(t, x, s);
      EndTakes(t, x, e);
    }
  }

  lemma {:induction false} PaddedSpan(t: Tree, x: Id, lo: int, hi: int)
    requires x in t.spans && Spans(t, x, lo, hi)
    ensures Padded(t.spans[x], lo, hi, x == t.root)
  {
  }

  /** The span runs from lo to hi, with a twentieth more at both ends for the root. */
  ghost predicate Padded(span: Span, lo: int, hi: int, isRoot: bool) {
    var padding := lo - span.start;
    && span.start + span.duration == hi + padding
    && (!isRoot ==> padding == 0)
    && (isRoot && lo <= hi ==> 20 * padding <= hi - lo < 20 * (padding + 1))
    && (isRoot && hi < lo ==> 20 * (padding - 1) < hi - lo <= 20 * padding)
  }

  /** t' is t with the interval of n set anew. */
  ghost predicate Retimed(t: Tree, t': Tree, n: Id)
    requires n in t.spans
  {
    && t'.spans.Keys == t.spans.Keys
    && t'.spans[n] == t.spans[n].(start := t'.spans[n].start, duration := t'.spans[n].duration)
    && (forall x :: x in t.spans && x != n ==> t'.spans[x] == t.spans[x])
    && t'.children == t.children && t'.stack == t.stack && t'.exited == t.exited && t'.root == t.root
  }

  lemma {:induction false} RetimedRel(t: Tree, t': Tree, n: Id)
    requires n in t.spans && n !in t.exited && Retimed(t, t', n)
    requires t'.spans[n] != t.spans[n] ==> Pseudo(t.spans[n]) && Starts(t, n) != {}
    ensures CompactRel(t, t') && SameShape(t, t')
  {
  }

  /** Once its children have exited, n may exit with its hull. */
  lemma {:induction false} CompactExit(t: Tree, t': Tree, n: Id)
    requires n in t.spans && n !in t.exited && CompactRel(t, t') && CompactInv(t) && t'.exited == t.exited
    requires Compacted(t', n) && forall c :: Child(t, n, c) ==> c in t.exited
    ensures CompactInv(ExitNode(t', n))
  {
    CompactSameChildren(t, t');
    CompactInvStays(t, t');
    var u := ExitNode(t', n);
    forall x | x in u.exited ensures x in u.spans && Compacted(u, x) && forall c :: Child(u, x, c) ==> c in u.exited {
      assert forall c :: Child(u, x, c) <==> Child(t', x, c);
      ExitCompacted(t', n, x);
    }
  }

  lemma {:induction false} ExitCompacted(t: Tree, n: Id, x: Id)
    requires x in t.spans && Compacted(t, x)
    ensures Compacted(ExitNode(t, n), x)
  {
    var u := ExitNode(t, n);
    assert forall c :: Child(u, x, c) <==> Child(t, x, c);
    assert Starts(u, x) == Starts(t, x) && Ends(u, x) == Ends(t, x);
    if Pseudo(u.spans[x]) && Starts(u, x) != {} {
      var lo, hi :| Least(lo, Starts(t, x)) && Greatest(hi, Ends(t, x)) && Spans(t, x, lo, hi);
      assert Spans(u, x, lo, hi);
    }
  }

  /** Hull computed over the children and logs of n before its interval is set. */
  lemma {:induction false} RetimedCompacted(t: Tree, t': Tree, n: Id, lo: int, hi: int)
    requires n in t.spans && Retimed(t, t', n) && !Child(t, n, n)
    requires Least(lo, Starts(t, n)) && Greatest(hi, Ends(t, n)) && Spans(t', n, lo, hi)
    ensures Compacted(t', n)
  {
    assert forall c :: Child(t', n, c) <==> Child(t, n, c);
    assert Starts(t', n) == Starts(t, n) && Ends(t', n) == Ends(t, n);
  }

  /** One more child or log taken into the hull. */
  lemma {:induction false} SpanStartsAdd(t: Tree, ids: set<Id>, c: Id)
    requires c in t.spans
    ensures SpanStarts(t, ids + {c}) == SpanStarts(t, ids) + {t.spans[c].start}
    ensures SpanEnds(t, ids + {c}) == SpanEnds(t, ids) + {End(t.spans[c])}
  {
  }

  ghost function FirstStarts(starts: set<int>, logs: seq<int>, i: nat): set<int>
    requires i <= |logs|
  {
    starts + LogStarts(logs[..i])
  }

  ghost function FirstEnds(ends: set<int>, logs: seq<int>, i: nat): set<int>
    requires i <= |logs|
  {
    ends + LogEnds(logs[..i])
  }

  lemma {:induction false} LogsAdd(starts: set<int>, ends: set<int>, logs: seq<int>, i: nat)
    requires i < |logs|
    ensures FirstStarts(starts, logs, i + 1) == FirstStarts(starts, logs, i) + {logs[i]}
    ensures FirstEnds(ends, logs, i + 1) == FirstEnds(ends, logs, i) + {logs[i] + DUMMY_DURATION}
  {
    TakeNext(logs, i);
    ElemsAppend(logs[..i], logs[i]);
  }

  lemma {:induction false} LogsAll(starts: set<int>, ends: set<int>, logs: seq<int>)
    ensures FirstStarts(starts, logs, 0) == starts && FirstEnds(ends, logs, 0) == ends
    ensures FirstStarts(starts, logs, |logs|) == starts + LogStarts(logs) && FirstEnds(ends, logs, |logs|) == ends + LogEnds(logs)
  {
    assert logs[..|logs|] == logs;
  }

  lemma {:induction false} ChildrenAreKids(t: Tree, n: Id)
    requires Consistent(t)
    ensures Children(t, n) == Kids(t, n)
  {
    forall c ensures c in Children(t, n) <==> c in Kids(t, n) {
      assert c in Kids(t, n) <==> Child(t, n, c);
    }
  }

  lemma {:induction false} NoLoop(t: Tree, n: Id)
    requires Consistent(t)
    ensures !Child(t, n, n)
  {
    if Child(t, n, n) {
      NoSelfParent(Par(t), n);
    }
  }
}
