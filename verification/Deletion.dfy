/** The steps of a recursive deletion: a span goes first, then the subtree of each of its children. */
module Deletion {
  import opened Forest
  import opened TreeModel

  /** A span that can be deleted: neither it nor anything below it is the root, entered or exited. */
  ghost predicate Deletable(t: Tree, n: Id) {
    && Consistent(t) && n in t.spans
    && forall x :: x in Subtree(t, n) ==> x != t.root && x !in t.stack && x !in t.exited
  }

  /** Part way through: `gone` has been deleted, `kids` are the children of n still to go. */
  ghost predicate Shrinking(t0: Tree, t: Tree, n: Id, gone: set<Id>, kids: set<Id>)
    requires Acyclic(Par(t0))
  {
    && n in gone && gone <= Subtree(t0, n)
    && kids <= Kids(t0, n) - gone
    && (forall x, y :: Child(t0, x, y) && x in gone && y !in kids ==> y in gone)
    && t.spans == t0.spans - gone
    && (forall q :: Kids(t, q) == if q == n then kids else if q in gone then {} else Kids(t0, q) - {n})
    && t.stack == t0.stack && t.exited == t0.exited && t.root == t0.root
  }

  /** n itself has gone, from the spans and from the children of its parent. */
  function Detached(t: Tree, n: Id): Tree
    requires n in t.spans
  {
    var parent := t.spans[n].parent;
    t.(spans := t.spans - {n},
       children := if parent.Some? && parent.value in t.children
                   then t.children[parent.value := t.children[parent.value] - {n}] else t.children)
  }

  lemma {:induction false} ShrinkStart(t0: Tree, n: Id)
    requires Consistent(t0) && n in t0.spans
    ensures Consistent(Detached(t0, n)) && Shrinking(t0, Detached(t0, n), n, {n}, Kids(t0, n))
    ensures Kids(Detached(t0, n), n) == Kids(t0, n)
  {
    var t := Detached(t0, n);
    SubmapAcyclic(Par(t0), Par(t));
    assert n !in Kids(t0, n) by {
      if Child(t0, n, n) {
        NoSelfParent(Par(t0), n);
      }
    }
    forall q ensures Kids(t, q) == Kids(t0, q) - {n} {
      assert n in Kids(t0, q) <==> Child(t0, q, n);
    }
    forall q, c ensures c in Kids(t, q) <==> Child(t, q, c) {
      assert c in Kids(t0, q) <==> Child(t0, q, c);
    }
  }

  lemma {:induction false} ShrinkCall(t0: Tree, t: Tree, n: Id, gone: set<Id>, kids: set<Id>, c: Id)
    requires Deletable(t0, n) && Consistent(t) && Shrinking(t0, t, n, gone, kids) && c in kids
    ensures Deletable(t, c) && Child(t0, n, c) && Subtree(t, c) <= Subtree(t0, n)
  {
    assert c in Kids(t0, n);
    assert Par(t0)[c] == n;
    forall x | x in Subtree(t, c) ensures x in Subtree(t0, n) {
      UnderSubmap(Par(t0), Par(t), c, x);
      UnderTransitive(Par(t0), n, c, x);
    }
  }

  lemma {:induction false} SiblingStays(t0: Tree, t: Tree, n: Id, gone: set<Id>, kids: set<Id>, c: Id, d: Id)
    requires Consistent(t0) && Consistent(t) && Shrinking(t0, t, n, gone, kids) && c in kids && d in kids && d != c
    ensures d !in Subtree(t, c)
  {
    assert d in Kids(t, n) && Child(t, n, d) && Par(t)[d] == n;
    assert n !in Par(t) && n != c;
    assert !Under(Par(t), c, n);
  }

  lemma {:induction false} ShrinkClosed(t0: Tree, t: Tree, n: Id, gone: set<Id>, kids: set<Id>, c: Id, x: Id, y: Id)
    requires Consistent(t0) && Consistent(t) && Shrinking(t0, t, n, gone, kids) && c in kids
    requires Child(t0, x, y) && x in gone + Subtree(t, c) && y !in kids - {c}
    ensures y in gone + Subtree(t, c)
  {
    if y != c && y !in gone && x in Subtree(t, c) {
      assert Par(t)[y] == x;
      SubtreeClosed(t, c, y);
    }
    assert Child(t, n, c) by { assert c in Kids(t, n); }
  }

  lemma {:induction false} ShrinkKids(t0: Tree, t: Tree, t': Tree, n: Id, gone: set<Id>, kids: set<Id>, c: Id, q: Id)
    requires Acyclic(Par(t0)) && Acyclic(Par(t)) && Shrinking(t0, t, n, gone, kids) && Deleted(t, t', c)
    requires c in kids && n !in Subtree(t, c) && (c in Kids(t0, q) ==> q == n)
    ensures Kids(t', q) == if q == n then kids - {c} else if q in gone + Subtree(t, c) then {} else Kids(t0, q) - {n}
  {
  }

  lemma {:induction false} ShrinkAllKids(t0: Tree, t: Tree, t': Tree, n: Id, gone: set<Id>, kids: set<Id>, c: Id)
    requires Consistent(t0) && Consistent(t) && Shrinking(t0, t, n, gone, kids) && c in kids && Deleted(t, t', c)
    ensures forall q :: Kids(t', q) == if q == n then kids - {c} else if q in gone + Subtree(t, c) then {} else Kids(t0, q) - {n}
  {
    forall q ensures Kids(t', q) == if q == n then kids - {c} else if q in gone + Subtree(t, c) then {} else Kids(t0, q) - {n} {
      assert c in Kids(t0, n) && c in Kids(t0, q) ==> q == n;
      ShrinkKids(t0, t, t', n, gone, kids, c, q);
    }
  }

  lemma {:induction false} ShrinkRest(t0: Tree, t: Tree, n: Id, gone: set<Id>, kids: set<Id>, c: Id)
    requires Consistent(t0) && Consistent(t) && Shrinking(t0, t, n, gone, kids) && c in kids
    ensures kids - {c} <= Kids(t0, n) - (gone + Subtree(t, c))
    ensures forall x, y :: Child(t0, x, y) && x in gone + Subtree(t, c) && y !in kids - {c} ==> y in gone + Subtree(t, c)
  {
    forall d | d in kids && d != c ensures d !in Subtree(t, c) {
      SiblingStays(t0, t, n, gone, kids, c, d);
    }
    forall x, y | Child(t0, x, y) && x in gone + Subtree(t, c) && y !in kids - {c} ensures y in gone + Subtree(t, c) {
      ShrinkClosed(t0, t, n, gone, kids, c, x, y);
    }
  }

  lemma {:induction false} ShrinkSets(t0: Tree, t: Tree, t': Tree, n: Id, gone: set<Id>, kids: set<Id>, c: Id)
    requires Deletable(t0, n) && Consistent(t) && Shrinking(t0, t, n, gone, kids) && c in kids && Deleted(t, t', c)
    ensures gone + Subtree(t, c) <= Subtree(t0, n)
    ensures t'.spans == t0.spans - (gone + Subtree(t, c))
    ensures Consistent(t')
  {
    ShrinkCall(t0, t, n, gone, kids, c);
    DeleteConsistent(t, t', c);
    ShrinkSpans(t0, t, t', n, gone, kids, c);
  }

  lemma {:induction false} ShrinkSpans(t0: Tree, t: Tree, t': Tree, n: Id, gone: set<Id>, kids: set<Id>, c: Id)
    requires Consistent(t0) && Consistent(t) && Shrinking(t0, t, n, gone, kids) && c in t.spans && Deleted(t, t', c)
    requires Subtree(t, c) <= Subtree(t0, n)
    ensures gone + Subtree(t, c) <= Subtree(t0, n)
    ensures t'.spans == t0.spans - (gone + Subtree(t, c))
  {
  }

  lemma {:induction false} ShrinkStep(t0: Tree, t: Tree, t': Tree, n: Id, gone: set<Id>, kids: set<Id>, c: Id)
    requires Deletable(t0, n) && Consistent(t) && Shrinking(t0, t, n, gone, kids) && c in kids && Deleted(t, t', c)
    ensures Consistent(t') && Shrinking(t0, t', n, gone + Subtree(t, c), kids - {c})
    ensures t'.spans.Keys <= t.spans.Keys
  {
    ShrinkSets(t0, t, t', n, gone, kids, c);
    ShrinkRest(t0, t, n, gone, kids, c);
    ShrinkAllKids(t0, t, t', n, gone, kids, c);
  }

  lemma {:induction false} ShrinkEnd(t0: Tree, t: Tree, n: Id, gone: set<Id>)
    requires Consistent(t0) && n in t0.spans && Shrinking(t0, t, n, gone, {})
    ensures Deleted(t0, t.(children := t.children - {n}), n)
  {
    forall x | x in Subtree(t0, n) ensures x in gone {
      assert forall y :: y in Par(t0) ==> Child(t0, Par(t0)[y], y);
      InductDown(Par(t0), n, gone, x);
    }
    assert forall q :: Kids(t.(children := t.children - {n}), q) == Kids(t, q);
  }
}
