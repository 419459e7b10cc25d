/** What CollapseNestingVisitor does to the tree: a visitor that keeps the span it enters and cuts away below it. */
module Collapsing {
  import opened Wrappers
  import opened Forest
  import opened MapOrder
  import opened TreeModel
  import opened Deletion
  import opened Traversal
  import opened Visitors

  /** A span that is collapsed when its parent is a pseudo span. */
  predicate Folded(collapse: string -> bool, span: Span) {
    !Pseudo(span) && span.traceSource.Some? && collapse(span.traceSource.value)
  }

  /** c is collapsed into its parent p. */
  predicate FoldsInto(collapse: string -> bool, t: Tree, p: Id, c: Id) {
    Child(t, p, c) && p in t.spans && Pseudo(t.spans[p]) && Folded(collapse, t.spans[c])
  }

  /** The children of p that are gone and started at v. */
  function Lost(t: Tree, t': Tree, p: Id, v: int): set<Id> {
    set c | c in t.spans && c !in t'.spans && Child(t, p, c) && t.spans[c].start == v
  }

  /** p has got one log for each child it has lost, at the start of the child, behind the logs it had. */
  ghost predicate LogsLost(t: Tree, t': Tree, p: Id)
    requires p in t.spans && p in t'.spans
  {
    && t.spans[p].logs <= t'.spans[p].logs
    && forall v :: multiset(t'.spans[p].logs)[v] == multiset(t.spans[p].logs)[v] + |Lost(t, t', p, v)|
  }

  /** Collapsing takes away whole subtrees below pseudo spans, and changes nothing but their logs. */
  ghost predicate CollapseRel(collapse: string -> bool, t: Tree, t': Tree) {
    && t'.root == t.root && t'.spans.Keys <= t.spans.Keys
    && (forall x :: x in t'.spans ==> t'.spans[x] == t.spans[x].(logs := t'.spans[x].logs))
    && (forall p, c :: Child(t, p, c) && p in t.spans && p !in t'.spans ==> c !in t'.spans)
    && (forall p, c :: Child(t, p, c) && p in t'.spans && c !in t'.spans ==> FoldsInto(collapse, t, p, c))
    && (forall p :: p in t'.spans ==> LogsLost(t, t', p))
  }

  /** A span that has been entered has nothing left to collapse. */
  ghost predicate CollapseInv(collapse: string -> bool, t: Tree) {
    forall p, c :: Entered(t, p) ==> !FoldsInto(collapse, t, p, c)
  }

  lemma {:induction false} NothingLost(t: Tree, t': Tree, p: Id)
    requires t'.spans == t.spans && p in t.spans
    ensures LogsLost(t, t', p)
  {
    forall v ensures |Lost(t, t', p, v)| == 0 {
      assert Lost(t, t', p, v) == {};
    }
  }

  lemma {:induction false} CollapseRelSame(collapse: string -> bool, t: Tree, t': Tree)
    requires t'.spans == t.spans && t'.root == t.root
    ensures CollapseRel(collapse, t, t')
  {
    forall p | p in t'.spans ensures LogsLost(t, t', p) {
      NothingLost(t, t', p);
    }
  }

  lemma {:induction false} LogsLostTransitive(a: Tree, b: Tree, c: Tree, p: Id)
    requires p in a.spans && p in b.spans && p in c.spans && LogsLost(a, b, p) && LogsLost(b, c, p)
    requires c.spans.Keys <= b.spans.Keys <= a.spans.Keys
    requires forall x :: x in b.spans ==> b.spans[x].parent == a.spans[x].parent && b.spans[x].start == a.spans[x].start
    ensures LogsLost(a, c, p)
  {
    forall v ensures |Lost(a, c, p, v)| == |Lost(a, b, p, v)| + |Lost(b, c, p, v)| {
      assert Lost(a, c, p, v) == Lost(a, b, p, v) + Lost(b, c, p, v);
      assert Lost(a, b, p, v) !! Lost(b, c, p, v);
    }
  }

  lemma {:induction false} CollapseRelTransitive(collapse: string -> bool, a: Tree, b: Tree, c: Tree)
    requires CollapseRel(collapse, a, b) && CollapseRel(collapse, b, c)
    ensures CollapseRel(collapse, a, c)
  {
    hide LogsLost;
    forall p | p in c.spans ensures LogsLost(a, c, p) {
      LogsLostTransitive(a, b, c, p);
    }
    forall p, x | Child(a, p, x) && p in a.spans && p !in c.spans ensures x !in c.spans {
      if x in b.spans && p in b.spans {
        assert Child(b, p, x);
      }
    }
    forall p, x | Child(a, p, x) && p in c.spans && x !in c.spans ensures FoldsInto(collapse, a, p, x) {
      if x in b.spans {
        assert Child(b, p, x);
        assert FoldsInto(collapse, b, p, x);
      }
    }
  }

  // ---------- One child ----------

  /** n with the log of a child that started at v. */
  function WithLog(t: Tree, n: Id, v: int): Tree
    requires n in t.spans
  {
    t.(spans := t.spans[n := t.spans[n].(logs := t.spans[n].logs + [v])])
  }

  /** c, a child of n that is about to be entered, may be folded into n. */
  ghost predicate Foldable(t: Tree, n: Id, c: Id) {
    EngineOk(t, {}) && Visitable(t, n, {}) && Child(t, n, c)
  }

  lemma {:induction false} LoggedWellFormed(t: Tree, n: Id, v: int)
    requires Region(t, {}) && n in t.spans
    ensures WellFormed(t) && WellFormed(WithLog(t, n, v)) && Par(WithLog(t, n, v)) == Par(t)
    ensures forall p, x :: Child(WithLog(t, n, v), p, x) <==> Child(t, p, x)
  {
    var u := WithLog(t, n, v);
    WellFormedRegion(t);
    RegionOfSameShape(t, u, {});
    WellFormedRegion(u);
    forall x ensures (x in Par(u) <==> x in Par(t)) && (x in Par(t) ==> Par(u)[x] == Par(t)[x]) {}
  }

  /** Nothing below a child of n has been entered, is n, or has an entered parent. */
  lemma {:induction false} BelowUnentered(t: Tree, n: Id, c: Id, x: Id)
    requires Foldable(t, n, c) && x in t.spans && Under(Par(t), c, x)
    ensures !Entered(t, x) && x != t.root && x != n && x in Par(t) && !Entered(t, Par(t)[x])
    decreases Depth(Par(t), x)
  {
    assert Par(t)[c] == n;
    if x == c {
      ChildrenUnentered(t, n, c, {});
    } else {
      assert Child(t, Par(t)[x], x);
      BelowUnentered(t, n, c, Par(t)[x]);
      if x == n {
        NotUnderChild(Par(t), c);
      }
    }
  }

  lemma {:induction false} FoldDeletable(t: Tree, n: Id, c: Id)
    requires Foldable(t, n, c)
    ensures c in t.spans && n in t.spans && Deletable(WithLog(t, n, t.spans[c].start), c)
    ensures Acyclic(Par(t)) && Acyclic(Par(WithLog(t, n, t.spans[c].start)))
    ensures Subtree(WithLog(t, n, t.spans[c].start), c) == Subtree(t, c)
  {
    var u := WithLog(t, n, t.spans[c].start);
    LoggedWellFormed(t, n, t.spans[c].start);
    forall x | x in Subtree(u, c) ensures x != u.root && x !in u.stack && x !in u.exited {
      BelowUnentered(t, n, c, x);
    }
  }

  /** t' is t with c folded into n: the spans of `gone`, c and what is below it, are gone, and none of them has been reached. */
  ghost predicate FoldedInto(t: Tree, t': Tree, n: Id, c: Id, gone: set<Id>) {
    && Child(t, n, c) && n in t.spans && c in gone && n !in gone && t'.spans.Keys == t.spans.Keys - gone
    && (forall x :: x in t'.spans ==> t'.spans[x] == t.spans[x].(logs := if x == n then t.spans[n].logs + [t.spans[c].start] else t.spans[x].logs))
    && (forall p, x :: Child(t', p, x) <==> Child(t, p, x) && x !in gone)
    && t'.stack == t.stack && t'.exited == t.exited && t'.root == t.root
    && (forall x :: x in gone ==> Unreached(t, x) && (x == c || t.spans[x].parent.value in gone))
    && (forall p, x :: Child(t, p, x) && p in gone ==> x in gone)
  }

  predicate Unreached(t: Tree, x: Id) {
    x in t.spans && !Entered(t, x) && t.spans[x].parent.Some? && !Entered(t, t.spans[x].parent.value)
  }

  lemma {:induction false} BelowUnreached(t: Tree, n: Id, c: Id, x: Id)
    requires Foldable(t, n, c) && x in Subtree(t, c)
    ensures Unreached(t, x) && x != n && (x == c || t.spans[x].parent.value in Subtree(t, c))
  {
    BelowUnentered(t, n, c, x);
    assert Child(t, Par(t)[x], x);
  }

  lemma {:induction false} BelowClosed(t: Tree, c: Id, p: Id, x: Id)
    requires Acyclic(Par(t)) && Child(t, p, x) && p in Subtree(t, c)
    ensures x in Subtree(t, c)
  {
    assert Par(t)[x] == p;
    SubtreeClosed(t, c, x);
  }

  lemma {:induction false} DeletedSpans(t: Tree, t': Tree, n: Id, c: Id, gone: set<Id>)
    requires n in t.spans && c in t.spans && t'.spans == WithLog(t, n, t.spans[c].start).spans - gone && n !in gone
    ensures t'.spans.Keys == t.spans.Keys - gone
    ensures forall x :: x in t'.spans ==> t'.spans[x] == t.spans[x].(logs := if x == n then t.spans[n].logs + [t.spans[c].start] else t.spans[x].logs)
    ensures forall p, x :: Child(t', p, x) <==> Child(t, p, x) && x !in gone
  {
  }

  /** Adding the log and deleting the child folds it. */
  lemma {:induction false} Fold(t: Tree, t': Tree, n: Id, c: Id)
    requires Foldable(t, n, c) && c in t.spans && n in t.spans
    requires Acyclic(Par(WithLog(t, n, t.spans[c].start))) && Deleted(WithLog(t, n, t.spans[c].start), t', c)
    ensures FoldedInto(t, t', n, c, Subtree(t, c)) && Region(t', {})
  {
    hide Foldable, WellFormed, Region, Consistent;
    FoldRegion(t, t', n, c);
    var gone := Subtree(t, c);
    DeletedBelow(t, t', n, c);
    hide Subtree, Deleted;
    FoldableChild(t, n, c);
    forall x | x in gone ensures Unreached(t, x) && x != n && (x == c || t.spans[x].parent.value in gone) {
      BelowUnreached(t, n, c, x);
    }
    DeletedSpans(t, t', n, c, gone);
    forall p, x | Child(t, p, x) && p in gone ensures x in gone {
      BelowClosed(t, c, p, x);
    }
  }

  lemma {:induction false} FoldableChild(t: Tree, n: Id, c: Id)
    requires Foldable(t, n, c)
    ensures Child(t, n, c) && Acyclic(Par(t)) && c in Subtree(t, c) && n in t.spans
  {
  }

  lemma {:induction false} FoldRegion(t: Tree, t': Tree, n: Id, c: Id)
    requires Foldable(t, n, c) && c in t.spans && n in t.spans
    requires Acyclic(Par(WithLog(t, n, t.spans[c].start))) && Deleted(WithLog(t, n, t.spans[c].start), t', c)
    ensures Acyclic(Par(t)) && Region(t', {})
  {
    hide Deleted, WellFormed, Under;
    LoggedWellFormed(t, n, t.spans[c].start);
    FoldableChild(t, n, c);
    BelowUnentered(t, n, c, c);
    DeleteWellFormed(WithLog(t, n, t.spans[c].start), t', c);
    WellFormedRegion(t');
  }

  lemma {:induction false} DeletedBelow(t: Tree, t': Tree, n: Id, c: Id)
    requires Foldable(t, n, c) && c in t.spans && n in t.spans && Acyclic(Par(t))
    requires Acyclic(Par(WithLog(t, n, t.spans[c].start))) && Deleted(WithLog(t, n, t.spans[c].start), t', c)
    ensures t'.spans == WithLog(t, n, t.spans[c].start).spans - Subtree(t, c)
    ensures t'.stack == t.stack && t'.exited == t.exited && t'.root == t.root
  {
    hide Foldable, Subtree;
    FoldDeletable(t, n, c);
  }

  lemma {:induction false} FoldEntries(t: Tree, t': Tree, n: Id, c: Id, gone: set<Id>)
    requires Entries(t, {}) && FoldedInto(t, t', n, c, gone)
    ensures Entries(t', {})
  {
    assert forall x :: Entered(t', x) <==> Entered(t, x);
  }

  lemma {:induction false} FoldQueues(t: Tree, t': Tree, n: Id, c: Id, gone: set<Id>)
    requires Queues(t, {}) && FoldedInto(t, t', n, c, gone)
    ensures Queues(t', {})
  {
    forall s | s in t'.stack
      ensures NoDup(t'.stack[s]) && forall x :: x in t'.stack[s] ==> Child(t', s, x) && !Entered(t', x)
    {
      forall x | x in t'.stack[s] ensures Child(t', s, x) && !Entered(t', x) {
        assert Child(t, s, x) && Entered(t, s);
      }
    }
  }

  lemma {:induction false} FoldFrame(t: Tree, t': Tree, n: Id, c: Id, gone: set<Id>)
    requires Entries(t, {}) && FoldedInto(t, t', n, c, gone)
    ensures Frame(t, t', n)
  {
    assert forall x :: Entered(t', x) <==> Entered(t, x);
    forall p, x | Child(t, p, x) && Entered(t, p) ensures x !in gone {}
  }

  lemma {:induction false} FoldVisitable(t: Tree, t': Tree, n: Id, c: Id, gone: set<Id>)
    requires Visitable(t, n, {}) && FoldedInto(t, t', n, c, gone)
    ensures Visitable(t', n, {})
  {
  }

  lemma {:induction false} FoldLogs(t: Tree, t': Tree, n: Id, c: Id, gone: set<Id>, p: Id)
    requires FoldedInto(t, t', n, c, gone) && p in t'.spans
    ensures LogsLost(t, t', p)
  {
    forall v ensures multiset(t'.spans[p].logs)[v] == multiset(t.spans[p].logs)[v] + |Lost(t, t', p, v)| {
      LostOne(t, t', n, c, gone, p, v);
    }
  }

  lemma {:induction false} LostOne(t: Tree, t': Tree, n: Id, c: Id, gone: set<Id>, p: Id, v: int)
    requires FoldedInto(t, t', n, c, gone) && p in t'.spans
    ensures Lost(t, t', p, v) == if p == n && v == t.spans[c].start then {c} else {}
  {
  }

  /** Folding one child is a part of collapsing. */
  lemma {:induction false} FoldRel(collapse: string -> bool, t: Tree, t': Tree, n: Id, c: Id, gone: set<Id>)
    requires FoldsInto(collapse, t, n, c) && FoldedInto(t, t', n, c, gone)
    ensures CollapseRel(collapse, t, t')
  {
    hide LogsLost;
    forall p | p in t'.spans ensures LogsLost(t, t', p) {
      FoldLogs(t, t', n, c, gone, p);
    }
  }

  lemma {:induction false} FoldInv(collapse: string -> bool, t: Tree, t': Tree, n: Id, c: Id, gone: set<Id>)
    requires FoldedInto(t, t', n, c, gone) && CollapseInv(collapse, t)
    ensures CollapseInv(collapse, t')
  {
    forall p, x | Entered(t', p) ensures !FoldsInto(collapse, t', p, x) {
      assert Entered(t, p) && !FoldsInto(collapse, t, p, x);
    }
  }

  // ---------- All children ----------

  lemma {:induction false} FoldOk(t: Tree, t': Tree, n: Id, c: Id, gone: set<Id>)
    requires EngineOk(t, {}) && Visitable(t, n, {}) && FoldedInto(t, t', n, c, gone) && Region(t', {})
    ensures EditedBelow(t, t', n, {})
  {
    FoldEntries(t, t', n, c, gone);
    FoldQueues(t, t', n, c, gone);
    FoldFrame(t, t', n, c, gone);
    FoldVisitable(t, t', n, c, gone);
    hide Region, Entries, Queues, Frame, Visitable;
  }

  /** What Enter has left so far, from t0: the first i children of the list have nothing left to fold, and the others are as they were. */
  ghost predicate CollapsingFrom(collapse: string -> bool, t0: Tree, t: Tree, n: Id, order: seq<Id>, i: nat) {
    && i <= |order| && EditedBelow(t0, t, n, {}) && CollapseRel(collapse, t0, t) && CollapseInv(collapse, t)
    && NoDup(order) && (forall c :: Child(t, n, c) ==> c in order)
    && (forall j :: 0 <= j < i ==> !FoldsInto(collapse, t, n, order[j]))
    && (forall j :: i <= j < |order| ==> Child(t, n, order[j]))
  }

  lemma {:induction false} CollapseStart(collapse: string -> bool, t: Tree, n: Id, order: seq<Id>)
    requires EngineOk(t, {}) && Visitable(t, n, {}) && CollapseInv(collapse, t) && NoDup(order) && Elems(order) == Kids(t, n)
    ensures CollapsingFrom(collapse, t, t, n, order, 0)
  {
    EditedSame(t, n, {});
    CollapseRelSame(collapse, t, t);
    hide EditedBelow, CollapseRel, CollapseInv;
    forall c ensures Child(t, n, c) <==> c in order {
      assert c in Kids(t, n) <==> Child(t, n, c);
      assert c in order <==> c in Elems(order);
    }
  }

  /** A child that is not to be folded. */
  lemma {:induction false} CollapseSkip(collapse: string -> bool, t0: Tree, t: Tree, n: Id, order: seq<Id>, i: nat)
    requires CollapsingFrom(collapse, t0, t, n, order, i) && i < |order| && !FoldsInto(collapse, t, n, order[i])
    ensures CollapsingFrom(collapse, t0, t, n, order, i + 1)
  {
    hide EditedBelow, CollapseRel, CollapseInv, NoDup;
  }

  lemma {:induction false} CollapseNext(collapse: string -> bool, t0: Tree, t: Tree, t': Tree, n: Id, order: seq<Id>, i: nat, gone: set<Id>)
    requires CollapsingFrom(collapse, t0, t, n, order, i) && i < |order| && FoldsInto(collapse, t, n, order[i])
    requires FoldedInto(t, t', n, order[i], gone) && Region(t', {})
    ensures CollapsingFrom(collapse, t0, t', n, order, i + 1)
  {
    hide EngineOk, Visitable, Frame, CollapseRel, CollapseInv, FoldedInto, FoldsInto;
    FoldOk(t, t', n, order[i], gone);
    FoldRel(collapse, t, t', n, order[i], gone);
    FoldInv(collapse, t, t', n, order[i], gone);
    EditedTransitive(t0, t, t', n, {});
    CollapseRelTransitive(collapse, t0, t, t');
    hide EditedBelow;
    OthersStay(collapse, t, t', n, order[i], gone);
  }

  /** Of the children of n only c has gone. */
  lemma {:induction false} OthersStay(collapse: string -> bool, t: Tree, t': Tree, n: Id, c: Id, gone: set<Id>)
    requires FoldedInto(t, t', n, c, gone)
    ensures forall x :: Child(t', n, x) <==> Child(t, n, x) && x != c
    ensures forall x :: FoldsInto(collapse, t', n, x) ==> FoldsInto(collapse, t, n, x) && x != c
  {
  }

  lemma {:induction false} CollapsingFacts(collapse: string -> bool, t0: Tree, t: Tree, n: Id, order: seq<Id>, i: nat)
    requires CollapsingFrom(collapse, t0, t, n, order, i) && i < |order| && n in t0.spans && Pseudo(t0.spans[n])
    ensures Foldable(t, n, order[i]) && n in t.spans && order[i] in t.spans
    ensures FoldsInto(collapse, t, n, order[i]) <==> Folded(collapse, t.spans[order[i]])
  {
    hide EngineOk, Frame, LogsLost, CollapseInv;
  }

  lemma {:induction false} StillThere(t: Tree, t': Tree, n: Id)
    requires EditedBelow(t, t', n, {})
    ensures n in t'.spans
  {
  }

  lemma {:induction false} CollapseEnd(collapse: string -> bool, t0: Tree, t: Tree, n: Id, order: seq<Id>)
    requires CollapsingFrom(collapse, t0, t, n, order, |order|)
    ensures EditedBelow(t0, t, n, {}) && CollapseRel(collapse, t0, t) && CollapseInv(collapse, t) && forall c :: !FoldsInto(collapse, t, n, c)
  {
    hide EditedBelow, CollapseRel, CollapseInv;
    forall c ensures !FoldsInto(collapse, t, n, c) {
      assert Child(t, n, c) ==> c in order;
    }
  }

  // ---------- The whole visit ----------

  /** x is below a span that is collapsed into its parent, or is one. */
  ghost predicate BelowFold(collapse: string -> bool, t: Tree, x: Id)
    requires Acyclic(Par(t))
  {
    exists p, c :: FoldsInto(collapse, t, p, c) && Under(Par(t), c, x)
  }

  /** How many children of p are collapsed into it and started at v. */
  function FoldsAt(collapse: string -> bool, t: Tree, p: Id, v: int): set<Id> {
    set c | c in t.spans && FoldsInto(collapse, t, p, c) && t.spans[c].start == v
  }

  /** Exactly what is not below a collapsed span is left, with one more log for every child collapsed into it. */
  ghost predicate CollapseResult(collapse: string -> bool, t: Tree, t': Tree)
    requires Acyclic(Par(t))
  {
    && (forall x :: x in t'.spans <==> x in t.spans && !BelowFold(collapse, t, x))
    && (forall x :: x in t'.spans ==> t'.spans[x] == t.spans[x].(logs := t'.spans[x].logs) && t.spans[x].logs <= t'.spans[x].logs)
    && forall x, v :: x in t'.spans ==> multiset(t'.spans[x].logs)[v] == multiset(t.spans[x].logs)[v] + |FoldsAt(collapse, t, x, v)|
  }

  /** c is a child of p and is collapsed into it: p has a pseudo type, c has none, and its trace source is to be collapsed. */
  predicate CollapsedInto(collapse: string -> bool, t: Tree, p: Id, c: Id, source: string) {
    && p in t.spans && c in t.spans && t.spans[c].parent == Some(p)
    && t.spans[p].pseudoType != None && t.spans[c].pseudoType == None && t.spans[c].traceSource == Some(source) && collapse(source)
  }

  ghost predicate UnderCollapsed(collapse: string -> bool, t: Tree, x: Id)
    requires Acyclic(Par(t))
  {
    exists p, c, source :: CollapsedInto(collapse, t, p, c, source) && Under(Par(t), c, x)
  }

  /** The children collapsed into x that started at v. */
  ghost function CollapsedAt(collapse: string -> bool, t: Tree, x: Id, v: int): set<Id> {
    set c | c in t.spans && t.spans[c].start == v && exists source :: CollapsedInto(collapse, t, x, c, source)
  }

  lemma {:induction false} FoldsIntoIff(collapse: string -> bool, t: Tree, p: Id, c: Id)
    ensures FoldsInto(collapse, t, p, c) <==> exists source :: CollapsedInto(collapse, t, p, c, source)
  {
    if FoldsInto(collapse, t, p, c) {
      assert CollapsedInto(collapse, t, p, c, t.spans[c].traceSource.value);
    }
  }

  lemma {:induction false} BelowFoldIff(collapse: string -> bool, t: Tree, x: Id)
    requires Acyclic(Par(t))
    ensures BelowFold(collapse, t, x) <==> UnderCollapsed(collapse, t, x)
  {
    hide FoldsInto, CollapsedInto, Under;
    if BelowFold(collapse, t, x) {
      var p, c :| FoldsInto(collapse, t, p, c) && Under(Par(t), c, x);
      FoldsIntoIff(collapse, t, p, c);
      var source :| CollapsedInto(collapse, t, p, c, source);
    }
    if UnderCollapsed(collapse, t, x) {
      var p, c, source :| CollapsedInto(collapse, t, p, c, source) && Under(Par(t), c, x);
      FoldsIntoIff(collapse, t, p, c);
    }
  }

  lemma {:induction false} FoldsAtIff(collapse: string -> bool, t: Tree, x: Id, v: int)
    ensures FoldsAt(collapse, t, x, v) == CollapsedAt(collapse, t, x, v)
  {
    forall c ensures c in FoldsAt(collapse, t, x, v) <==> c in CollapsedAt(collapse, t, x, v) {
      FoldsIntoIff(collapse, t, x, c);
    }
  }

  /** Which spans are left, and how many logs at time v a span has got. */
  lemma {:induction false} CollapsedIff(collapse: string -> bool, t: Tree, t': Tree, x: Id, v: int)
    requires Acyclic(Par(t)) && CollapseResult(collapse, t, t') && x in t.spans
    ensures x in t'.spans <==> !UnderCollapsed(collapse, t, x)
    ensures x in t'.spans ==> multiset(t'.spans[x].logs)[v] == multiset(t.spans[x].logs)[v] + |CollapsedAt(collapse, t, x, v)|
  {
    hide BelowFold, UnderCollapsed, FoldsAt, CollapsedAt;
    BelowFoldIff(collapse, t, x);
    FoldsAtIff(collapse, t, x, v);
  }

  lemma {:induction false} GoneBelowFold(collapse: string -> bool, t: Tree, t': Tree, x: Id)
    requires WellFormed(t) && WellFormed(t') && CollapseRel(collapse, t, t') && x in t.spans && x !in t'.spans
    ensures BelowFold(collapse, t, x)
    decreases Depth(Par(t), x)
  {
    hide LogsLost;
    assert x != t.root;
    var p := Par(t)[x];
    assert Child(t, p, x);
    if p in t'.spans {
      assert FoldsInto(collapse, t, p, x) && Under(Par(t), x, x);
    } else {
      GoneBelowFold(collapse, t, t', p);
      var q, c :| FoldsInto(collapse, t, q, c) && Under(Par(t), c, p);
      assert Under(Par(t), c, x);
    }
  }

  lemma {:induction false} BelowGone(collapse: string -> bool, t: Tree, t': Tree, c: Id, x: Id)
    requires WellFormed(t) && CollapseRel(collapse, t, t') && c !in t'.spans && c in t.spans && x in t.spans && Under(Par(t), c, x)
    ensures x !in t'.spans
    decreases Depth(Par(t), x)
  {
    hide LogsLost;
    if x != c {
      assert Child(t, Par(t)[x], x);
      BelowGone(collapse, t, t', c, Par(t)[x]);
    }
  }

  lemma {:induction false} FoldGone(collapse: string -> bool, t: Tree, t': Tree, p: Id, c: Id)
    requires CollapseRel(collapse, t, t') && FoldsInto(collapse, t, p, c) && forall q, x :: !FoldsInto(collapse, t', q, x)
    ensures c in t.spans && c !in t'.spans
  {
    hide LogsLost;
    assert !FoldsInto(collapse, t', p, c);
  }

  lemma {:induction false} LeftIff(collapse: string -> bool, t: Tree, t': Tree, x: Id)
    requires WellFormed(t) && WellFormed(t') && CollapseRel(collapse, t, t') && forall p, c :: !FoldsInto(collapse, t', p, c)
    ensures x in t'.spans <==> x in t.spans && !BelowFold(collapse, t, x)
  {
    hide WellFormed, CollapseRel, FoldsInto, Under;
    WellFormedAcyclic(t);
    SpansLeft(collapse, t, t');
    if x in t.spans && x !in t'.spans {
      GoneBelowFold(collapse, t, t', x);
    } else if x in t.spans && BelowFold(collapse, t, x) {
      var p, c :| FoldsInto(collapse, t, p, c) && Under(Par(t), c, x);
      FoldGone(collapse, t, t', p, c);
      BelowGone(collapse, t, t', c, x);
    }
  }

  lemma {:induction false} LogsLeft(collapse: string -> bool, t: Tree, t': Tree, x: Id, v: int)
    requires CollapseRel(collapse, t, t') && x in t'.spans && forall p, c :: !FoldsInto(collapse, t', p, c)
    ensures multiset(t'.spans[x].logs)[v] == multiset(t.spans[x].logs)[v] + |FoldsAt(collapse, t, x, v)|
  {
    assert LogsLost(t, t', x);
    LostAreFolds(collapse, t, t', x, v);
  }

  lemma {:induction false} SpansLeft(collapse: string -> bool, t: Tree, t': Tree)
    requires CollapseRel(collapse, t, t')
    ensures forall x :: x in t'.spans ==>
              x in t.spans && t'.spans[x] == t.spans[x].(logs := t'.spans[x].logs) && t.spans[x].logs <= t'.spans[x].logs
  {
    forall x | x in t'.spans ensures t.spans[x].logs <= t'.spans[x].logs {
      assert LogsLost(t, t', x);
    }
  }

  /** What a whole visit has done. */
  lemma {:induction false} CollapseDone(collapse: string -> bool, t: Tree, t': Tree)
    requires WellFormed(t) && WellFormed(t') && CollapseRel(collapse, t, t') && forall p, c :: !FoldsInto(collapse, t', p, c)
    ensures CollapseResult(collapse, t, t')
  {
    hide WellFormed, CollapseRel, FoldsInto, FoldsAt, BelowFold, Acyclic;
    WellFormedAcyclic(t);
    SpansLeft(collapse, t, t');
    forall x ensures x in t'.spans <==> x in t.spans && !BelowFold(collapse, t, x) {
      LeftIff(collapse, t, t', x);
    }
    forall x, v | x in t'.spans ensures multiset(t'.spans[x].logs)[v] == multiset(t.spans[x].logs)[v] + |FoldsAt(collapse, t, x, v)| {
      LogsLeft(collapse, t, t', x, v);
    }
  }

  lemma {:induction false} WellFormedAcyclic(t: Tree)
    requires WellFormed(t)
    ensures Acyclic(Par(t))
  {
  }

  lemma {:induction false} LostAreFolds(collapse: string -> bool, t: Tree, t': Tree, x: Id, v: int)
    requires CollapseRel(collapse, t, t') && x in t'.spans && forall p, c :: !FoldsInto(collapse, t', p, c)
    ensures Lost(t, t', x, v) == FoldsAt(collapse, t, x, v)
  {
    hide LogsLost;
    forall c | c in FoldsAt(collapse, t, x, v) ensures c in Lost(t, t', x, v) {
      FoldGone(collapse, t, t', x, c);
    }
  }
}
