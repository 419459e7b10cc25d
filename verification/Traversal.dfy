/**
 What the visitor engine keeps while a visitor edits the tree under its feet. A span is entered when it is on the
 visitor stack or exited; the frontier is the unentered spans with an entered parent. `out` names spans the
 traversal does not reach (they are waiting to be pruned by SetRoot); for every other visit it is empty.
 */
module Traversal {
  import opened Wrappers
  import opened Forest
  import opened MapOrder
  import opened TreeModel

  predicate Entered(t: Tree, x: Id) {
    x in t.stack || x in t.exited
  }

  function Unentered(t: Tree): set<Id> {
    t.spans.Keys - t.stack.Keys - t.exited
  }

  /** The unentered children of n within reach. */
  function Waiting(t: Tree, n: Id, out: set<Id>): set<Id> {
    set x | x in t.spans && x !in out && Child(t, n, x) && !Entered(t, x)
  }

  /** The spans in reach form a tree below the root whose references invert childrenMap. */
  ghost predicate Region(t: Tree, out: set<Id>) {
    && t.root in t.spans && t.root !in out && t.spans[t.root].parent == None
    && (forall x :: x in t.spans ==> t.spans[x].id == x)
    && (forall x :: x in t.spans && x !in out && x != t.root ==> t.spans[x].parent.Some?)
    && (forall p, c :: c !in out && Child(t, p, c) ==> p in t.spans && p !in out)
    && (forall p, c :: p !in out ==> (c in Kids(t, p) <==> c !in out && Child(t, p, c)))
    && Acyclic(Par(t))
  }

  /** Entered spans are in reach and closed upwards, exited spans closed downwards. */
  ghost predicate Entries(t: Tree, out: set<Id>) {
    && (forall x :: Entered(t, x) ==> x in t.spans && x !in out)
    && (forall x :: x in t.stack ==> x !in t.exited)
    && (forall p, x :: Entered(t, x) && Child(t, p, x) ==> Entered(t, p))
    && (forall p, x :: x in t.stack && Child(t, p, x) ==> p in t.stack)
    && (forall p, x :: x !in out && p in t.exited && Child(t, p, x) ==> x in t.exited)
  }

  /** The unprocessed list of a span on the stack names distinct unentered children of it. */
  ghost predicate Queues(t: Tree, out: set<Id>) {
    forall s :: s in t.stack ==>
      NoDup(t.stack[s]) && forall c :: c in t.stack[s] ==> c !in out && Child(t, s, c) && !Entered(t, c)
  }

  ghost predicate EngineOk(t: Tree, out: set<Id>) {
    Region(t, out) && Entries(t, out) && Queues(t, out)
  }

  /** n may be visited next: the root of an untouched tree, or a frontier span on no list. */
  ghost predicate Visitable(t: Tree, n: Id, out: set<Id>) {
    && n in t.spans && n !in out && !Entered(t, n)
    && (if n == t.root then t.stack == map[] && t.exited == {}
        else t.spans[n].parent.Some? && t.spans[n].parent.value in t.stack && n !in t.stack[t.spans[n].parent.value])
  }

  /** What a visit of n, or the visitor's Enter on n, leaves of everything else. */
  ghost predicate Frame(t: Tree, t': Tree, n: Id) {
    && t'.root == t.root && t'.stack.Keys == t.stack.Keys && t.exited <= t'.exited
    && (forall x :: x in t'.spans ==> x in t.spans)
    && (forall s :: s in t.stack ==> t.stack[s] <= t'.stack[s] && (Child(t, s, n) || t'.stack[s] == t.stack[s]))
    && (forall x :: Entered(t, x) ==> x in t.spans && x in t'.spans && t'.spans[x].parent == t.spans[x].parent)
    && (forall x, p :: Child(t, p, x) && Entered(t, p) && x != n && !Entered(t, x) ==> Child(t', p, x) && !Entered(t', x))
    && (forall x, s :: s in t.stack && Child(t', s, x) ==> Child(t, s, x) || x in t'.stack[s])
    && (forall s, i :: s in t.stack && |t.stack[s]| <= i < |t'.stack[s]| ==> !Child(t, s, t'.stack[s][i]))
  }

  /** The state of the loop over n's children: `rest` are those taken off the list and not yet visited. */
  ghost predicate Within(t0: Tree, t: Tree, n: Id, rest: seq<Id>, out: set<Id>) {
    && n in t0.spans && !Entered(t0, n)
    && t.root == t0.root && t.stack.Keys == t0.stack.Keys + {n} && t0.exited <= t.exited
    && (forall x :: x in t.spans ==> x in t0.spans)
    && (forall s :: s in t0.stack ==> t.stack[s] == t0.stack[s])
    && (forall x :: Entered(t0, x) || x == n ==> x in t0.spans && x in t.spans && t.spans[x].parent == t0.spans[x].parent)
    && (forall x, p :: Child(t0, p, x) && Entered(t0, p) && x != n && !Entered(t0, x) ==> Child(t, p, x) && !Entered(t, x))
    && (forall x, s :: s in t0.stack && Child(t, s, x) ==> Child(t0, s, x))
    && NoDup(rest + t.stack[n]) && Elems(rest + t.stack[n]) == Waiting(t, n, out)
  }

  /** With every span in reach the region is the whole of a well-formed tree. */
  lemma {:induction false} WellFormedRegion(t: Tree)
    ensures WellFormed(t) <==> Region(t, {})
  {
  }

  // ---------- The engine's own steps ----------

  function PushNode(t: Tree, n: Id, kids: seq<Id>): Tree {
    t.(stack := t.stack[n := kids])
  }

  function PopNode(t: Tree, n: Id): Tree {
    t.(stack := t.stack - {n})
  }

  function ExitNode(t: Tree, n: Id): Tree {
    t.(exited := t.exited + {n})
  }

  /** Children of a span that has not been entered have not been entered either. */
  lemma {:induction false} ChildrenUnentered(t: Tree, n: Id, c: Id, out: set<Id>)
    requires Region(t, out) && Entries(t, out) && !Entered(t, n) && Child(t, n, c)
    ensures !Entered(t, c) && c != n
  {
    assert Par(t)[c] == n;
    NoSelfParent(Par(t), c);
  }

  lemma {:induction false} RegionOfSameSpans(t: Tree, t': Tree, out: set<Id>)
    requires Region(t, out) && t'.spans == t.spans && t'.children == t.children && t'.root == t.root
    ensures Region(t', out)
  {
    assert Par(t') == Par(t);
    forall p, c | p !in out ensures c in Kids(t', p) <==> c !in out && Child(t', p, c) {
      assert c in Kids(t, p) <==> c !in out && Child(t, p, c);
    }
  }

  lemma {:induction false} PushEntries(t: Tree, n: Id, kids: seq<Id>, out: set<Id>)
    requires Region(t, out) && Entries(t, out) && Visitable(t, n, out)
    ensures Entries(PushNode(t, n, kids), out)
  {
    var t' := PushNode(t, n, kids);
    PushBelowEntered(t, n, out);
    hide Region;
    assert forall x :: Entered(t', x) <==> Entered(t, x) || x == n;
    assert forall p, x :: Child(t', p, x) <==> Child(t, p, x);
  }

  lemma {:induction false} PushBelowEntered(t: Tree, n: Id, out: set<Id>)
    requires Region(t, out) && Visitable(t, n, out)
    ensures forall p :: Child(t, p, n) ==> p in t.stack
  {
  }

  lemma {:induction false} PushQueues(t: Tree, n: Id, kids: seq<Id>, out: set<Id>)
    requires EngineOk(t, out) && Visitable(t, n, out)
    requires NoDup(kids) && forall x :: x in kids <==> x in Kids(t, n)
    ensures Queues(PushNode(t, n, kids), out)
    ensures Elems(kids) == Waiting(PushNode(t, n, kids), n, out)
  {
    var t' := PushNode(t, n, kids);
    forall c | Child(t, n, c) ensures !Entered(t', c) {
      ChildrenUnentered(t, n, c, out);
    }
    forall s, c | s in t.stack && c in t.stack[s] ensures c !in out && Child(t', s, c) && !Entered(t', c) {
      assert Child(t, s, c) && !Entered(t, c);
    }
    forall c | c in kids ensures c !in out && Child(t', n, c) && !Entered(t', c) {
      assert c in Kids(t, n);
    }
    forall c ensures c in Elems(kids) <==> c in Waiting(t', n, out) {
      assert c in Kids(t, n) <==> c !in out && Child(t, n, c);
    }
    forall s | s in t'.stack
      ensures NoDup(t'.stack[s]) && forall c :: c in t'.stack[s] ==> c !in out && Child(t', s, c) && !Entered(t', c)
    {
      if s == n {
        assert t'.stack[s] == kids;
      } else {
        assert t'.stack[s] == t.stack[s];
      }
    }
  }

  lemma {:induction false} PushWithin(t: Tree, n: Id, kids: seq<Id>, out: set<Id>)
    requires n in t.spans && !Entered(t, n)
    requires forall x :: Entered(t, x) ==> x in t.spans
    requires NoDup(kids) && Elems(kids) == Waiting(PushNode(t, n, kids), n, out)
    ensures Within(t, PushNode(t, n, kids), n, [], out)
  {
    var t' := PushNode(t, n, kids);
    assert [] + t'.stack[n] == kids;
    assert forall x :: Entered(t', x) <==> Entered(t, x) || x == n;
  }

  /** Entering n puts its children on its list. */
  lemma {:induction false} PushOk(t: Tree, n: Id, kids: seq<Id>, out: set<Id>)
    requires EngineOk(t, out) && Visitable(t, n, out)
    requires NoDup(kids) && forall x :: x in kids <==> x in Kids(t, n)
    ensures EngineOk(PushNode(t, n, kids), out)
    ensures Within(t, PushNode(t, n, kids), n, [], out)
  {
    RegionOfSameSpans(t, PushNode(t, n, kids), out);
    PushEntries(t, n, kids, out);
    PushQueues(t, n, kids, out);
    PushWithin(t, n, kids, out);
  }

  // ---------- A visitor that edits below the span it enters ----------

  /** An edit below n, which is about to be entered, that touches no list. */
  ghost predicate EditedBelow(t: Tree, t': Tree, n: Id, out: set<Id>) {
    && EngineOk(t', out) && Visitable(t', n, out) && Frame(t, t', n)
    && t'.stack == t.stack && t'.exited == t.exited && forall p :: Child(t', p, n) <==> Child(t, p, n)
  }

  lemma {:induction false} EditedSame(t: Tree, n: Id, out: set<Id>)
    requires EngineOk(t, out) && Visitable(t, n, out)
    ensures EditedBelow(t, t, n, out)
  {
  }

  /** What follows an edit below n, seen from before it. */
  lemma {:induction false} FrameAfterEdit(a: Tree, b: Tree, c: Tree, n: Id)
    requires Frame(a, b, n) && Frame(b, c, n) && b.stack == a.stack && b.exited == a.exited && forall p :: Child(b, p, n) <==> Child(a, p, n)
    ensures Frame(a, c, n)
  {
    assert forall x :: Entered(b, x) <==> Entered(a, x);
    forall s | s in a.stack ensures a.stack[s] <= c.stack[s] && (Child(a, s, n) || c.stack[s] == a.stack[s]) {}
    forall x | Entered(a, x) ensures x in a.spans && x in c.spans && c.spans[x].parent == a.spans[x].parent {}
    forall x, p | Child(a, p, x) && Entered(a, p) && x != n && !Entered(a, x) ensures Child(c, p, x) && !Entered(c, x) {
      assert Child(b, p, x) && !Entered(b, x);
    }
    forall x, s | s in a.stack && Child(c, s, x) ensures Child(a, s, x) || x in c.stack[s] {
      assert Child(b, s, x) || x in c.stack[s];
    }
    forall s, i | s in a.stack && |a.stack[s]| <= i < |c.stack[s]| ensures !Child(a, s, c.stack[s][i]) {
      EntryNotChild(a, b, c, n, s, i);
    }
  }

  lemma {:induction false} EntryNotChild(a: Tree, b: Tree, c: Tree, n: Id, s: Id, i: nat)
    requires Frame(a, b, n) && Frame(b, c, n) && b.stack == a.stack && b.exited == a.exited && forall p :: Child(b, p, n) <==> Child(a, p, n)
    requires s in a.stack && |a.stack[s]| <= i < |c.stack[s]|
    ensures !Child(a, s, c.stack[s][i])
  {
    var x := c.stack[s][i];
    assert !Child(b, s, x) && Entered(a, s);
    assert Entered(a, x) ==> x in b.spans && b.spans[x].parent == a.spans[x].parent;
  }

  lemma {:induction false} EditedTransitive(a: Tree, b: Tree, c: Tree, n: Id, out: set<Id>)
    requires EditedBelow(a, b, n, out) && EditedBelow(b, c, n, out)
    ensures EditedBelow(a, c, n, out)
  {
    hide Frame, EngineOk, Visitable;
    FrameAfterEdit(a, b, c, n);
  }

  lemma {:induction false} EditShrinks(t: Tree, t': Tree, n: Id, out: set<Id>)
    requires EditedBelow(t, t', n, out)
    ensures Unentered(t') <= Unentered(t)
  {
    forall x | x in Unentered(t') ensures x in Unentered(t) {
      assert x in t.spans;
    }
  }

  // ---------- A span added during a visit ----------

  lemma {:induction false} AddedChildren(t: Tree, span: Span, p: Id)
    requires Region(t, {}) && span.id !in t.spans && p in t.spans
    ensures var t' := AddF(t, span, p);
            && (forall q, c :: Child(t', q, c) <==> Child(t, q, c) || (q == p && c == span.id))
            && (forall x :: Entered(t', x) <==> Entered(t, x) || (x == p && p in t.stack))
            && forall q :: !Child(t, span.id, q)
  {
  }

  lemma {:induction false} AddedEntries(t: Tree, span: Span, p: Id)
    requires Region(t, {}) && Entries(t, {}) && p in t.stack && span.id !in t.spans
    ensures Entries(AddF(t, span, p), {})
  {
    AddedChildren(t, span, p);
    hide Region;
    var t' := AddF(t, span, p);
    assert t'.stack.Keys == t.stack.Keys && t'.exited == t.exited && t'.spans.Keys == t.spans.Keys + {span.id};
    hide AddF;
  }

  lemma {:induction false} AddedQueues(t: Tree, span: Span, p: Id)
    requires Region(t, {}) && Entries(t, {}) && Queues(t, {}) && p in t.stack && span.id !in t.spans
    ensures Queues(AddF(t, span, p), {}) && AddF(t, span, p).stack == t.stack[p := t.stack[p] + [span.id]]
  {
    AddedChildren(t, span, p);
    var t' := AddF(t, span, p);
    assert t'.stack == t.stack[p := t.stack[p] + [span.id]];
    assert !Entered(t, span.id) && span.id !in t.stack[p];
    hide Region, AddF;
    forall s | s in t'.stack ensures NoDup(t'.stack[s]) && forall c :: c in t'.stack[s] ==> Child(t', s, c) && !Entered(t', c) {
      assert forall c :: c in t.stack[s] ==> Child(t, s, c) && !Entered(t, c);
    }
  }

  /** A span added below one that is being visited goes on its list, so that it is visited as well, and the invariants hold. */
  lemma {:induction false} AddDuringVisit(t: Tree, span: Span, p: Id)
    requires EngineOk(t, {}) && p in t.stack && span.id !in t.spans
    ensures EngineOk(AddF(t, span, p), {}) && AddF(t, span, p).stack == t.stack[p := t.stack[p] + [span.id]]
    ensures Waiting(AddF(t, span, p), p, {}) == Waiting(t, p, {}) + {span.id}
  {
    var t' := AddF(t, span, p);
    AddedEntries(t, span, p);
    AddedQueues(t, span, p);
    AddedChildren(t, span, p);
    assert p in t.spans && Entered(t, p);
    assert !Entered(t, span.id);
    WellFormedRegion(t);
    AddWellFormed(t, span, p);
    WellFormedRegion(t');
  }

  // ---------- One child visited ----------

  /** The list loses its first element and gains new ones at the end. */
  lemma {:induction false} QueueStep(c: Id, rest: seq<Id>, q: seq<Id>, q': seq<Id>)
    requires NoDup([c] + rest + q) && NoDup(q') && q <= q'
    requires forall i :: |q| <= i < |q'| ==> q'[i] !in [c] + rest + q
    ensures NoDup(rest + q')
    ensures Elems(rest + q') == Elems([c] + rest + q) - {c} + Elems(q'[|q|..])
  {
    var all, s := [c] + rest + q, rest + q';
    forall i, j | 0 <= i < j < |s| ensures s[i] != s[j] {
      if j < |rest| + |q| {
        assert s[i] == all[i + 1] && s[j] == all[j + 1];
      } else if i < |rest| {
        assert s[i] == all[i + 1];
      }
    }
    forall x | x in all && x != c ensures x in s {
      var i :| 0 <= i < |all| && all[i] == x;
      assert s[i - 1] == x;
    }
    forall x | x in s ensures (x in all && x != c) || x in q'[|q|..] {
      var i :| 0 <= i < |s| && s[i] == x;
      if i < |rest| + |q| {
        assert all[i + 1] == x && all[0] == c;
      } else {
        assert q'[|q|..][i - |rest| - |q|] == x;
      }
    }
    forall x | x in q'[|q|..] ensures x in s {}
  }

  lemma {:induction false} WithinQueue(t0: Tree, t: Tree, t': Tree, n: Id, c: Id, rest: seq<Id>, out: set<Id>)
    requires Queues(t', out) && n in t.stack
    requires NoDup([c] + rest + t.stack[n]) && Elems([c] + rest + t.stack[n]) == Waiting(t, n, out)
    requires (forall x :: Entered(t, x) ==> x in t.spans)
    requires Frame(t, t', c) && (c !in t'.spans || c in t'.exited)
    ensures NoDup(rest + t'.stack[n]) && Elems(rest + t'.stack[n]) == Waiting(t', n, out)
  {
    var q, q' := t.stack[n], t'.stack[n];
    forall i | |q| <= i < |q'| ensures q'[i] !in [c] + rest + q {
      assert !Child(t, n, q'[i]);
      assert q'[i] !in Waiting(t, n, out);
    }
    QueueStep(c, rest, q, q');
    forall x | x in q'[|q|..] ensures x in Waiting(t', n, out) { assert x in q'; }
    forall x | x in Waiting(t, n, out) && x != c ensures x in Waiting(t', n, out) {}
    forall x | x in Waiting(t', n, out) ensures x in q'[|q|..] || (x in Waiting(t, n, out) && x != c) {
      if Child(t, n, x) {
        assert Entered(t, x) ==> Entered(t', x);
      } else {
        assert x in q';
        assert x in q ==> x in Waiting(t, n, out);
      }
    }
  }

  /** Visiting the next child leaves the loop with one child less to go. */
  lemma {:induction false} WithinAfterChild(t0: Tree, t: Tree, t': Tree, n: Id, c: Id, rest: seq<Id>, out: set<Id>)
    requires Entries(t, out) && Queues(t, out) && Queues(t', out)
    requires Within(t0, t, n, [c] + rest, out)
    requires Frame(t, t', c) && (c !in t'.spans || c in t'.exited)
    ensures Within(t0, t', n, rest, out)
  {
    WithinQueue(t0, t, t', n, c, rest, out);
    assert c in ([c] + rest + t.stack[n]);
    assert c in Waiting(t, n, out);
    forall x | Entered(t0, x) || x == n
      ensures x in t'.spans && t'.spans[x].parent == t0.spans[x].parent
    {
      assert Entered(t, x);
    }
    forall x, p | Child(t0, p, x) && Entered(t0, p) && x != n && !Entered(t0, x)
      ensures Child(t', p, x) && !Entered(t', x)
    {
      assert Child(t, p, x) && !Entered(t, x) && Entered(t, p) && x != c;
    }
    forall x, s | s in t0.stack && Child(t', s, x) ensures Child(t0, s, x) {
      assert s in t.stack && t'.stack[s] == t.stack[s];
    }
  }

  // ---------- Leaving n ----------

  /** The visitor's Exit changed at most what spans carry besides their ids and references. */
  ghost predicate SameShape(t: Tree, t': Tree) {
    && t'.spans.Keys == t.spans.Keys
    && (forall x :: x in t.spans ==> t'.spans[x].id == t.spans[x].id && t'.spans[x].parent == t.spans[x].parent)
    && t'.children == t.children && t'.stack == t.stack && t'.exited == t.exited && t'.root == t.root
  }

  lemma {:induction false} RegionOfSameShape(t: Tree, t': Tree, out: set<Id>)
    requires Region(t, out) && SameShape(t, t')
    ensures Region(t', out)
  {
    forall x ensures (x in Par(t) <==> x in Par(t')) && (x in Par(t) ==> Par(t')[x] == Par(t)[x]) {
      assert x in t.spans ==> t'.spans[x].parent == t.spans[x].parent;
    }
    assert Par(t') == Par(t);
    assert forall p, c :: Child(t', p, c) <==> Child(t, p, c);
    forall p, c | p !in out ensures c in Kids(t', p) <==> c !in out && Child(t', p, c) {
      assert c in Kids(t, p) <==> c !in out && Child(t, p, c);
    }
  }

  /** When n's list is empty, all its children have exited. */
  lemma {:induction false} ChildrenExited(t0: Tree, t: Tree, n: Id, c: Id, out: set<Id>)
    requires Entries(t0, out) && Entries(t, out) && Region(t, out) && Within(t0, t, n, [], out) && t.stack[n] == []
    requires c !in out && Child(t, n, c)
    ensures c in t.exited
  {
    assert [] + t.stack[n] == [];
    assert c !in Waiting(t, n, out);
    if c in t.stack {
      assert Par(t)[c] == n;
      NoSelfParent(Par(t), c);
      assert c in t0.stack;
      assert Child(t0, n, c);
    }
  }

  lemma {:induction false} ExitEntries(t0: Tree, t: Tree, n: Id, out: set<Id>)
    requires Entries(t0, out) && Entries(t, out) && Region(t, out) && Within(t0, t, n, [], out) && t.stack[n] == []
    ensures Entries(ExitNode(PopNode(t, n), n), out)
  {
    var t' := ExitNode(PopNode(t, n), n);
    assert forall x :: Entered(t', x) <==> Entered(t, x);
    assert forall p, c :: Child(t', p, c) <==> Child(t, p, c);
    forall c | c !in out && Child(t, n, c) ensures c in t.exited {
      ChildrenExited(t0, t, n, c, out);
    }
    forall p, x | x in t'.stack && Child(t', p, x) ensures p in t'.stack {
      assert x in t0.stack && Entered(t0, x) && Child(t0, p, x);
    }
  }

  lemma {:induction false} ExitFrame(t0: Tree, t: Tree, t': Tree, n: Id, out: set<Id>)
    requires Within(t0, t, n, [], out) && SameShape(ExitNode(PopNode(t, n), n), t')
    ensures Frame(t0, t', n)
  {
    assert forall x :: Entered(t', x) <==> Entered(t, x);
    assert forall p, c :: Child(t', p, c) <==> Child(t, p, c);
  }

  lemma {:induction false} EntriesOfSameShape(t: Tree, t': Tree, out: set<Id>)
    requires Entries(t, out) && SameShape(t, t')
    ensures Entries(t', out)
  {
    assert forall x :: Entered(t', x) <==> Entered(t, x);
    assert forall p, c :: Child(t', p, c) <==> Child(t, p, c);
  }

  lemma {:induction false} ExitQueues(t: Tree, t': Tree, n: Id, out: set<Id>)
    requires Queues(t, out) && n in t.stack && SameShape(ExitNode(PopNode(t, n), n), t')
    ensures Queues(t', out)
  {
    assert forall x :: Entered(t', x) <==> Entered(t, x);
    assert forall p, c :: Child(t', p, c) <==> Child(t, p, c);
  }

  /** Leaving n when its list is empty. */
  lemma {:induction false} ExitOk(t0: Tree, t: Tree, t': Tree, n: Id, out: set<Id>)
    requires EngineOk(t0, out) && EngineOk(t, out) && Within(t0, t, n, [], out) && t.stack[n] == []
    requires SameShape(ExitNode(PopNode(t, n), n), t')
    ensures EngineOk(t', out) && Frame(t0, t', n)
  {
    RegionOfSameSpans(t, ExitNode(PopNode(t, n), n), out);
    RegionOfSameShape(ExitNode(PopNode(t, n), n), t', out);
    ExitEntries(t0, t, n, out);
    EntriesOfSameShape(ExitNode(PopNode(t, n), n), t', out);
    ExitQueues(t, t', n, out);
    ExitFrame(t0, t, t', n, out);
  }

  // ---------- A leaf deleted on leaving it ----------

  /** t' is t without the childless span n. */
  ghost predicate LeafGone(t: Tree, t': Tree, n: Id) {
    && t'.spans == t.spans - {n}
    && (forall q :: Kids(t', q) == if q == n then {} else Kids(t, q) - {n})
    && (forall x :: !Child(t, n, x))
    && t'.stack == t.stack && t'.exited == t.exited && t'.root == t.root
  }

  lemma {:induction false} DeletedLeaf(t: Tree, t': Tree, n: Id)
    requires Acyclic(Par(t)) && n in t.spans && Deleted(t, t', n) && forall x :: !Child(t, n, x)
    ensures LeafGone(t, t', n)
  {
    assert forall y :: y in Par(t) ==> Child(t, Par(t)[y], y);
    forall x | x in Subtree(t, n) ensures x == n {
      LeafAlone(Par(t), n, x);
    }
    assert Subtree(t, n) == {n};
  }

  lemma {:induction false} LeafAlone(par: Parents, n: Id, x: Id)
    requires Acyclic(par) && Under(par, n, x) && forall y :: y in par ==> par[y] != n
    ensures x == n
    decreases Depth(par, x)
  {
    if x != n {
      LeafAlone(par, n, par[x]);
    }
  }

  lemma {:induction false} LeafGoneRegion(t: Tree, t': Tree, n: Id)
    requires Region(t, {}) && LeafGone(t, t', n) && n in t.spans && n != t.root
    ensures Region(t', {})
  {
    assert Par(t') == Par(t) - {n};
    SubmapAcyclic(Par(t), Par(t'));
    forall p, c | Child(t', p, c) ensures p in t'.spans {
      assert Child(t, p, c);
    }
    forall p, c ensures c in Kids(t', p) <==> Child(t', p, c) {
      assert c in Kids(t, p) <==> Child(t, p, c);
    }
  }

  lemma {:induction false} LeafGoneEntries(t0: Tree, t: Tree, t': Tree, n: Id)
    requires Entries(t0, {}) && Entries(t, {}) && Region(t, {}) && Within(t0, t, n, [], {})
    requires LeafGone(PopNode(t, n), t', n)
    ensures Entries(t', {})
  {
    forall x | Entered(t', x) ensures x in t'.spans && Entered(t, x) {}
    forall p, x | Child(t', p, x) ensures Child(t, p, x) && p != n {
      assert Child(PopNode(t, n), p, x);
    }
    forall p, x | x in t'.stack && Child(t', p, x) ensures p in t'.stack {
      assert x in t0.stack && Entered(t0, x) && Child(t0, p, x);
    }
  }

  lemma {:induction false} LeafGoneFrame(t0: Tree, t: Tree, t': Tree, n: Id)
    requires Entries(t0, {}) && Entries(t, {}) && Within(t0, t, n, [], {}) && LeafGone(PopNode(t, n), t', n)
    ensures Frame(t0, t', n)
  {
    assert forall x :: Entered(t', x) <==> Entered(t, x) && x != n;
    forall p, x | p != n && x != n ensures Child(t', p, x) <==> Child(t, p, x) {}
  }

  lemma {:induction false} LeafGoneQueues(t: Tree, t': Tree, n: Id)
    requires Queues(t, {}) && n in t.stack && LeafGone(PopNode(t, n), t', n)
    ensures Queues(t', {})
  {
    forall s | s in t'.stack
      ensures NoDup(t'.stack[s]) && forall c :: c in t'.stack[s] ==> Child(t', s, c) && !Entered(t', c)
    {
      assert t'.stack[s] == t.stack[s];
      assert forall c :: c in t.stack[s] ==> Child(t, s, c) && c != n;
    }
  }

  /** Leaving n when its list is empty and the visitor deletes it, childless, on the way out. */
  lemma {:induction false} LeafOk(t0: Tree, t: Tree, t': Tree, n: Id)
    requires EngineOk(t0, {}) && EngineOk(t, {}) && Within(t0, t, n, [], {}) && n != t.root
    requires LeafGone(PopNode(t, n), t', n)
    ensures EngineOk(t', {}) && Frame(t0, t', n)
  {
    RegionOfSameSpans(t, PopNode(t, n), {});
    LeafGoneRegion(PopNode(t, n), t', n);
    LeafGoneEntries(t0, t, t', n);
    LeafGoneQueues(t, t', n);
    LeafGoneFrame(t0, t, t', n);
  }
}
