/** The mutable span tree and its visitor engine. */
module SpanTrees {
  import opened Wrappers
  import opened Forest
  import opened MapOrder
  import opened TreeModel
  import opened Deletion
  import opened Traversal
  import opened Visitors
  import opened Collapsing
  import opened GoIntegers

  class SpanIdCollector {
    var spanIds: set<Id>

    constructor ()
      ensures spanIds == {}
    {
      spanIds := {};
    }
  }

  /** The running hull of CompactDurationVisitor. */
  class TimeRange {
    var start: int
    var end: int
    var hasStart: bool
    var hasEnd: bool

    constructor ()
      ensures !hasStart && !hasEnd
    {
      start, end, hasStart, hasEnd := 0, 0, false, false;
    }

    /** The range has seen exactly these starts and ends. */
    ghost predicate Hull(starts: set<int>, ends: set<int>)
      reads this
    {
      && (hasStart <==> starts != {}) && (hasEnd <==> ends != {})
      && (hasStart ==> Least(start, starts)) && (hasEnd ==> Greatest(end, ends))
    }

    method Union(s: int, e: int, ghost starts: set<int>, ghost ends: set<int>)
      requires Hull(starts, ends)
      modifies this
      ensures Hull(starts + {s}, ends + {e})
    {
      if !hasStart || start > s {
        hasStart := true;
        start := s;
      }
      if !hasEnd || end < e {
        hasEnd := true;
        end := e;
      }
    }
  }

  datatype Visitor =
    | Collect(ids: SpanIdCollector)
    | ExtractNesting(matches: string -> bool)
    | PruneChildless
    | CompactDuration
    | CollapseNesting(collapse: string -> bool)

  ghost function Footprint(v: Visitor): set<object> {
    if v.Collect? then {v.ids} else {}
  }

  /** How a visitor may have changed the tree between two moments of one visit. */
  ghost predicate Related(v: Visitor, t: Tree, t': Tree) {
    match v
    case Collect(_) => t'.spans == t.spans && t'.children == t.children && t'.root == t.root
    case ExtractNesting(m) => ExtractRel(m, t, t')
    case PruneChildless => PruneRel(t, t')
    case CompactDuration => CompactRel(t, t')
    case CollapseNesting(m) => CollapseRel(m, t, t')
  }

  /** What holds of the spans entered or exited so far. */
  ghost predicate Tracking(v: Visitor, t: Tree)
    reads Footprint(v)
  {
    match v
    case Collect(ids) => ids.spanIds == t.stack.Keys + t.exited
    case ExtractNesting(m) => ExtractInv(m, t)
    case PruneChildless => PruneInv(t)
    case CompactDuration => CompactInv(t)
    case CollapseNesting(m) => CollapseInv(m, t)
  }

  /** What a whole visit has achieved. */
  ghost predicate Achieved(v: Visitor, t: Tree, out: set<Id>)
    reads Footprint(v)
  {
    match v
    case Collect(ids) => ids.spanIds == t.spans.Keys - out
    case ExtractNesting(m) => t.spans.Keys <= Keepers(m, t)
    case PruneChildless => forall x :: x in t.spans && Pseudo(t.spans[x]) && x != t.root ==> exists c :: Child(t, x, c)
    case CompactDuration => forall x :: x in t.spans ==> Compacted(t, x)
    case CollapseNesting(m) => forall p, c :: !FoldsInto(m, t, p, c)
  }

  // ---------- The visitors between two engine steps ----------

  lemma {:induction false} RelatedSame(v: Visitor, t: Tree, t': Tree)
    requires Acyclic(Par(t)) && t'.spans == t.spans && t'.children == t.children && t'.root == t.root
    ensures Related(v, t, t')
  {
    if v.CollapseNesting? {
      CollapseRelSame(v.collapse, t, t');
    }
  }

  lemma {:induction false} RelatedTransitive(v: Visitor, a: Tree, b: Tree, c: Tree)
    requires Related(v, a, b) && Related(v, b, c) && a.exited <= b.exited
    ensures Related(v, a, c)
  {
    match v
    case Collect(_) =>
    case ExtractNesting(m) => ExtractRelTransitive(m, a, b, c);
    case PruneChildless => PruneRelTransitive(a, b, c);
    case CompactDuration => CompactRelTransitive(a, b, c);
    case CollapseNesting(m) => CollapseRelTransitive(m, a, b, c);
  }

  /** What Enter leaves when it keeps the span: the span may be pushed. */
  ghost predicate Admits(v: Visitor, t: Tree, n: Id)
    reads Footprint(v)
  {
    match v
    case Collect(ids) => ids.spanIds == t.stack.Keys + t.exited + {n}
    case ExtractNesting(m) => ExtractInv(m, t) && n in Keepers(m, t)
    case PruneChildless => PruneInv(t)
    case CompactDuration => CompactInv(t)
    case CollapseNesting(m) => CollapseInv(m, t) && forall c :: !FoldsInto(m, t, n, c)
  }

  lemma {:induction false} TrackPush(v: Visitor, t: Tree, n: Id, kids: seq<Id>)
    requires Admits(v, t, n)
    ensures Tracking(v, PushNode(t, n, kids))
  {
    var t' := PushNode(t, n, kids);
    assert forall p, c :: Child(t', p, c) <==> Child(t, p, c);
    if v.CompactDuration? {
      forall x | x in t.exited ensures Compacted(t', x) {
        SameCompacted(t, t', x);
      }
    } else if v.ExtractNesting? {
      assert Keepers(v.matches, t') == Keepers(v.matches, t);
    } else if v.CollapseNesting? {
      CollapseInvPushed(v.collapse, t, t', n);
    }
  }

  lemma {:induction false} CollapseInvPushed(collapse: string -> bool, t: Tree, t': Tree, n: Id)
    requires CollapseInv(collapse, t) && t'.spans == t.spans && forall x :: Entered(t', x) ==> Entered(t, x) || x == n
    requires forall c :: Entered(t, n) || !FoldsInto(collapse, t, n, c)
    ensures CollapseInv(collapse, t')
  {
    forall p, c | Entered(t', p) ensures !FoldsInto(collapse, t', p, c) {
      assert FoldsInto(collapse, t', p, c) <==> FoldsInto(collapse, t, p, c);
    }
  }

  lemma {:induction false} SameCompacted(t: Tree, t': Tree, x: Id)
    requires t'.spans == t.spans && t'.root == t.root && x in t.spans && Compacted(t, x)
    ensures Compacted(t', x)
  {
    assert forall c :: Child(t', x, c) <==> Child(t, x, c);
    assert Starts(t', x) == Starts(t, x) && Ends(t', x) == Ends(t, x);
    if Pseudo(t.spans[x]) && Starts(t, x) != {} {
      var lo, hi :| Least(lo, Starts(t, x)) && Greatest(hi, Ends(t, x)) && Spans(t, x, lo, hi);
      assert Spans(t', x, lo, hi);
    }
  }

  /** What the visitor's Exit does to the tree. */
  ghost predicate ExitEffect(v: Visitor, t: Tree, t': Tree, n: Id)
    requires n in t.spans
  {
    match v
    case Collect(_) => t' == t
    case ExtractNesting(_) => t' == t
    case CollapseNesting(_) => t' == t
    case PruneChildless =>
      if Pseudo(t.spans[n]) && Kids(t, n) == {} && n != t.root then LeafGone(t, t', n) else t' == t
    case CompactDuration =>
      && Retimed(t, t', n) && Compacted(t', n)
      && (t'.spans[n] != t.spans[n] ==> Pseudo(t.spans[n]) && Starts(t, n) != {})
  }

  lemma {:induction false} TrackKept(t: Tree, n: Id)
    requires EngineOk(t, {}) && n in t.stack && PruneInv(t)
    requires Pseudo(t.spans[n]) && n != t.root ==> Kids(t, n) != {}
    ensures PruneInv(ExitNode(PopNode(t, n), n))
  {
    var u := ExitNode(PopNode(t, n), n);
    assert forall q, c :: Child(u, q, c) <==> Child(t, q, c);
    if Kids(t, n) != {} {
      var c := Witness(Kids(t, n));
      assert Child(u, n, c);
    }
  }

  lemma {:induction false} TrackCompacted(t: Tree, t': Tree, n: Id)
    requires EngineOk(t, {}) && n in t.stack && CompactInv(t)
    requires ExitEffect(CompactDuration, PopNode(t, n), t', n)
    requires forall c :: Child(t, n, c) ==> c in t.exited
    ensures CompactRel(t, ExitNode(t', n)) && CompactInv(ExitNode(t', n))
    ensures SameShape(ExitNode(PopNode(t, n), n), ExitNode(t', n))
  {
    var p := PopNode(t, n);
    assert forall q, c :: Child(p, q, c) <==> Child(t, q, c);
    forall x | x in p.exited ensures Compacted(p, x) {
      SameCompacted(t, p, x);
    }
    RetimedRel(p, t', n);
    assert Starts(p, n) == Starts(t, n);
    CompactExit(p, t', n);
  }

  /** Leaving n: what the visitor has tracked goes on to hold when n is kept. */
  lemma {:induction false} TrackExit(v: Visitor, t: Tree, t': Tree, n: Id, out: set<Id>)
    requires EngineOk(t, out) && n in t.stack && Tracking(v, t) && (v.Collect? || out == {})
    requires ExitEffect(v, PopNode(t, n), t', n) && n in t'.spans
    requires forall c :: c !in out && Child(t, n, c) ==> c in t.exited
    ensures Related(v, t, ExitNode(t', n)) && Tracking(v, ExitNode(t', n))
    ensures SameShape(ExitNode(PopNode(t, n), n), ExitNode(t', n))
  {
    match v
    case Collect(_) =>
    case ExtractNesting(m) =>
      assert Keepers(m, ExitNode(t', n)) == Keepers(m, t);
      RelatedSame(v, t, ExitNode(t', n));
    case PruneChildless =>
      assert Kids(PopNode(t, n), n) == Kids(t, n);
      TrackKept(t, n);
    case CompactDuration =>
      TrackCompacted(t, t', n);
    case CollapseNesting(m) =>
      CollapseInvPushed(m, t, ExitNode(t', n), n);
      RelatedSame(v, t, ExitNode(t', n));
  }

  /** Leaving n: the same when the visitor has pruned it. */
  lemma {:induction false} TrackPruned(t: Tree, t': Tree, n: Id)
    requires EngineOk(t, {}) && n in t.stack && PruneInv(t)
    requires LeafGone(PopNode(t, n), t', n) && Pseudo(t.spans[n]) && n != t.root
    ensures PruneRel(t, t') && PruneInv(t')
  {
    assert forall q, c :: Child(PopNode(t, n), q, c) <==> Child(t, q, c);
    forall x | x in t'.exited && x in t'.spans && Pseudo(t'.spans[x]) && x != t'.root ensures exists c :: Child(t', x, c) {
      var c :| Child(t, x, c);
      assert c in t.exited;
      assert Child(t', x, c);
    }
  }

  /** With the root exited and nobody on the stack, every span in reach has exited. */
  lemma {:induction false} AllExited(t: Tree, out: set<Id>)
    requires EngineOk(t, out) && t.root in t.exited && t.stack == map[]
    ensures t.exited == t.spans.Keys - out
  {
    var nodes := t.spans.Keys - out;
    forall x | x in nodes ensures x in t.exited {
      forall y | y in nodes && y != t.root ensures y in Par(t) && Par(t)[y] in nodes {
        assert Child(t, t.spans[y].parent.value, y);
      }
      AllUnderRoot(Par(t), nodes, t.root, x);
      ExitedBelow(t, out, x);
    }
    forall x | x in t.exited ensures x in nodes {
      assert Entered(t, x);
    }
  }

  lemma {:induction false} ExitedBelow(t: Tree, out: set<Id>, x: Id)
    requires EngineOk(t, out) && t.root in t.exited && x in t.spans && x !in out && Under(Par(t), t.root, x)
    ensures x in t.exited
    decreases Depth(Par(t), x)
  {
    if x != t.root {
      assert Child(t, Par(t)[x], x);
      ExitedBelow(t, out, Par(t)[x]);
    }
  }

  lemma {:induction false} TrackedAll(v: Visitor, t: Tree, out: set<Id>)
    requires EngineOk(t, out) && t.root in t.exited && t.stack == map[]
    requires Tracking(v, t) && (v.Collect? || out == {})
    ensures Achieved(v, t.(exited := {}), out)
  {
    AllExited(t, out);
    var u := t.(exited := {});
    assert forall q, c :: Child(u, q, c) <==> Child(t, q, c);
    match v
    case Collect(_) =>
    case ExtractNesting(m) =>
      assert Keepers(m, u) == Keepers(m, t);
      assert forall x :: x in t.spans ==> Entered(t, x);
    case PruneChildless =>
      forall x | x in u.spans && Pseudo(u.spans[x]) && x != u.root ensures exists c :: Child(u, x, c) {
        var c :| Child(t, x, c);
        assert Child(u, x, c);
      }
    case CompactDuration =>
      forall x | x in u.spans ensures Compacted(u, x) {
        SameCompacted(t, u, x);
      }
    case CollapseNesting(m) =>
      forall p, c ensures !FoldsInto(m, u, p, c) {
        assert p in t.spans ==> Entered(t, p);
        assert FoldsInto(m, u, p, c) ==> FoldsInto(m, t, p, c);
      }
  }

  lemma {:induction false} LiftStart(t: Tree, n: Id, p: Id)
    requires EngineOk(t, {}) && Visitable(t, n, {}) && t.spans[n].parent == Some(p)
    ensures p != n && p in t.stack && p !in t.exited && n != t.root && Child(t, p, n)
    ensures Lifted(t, t, n, p, [])
  {
    assert Par(t)[n] == p;
    NoSelfParent(Par(t), n);
    assert t.stack[p] + [] == t.stack[p];
    assert t.stack == t.stack[p := t.stack[p] + []];
    assert Elems<Id>([]) == {};
  }

  lemma {:induction false} LiftNext(t0: Tree, t: Tree, n: Id, p: Id, order: seq<Id>, i: nat)
    requires Liftable(t0, n, p, order) && i < |order| && Lifted(t0, t, n, p, order[..i])
    ensures p !in t.exited && order[i] in t.spans && t.spans[order[i]].parent.Some?
    ensures Lifted(t0, MoveF(t, order[i], p), n, p, order[..i + 1])
  {
    var c := order[i];
    assert c in Elems(order) && c in Kids(t0, n) && Child(t0, n, c);
    assert Par(t0)[n] == p;
    NoSelfParent(Par(t0), n);
    assert c !in order[..i];
    LiftOne(t0, t, n, p, order[..i], c);
    TakeNext(order, i);
  }

  lemma {:induction false} LiftEnd(t0: Tree, t: Tree, n: Id, p: Id, order: seq<Id>)
    requires Liftable(t0, n, p, order) && Lifted(t0, t, n, p, order)
    ensures Deletable(t, n) && forall c :: !Child(t, n, c)
  {
    LiftedConsistent(t0, t, n, p, order);
    assert n != t0.root;
  }

  lemma {:induction false} ExtractedInv(matches: string -> bool, t0: Tree, t: Tree, t': Tree, n: Id, p: Id, order: seq<Id>)
    requires Liftable(t0, n, p, order) && Lifted(t0, t, n, p, order) && LeafGone(t, t', n)
    requires ExtractInv(matches, t0)
    ensures ExtractInv(matches, t')
  {
    ExtractedShape(t0, t, t', n, p, order);
    forall x | Entered(t', x) ensures x in Keepers(matches, t') {
      assert Entered(t0, x);
    }
  }

  lemma {:induction false} Extracted(matches: string -> bool, t0: Tree, t: Tree, t': Tree, n: Id, p: Id, order: seq<Id>)
    requires Liftable(t0, n, p, order) && Lifted(t0, t, n, p, order) && Deletable(t, n) && Deleted(t, t', n)
    requires forall c :: !Child(t, n, c)
    requires ExtractInv(matches, t0) && Matched(matches, t0.spans[n]) && n != t0.root
    ensures EngineOk(t', {}) && Frame(t0, t', n) && ExtractRel(matches, t0, t') && ExtractInv(matches, t') && n !in t'.spans
  {
    DeletedLeaf(t, t', n);
    ExtractedOk(t0, t, t', n, p, order);
    ExtractedRel(matches, t0, t, t', n, p, order);
    ExtractedInv(matches, t0, t, t', n, p, order);
  }

  // ---------- The engine ----------

  /** The loop over the children of n, entered in state t0, with `rest` still to visit besides n's list. */
  ghost predicate Looping(v: Visitor, t0: Tree, t: Tree, n: Id, rest: seq<Id>, out: set<Id>)
    reads Footprint(v)
  {
    && EngineOk(t0, out) && EngineOk(t, out) && (v.Collect? || out == {})
    && Within(t0, t, n, rest, out) && Related(v, t0, t) && Tracking(v, t)
  }

  /** A span below the root has been visited. */
  ghost predicate Visited(v: Visitor, t: Tree, t': Tree, n: Id, out: set<Id>)
    reads Footprint(v)
  {
    && EngineOk(t', out) && Frame(t, t', n) && (n !in t'.spans || n in t'.exited)
    && Related(v, t, t') && Tracking(v, t')
  }

  /** The root has been visited: the engine is idle again and the visitor is through. */
  ghost predicate Finished(v: Visitor, t: Tree, t': Tree, out: set<Id>)
    reads Footprint(v)
  {
    Idle(t') && Region(t', out) && Related(v, t, t') && Achieved(v, t', out)
  }

  lemma {:induction false} VisitedShrinks(t: Tree, t': Tree, n: Id)
    requires Frame(t, t', n) && n in Unentered(t) && (n !in t'.spans || n in t'.exited)
    ensures Unentered(t') < Unentered(t)
  {
    forall x | x in Unentered(t') ensures x in Unentered(t) {
      assert Entered(t, x) ==> Entered(t', x);
    }
    assert n !in Unentered(t');
  }

  lemma {:induction false} LoopingFacts(v: Visitor, t0: Tree, t: Tree, n: Id, rest: seq<Id>, out: set<Id>)
    requires Looping(v, t0, t, n, rest, out)
    ensures n in t.stack && EngineOk(t, out) && (v.Collect? || out == {}) && Tracking(v, t)
  {
  }

  /** The part of it that no visitor's own state is in. */
  lemma {:induction false} LoopingParts(v: Visitor, t0: Tree, t: Tree, n: Id, rest: seq<Id>, out: set<Id>)
    requires Looping(v, t0, t, n, rest, out)
    ensures EngineOk(t0, out) && Within(t0, t, n, rest, out) && Related(v, t0, t)
  {
  }

  lemma {:induction false} HeadApart(c: Id, rest: seq<Id>, queue: seq<Id>)
    requires NoDup([c] + rest + queue)
    ensures c in Elems([c] + rest + queue) && c !in queue
  {
    var all := [c] + rest + queue;
    assert all[0] == c;
    forall i | 0 <= i < |queue| ensures queue[i] != c {
      assert all[1 + |rest| + i] == queue[i];
    }
  }

  /** The next child on the way through the list may be visited. */
  lemma {:induction false} NextVisitable(v: Visitor, t0: Tree, t: Tree, n: Id, c: Id, rest: seq<Id>, out: set<Id>)
    requires Looping(v, t0, t, n, [c] + rest, out)
    ensures EngineOk(t, out) && (v.Collect? || out == {}) && Tracking(v, t)
    ensures Visitable(t, c, out) && c != t.root && c in Unentered(t)
  {
    HeadApart(c, rest, t.stack[n]);
    assert c in Waiting(t, n, out);
    WaitingVisitable(t, n, c, out);
  }

  lemma {:induction false} WaitingVisitable(t: Tree, n: Id, c: Id, out: set<Id>)
    requires Region(t, out) && n in t.stack && c in Waiting(t, n, out) && c !in t.stack[n]
    ensures Visitable(t, c, out) && c != t.root && c in Unentered(t)
  {
  }

  lemma {:induction false} NextVisited(v: Visitor, t0: Tree, t: Tree, t': Tree, n: Id, c: Id, rest: seq<Id>, out: set<Id>)
    requires EngineOk(t0, out) && EngineOk(t, out) && (v.Collect? || out == {})
    requires Within(t0, t, n, [c] + rest, out) && Related(v, t0, t)
    requires c in Unentered(t) && Visited(v, t, t', c, out)
    ensures Looping(v, t0, t', n, rest, out) && Unentered(t') < Unentered(t)
  {
    WithinAfterChild(t0, t, t', n, c, rest, out);
    RelatedTransitive(v, t0, t, t');
    VisitedShrinks(t, t', c);
  }

  lemma {:induction false} TakeList(v: Visitor, t0: Tree, t: Tree, n: Id, out: set<Id>)
    requires Looping(v, t0, t, n, [], out)
    ensures Looping(v, t0, PushNode(t, n, []), n, t.stack[n], out)
    ensures Unentered(PushNode(t, n, [])) == Unentered(t)
  {
    hide Entries, Queues, Within, Related, Tracking;
    var t' := PushNode(t, n, []);
    WithinHas(t0, t, n, [], out);
    assert t'.stack.Keys == t.stack.Keys;
    RegionOfSameSpans(t, t', out);
    EmptiedOk(t, n, out);
    RelatedSame(v, t, t');
    RelatedTransitive(v, t0, t, t');
    EmptiedTracking(v, t, n);
    EmptiedWithin(t0, t, n, out);
  }

  lemma {:induction false} WithinHas(t0: Tree, t: Tree, n: Id, rest: seq<Id>, out: set<Id>)
    requires Within(t0, t, n, rest, out)
    ensures n in t.stack && n in t.spans && !Entered(t0, n) && t.stack.Keys == t0.stack.Keys + {n} && t0.exited <= t.exited
  {
  }

  lemma {:induction false} EmptiedOk(t: Tree, n: Id, out: set<Id>)
    requires Entries(t, out) && Queues(t, out) && n in t.stack
    ensures Entries(PushNode(t, n, []), out) && Queues(PushNode(t, n, []), out)
  {
    var t' := PushNode(t, n, []);
    assert forall x :: Entered(t', x) <==> Entered(t, x);
    assert forall q, c :: Child(t', q, c) <==> Child(t, q, c);
  }

  lemma {:induction false} EmptiedWithin(t0: Tree, t: Tree, n: Id, out: set<Id>)
    requires Within(t0, t, n, [], out)
    ensures Within(t0, PushNode(t, n, []), n, t.stack[n], out)
  {
    var t' := PushNode(t, n, []);
    assert t.stack[n] + t'.stack[n] == [] + t.stack[n];
    assert forall x :: Entered(t', x) <==> Entered(t, x);
    assert forall q, c :: Child(t', q, c) <==> Child(t, q, c);
    assert Waiting(t', n, out) == Waiting(t, n, out);
  }

  lemma {:induction false} EmptiedTracking(v: Visitor, t: Tree, n: Id)
    requires n in t.stack && Tracking(v, t)
    ensures Tracking(v, PushNode(t, n, []))
  {
    var t' := PushNode(t, n, []);
    assert t'.stack.Keys == t.stack.Keys;
    assert forall q, c :: Child(t', q, c) <==> Child(t, q, c);
    if v.CompactDuration? {
      forall x | x in t.exited ensures Compacted(t', x) {
        SameCompacted(t, t', x);
      }
    } else if v.ExtractNesting? {
      assert Keepers(v.matches, t') == Keepers(v.matches, t);
    } else if v.CollapseNesting? {
      CollapseInvPushed(v.collapse, t, t', n);
    }
  }

  lemma {:induction false} Pushed(v: Visitor, t: Tree, n: Id, kids: seq<Id>, out: set<Id>)
    requires EngineOk(t, out) && Visitable(t, n, out) && Admits(v, t, n) && (v.Collect? || out == {})
    requires NoDup(kids) && Elems(kids) == Kids(t, n)
    ensures Looping(v, t, PushNode(t, n, kids), n, [], out)
    ensures Unentered(PushNode(t, n, kids)) < Unentered(t)
  {
    assert forall x :: x in kids <==> x in Elems(kids);
    PushOk(t, n, kids, out);
    TrackPush(v, t, n, kids);
    RelatedSame(v, t, PushNode(t, n, kids));
    assert n in Unentered(t) && n !in Unentered(PushNode(t, n, kids));
  }

  /** n's list is empty: it may be popped and handed to Exit. */
  lemma {:induction false} ReadyToExit(v: Visitor, t0: Tree, t: Tree, n: Id, out: set<Id>)
    requires Looping(v, t0, t, n, [], out) && t.stack[n] == []
    ensures n in t.spans && n !in t.exited && (out == {} ==> Consistent(PopNode(t, n)))
    ensures forall c :: c !in out && Child(t, n, c) ==> c in t.exited
    ensures PopNode(t, n).stack.Keys == t0.stack.Keys
  {
    hide Queues, Related, Tracking;
    WithinHas(t0, t, n, [], out);
    assert Entered(t, n);
    RegionOfSameSpans(t, PopNode(t, n), out);
    hide Within;
    forall c | c !in out && Child(t, n, c) ensures c in t.exited {
      ChildrenExited(t0, t, n, c, out);
    }
  }

  lemma {:induction false} LeaveKept(v: Visitor, t0: Tree, t: Tree, t': Tree, n: Id, out: set<Id>)
    requires Looping(v, t0, t, n, [], out) && t.stack[n] == []
    requires ExitEffect(v, PopNode(t, n), t', n) && n in t'.spans
    requires forall c :: c !in out && Child(t, n, c) ==> c in t.exited
    ensures Visited(v, t0, ExitNode(t', n), n, out)
  {
    TrackExit(v, t, t', n, out);
    ExitOk(t0, t, ExitNode(t', n), n, out);
    RelatedTransitive(v, t0, t, ExitNode(t', n));
  }

  lemma {:induction false} LeavePruned(v: Visitor, t0: Tree, t: Tree, t': Tree, n: Id, out: set<Id>)
    requires Looping(v, t0, t, n, [], out) && t.stack[n] == []
    requires ExitEffect(v, PopNode(t, n), t', n) && n in t.spans && n !in t'.spans
    ensures Visited(v, t0, t', n, out) && n != t0.root
  {
    TrackPruned(t, t', n);
    LeafOk(t0, t, t', n);
    RelatedTransitive(v, t0, t, t');
  }

  lemma {:induction false} RootDone(v: Visitor, t: Tree, t': Tree, out: set<Id>)
    requires Visited(v, t, t', t.root, out) && (v.Collect? || out == {})
    requires t.stack == map[] && t.root in t'.spans
    ensures Finished(v, t, t'.(exited := {}), out)
  {
    assert t'.stack.Keys == {};
    assert t'.stack == map[];
    TrackedAll(v, t', out);
    RegionOfSameSpans(t', t'.(exited := {}), out);
    RelatedSame(v, t', t'.(exited := {}));
    RelatedTransitive(v, t, t', t'.(exited := {}));
  }

  /** Everything that can come of leaving n. */
  lemma {:induction false} Leave(v: Visitor, t0: Tree, t: Tree, t': Tree, n: Id, out: set<Id>)
    requires Visitable(t0, n, out) && Looping(v, t0, t, n, [], out) && n in t.stack && t.stack[n] == [] && n in t.spans
    requires ExitEffect(v, PopNode(t, n), t', n)
    ensures n !in t'.spans ==> n != t0.root && Visited(v, t0, t', n, out)
    ensures n in t'.spans && n != t0.root ==> Visited(v, t0, ExitNode(t', n), n, out) && |t'.stack| != 0
    ensures n in t'.spans && n == t0.root ==> Finished(v, t0, ExitNode(t', n).(exited := {}), out) && |t'.stack| == 0
  {
    ReadyToExit(v, t0, t, n, out);
    assert t'.stack == PopNode(t, n).stack;
    if n !in t'.spans {
      LeavePruned(v, t0, t, t', n, out);
    } else {
      LeaveKept(v, t0, t, t', n, out);
      if n == t0.root {
        assert t'.stack.Keys == {};
        RootDone(v, t0, ExitNode(t', n), out);
      } else {
        assert t0.spans[n].parent.value in t'.stack;
      }
    }
  }

  /** The tree once n, if it is still there, has been marked exited. */
  function Marked(t: Tree, n: Id): Tree {
    if n in t.spans then t.(exited := if |t.stack| == 0 then {} else t.exited + {n}) else t
  }

  lemma {:induction false} LeaveMarked(v: Visitor, t0: Tree, t: Tree, t': Tree, n: Id, out: set<Id>)
    requires Visitable(t0, n, out) && Looping(v, t0, t, n, [], out) && n in t.stack && t.stack[n] == [] && n in t.spans
    requires ExitEffect(v, PopNode(t, n), t', n)
    ensures if n == t0.root then Finished(v, t0, Marked(t', n), out) else Visited(v, t0, Marked(t', n), n, out)
  {
    hide Looping, Visited, Finished, ExitEffect, Visitable;
    Leave(v, t0, t, t', n, out);
  }

  /** What visiting n after an edit below it comes to, seen from before the edit. */
  lemma {:induction false} VisitedAfterEdit(v: Visitor, t0: Tree, t1: Tree, t: Tree, n: Id, out: set<Id>)
    requires EditedBelow(t0, t1, n, out) && Related(v, t0, t1)
    requires if n == t1.root then Finished(v, t1, t, out) else Visited(v, t1, t, n, out)
    ensures if n == t0.root then Finished(v, t0, t, out) else Visited(v, t0, t, n, out)
  {
    hide EngineOk, Visitable, Related, Tracking, Region, Achieved;
    EditKeepsRoot(t0, t1, n, out);
    RelatedTransitive(v, t0, t1, t);
    if n != t0.root {
      FrameAfterEdit(t0, t1, t, n);
    }
  }

  lemma {:induction false} EditKeepsRoot(t: Tree, t': Tree, n: Id, out: set<Id>)
    requires EditedBelow(t, t', n, out)
    ensures t'.root == t.root && t'.exited == t.exited && EngineOk(t', out) && Visitable(t', n, out)
  {
  }

  /** A visitor whose Enter changes nothing. */
  lemma {:induction false} NothingEdited(v: Visitor, t: Tree, n: Id, out: set<Id>)
    requires EngineOk(t, out) && Visitable(t, n, out)
    ensures EditedBelow(t, t, n, out) && Related(v, t, t)
  {
    EditedSame(t, n, out);
    RelatedSame(v, t, t);
  }

  /** A visit may start at the root of an idle tree. */
  lemma {:induction false} VisitStarts(v: Visitor, t: Tree, out: set<Id>)
    requires Region(t, out) && Idle(t) && (v.Collect? ==> v.ids.spanIds == {})
    ensures EngineOk(t, out) && Visitable(t, t.root, out) && Tracking(v, t)
  {
  }

  /** What a visit of a well-formed tree means for each of the editing visitors. */
  lemma {:induction false} VisitMeans(v: Visitor, t: Tree, t': Tree)
    requires WellFormed(t) && Finished(v, t, t', {})
    ensures WellFormed(t') && Idle(t')
    ensures v.Collect? ==> t'.spans == t.spans && v.ids.spanIds == t.spans.Keys
    ensures v.ExtractNesting? ==> ExtractResult(v.matches, t, t')
    ensures v.PruneChildless? ==> PruneResult(t, t')
    ensures v.CompactDuration? ==> CompactResult(t, t')
    ensures v.CollapseNesting? ==> CollapseResult(v.collapse, t, t')
  {
    WellFormedRegion(t');
    match v
    case Collect(_) =>
    case ExtractNesting(m) => ExtractDone(m, t, t');
    case PruneChildless => PruneDone(t, t');
    case CompactDuration =>
    case CollapseNesting(m) => CollapseDone(m, t, t');
  }

  /** Which spans a visit of a well-formed tree leaves, in terms of the tags they carry. */
  lemma {:induction false} VisitLeaves(v: Visitor, t: Tree, t': Tree, x: Id)
    requires WellFormed(t) && Finished(v, t, t', {}) && x in t.spans
    ensures v.Collect? || v.CompactDuration? ==> x in t'.spans
    ensures v.ExtractNesting? ==> (x in t'.spans <==> x == t.root || !exists kind :: OfKind(v.matches, t, x, kind))
    ensures v.PruneChildless? ==> (x in t'.spans <==> x == t.root || exists y :: EventUnder(t, x, y))
    ensures v.CollapseNesting? ==> (x in t'.spans <==> !UnderCollapsed(v.collapse, t, x))
    ensures t.spans[x].pseudoType == None && !v.CollapseNesting? ==> x in t'.spans
  {
    VisitMeans(v, t, t');
    hide WellFormed, Finished;
    match v
    case Collect(_) =>
    case ExtractNesting(m) => ExtractedIff(m, t, t', x);
    case PruneChildless => PrunedIff(t, t', x);
    case CompactDuration =>
    case CollapseNesting(m) => CollapsedIff(m, t, t', x, 0);
  }

  function Rooted(t: Tree, n: Id): Tree
    requires n in t.spans
  {
    t.(spans := t.spans[n := t.spans[n].(parent := None)], root := n)
  }

  /** Below n the children stay; n itself is below no child of the rest. */
  lemma {:induction false} InnerChild(t: Tree, n: Id, p: Id, c: Id)
    requires WellFormed(t) && n in t.spans && Child(t, p, c)
    ensures p in t.spans && (c in Subtree(t, n) <==> c == n || p in Subtree(t, n)) && (c == n ==> p !in Subtree(t, n))
  {
    assert Par(t)[c] == p;
    if c == n {
      NotUnderChild(Par(t), n);
    }
  }

  lemma {:induction false} InnerKids(t: Tree, n: Id, p: Id, c: Id)
    requires WellFormed(t) && n in t.spans
    ensures c in Subtree(t, n) && Child(Rooted(t, n), p, c) ==> p in Subtree(t, n)
    ensures p !in t.spans.Keys - Subtree(t, n) ==> (c in Kids(t, p) <==> c in Subtree(t, n) && Child(Rooted(t, n), p, c))
  {
    assert Child(Rooted(t, n), p, c) <==> c != n && Child(t, p, c);
    assert c in Kids(t, p) <==> Child(t, p, c);
    if Child(t, p, c) {
      InnerChild(t, n, p, c);
    }
  }

  /** Seen from a span inside, the spans not below it are out of reach. */
  lemma {:induction false} InnerRegion(t: Tree, n: Id)
    requires WellFormed(t) && n in t.spans
    ensures Region(Rooted(t, n), t.spans.Keys - Subtree(t, n))
    ensures Subtree(t, n) == t.spans.Keys - (t.spans.Keys - Subtree(t, n))
  {
    hide Child, Kids;
    var u := Rooted(t, n);
    var out := t.spans.Keys - Subtree(t, n);
    assert n in Subtree(t, n);
    InnerSpans(t, n);
    hide WellFormed;
    forall p, c ensures c !in out && Child(u, p, c) ==> p in u.spans && p !in out {
      InnerLinks(t, n, p, c);
    }
    forall p, c ensures p !in out ==> (c in Kids(u, p) <==> c !in out && Child(u, p, c)) {
      InnerLinks(t, n, p, c);
    }
  }

  lemma {:induction false} InnerSpans(t: Tree, n: Id)
    requires WellFormed(t) && n in t.spans
    ensures var u := Rooted(t, n);
            && u.spans.Keys == t.spans.Keys && u.root == n && u.spans[n].parent == None && Acyclic(Par(u))
            && (forall x :: x in u.spans ==> u.spans[x].id == x)
            && forall x :: x in Subtree(t, n) && x != n ==> u.spans[x].parent.Some?
  {
    hide Under;
    SubmapAcyclic(Par(t), Par(Rooted(t, n)));
    forall x | x in Subtree(t, n) && x != n ensures Rooted(t, n).spans[x].parent.Some? {
      InnerHasParent(t, n, x);
    }
  }

  lemma {:induction false} InnerHasParent(t: Tree, n: Id, x: Id)
    requires WellFormed(t) && n in t.spans && x in Subtree(t, n) && x != n
    ensures x in t.spans && t.spans[x].parent.Some?
  {
    assert x in Par(t);
  }

  /** Children in reach are children in the subtree. */
  lemma {:induction false} InnerLinks(t: Tree, n: Id, p: Id, c: Id)
    requires WellFormed(t) && n in t.spans
    ensures var u, out := Rooted(t, n), t.spans.Keys - Subtree(t, n);
            && (c !in out && Child(u, p, c) ==> p in u.spans && p !in out)
            && (p !in out ==> (c in Kids(u, p) <==> c !in out && Child(u, p, c)))
  {
    InnerKids(t, n, p, c);
  }

  /** Keeping only the collected spans after a collecting visit from n re-roots the tree at n. */
  lemma {:induction false} RerootEnd(t: Tree, t': Tree, t'': Tree, n: Id, kept: set<Id>)
    requires WellFormed(t) && n in t.spans && kept == Subtree(t, n) && Idle(t)
    requires t'.spans == Rooted(t, n).spans && t'.children == t.children && t'.root == n && Idle(t')
    requires t''.spans.Keys == kept * t'.spans.Keys && forall x :: x in t''.spans ==> t''.spans[x] == t'.spans[x]
    requires t''.children.Keys == kept * t'.children.Keys && forall x :: x in t''.children ==> t''.children[x] == t'.children[x]
    requires t''.stack == t'.stack && t''.exited == t'.exited && t''.root == t'.root
    ensures Rerooted(t, t'', n)
  {
    forall q ensures Kids(t'', q) == if q in kept then Kids(t, q) else {} {}
  }

  lemma {:induction false} CollectedAll(ids: SpanIdCollector, t: Tree, t': Tree, out: set<Id>)
    requires Finished(Collect(ids), t, t', out)
    ensures ids.spanIds == t.spans.Keys - out && t'.spans == t.spans && t'.children == t.children && t'.root == t.root && Idle(t')
  {
  }

  /** Part of u has been hung below p: t is t0 with the spans `done` of u. */
  ghost predicate Grafting(t0: Tree, t: Tree, u: Tree, p: Id, done: set<Id>) {
    && GraftSpans(t0, t, u, p, done) && GraftKids(t0, t, u, p, done)
    && t.stack == (if u.root in done then Push(t0.stack, p, u.root) else t0.stack)
    && t.exited == t0.exited && t.root == t0.root
  }

  ghost predicate GraftSpans(t0: Tree, t: Tree, u: Tree, p: Id, done: set<Id>) {
    && t.spans.Keys == t0.spans.Keys + done
    && (forall x :: x in done ==> x in u.spans && t.spans[x] == if x == u.root then u.spans[x].(parent := Some(p)) else u.spans[x])
    && (forall x :: x in t0.spans && x !in done ==> t.spans[x] == t0.spans[x])
  }

  ghost predicate GraftKids(t0: Tree, t: Tree, u: Tree, p: Id, done: set<Id>) {
    forall r :: Kids(t, r) == Kids(t0, r) + (Kids(u, r) * done) + (if r == p && u.root in done then {u.root} else {})
  }

  /** Where AddTree may be called: the ids of u are new to t and p is not one of them. */
  ghost predicate Apart(t: Tree, u: Tree, p: Id) {
    && WellFormed(u) && p !in t.exited && p !in u.spans
    && forall x :: x in u.spans ==> x !in t.spans && x !in t.stack && x !in t.exited
  }

  lemma {:induction false} GraftOneKids(t0: Tree, t: Tree, u: Tree, p: Id, done: set<Id>, x: Id, q: Id)
    requires x in u.spans && u.spans[x].id == x && GraftKids(t0, t, u, p, done)
    requires x !in done && forall r :: x in Kids(u, r) <==> x != u.root && r == q
    requires x == u.root ==> q == p
    ensures GraftKids(t0, AddF(t, u.spans[x], q), u, p, done + {x})
  {
    var t' := AddF(t, u.spans[x], q);
    forall r ensures Kids(t', r) == Kids(t0, r) + (Kids(u, r) * (done + {x})) + (if r == p && u.root in done + {x} then {u.root} else {}) {
      assert Kids(t', r) == Kids(t, r) + (if r == q then {x} else {});
      assert Kids(u, r) * (done + {x}) == Kids(u, r) * done + (if x in Kids(u, r) then {x} else {});
    }
  }

  lemma {:induction false} GraftOneSpan(t0: Tree, t: Tree, u: Tree, p: Id, done: set<Id>, x: Id, q: Id)
    requires x in u.spans && u.spans[x].id == x && x !in done && GraftSpans(t0, t, u, p, done)
    requires if x == u.root then q == p else Child(u, q, x)
    ensures GraftSpans(t0, AddF(t, u.spans[x], q), u, p, done + {x})
  {
  }

  lemma {:induction false} OneParent(t: Tree, x: Id, q: Id)
    requires WellFormed(t) && x in t.spans && (x == t.root || Child(t, q, x))
    ensures forall r :: x in Kids(t, r) <==> x != t.root && r == q
    ensures t.spans[x].id == x && (x != t.root ==> q in t.spans)
  {
    forall r ensures x in Kids(t, r) <==> x != t.root && r == q {
      assert x in Kids(t, r) <==> Child(t, r, x);
    }
  }

  lemma {:induction false} GraftOne(t0: Tree, t: Tree, u: Tree, p: Id, done: set<Id>, x: Id, q: Id)
    requires Apart(t0, u, p) && Grafting(t0, t, u, p, done) && x in u.spans && x !in done
    requires if x == u.root then q == p else Child(u, q, x)
    ensures q !in t.exited && Grafting(t0, AddF(t, u.spans[x], q), u, p, done + {x})
  {
    hide GraftKids, GraftSpans, WellFormed;
    OneParent(u, x, q);
    GraftOneKids(t0, t, u, p, done, x, q);
    GraftOneSpan(t0, t, u, p, done, x, q);
  }

  lemma {:induction false} GraftStart(t: Tree, u: Tree, p: Id)
    requires Apart(t, u, p)
    ensures Grafting(t, t, u, p, {}) && u.root in u.spans && WellFormed(u) && Acyclic(Par(u))
  {
    forall q ensures Kids(t, q) == Kids(t, q) + (Kids(u, q) * {}) {}
  }

  lemma {:induction false} GraftEnd(t0: Tree, t: Tree, u: Tree, p: Id)
    requires Apart(t0, u, p) && Grafting(t0, t, u, p, Subtree(u, u.root))
    ensures Grafted(t0, t, u, p)
  {
    Reachable(u);
    forall q ensures Kids(u, q) * u.spans.Keys == Kids(u, q) {
      forall c | c in Kids(u, q) ensures c in u.spans {
        assert Child(u, q, c);
      }
    }
  }

  lemma {:induction false} SubtreeSplits(u: Tree, n: Id, c: Id)
    requires WellFormed(u) && n in u.spans && c in Kids(u, n)
    ensures Child(u, n, c) && c in u.spans && c != u.root && Subtree(u, c) < Subtree(u, n) && n !in Subtree(u, c)
  {
    assert Child(u, n, c) && Par(u)[c] == n;
    NotUnderChild(Par(u), c);
    forall x | x in Subtree(u, c) ensures x in Subtree(u, n) {
      assert Under(Par(u), n, c);
      UnderTransitive(Par(u), n, c, x);
    }
    assert n in Subtree(u, n);
  }

  /** n and the subtrees of those of its children that are not in `todo`. */
  ghost function Covered(u: Tree, n: Id, todo: set<Id>): set<Id>
    requires Acyclic(Par(u))
  {
    set x | x in u.spans && (x == n || exists c :: c in Kids(u, n) && c !in todo && Under(Par(u), c, x))
  }

  lemma {:induction false} CoveredStep(u: Tree, n: Id, todo: set<Id>, c: Id)
    requires WellFormed(u) && n in u.spans && todo <= Kids(u, n) && c in todo
    ensures Covered(u, n, todo - {c}) == Covered(u, n, todo) + Subtree(u, c)
    ensures Covered(u, n, todo) !! Subtree(u, c)
  {
    SubtreeSplits(u, n, c);
    forall x | x in Covered(u, n, todo) ensures x !in Subtree(u, c) {
      if x != n {
        var d :| d in Kids(u, n) && d !in todo && Under(Par(u), d, x);
        assert Child(u, n, d) && Par(u)[d] == n && Par(u)[c] == n;
        SiblingsApart(Par(u), n, d, c, x);
      }
    }
  }

  lemma {:induction false} CoveredAll(u: Tree, n: Id)
    requires WellFormed(u) && n in u.spans
    ensures Covered(u, n, Kids(u, n)) == {n} && Covered(u, n, {}) == Subtree(u, n) && n in Subtree(u, n)
  {
    forall x | x in Subtree(u, n) && x != n ensures x in Covered(u, n, {}) {
      var c := Step(u, n, x);
    }
    forall x | x in Covered(u, n, {}) && x != n ensures x in Subtree(u, n) {
      var c :| c in Kids(u, n) && Under(Par(u), c, x);
      SubtreeSplits(u, n, c);
      assert x in Subtree(u, c);
    }
  }

  /** The child of n on the way down to x. */
  lemma {:induction false} Step(u: Tree, n: Id, x: Id) returns (c: Id)
    requires WellFormed(u) && n in u.spans && x in u.spans && x != n && Under(Par(u), n, x)
    ensures c in Kids(u, n) && Under(Par(u), c, x)
    decreases Depth(Par(u), x)
  {
    var q := Par(u)[x];
    assert Child(u, q, x);
    if q == n {
      c := x;
    } else {
      c := Step(u, n, q);
    }
  }

  lemma {:induction false} LeafDeletable(t: Tree, n: Id)
    requires Consistent(t) && n in t.spans && n != t.root && n !in t.stack && n !in t.exited && Kids(t, n) == {}
    ensures Deletable(t, n) && forall c :: !Child(t, n, c)
  {
    assert forall c :: Child(t, n, c) ==> c in Kids(t, n);
    assert forall y :: y in Par(t) ==> Child(t, Par(t)[y], y);
    forall x | x in Subtree(t, n) ensures x == n {
      LeafAlone(Par(t), n, x);
    }
  }

  /**
   A visitor may delete a span on leaving it only when it has no child left: its children have exited by then,
   and Delete panics on exited spans.
   */
  lemma {:induction false} DeletableOnExitIff(v: Visitor, t0: Tree, t: Tree, n: Id)
    requires Looping(v, t0, t, n, [], {}) && t.stack[n] == []
    ensures Deletable(PopNode(t, n), n) <==> n != t.root && Kids(t, n) == {}
  {
    ReadyToExit(v, t0, t, n, {});
    var u := PopNode(t, n);
    if n != t.root && Kids(t, n) == {} {
      LeafDeletable(u, n);
    } else if n != t.root {
      var c := Witness(Kids(t, n));
      assert Child(t, n, c) && Par(u)[c] == n;
      assert Under(Par(u), n, n) && c in Subtree(u, n);
    }
  }

  class SpanTree {
    var spanMap: map<Id, Span>
    var childrenMap: map<Id, set<Id>>
    var visitorStack: map<Id, seq<Id>>
    var exited: set<Id>
    var root: Id

    function Snap(): Tree
      reads this
    {
      Tree(spanMap, childrenMap, visitorStack, exited, root)
    }

    constructor ()
      ensures Snap() == Built([])
    {
      spanMap, childrenMap, visitorStack, exited, root := map[], map[], map[], {}, 0;
    }

    /** NewSpanTree; panics when no span is without parent. */
    static method New(spans: seq<Span>) returns (tree: SpanTree)
      requires exists i :: 0 <= i < |spans| && spans[i].parent == None
      ensures fresh(tree) && tree.Snap() == Built(spans)
    {
      tree := new SpanTree();
      for i := 0 to |spans|
        invariant fresh(tree) && tree.Snap() == Built(spans[..i])
      {
        var span := spans[i];
        assert spans[..i + 1][..i] == spans[..i];
        tree.spanMap := tree.spanMap[span.id := span];
        if span.parent.None? {
          tree.root := span.id;
        } else {
          var parentId := span.parent.value;
          if parentId !in tree.childrenMap {
            tree.childrenMap := tree.childrenMap[parentId := {}];
          }
          tree.childrenMap := tree.childrenMap[parentId := tree.childrenMap[parentId] + {span.id}];
        }
      }
      assert spans[..|spans|] == spans;
    }

    /** Adds a span as a child of another; panics if the parent has exited. */
    method Add(newSpan: Span, parentId: Id)
      requires parentId !in exited
      modifies this
      ensures Snap() == AddF(old(Snap()), newSpan, parentId)
    {
      spanMap := spanMap[newSpan.id := newSpan.(parent := Some(parentId))];
      if parentId !in childrenMap {
        childrenMap := childrenMap[parentId := {}];
      }
      childrenMap := childrenMap[parentId := childrenMap[parentId] + {newSpan.id}];
      if parentId in visitorStack {
        visitorStack := visitorStack[parentId := visitorStack[parentId] + [newSpan.id]];
      }
    }

    /** Moves a span below another; panics for the root, for an unknown span, or if the new parent has exited. */
    method Move(movedId: Id, newParentId: Id)
      requires newParentId !in exited
      requires movedId in spanMap && spanMap[movedId].parent.Some?
      modifies this
      ensures Snap() == MoveF(old(Snap()), movedId, newParentId)
    {
      var movedSpan := spanMap[movedId];
      var oldParentId := movedSpan.parent.value;
      spanMap := spanMap[movedId := movedSpan.(parent := Some(newParentId))];
      if newParentId !in childrenMap {
        childrenMap := childrenMap[newParentId := {}];
      }
      childrenMap := childrenMap[newParentId := childrenMap[newParentId] + {movedId}];
      assert childrenMap == old(childrenMap)[newParentId := Kids(old(Snap()), newParentId) + {movedId}];
      if oldParentId in childrenMap {
        childrenMap := childrenMap[oldParentId := childrenMap[oldParentId] - {movedId}];
      }
      if newParentId in visitorStack {
        visitorStack := visitorStack[newParentId := visitorStack[newParentId] + [movedId]];
      }
    }

    /** Deletes a span and everything below it; panics for the root and for a span that is unknown, entered or exited. */
    method Delete(n: Id)
      requires Deletable(Snap(), n)
      modifies this
      ensures Deleted(old(Snap()), Snap(), n)
      decreases spanMap.Keys, 0
    {
      ghost var t0 := Snap();
      var span := spanMap[n];
      spanMap := spanMap - {n};
      if span.parent.Some? && span.parent.value in childrenMap {
        childrenMap := childrenMap[span.parent.value := childrenMap[span.parent.value] - {n}];
      }
      assert Snap() == Detached(t0, n);
      ShrinkStart(t0, n);
      ghost var gone := {n};
      if n in childrenMap {
        gone := DeleteAll(childrenMap[n], n, t0);
      }
      ShrinkEnd(t0, Snap(), n, gone);
      childrenMap := childrenMap - {n};
    }

    /** The loop of Delete over the children of n. */
    method DeleteAll(children: set<Id>, n: Id, ghost t0: Tree) returns (ghost gone: set<Id>)
      requires Deletable(t0, n) && Consistent(Snap()) && Shrinking(t0, Snap(), n, {n}, children)
      modifies this
      ensures Consistent(Snap()) && Shrinking(t0, Snap(), n, gone, {})
      decreases spanMap.Keys, 1
    {
      var kids := children;
      gone := {n};
      while kids != {}
        invariant Consistent(Snap()) && Shrinking(t0, Snap(), n, gone, kids)
        invariant spanMap.Keys <= old(spanMap.Keys)
      {
        var c := Pick(kids);
        ghost var t := Snap();
        ShrinkCall(t0, t, n, gone, kids, c);
        Delete(c);
        ShrinkStep(t0, t, Snap(), n, gone, kids, c);
        gone := gone + Subtree(t, c);
        kids := kids - {c};
      }
    }

    // ---------- Visiting ----------

    /** The visitor's Enter on a span that is about to be visited. */
    method Enter(v: Visitor, n: Id, ghost out: set<Id>)
      requires EngineOk(Snap(), out) && Visitable(Snap(), n, out) && (v.Collect? || out == {})
      requires Tracking(v, Snap())
      modifies this, Footprint(v)
      ensures n in spanMap ==> EditedBelow(old(Snap()), Snap(), n, out) && Related(v, old(Snap()), Snap()) && Admits(v, Snap(), n)
      ensures n !in spanMap ==> n != old(root) && Visited(v, old(Snap()), Snap(), n, out)
    {
      NothingEdited(v, Snap(), n, out);
      match v {
        case Collect(ids) => ids.spanIds := ids.spanIds + {n};
        case ExtractNesting(matches) =>
          var span := spanMap[n];
          if span.parent.Some? && span.pseudoType.Some? && matches(span.pseudoType.value) {
            Extract(matches, n);
          }
        case PruneChildless =>
        case CompactDuration =>
        case CollapseNesting(collapse) =>
          if spanMap[n].pseudoType.Some? {
            CollapseChildren(collapse, n);
          }
      }
    }

    /** CollapseNestingVisitor.Enter on a pseudo span. */
    method CollapseChildren(collapse: string -> bool, n: Id)
      requires EngineOk(Snap(), {}) && Visitable(Snap(), n, {}) && CollapseInv(collapse, Snap()) && Pseudo(spanMap[n])
      modifies this
      ensures EditedBelow(old(Snap()), Snap(), n, {}) && CollapseRel(collapse, old(Snap()), Snap())
      ensures CollapseInv(collapse, Snap()) && forall c :: !FoldsInto(collapse, Snap(), n, c)
      ensures n in spanMap
    {
      hide CollapsingFrom, EditedBelow, CollapseRel, CollapseInv;
      ghost var t0 := Snap();
      var order := InSomeOrder(if n in childrenMap then childrenMap[n] else {});
      CollapseStart(collapse, t0, n, order);
      for i := 0 to |order|
        invariant CollapsingFrom(collapse, t0, Snap(), n, order, i)
      {
        ProcessChild(collapse, n, order[i], t0, order, i);
      }
      CollapseEnd(collapse, t0, Snap(), n, order);
      StillThere(t0, Snap(), n);
    }

    /** processChild: a child that is to be collapsed leaves a log in n and is deleted with everything below it. */
    method ProcessChild(collapse: string -> bool, n: Id, childId: Id, ghost t0: Tree, ghost order: seq<Id>, ghost i: nat)
      requires i < |order| && order[i] == childId && CollapsingFrom(collapse, t0, Snap(), n, order, i) && n in t0.spans && Pseudo(t0.spans[n])
      modifies this
      ensures CollapsingFrom(collapse, t0, Snap(), n, order, i + 1)
    {
      hide CollapsingFrom, EditedBelow, CollapseRel, FoldedInto, Deletable, Deleted, Region, EngineOk, Visitable;
      ghost var t := Snap();
      CollapsingFacts(collapse, t0, t, n, order, i);
      var childSpan := spanMap[childId];
      if childSpan.pseudoType.Some? || childSpan.traceSource.None? || !collapse(childSpan.traceSource.value) {
        CollapseSkip(collapse, t0, t, n, order, i);
        return;
      }
      FoldDeletable(t, n, childId);
      spanMap := spanMap[n := spanMap[n].(logs := spanMap[n].logs + [childSpan.start])];
      Delete(childId);
      Fold(t, Snap(), n, childId);
      CollapseNext(collapse, t0, t, Snap(), n, order, i, Subtree(t, childId));
    }

    /** ExtractNestingVisitor.Enter on a matched span: children one level up, then delete. */
    method Extract(matches: string -> bool, n: Id)
      requires EngineOk(Snap(), {}) && Visitable(Snap(), n, {}) && ExtractInv(matches, Snap())
      requires spanMap[n].parent.Some? && Matched(matches, spanMap[n])
      modifies this
      ensures EngineOk(Snap(), {}) && Frame(old(Snap()), Snap(), n) && ExtractRel(matches, old(Snap()), Snap())
      ensures ExtractInv(matches, Snap()) && n !in spanMap && n != old(root)
    {
      ghost var t0 := Snap();
      var p := spanMap[n].parent.value;
      var children := if n in childrenMap then childrenMap[n] else {};
      var childrenCopy := InSomeOrder(children);
      LiftStart(t0, n, p);
      MoveAll(childrenCopy, n, p);
      ghost var t := Snap();
      LiftEnd(t0, t, n, p, childrenCopy);
      Delete(n);
      Extracted(matches, t0, t, Snap(), n, p, childrenCopy);
    }

    /** The loop of ExtractNestingVisitor.Enter: the children of n move up to p. */
    method MoveAll(children: seq<Id>, n: Id, p: Id)
      requires Liftable(Snap(), n, p, children) && Lifted(Snap(), Snap(), n, p, [])
      modifies this
      ensures Lifted(old(Snap()), Snap(), n, p, children)
    {
      ghost var t0 := Snap();
      for i := 0 to |children|
        invariant Lifted(t0, Snap(), n, p, children[..i])
      {
        LiftNext(t0, Snap(), n, p, children, i);
        Move(children[i], p);
      }
      assert children[..|children|] == children;
    }

    /** The visitor's Exit on a span that has been taken off the stack. */
    method Exit(v: Visitor, n: Id)
      requires n in spanMap && n !in visitorStack && n !in exited
      requires v.PruneChildless? || v.CompactDuration? ==> Consistent(Snap())
      modifies this
      ensures ExitEffect(v, old(Snap()), Snap(), n)
    {
      match v {
        case Collect(_) =>
        case ExtractNesting(_) =>
        case CollapseNesting(_) =>
        case PruneChildless =>
          if spanMap[n].pseudoType.Some? && (if n in childrenMap then childrenMap[n] else {}) == {} && n != root {
            ghost var t := Snap();
            LeafDeletable(t, n);
            Delete(n);
            DeletedLeaf(t, Snap(), n);
          }
        case CompactDuration =>
          Compact(n);
      }
    }

    /** CompactDurationVisitor.Exit. */
    method Compact(n: Id)
      requires n in spanMap && Consistent(Snap())
      modifies this
      ensures ExitEffect(CompactDuration, old(Snap()), Snap(), n)
    {
      ghost var t := Snap();
      NoLoop(t, n);
      if spanMap[n].pseudoType.Some? {
        var r := Hull(n);
        StartsEmpty(t, n);
        if r.hasStart && r.hasEnd {
          var duration := r.end - r.start;
          var start := r.start;
          if root == n {
            var padding := TruncDiv(duration, 20);
            start := start - padding;
            duration := duration + padding * 2;
          }
          spanMap := spanMap[n := spanMap[n].(start := start, duration := duration)];
          RetimedCompacted(t, Snap(), n, r.start, r.end);
        }
      }
    }

    /** The hull of the children and logs of n. */
    method Hull(n: Id) returns (r: TimeRange)
      requires n in spanMap && Consistent(Snap())
      ensures fresh(r) && r.Hull(Starts(Snap(), n), Ends(Snap(), n))
    {
      r := new TimeRange();
      ghost var t := Snap();
      CoverChildren(n, r);
      CoverLogs(spanMap[n].logs, r, SpanStarts(t, Children(t, n)), SpanEnds(t, Children(t, n)));
    }

    /** The second loop: over the logs. */
    method CoverLogs(logs: seq<int>, r: TimeRange, ghost starts: set<int>, ghost ends: set<int>)
      requires r.Hull(starts, ends)
      modifies r
      ensures r.Hull(starts + LogStarts(logs), ends + LogEnds(logs))
    {
      LogsAll(starts, ends, logs);
      for i := 0 to |logs|
        invariant r.Hull(FirstStarts(starts, logs, i), FirstEnds(ends, logs, i))
      {
        LogsAdd(starts, ends, logs, i);
        r.Union(logs[i], logs[i] + DUMMY_DURATION, FirstStarts(starts, logs, i), FirstEnds(ends, logs, i));
      }
    }

    /** The first loop: over the children of n. */
    method CoverChildren(n: Id, r: TimeRange)
      requires n in spanMap && Consistent(Snap()) && r.Hull({}, {})
      modifies r
      ensures r.Hull(SpanStarts(Snap(), Children(Snap(), n)), SpanEnds(Snap(), Children(Snap(), n)))
    {
      ghost var t := Snap();
      ChildrenAreKids(t, n);
      var todo := if n in childrenMap then childrenMap[n] else {};
      ghost var done: set<Id> := {};
      assert SpanStarts(t, {}) == {} && SpanEnds(t, {}) == {};
      while todo != {}
        invariant done + todo == Children(t, n)
        invariant r.Hull(SpanStarts(t, done), SpanEnds(t, done))
      {
        var childId := Pick(todo);
        assert childId in Children(t, n);
        var child := spanMap[childId];
        r.Union(child.start, child.start + child.duration, SpanStarts(t, done), SpanEnds(t, done));
        SpanStartsAdd(t, done, childId);
        done := done + {childId};
        todo := todo - {childId};
      }
    }

    /** Visits a span: Enter, its children in rounds until its list stays empty, Exit. */
    method VisitNode(v: Visitor, n: Id, ghost out: set<Id>)
      requires EngineOk(Snap(), out) && Visitable(Snap(), n, out) && (v.Collect? || out == {})
      requires Tracking(v, Snap())
      modifies this, Footprint(v)
      ensures n != old(root) ==> Visited(v, old(Snap()), Snap(), n, out)
      ensures n == old(root) ==> Finished(v, old(Snap()), Snap(), out)
      decreases Unentered(Snap()), 0
    {
      hide Looping, Visited, Finished, EngineOk, Tracking, Admits, Related, ExitEffect, Consistent, Frame, Unentered, Visitable, EditedBelow;
      ghost var t0 := Snap();
      ghost var t1 := Open(v, n, out);
      if n !in spanMap {
        return;
      }
      EditKeepsRoot(t0, t1, n, out);
      VisitChildren(v, n, out, t1);
      Close(v, n, out, t1);
      VisitedAfterEdit(v, t0, t1, Snap(), n, out);
    }

    /** The last part of a visit: off the stack, Exit, and unless that has removed the span, marking it exited. */
    method Close(v: Visitor, n: Id, ghost out: set<Id>, ghost t0: Tree)
      requires Visitable(t0, n, out) && Looping(v, t0, Snap(), n, [], out)
      requires n in visitorStack && visitorStack[n] == [] && n in spanMap && n !in exited
      requires out == {} ==> Consistent(PopNode(Snap(), n))
      requires v.Collect? || out == {}
      modifies this
      ensures if n == t0.root then Finished(v, t0, Snap(), out) else Visited(v, t0, Snap(), n, out)
    {
      hide Looping, Visited, Finished, EngineOk, ExitEffect, Consistent, Visitable;
      ghost var t := Snap();
      assert this !in Footprint(v);
      PopAndExit(v, n);
      LeaveMarked(v, t0, t, Snap(), n, out);
      if n in spanMap {
        MarkExited(n);
      }
    }

    method PopAndExit(v: Visitor, n: Id)
      requires n in spanMap && n in visitorStack && n !in exited
      requires v.PruneChildless? || v.CompactDuration? ==> Consistent(PopNode(Snap(), n))
      modifies this
      ensures ExitEffect(v, PopNode(old(Snap()), n), Snap(), n)
    {
      hide ExitEffect, Consistent;
      visitorStack := visitorStack - {n};
      Exit(v, n);
    }

    /** Marks n exited; once nobody is being visited all marks are cleared. */
    method MarkExited(n: Id)
      modifies this`exited
      ensures Snap() == old(Snap()).(exited := if |visitorStack| == 0 then {} else old(exited) + {n})
    {
      exited := exited + {n};
      if |visitorStack| == 0 {
        exited := {};
      }
    }

    /** The first part of a visit: Enter, and unless that has removed the span, its stack entry. */
    method Open(v: Visitor, n: Id, ghost out: set<Id>) returns (ghost t1: Tree)
      requires EngineOk(Snap(), out) && Visitable(Snap(), n, out) && (v.Collect? || out == {})
      requires Tracking(v, Snap())
      modifies this, Footprint(v)
      ensures n in spanMap ==> EditedBelow(old(Snap()), t1, n, out) && Related(v, old(Snap()), t1)
      ensures n in spanMap ==> Looping(v, t1, Snap(), n, [], out) && Unentered(Snap()) < old(Unentered(Snap()))
      ensures n !in spanMap ==> n != old(root) && Visited(v, old(Snap()), Snap(), n, out)
    {
      hide Looping, Visited, EngineOk, Tracking, Admits, Unentered, Visitable, EditedBelow, Related;
      ghost var t0 := Snap();
      Enter(v, n, out);
      t1 := Snap();
      if n in spanMap {
        EditKeepsRoot(t0, t1, n, out);
        EditShrinks(t0, t1, n, out);
        var kids := InSomeOrder(if n in childrenMap then childrenMap[n] else {});
        visitorStack := visitorStack[n := kids];
        Pushed(v, t1, n, kids, out);
      }
    }

    /** The rounds: what Enter or a child's Enter has put on the list is visited until nothing is left. */
    method VisitChildren(v: Visitor, n: Id, ghost out: set<Id>, ghost t0: Tree)
      requires Looping(v, t0, Snap(), n, [], out)
      modifies this, Footprint(v)
      ensures Looping(v, t0, Snap(), n, [], out) && n in visitorStack && visitorStack[n] == []
      ensures n in spanMap && n !in exited && (out == {} ==> Consistent(PopNode(Snap(), n)))
      decreases Unentered(Snap()), 2
    {
      hide Looping, Unentered, EngineOk, Tracking, Consistent;
      LoopingFacts(v, t0, Snap(), n, [], out);
      while |visitorStack[n]| > 0
        invariant Looping(v, t0, Snap(), n, [], out) && n in visitorStack
        invariant Unentered(Snap()) <= old(Unentered(Snap()))
        decreases Unentered(Snap())
      {
        var children := visitorStack[n];
        TakeList(v, t0, Snap(), n, out);
        visitorStack := visitorStack[n := []];
        VisitEach(v, children, n, out, t0);
        LoopingFacts(v, t0, Snap(), n, [], out);
      }
      ReadyToExit(v, t0, Snap(), n, out);
    }

    method VisitEach(v: Visitor, children: seq<Id>, n: Id, ghost out: set<Id>, ghost t0: Tree)
      requires Looping(v, t0, Snap(), n, children, out) && children != []
      modifies this, Footprint(v)
      ensures Looping(v, t0, Snap(), n, [], out)
      ensures Unentered(Snap()) < old(Unentered(Snap()))
      decreases Unentered(Snap()), 1
    {
      hide Looping, Visited, Finished, EngineOk, Tracking, Related, Visitable, Unentered, Within;
      var i := 0;
      while i < |children|
        invariant i <= |children|
        invariant Looping(v, t0, Snap(), n, children[i..], out)
        invariant if i == 0 then Unentered(Snap()) == old(Unentered(Snap())) else Unentered(Snap()) < old(Unentered(Snap()))
      {
        ghost var t := Snap();
        var childId := children[i];
        assert children[i..] == [childId] + children[i + 1..];
        NextVisitable(v, t0, t, n, childId, children[i + 1..], out);
        LoopingParts(v, t0, t, n, [childId] + children[i + 1..], out);
        VisitNode(v, childId, out);
        NextVisited(v, t0, t, Snap(), n, childId, children[i + 1..], out);
        i := i + 1;
      }
      assert children[i..] == [];
    }

    /** Visits the whole tree. */
    method Visit(v: Visitor, ghost out: set<Id>)
      requires Region(Snap(), out) && Idle(Snap()) && (v.Collect? || out == {})
      requires v.Collect? ==> v.ids.spanIds == {}
      modifies this, Footprint(v)
      ensures Finished(v, old(Snap()), Snap(), out)
    {
      VisitStarts(v, Snap(), out);
      VisitNode(v, root, out);
    }

    /** Makes an inner span the root and prunes what is not below it; fails on an unknown span. */
    method SetRoot(id: Id) returns (ok: bool)
      requires WellFormed(Snap()) && Idle(Snap())
      modifies this
      ensures ok <==> id in old(spanMap)
      ensures !ok ==> Snap() == old(Snap())
      ensures ok ==> Rerooted(old(Snap()), Snap(), id)
    {
      if id !in spanMap {
        return false;
      }
      hide WellFormed, Region, Finished, Rerooted, Subtree;
      ghost var t := Snap();
      ghost var kept := Subtree(t, id);
      ghost var out := spanMap.Keys - kept;
      InnerRegion(t, id);
      spanMap := spanMap[id := spanMap[id].(parent := None)];
      root := id;
      var collector := new SpanIdCollector();
      assert Snap() == Rooted(t, id);
      Visit(Collect(collector), out);
      ghost var t' := Snap();
      CollectedAll(collector, Rooted(t, id), t', out);
      RetainSpans(collector.spanIds);
      RetainChildren(collector.spanIds);
      RerootEnd(t, t', Snap(), id, kept);
      return true;
    }

    method RetainSpans(ids: set<Id>)
      modifies this`spanMap
      ensures spanMap.Keys == ids * old(spanMap.Keys) && forall x :: x in spanMap ==> spanMap[x] == old(spanMap)[x]
    {
      var todo := spanMap.Keys;
      while todo != {}
        invariant todo <= spanMap.Keys
        invariant spanMap.Keys == (ids + todo) * old(spanMap.Keys) && forall x :: x in spanMap ==> spanMap[x] == old(spanMap)[x]
      {
        var spanId := Pick(todo);
        if spanId !in ids {
          spanMap := spanMap - {spanId};
        }
        todo := todo - {spanId};
      }
    }

    method RetainChildren(ids: set<Id>)
      modifies this`childrenMap
      ensures childrenMap.Keys == ids * old(childrenMap.Keys) && forall x :: x in childrenMap ==> childrenMap[x] == old(childrenMap)[x]
    {
      var todo := childrenMap.Keys;
      while todo != {}
        invariant todo <= childrenMap.Keys
        invariant childrenMap.Keys == (ids + todo) * old(childrenMap.Keys) && forall x :: x in childrenMap ==> childrenMap[x] == old(childrenMap)[x]
      {
        var spanId := Pick(todo);
        if spanId !in ids {
          childrenMap := childrenMap - {spanId};
        }
        todo := todo - {spanId};
      }
    }

    /** Adds all spans of another tree below a span of this one; panics when the two are one. */
    method AddTree(childTree: SpanTree, parentId: Id)
      requires this != childTree && Apart(Snap(), childTree.Snap(), parentId)
      modifies this
      ensures Grafted(old(Snap()), Snap(), childTree.Snap(), parentId)
      ensures childTree.Snap() == old(childTree.Snap())
    {
      hide Apart, Grafting, Grafted, WellFormed, Subtree;
      ghost var t0 := Snap();
      ghost var u := childTree.Snap();
      GraftStart(t0, u, parentId);
      AddSubtree(parentId, childTree, childTree.root, t0, parentId, {});
      assert {} + Subtree(u, u.root) == Subtree(u, u.root);
      GraftEnd(t0, Snap(), u, parentId);
    }

    method AddSubtree(parentId: Id, other: SpanTree, subroot: Id, ghost t0: Tree, ghost p: Id, ghost done: set<Id>)
      requires this != other && Apart(t0, other.Snap(), p) && Grafting(t0, Snap(), other.Snap(), p, done)
      requires subroot in other.spanMap && WellFormed(other.Snap()) && Acyclic(Par(other.Snap())) && Subtree(other.Snap(), subroot) !! done
      requires if subroot == other.root then parentId == p else Child(other.Snap(), parentId, subroot)
      modifies this
      ensures other.Snap() == old(other.Snap())
      ensures Grafting(t0, Snap(), other.Snap(), p, done + Subtree(other.Snap(), subroot))
      decreases Subtree(other.Snap(), subroot)
    {
      hide Apart, Grafting, WellFormed, Subtree, Covered, Child;
      ghost var u := other.Snap();
      CoveredAll(u, subroot);
      GraftOne(t0, Snap(), u, p, done, subroot, parentId);
      Add(other.spanMap[subroot], parentId);
      var todo := if subroot in other.childrenMap then other.childrenMap[subroot] else {};
      while todo != {}
        invariant other.Snap() == u && todo <= Kids(u, subroot)
        invariant Grafting(t0, Snap(), u, p, done + Covered(u, subroot, todo))
      {
        var child := Pick(todo);
        SubtreeSplits(u, subroot, child);
        CoveredStep(u, subroot, todo, child);
        AddSubtree(subroot, other, child, t0, p, done + Covered(u, subroot, todo));
        assert done + Covered(u, subroot, todo) + Subtree(u, child) == done + Covered(u, subroot, todo - {child});
        todo := todo - {child};
      }
    }
  }
}
