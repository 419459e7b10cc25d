/** Hanging the traces of linked objects below one another. */
module Assembly {
  import opened Wrappers
  import opened Forest
  import opened MapOrder
  import opened TreeModel
  import opened Links
  import opened Components
  import opened SpanTrees

  const LINK_CLASS := "linkClass"

  /** The members of a component: their trees, and which tree each span is from. */
  datatype Members = Members(trees: map<Key, Tree>, links: map<Key, seq<TargetLink>>, owner: map<Id, Key>)

  predicate Owns(ms: Members, k: Key, x: Id) {
    k in ms.trees && x in ms.trees[k].spans
  }

  predicate OwnedBy(ms: Members, x: Id, k: Key) {
    x in ms.owner && ms.owner[x] == k
  }

  ghost predicate Usable(t: Tree) {
    WellFormed(t) && Idle(t)
  }

  /** Every member is a well-formed tree, and no two of them share a span id. */
  ghost predicate Separate(ms: Members) {
    && ms.trees.Keys == ms.links.Keys
    && (forall k :: k in ms.trees ==> Usable(ms.trees[k]))
    && (forall k, x :: Owns(ms, k, x) ==> OwnedBy(ms, x, k))
    && (forall x :: x in ms.owner ==> Owns(ms, ms.owner[x], x))
  }

  /** The place of a link: its object, and its index among the links of the object. */
  datatype Stem = Stem(subject: Key, index: nat)

  /** How far the merge is: the tree, the objects in it, the span each is hung below, and the link each virtual span stems from. */
  datatype Progress = Progress(t: Tree, placed: set<Key>, above: map<Key, Id>, virtual: map<Id, Stem>)

  predicate IsChildLink(ms: Members, stem: Stem) {
    stem.subject in ms.links && stem.index < |ms.links[stem.subject]| && ms.links[stem.subject][stem.index].role == CHILD
  }

  /** A child link that has a class. */
  predicate Classed(ms: Members, stem: Stem) {
    IsChildLink(ms, stem) && ms.links[stem.subject][stem.index].class_ != ""
  }

  /** The classed child links of s before the n-th. */
  function ClassedOf(ms: Members, s: Key, n: nat): set<Stem> {
    set i | 0 <= i < n && Classed(ms, Stem(s, i)) :: Stem(s, i)
  }

  /** The classed child links of the objects in `some`. */
  ghost predicate StemsOf(ms: Members, some: set<Key>, stems: set<Stem>) {
    forall stem :: stem in stems <==> stem.subject in some && Classed(ms, stem)
  }

  /** Where the object of a link is hung: below the root of the link's subject, or below the virtual span of the link if it has a class. */
  predicate HangsAt(ms: Members, virtual: map<Id, Stem>, stem: Stem, parent: Id) {
    && stem.subject in ms.trees && IsChildLink(ms, stem)
    && if Classed(ms, stem) then parent in virtual && virtual[parent] == stem else parent == ms.trees[stem.subject].root
  }

  /** Object k is in the tree by that link. */
  predicate HungBy(ms: Members, p: Progress, k: Key, stem: Stem) {
    && k in p.above && HangsAt(ms, p.virtual, stem, p.above[k])
    && stem.subject in p.placed && ms.links[stem.subject][stem.index].key == k
  }

  ghost predicate Hung(ms: Members, p: Progress, k: Key) {
    exists stem :: HungBy(ms, p, k, stem)
  }

  /** The span of object k as it is in the merged tree. */
  function Merged(ms: Members, p: Progress, root: Key, k: Key, x: Id): Span
    requires Owns(ms, k, x)
  {
    var span := ms.trees[k].spans[x];
    if k != root && x == ms.trees[k].root && k in p.above then span.(parent := Some(p.above[k])) else span
  }

  predicate Placed(ms: Members, placed: set<Key>, x: Id) {
    x in ms.owner && ms.owner[x] in placed
  }

  /** The tree holds the spans of the placed objects and the virtual spans, and nothing else. */
  ghost predicate Holds(ms: Members, p: Progress) {
    && (forall x :: x in p.t.spans <==> x in p.virtual || Placed(ms, p.placed, x))
    && forall x :: x in p.virtual ==> x !in ms.owner
  }

  /** The span that createVirtualSpan makes. */
  function VirtualSpan(id: Id, of: Span): Span {
    Span(id, None, Some(LINK_CLASS), None, of.start, of.duration, [])
  }

  /** The virtual span x of a link of s, below the root of s. */
  predicate IsVirtual(ms: Members, span: Span, x: Id, s: Key) {
    && s in ms.trees && ms.trees[s].root in ms.trees[s].spans
    && span == VirtualSpan(x, ms.trees[s].spans[ms.trees[s].root]).(parent := Some(ms.trees[s].root))
  }

  /** The spans are those of the objects, but for the parents of their roots. */
  ghost predicate Contents(ms: Members, p: Progress, root: Key)
    requires Separate(ms) && Holds(ms, p)
  {
    && (forall x :: Placed(ms, p.placed, x) ==> p.t.spans[x] == Merged(ms, p, root, ms.owner[x], x))
    && forall x :: x in p.virtual ==> IsVirtual(ms, p.t.spans[x], x, p.virtual[x].subject)
  }

  /** Every virtual span stems from a classed child link of a placed object, and no two stem from the same. */
  ghost predicate Stemmed(ms: Members, p: Progress) {
    && (forall x :: x in p.virtual ==> p.virtual[x].subject in p.placed && Classed(ms, p.virtual[x]))
    && forall x, y :: x in p.virtual && y in p.virtual && p.virtual[x] == p.virtual[y] ==> x == y
  }

  ghost predicate AllHung(ms: Members, p: Progress, root: Key) {
    forall k :: k in p.placed && k != root ==> Hung(ms, p, k)
  }

  ghost predicate Assembled(ms: Members, p: Progress, root: Key)
    requires Separate(ms)
  {
    && root in p.placed && p.placed <= ms.trees.Keys && p.t.root == ms.trees[root].root
    && Usable(p.t) && Holds(ms, p) && Contents(ms, p, root) && AllHung(ms, p, root) && Stemmed(ms, p)
  }

  lemma {:induction false} MemberUsable(ms: Members, k: Key)
    requires Separate(ms) && k in ms.trees
    ensures Usable(ms.trees[k]) && ms.trees[k].root in ms.trees[k].spans && Owns(ms, k, ms.trees[k].root) && OwnedBy(ms, ms.trees[k].root, k)
  {
    hide Separate;
    MemberOwns(ms, k);
    assert ms.trees[k].root in ms.trees[k].spans;
  }

  lemma {:induction false} MemberOwns(ms: Members, k: Key)
    requires Separate(ms) && k in ms.trees
    ensures Usable(ms.trees[k]) && forall x :: x in ms.trees[k].spans <==> OwnedBy(ms, x, k)
  {
    hide Usable;
    forall x ensures x in ms.trees[k].spans <==> OwnedBy(ms, x, k) {
      assert x in ms.trees[k].spans <==> Owns(ms, k, x);
    }
  }

  lemma {:induction false} AssembledStart(ms: Members, root: Key)
    requires Separate(ms) && root in ms.trees
    ensures Assembled(ms, Progress(ms.trees[root], {root}, map[], map[]), root)
  {
    hide Usable, Separate;
    MemberOwns(ms, root);
    var p := Progress(ms.trees[root], {root}, map[], map[]);
    assert forall x :: Placed(ms, p.placed, x) <==> OwnedBy(ms, x, root);
  }

  function WithVirtual(ms: Members, p: Progress, s: Key, i: nat, id: Id): Progress
    requires s in ms.trees && ms.trees[s].root in ms.trees[s].spans
  {
    var root := ms.trees[s].root;
    p.(t := AddF(p.t, VirtualSpan(id, ms.trees[s].spans[root]), root), virtual := p.virtual[id := Stem(s, i)])
  }

  lemma {:induction false} VirtualUsable(ms: Members, p: Progress, root: Key, s: Key, i: nat, id: Id)
    requires Separate(ms) && Assembled(ms, p, root) && s in p.placed && id !in p.t.spans
    requires s in ms.trees && ms.trees[s].root in ms.trees[s].spans
    ensures Usable(WithVirtual(ms, p, s, i, id).t)
  {
    hide Separate, Contents, AllHung, WellFormed;
    MemberUsable(ms, s);
    var top := ms.trees[s].root;
    assert Placed(ms, p.placed, top);
    AddWellFormed(p.t, VirtualSpan(id, ms.trees[s].spans[top]), top);
  }

  lemma {:induction false} VirtualHolds(ms: Members, p: Progress, s: Key, i: nat, id: Id)
    requires Holds(ms, p) && s in ms.trees && ms.trees[s].root in ms.trees[s].spans && id !in p.t.spans && id !in ms.owner
    ensures Holds(ms, WithVirtual(ms, p, s, i, id))
  {
  }

  lemma {:induction false} VirtualContents(ms: Members, p: Progress, root: Key, s: Key, i: nat, id: Id)
    requires Separate(ms) && Holds(ms, p) && Contents(ms, p, root) && s in ms.trees && ms.trees[s].root in ms.trees[s].spans
    requires id !in p.t.spans && id !in ms.owner && Holds(ms, WithVirtual(ms, p, s, i, id))
    ensures Contents(ms, WithVirtual(ms, p, s, i, id), root)
  {
    hide Usable;
    var p' := WithVirtual(ms, p, s, i, id);
    forall x | Placed(ms, p'.placed, x) ensures p'.t.spans[x] == Merged(ms, p', root, ms.owner[x], x) {
      assert Placed(ms, p.placed, x);
    }
  }

  lemma {:induction false} VirtualHung(ms: Members, p: Progress, root: Key, s: Key, i: nat, id: Id)
    requires AllHung(ms, p, root) && s in ms.trees && ms.trees[s].root in ms.trees[s].spans && id !in p.virtual
    ensures AllHung(ms, WithVirtual(ms, p, s, i, id), root)
  {
    var p' := WithVirtual(ms, p, s, i, id);
    forall k | k in p'.placed && k != root ensures Hung(ms, p', k) {
      var stem :| HungBy(ms, p, k, stem);
      assert HungBy(ms, p', k, stem);
    }
  }

  lemma {:induction false} VirtualStemmed(ms: Members, p: Progress, s: Key, i: nat, id: Id)
    requires Stemmed(ms, p) && s in p.placed && s in ms.trees && ms.trees[s].root in ms.trees[s].spans && id !in p.virtual
    requires Classed(ms, Stem(s, i)) && Stem(s, i) !in p.virtual.Values
    ensures Stemmed(ms, WithVirtual(ms, p, s, i, id))
    ensures WithVirtual(ms, p, s, i, id).virtual.Values == p.virtual.Values + {Stem(s, i)}
  {
    hide Classed;
    var virtual := WithVirtual(ms, p, s, i, id).virtual;
    forall x | x in virtual ensures virtual[x] == if x == id then Stem(s, i) else p.virtual[x] {}
    forall stem | stem in p.virtual.Values ensures stem in virtual.Values {
      var x :| x in p.virtual && p.virtual[x] == stem;
      assert virtual[x] == stem;
    }
    assert virtual[id] == Stem(s, i);
  }

  lemma {:induction false} AddVirtual(ms: Members, p: Progress, root: Key, s: Key, i: nat, id: Id)
    requires Separate(ms) && Assembled(ms, p, root) && s in p.placed && s in ms.trees && ms.trees[s].root in ms.trees[s].spans
    requires id !in p.t.spans && id !in ms.owner && Classed(ms, Stem(s, i)) && Stem(s, i) !in p.virtual.Values
    ensures Assembled(ms, WithVirtual(ms, p, s, i, id), root)
    ensures WithVirtual(ms, p, s, i, id).virtual.Values == p.virtual.Values + {Stem(s, i)}
  {
    hide Separate, Usable, Contents, AllHung;
    VirtualUsable(ms, p, root, s, i, id);
    VirtualHolds(ms, p, s, i, id);
    VirtualContents(ms, p, root, s, i, id);
    VirtualHung(ms, p, root, s, i, id);
    VirtualStemmed(ms, p, s, i, id);
  }

  function WithTree(p: Progress, t: Tree, k: Key, parent: Id): Progress {
    p.(t := t, placed := p.placed + {k}, above := p.above[k := parent])
  }

  /** An object that is placed for the first time may be grafted: it brings no span that the tree has. */
  lemma {:induction false} GraftApart(ms: Members, p: Progress, root: Key, k: Key, parent: Id)
    requires Separate(ms) && Assembled(ms, p, root) && k in ms.trees && k !in p.placed && parent in p.t.spans
    ensures Apart(p.t, ms.trees[k], parent) && ms.trees[k].root in ms.trees[k].spans
    ensures forall x :: x in p.t.spans ==> x !in ms.trees[k].spans
  {
    hide Separate, Contents, AllHung, WellFormed;
    MemberUsable(ms, k);
    MemberOwns(ms, k);
    forall x | x in p.t.spans ensures x !in ms.trees[k].spans {
      assert x in p.virtual || Placed(ms, p.placed, x);
    }
    assert p.t.stack == map[] && p.t.exited == {};
  }

  lemma {:induction false} GraftedKeys(t: Tree, t': Tree, u: Tree, parent: Id)
    requires u.root in u.spans && Grafted(t, t', u, parent)
    ensures forall x :: x in t'.spans <==> x in t.spans || x in u.spans
  {
  }

  lemma {:induction false} TreeHolds(ms: Members, p: Progress, t': Tree, k: Key, parent: Id)
    requires Separate(ms) && Holds(ms, p) && k in ms.trees && ms.trees[k].root in ms.trees[k].spans && Grafted(p.t, t', ms.trees[k], parent)
    ensures Holds(ms, WithTree(p, t', k, parent))
  {
    hide Separate, Grafted, Holds, Usable;
    MemberOwns(ms, k);
    GraftedKeys(p.t, t', ms.trees[k], parent);
    KeysHold(ms, p, t', k, parent);
  }

  lemma {:induction false} KeysHold(ms: Members, p: Progress, t': Tree, k: Key, parent: Id)
    requires Holds(ms, p) && forall x :: x in t'.spans <==> x in p.t.spans || OwnedBy(ms, x, k)
    ensures Holds(ms, WithTree(p, t', k, parent))
  {
    forall x ensures Placed(ms, p.placed + {k}, x) <==> Placed(ms, p.placed, x) || OwnedBy(ms, x, k) {}
  }

  /** One span after a graft: one of the new tree, or one that was there. */
  lemma {:induction false} GraftedSpan(t: Tree, t': Tree, u: Tree, parent: Id, x: Id)
    requires u.root in u.spans && Grafted(t, t', u, parent) && x in t'.spans
    ensures x in u.spans ==> t'.spans[x] == if x == u.root then u.spans[x].(parent := Some(parent)) else u.spans[x]
    ensures x !in u.spans ==> x in t.spans && t'.spans[x] == t.spans[x]
  {
  }

  lemma {:induction false} TreeContent(ms: Members, p: Progress, t': Tree, root: Key, k: Key, parent: Id, x: Id)
    requires Separate(ms) && Holds(ms, p) && Contents(ms, p, root) && k in ms.trees && k !in p.placed && k != root
    requires ms.trees[k].root in ms.trees[k].spans && Grafted(p.t, t', ms.trees[k], parent) && Placed(ms, p.placed + {k}, x) && x in t'.spans
    ensures Owns(ms, ms.owner[x], x) && t'.spans[x] == Merged(ms, WithTree(p, t', k, parent), root, ms.owner[x], x)
  {
    hide Usable, Grafted;
    GraftedSpan(p.t, t', ms.trees[k], parent, x);
    assert Owns(ms, ms.owner[x], x);
    if ms.owner[x] != k {
      assert !OwnedBy(ms, x, k);
      assert !Owns(ms, k, x);
      assert Placed(ms, p.placed, x);
    }
  }

  lemma {:induction false} TreeContents(ms: Members, p: Progress, t': Tree, root: Key, k: Key, parent: Id)
    requires Separate(ms) && Holds(ms, p) && Contents(ms, p, root) && k in ms.trees && k !in p.placed && k != root
    requires ms.trees[k].root in ms.trees[k].spans && Grafted(p.t, t', ms.trees[k], parent) && Holds(ms, WithTree(p, t', k, parent))
    ensures Contents(ms, WithTree(p, t', k, parent), root)
  {
    hide Usable, Grafted, Separate;
    var p' := WithTree(p, t', k, parent);
    MemberOwns(ms, k);
    forall x | Placed(ms, p'.placed, x) ensures Owns(ms, ms.owner[x], x) && t'.spans[x] == Merged(ms, p', root, ms.owner[x], x) {
      TreeContent(ms, p, t', root, k, parent, x);
    }
    forall x | x in p'.virtual ensures x in p.t.spans && t'.spans[x] == p.t.spans[x] {
      GraftedSpan(p.t, t', ms.trees[k], parent, x);
      assert !OwnedBy(ms, x, k);
    }
  }

  lemma {:induction false} TreeHung(ms: Members, p: Progress, t': Tree, root: Key, stem: Stem, k: Key, parent: Id)
    requires AllHung(ms, p, root) && stem.subject in p.placed && HangsAt(ms, p.virtual, stem, parent)
    requires ms.links[stem.subject][stem.index].key == k && k !in p.placed
    ensures AllHung(ms, WithTree(p, t', k, parent), root)
  {
    var p' := WithTree(p, t', k, parent);
    assert HungBy(ms, p', k, stem);
    forall j | j in p.placed && j != root ensures Hung(ms, p', j) {
      var other :| HungBy(ms, p, j, other);
      assert HungBy(ms, p', j, other);
    }
  }

  lemma {:induction false} AddObject(ms: Members, p: Progress, t': Tree, root: Key, stem: Stem, k: Key, parent: Id)
    requires Separate(ms) && Assembled(ms, p, root) && stem.subject in p.placed && HangsAt(ms, p.virtual, stem, parent)
    requires ms.links[stem.subject][stem.index].key == k && k in ms.trees && k !in p.placed && parent in p.t.spans
    requires ms.trees[k].root in ms.trees[k].spans && Grafted(p.t, t', ms.trees[k], parent)
    ensures Assembled(ms, WithTree(p, t', k, parent), root)
  {
    hide Separate, Contents, AllHung, WellFormed, Grafted, Holds, HangsAt, Classed;
    GraftApart(ms, p, root, k, parent);
    MemberUsable(ms, k);
    TreeHolds(ms, p, t', k, parent);
    TreeContents(ms, p, t', root, k, parent);
    TreeHung(ms, p, t', root, stem, k, parent);
    GraftWellFormed(p.t, t', ms.trees[k], parent);
    GraftIdle(p.t, t', ms.trees[k], parent);
  }

  lemma {:induction false} GraftIdle(t: Tree, t': Tree, u: Tree, parent: Id)
    requires u.root in u.spans && Grafted(t, t', u, parent) && Idle(t)
    ensures Idle(t') && t'.root == t.root
  {
  }

  // ---------- Which objects ----------

  /** s has a child link to the member k. */
  ghost predicate ChildLink(ms: Members, s: Key, k: Key) {
    k in ms.trees && exists link :: Has(ms.links, s, link) && link.role == CHILD && link.key == k
  }

  ghost predicate Descends(ms: Members, a: Key, b: Key, n: nat)
    decreases n
  {
    if n == 0 then a == b else exists c :: Descends(ms, a, c, n - 1) && ChildLink(ms, c, b)
  }

  /** k is reached from root by child links among the members. */
  ghost predicate Descendant(ms: Members, root: Key, k: Key) {
    exists n: nat :: Descends(ms, root, k, n)
  }

  lemma {:induction false} DescendantNext(ms: Members, root: Key, s: Key, k: Key)
    requires Descendant(ms, root, s) && ChildLink(ms, s, k)
    ensures Descendant(ms, root, k)
  {
    var n: nat :| Descends(ms, root, s, n);
    assert Descends(ms, root, k, n + 1);
  }

  /** All the members that k has child links to are placed. */
  ghost predicate Expanded(ms: Members, placed: set<Key>, k: Key) {
    forall c :: ChildLink(ms, k, c) ==> c in placed
  }

  lemma {:induction false} ClosedHoldsAll(ms: Members, root: Key, placed: set<Key>, k: Key, n: nat)
    requires root in placed && (forall s :: s in placed ==> Expanded(ms, placed, s)) && Descends(ms, root, k, n)
    ensures k in placed
    decreases n
  {
    if n > 0 {
      var c :| Descends(ms, root, c, n - 1) && ChildLink(ms, c, k);
      ClosedHoldsAll(ms, root, placed, c, n - 1);
    }
  }

  /** The placed objects are exactly those reached by child links. */
  ghost predicate Complete(ms: Members, root: Key, placed: set<Key>) {
    forall k :: k in placed <==> Descendant(ms, root, k)
  }

  /** Reached so far, with what is still to be expanded. */
  ghost predicate Expanding(ms: Members, root: Key, placed: set<Key>, pending: set<Key>) {
    && root in placed && (forall k :: k in placed ==> Descendant(ms, root, k))
    && forall k :: k in placed && k !in pending ==> Expanded(ms, placed, k)
  }

  lemma {:induction false} ExpandingStart(ms: Members, root: Key)
    ensures Expanding(ms, root, {root}, {root})
  {
    assert Descends(ms, root, root, 0);
  }

  lemma {:induction false} ExpandingEnd(ms: Members, root: Key, placed: set<Key>)
    requires Expanding(ms, root, placed, {})
    ensures Complete(ms, root, placed)
  {
    forall k | Descendant(ms, root, k) ensures k in placed {
      var n: nat :| Descends(ms, root, k, n);
      ClosedHoldsAll(ms, root, placed, k, n);
    }
  }

  /** The links of s before i have been looked at. */
  ghost predicate LinksDone(ms: Members, placed: set<Key>, s: Key, i: nat)
    requires s in ms.links && i <= |ms.links[s]|
  {
    forall j :: 0 <= j < i && ms.links[s][j].role == CHILD && ms.links[s][j].key in ms.trees ==> ms.links[s][j].key in placed
  }

  lemma {:induction false} AllLinksDone(ms: Members, root: Key, placed: set<Key>, pending: set<Key>, s: Key)
    requires Expanding(ms, root, placed, pending + {s}) && s in ms.links && LinksDone(ms, placed, s, |ms.links[s]|)
    ensures Expanding(ms, root, placed, pending)
  {
    forall c | ChildLink(ms, s, c) ensures c in placed {
      var link :| Has(ms.links, s, link) && link.role == CHILD && link.key == c;
      var j :| 0 <= j < |ms.links[s]| && ms.links[s][j] == link;
    }
  }

  /**
   Components follow links of both roles, but the merge follows child links only: when a names b as its parent and b does not
   name a, they share a component with root b, and a is not merged.
   */
  lemma {:induction false} LostMember(ms: Members, m: AbLinkMap, a: Key, b: Key)
    requires a != b && ms.links == map[a := [TargetLink(b, PARENT, "")], b := []] && ms.trees.Keys == {a, b} && Collected(ms.links, m)
    ensures Joined(m, {a, b}, a, b) && ParentEdge(m, {a, b}, a, b)
    ensures (forall k :: !ParentEdge(m, {a, b}, b, k)) && !Descendant(ms, b, a)
  {
    hide Collected, ParentEdge, Joined, Descendant;
    TheLink(ms.links, m, a, b);
    JoinedSelf(m, {a, b}, b);
    JoinedNext(m, {a, b}, a, b, b);
    forall k ensures !ParentEdge(m, {a, b}, b, k) {
      OnlyTheLink(ms.links, m, a, b, k);
    }
    NotReached(ms, a, b);
  }

  lemma {:induction false} NotReached(ms: Members, a: Key, b: Key)
    requires a != b && ms.links == map[a := [TargetLink(b, PARENT, "")], b := []]
    ensures !Descendant(ms, b, a)
  {
    forall n: nat ensures !Descends(ms, b, a, n) {
      NoChildLinks(ms, b, a, n);
    }
  }

  lemma {:induction false} TheLink(links: map<Key, seq<TargetLink>>, m: AbLinkMap, a: Key, b: Key)
    requires a != b && links == map[a := [TargetLink(b, PARENT, "")], b := []] && Collected(links, m)
    ensures Edge(m, a, b) && ParentEdge(m, {a, b}, a, b)
  {
    var link := TargetLink(b, PARENT, "");
    assert Has(links, a, link);
    assert LinkedTo(links, a, b);
    CanonicalParent(a, link);
    assert Stored(links, m[a][b], a, b);
    var s, l :| StoredBy(links, m[a][b], a, b, s, l);
  }

  lemma {:induction false} OnlyTheLink(links: map<Key, seq<TargetLink>>, m: AbLinkMap, a: Key, b: Key, k: Key)
    requires a != b && links == map[a := [TargetLink(b, PARENT, "")], b := []] && Collected(links, m)
    ensures !ParentEdge(m, {a, b}, b, k)
  {
    CanonicalParent(a, TargetLink(b, PARENT, ""));
    if Edge(m, b, k) {
      assert Stored(links, m[b][k], b, k);
      var s, l :| StoredBy(links, m[b][k], b, k, s, l);
      assert s == a && l == TargetLink(b, PARENT, "");
    }
  }

  lemma {:induction false} NoChildLinks(ms: Members, from: Key, to: Key, n: nat)
    requires forall s, link :: Has(ms.links, s, link) ==> link.role != CHILD
    ensures Descends(ms, from, to, n) ==> from == to
  {
  }

  // ---------- When no member is lost ----------

  /** k names s as something other than its child. */
  ghost predicate NamesParent(ms: Members, k: Key, s: Key) {
    s in ms.trees && exists link :: Has(ms.links, k, link) && link.role != CHILD && link.key == s
  }

  /** Every parent link between two members has its child link at the other end. */
  ghost predicate Mutual(ms: Members) {
    forall k, s :: k in ms.trees && k != s && NamesParent(ms, k, s) ==> ChildLink(ms, s, k)
  }

  /** No two members are children of each other. */
  ghost predicate OneWay(ms: Members) {
    forall s, k :: s != k && ChildLink(ms, s, k) ==> !ChildLink(ms, k, s)
  }

  lemma {:induction false} ParentLinksBack(ms: Members, m: AbLinkMap, k: Key, p: Key)
    requires Mutual(ms) && Collected(ms.links, m) && k in ms.trees && k != p && ParentEdge(m, ms.trees.Keys, k, p)
    ensures ChildLink(ms, p, k)
  {
    hide Collected;
    ParentEdgeMeans(ms.links, m, ms.trees.Keys, k, p);
    var link :| (Has(ms.links, k, link) && link.key == p && link.role != CHILD) || (Has(ms.links, p, link) && link.key == k && link.role == CHILD);
    if Has(ms.links, k, link) && link.key == p && link.role != CHILD {
      assert NamesParent(ms, k, p);
    }
  }

  lemma {:induction false} AncestorReaches(ms: Members, m: AbLinkMap, root: Key, k: Key, n: nat)
    requires Mutual(ms) && Collected(ms.links, m) && k in ms.trees && Ascends(m, ms.trees.Keys, k, root, n)
    ensures Descendant(ms, root, k)
    decreases n
  {
    hide Mutual, Collected, ChildLink;
    if n == 0 {
      assert Descends(ms, root, root, 0);
    } else {
      var p :| ParentEdge(m, ms.trees.Keys, k, p) && Ascends(m, ms.trees.Keys, p, root, n - 1);
      AncestorReaches(ms, m, root, p, n - 1);
      if p != k {
        ParentLinksBack(ms, m, k, p);
        DescendantNext(ms, root, p, k);
      }
    }
  }

  lemma {:induction false} ChildLinksBack(ms: Members, m: AbLinkMap, s: Key, k: Key)
    requires Mutual(ms) && OneWay(ms) && Collected(ms.links, m) && ms.trees.Keys == ms.links.Keys && s != k && ChildLink(ms, s, k)
    ensures ParentEdge(m, ms.trees.Keys, k, s)
  {
    assert LinkedTo(ms.links, s, k);
    assert Stored(ms.links, m[k][s], k, s);
    var from, link :| StoredBy(ms.links, m[k][s], k, s, from, link);
    CanonicalParent(from, link);
    assert from == k && link.role == CHILD ==> ChildLink(ms, k, s);
    assert from == s && link.role != CHILD ==> NamesParent(ms, s, k);
  }

  lemma {:induction false} ReachedAscends(ms: Members, m: AbLinkMap, root: Key, k: Key, n: nat)
    requires Mutual(ms) && OneWay(ms) && Collected(ms.links, m) && ms.trees.Keys == ms.links.Keys && Descends(ms, root, k, n)
    ensures Ancestor(m, ms.trees.Keys, k, root)
    decreases n
  {
    hide Mutual, OneWay, Collected, ChildLink;
    if n == 0 {
      assert Ascends(m, ms.trees.Keys, k, k, 0);
    } else {
      var s :| Descends(ms, root, s, n - 1) && ChildLink(ms, s, k);
      ReachedAscends(ms, m, root, s, n - 1);
      if s != k {
        ChildLinksBack(ms, m, s, k);
        AncestorNext(m, ms.trees.Keys, k, s, root);
      }
    }
  }

  /**
   When every parent link between members has its child link at the other end, and no two members are children of each other,
   the members that are merged are exactly those that the root is an ancestor of.
   */
  lemma {:induction false} MergedIff(ms: Members, m: AbLinkMap, root: Key, placed: set<Key>, k: Key)
    requires Mutual(ms) && OneWay(ms) && Collected(ms.links, m) && ms.trees.Keys == ms.links.Keys && Complete(ms, root, placed) && k in ms.trees
    ensures k in placed <==> Ancestor(m, ms.trees.Keys, k, root)
  {
    hide Mutual, OneWay, Collected;
    if k in placed {
      var n: nat :| Descends(ms, root, k, n);
      ReachedAscends(ms, m, root, k, n);
    }
    if Ancestor(m, ms.trees.Keys, k, root) {
      var n: nat :| Ascends(m, ms.trees.Keys, k, root, n);
      AncestorReaches(ms, m, root, k, n);
    }
  }

  // ---------- The merge ----------

  /** Span ids that are in no member and all different: what the random ids of virtual spans are taken to be. */
  ghost predicate Fresh(ids: nat -> Id, ms: Members) {
    (forall i :: ids(i) !in ms.owner) && forall i, j :: i != j ==> ids(i) != ids(j)
  }

  ghost predicate Used(ids: nat -> Id, count: nat, virtual: set<Id>) {
    forall v :: v in virtual ==> exists i :: 0 <= i < count && ids(i) == v
  }

  /** The members' trees are separate objects; all but that of the root are as they were. */
  ghost predicate Others(trees: map<Key, SpanTree>, ms: Members, root: Key)
    reads trees.Values
  {
    && trees.Keys == ms.trees.Keys && root in trees
    && (forall k :: k in trees && k != root ==> trees[k] != trees[root] && trees[k].Snap() == ms.trees[k])
  }

  lemma {:induction false} NextIdFresh(ms: Members, p: Progress, root: Key, ids: nat -> Id, count: nat)
    requires Separate(ms) && Assembled(ms, p, root) && Fresh(ids, ms) && Used(ids, count, p.virtual.Keys)
    ensures ids(count) !in p.t.spans && ids(count) !in ms.owner
    ensures Used(ids, count + 1, p.virtual.Keys + {ids(count)})
  {
    hide Separate, Usable, Contents, AllHung;
    var id := ids(count);
    assert id !in p.virtual;
    assert !Placed(ms, p.placed, id);
  }

  /** The root span of a placed object as its own tree has it. */
  lemma {:induction false} RootSpan(trees: map<Key, SpanTree>, root: Key, subj: Key, ms: Members, p: Progress)
    requires Separate(ms) && Assembled(ms, p, root) && Others(trees, ms, root) && trees[root].Snap() == p.t
    requires subj in p.placed
    ensures subj in trees && subj in ms.trees && ms.trees[subj].root in ms.trees[subj].spans && ms.trees[subj].root in p.t.spans
    ensures trees[subj].root == ms.trees[subj].root && trees[subj].root in trees[subj].spanMap
    ensures trees[subj].spanMap[trees[subj].root] == ms.trees[subj].spans[ms.trees[subj].root]
    ensures trees[subj].root !in p.t.exited
  {
    hide Separate, AllHung, WellFormed;
    MemberUsable(ms, subj);
    assert Placed(ms, p.placed, ms.trees[subj].root);
    if subj != root {
      assert trees[subj].Snap() == ms.trees[subj];
    }
  }

  /** A virtual span, field by field: below the root of the object whose link it stems from, marked as a link class, as long as that root. */
  lemma {:induction false} VirtualFields(ms: Members, p: Progress, root: Key, x: Id)
    requires Separate(ms) && Assembled(ms, p, root) && x in p.virtual
    ensures x in p.t.spans && p.virtual[x].subject in ms.trees
    ensures var s := p.virtual[x].subject;
            && s in p.placed && ms.trees[s].root in ms.trees[s].spans && ms.trees[s].root in p.t.spans
            && var span, top := p.t.spans[x], ms.trees[s].spans[ms.trees[s].root];
               && span.id == x && span.parent == Some(ms.trees[s].root)
               && span.pseudoType == Some("linkClass") && span.traceSource == None
               && span.start == top.start && span.duration == top.duration && span.logs == []
    ensures IsChildLink(ms, p.virtual[x]) && ms.links[p.virtual[x].subject][p.virtual[x].index].class_ != ""
  {
    hide Separate, Usable, AllHung;
    assert IsVirtual(ms, p.t.spans[x], x, p.virtual[x].subject);
    MemberUsable(ms, p.virtual[x].subject);
    assert Placed(ms, p.placed, ms.trees[p.virtual[x].subject].root);
  }

  /** A span of an object, field by field: as in the object's own tree, but that the root of an object hangs where its link says. */
  lemma {:induction false} MergedFields(ms: Members, p: Progress, root: Key, k: Key, x: Id)
    requires Separate(ms) && Assembled(ms, p, root) && k in p.placed && k in ms.trees && x in ms.trees[k].spans
    ensures x in p.t.spans && x !in p.virtual
    ensures var span, own := p.t.spans[x], ms.trees[k].spans[x];
            && span.id == own.id && span.pseudoType == own.pseudoType && span.traceSource == own.traceSource
            && span.start == own.start && span.duration == own.duration && span.logs == own.logs
            && (x != ms.trees[k].root || k == root ==> span.parent == own.parent)
    ensures k != root ==> ms.trees[k].root in p.t.spans && exists s, i: nat, parent :: LinkedAt(ms, p, k, s, i, parent) && p.t.spans[ms.trees[k].root].parent == Some(parent)
  {
    hide Usable;
    MemberOwns(ms, k);
    assert OwnedBy(ms, x, k) && Placed(ms, p.placed, x);
    assert p.t.spans[x] == Merged(ms, p, root, k, x);
    if k != root {
      MemberUsable(ms, k);
      var top := ms.trees[k].root;
      assert OwnedBy(ms, top, k) && Placed(ms, p.placed, top);
      assert Hung(ms, p, k);
      var stem :| HungBy(ms, p, k, stem);
      assert LinkedAt(ms, p, k, stem.subject, stem.index, p.above[k]);
      assert p.t.spans[top] == Merged(ms, p, root, k, top);
    }
  }

  /** The i-th link of a placed object s calls k a child; without a class k hangs below the root of s, with one below the virtual span of that link. */
  predicate LinkedAt(ms: Members, p: Progress, k: Key, s: Key, i: nat, parent: Id) {
    && s in p.placed && s in ms.trees && s in ms.links && i < |ms.links[s]|
    && ms.links[s][i].role == "child" && ms.links[s][i].key == k
    && if ms.links[s][i].class_ == "" then parent == ms.trees[s].root else parent in p.virtual && p.virtual[parent] == Stem(s, i)
  }

  method PlaceVirtual(tree: SpanTree, trees: map<Key, SpanTree>, ghost root: Key, subj: Key, ghost i: nat, id: Id, ghost ms: Members, ghost p: Progress)
    returns (ghost p': Progress)
    requires Separate(ms) && Assembled(ms, p, root) && Others(trees, ms, root) && tree == trees[root] && tree.Snap() == p.t
    requires subj in p.placed && subj in trees && id !in p.t.spans && id !in ms.owner
    requires Classed(ms, Stem(subj, i)) && Stem(subj, i) !in p.virtual.Values
    modifies tree
    ensures Assembled(ms, p', root) && Others(trees, ms, root) && tree.Snap() == p'.t
    ensures subj in ms.trees && ms.trees[subj].root in ms.trees[subj].spans && p' == WithVirtual(ms, p, subj, i, id)
    ensures p'.virtual.Values == p.virtual.Values + {Stem(subj, i)} && id in p'.t.spans
  {
    hide Separate, Assembled, Classed;
    RootSpan(trees, root, subj, ms, p);
    var top := trees[subj].spanMap[trees[subj].root];
    p' := WithVirtual(ms, p, subj, i, id);
    AddVirtual(ms, p, root, subj, i, id);
    tree.Add(VirtualSpan(id, top), trees[subj].root);
  }

  /** One child link of a placed object: the i-th. */
  method PlaceLink(tree: SpanTree, trees: map<Key, SpanTree>, treeObjects: set<Key>, ghost root: Key, subj: Key, link: TargetLink, ghost i: nat, id: Id,
                   ghost ms: Members, ghost p: Progress)
    returns (added: bool, ghost p': Progress)
    requires Separate(ms) && Assembled(ms, p, root) && Others(trees, ms, root) && tree == trees[root] && tree.Snap() == p.t
    requires treeObjects == p.placed && subj in p.placed && subj in trees && IsChildLink(ms, Stem(subj, i)) && ms.links[subj][i] == link
    requires id !in p.t.spans && id !in ms.owner && Stem(subj, i) !in p.virtual.Values
    modifies tree
    ensures Assembled(ms, p', root) && Others(trees, ms, root) && tree.Snap() == p'.t
    ensures added <==> link.key in ms.trees && link.key !in p.placed
    ensures p'.placed == if added then p.placed + {link.key} else p.placed
    ensures p'.virtual == if link.class_ != "" then p.virtual[id := Stem(subj, i)] else p.virtual
    ensures added ==> HungBy(ms, p', link.key, Stem(subj, i))
    ensures p'.virtual.Values == p.virtual.Values + if Classed(ms, Stem(subj, i)) then {Stem(subj, i)} else {}
  {
    hide Separate, Assembled;
    RootSpan(trees, root, subj, ms, p);
    p' := p;
    var parentId := trees[subj].root;
    if link.class_ != "" {
      p' := PlaceVirtual(tree, trees, root, subj, i, id, ms, p);
      parentId := id;
    }
    if link.key in treeObjects || link.key !in trees {
      return false, p';
    }
    added := true;
    p' := PlaceTree(tree, trees, root, Stem(subj, i), link.key, parentId, ms, p');
  }

  lemma {:induction false} SubtreeApart(trees: map<Key, SpanTree>, root: Key, key: Key, parentId: Id, ms: Members, p: Progress)
    requires Separate(ms) && Assembled(ms, p, root) && Others(trees, ms, root) && trees[root].Snap() == p.t
    requires key in trees && key !in p.placed && parentId in p.t.spans
    ensures key in ms.trees && trees[key] != trees[root] && trees[key].Snap() == ms.trees[key]
    ensures Apart(p.t, ms.trees[key], parentId) && ms.trees[key].root in ms.trees[key].spans
    ensures forall x :: x in p.t.spans ==> x !in ms.trees[key].spans
  {
    hide Separate, Apart;
    assert key != root by { hide Usable, Holds, Contents, AllHung, Stemmed; }
    GraftApart(ms, p, root, key, parentId);
  }

  method PlaceTree(tree: SpanTree, trees: map<Key, SpanTree>, ghost root: Key, ghost stem: Stem, key: Key, parentId: Id, ghost ms: Members, ghost p: Progress)
    returns (ghost p': Progress)
    requires Separate(ms) && Assembled(ms, p, root) && Others(trees, ms, root) && tree == trees[root] && tree.Snap() == p.t
    requires stem.subject in p.placed && HangsAt(ms, p.virtual, stem, parentId) && ms.links[stem.subject][stem.index].key == key
    requires key in trees && key !in p.placed && parentId in p.t.spans
    modifies tree
    ensures Assembled(ms, p', root) && Others(trees, ms, root) && tree.Snap() == p'.t
    ensures p'.placed == p.placed + {key} && p'.virtual == p.virtual && p'.above == p.above[key := parentId]
  {
    hide Separate, Assembled, Apart, Grafted, HangsAt;
    var subtree := trees[key];
    SubtreeApart(trees, root, key, parentId, ms, p);
    tree.AddTree(subtree, parentId);
    AddObject(ms, p, tree.Snap(), root, stem, key, parentId);
    p' := WithTree(p, tree.Snap(), key, parentId);
  }

  lemma {:induction false} LinkPlaced(ms: Members, placed: set<Key>, placed': set<Key>, s: Key, i: nat)
    requires s in ms.links && i < |ms.links[s]| && LinksDone(ms, placed, s, i) && placed <= placed'
    requires ms.links[s][i].role == CHILD && ms.links[s][i].key in ms.trees ==> ms.links[s][i].key in placed'
    ensures LinksDone(ms, placed', s, i + 1)
  {
  }

  lemma {:induction false} NextStem(ms: Members, s: Key, i: nat)
    ensures ClassedOf(ms, s, i + 1) == ClassedOf(ms, s, i) + if Classed(ms, Stem(s, i)) then {Stem(s, i)} else {}
    ensures ClassedOf(ms, s, 0) == {} && Stem(s, i) !in ClassedOf(ms, s, i)
  {
  }

  /** The loop over the links of one object, which has not been expanded before. */
  method PlaceLinks(tree: SpanTree, trees: map<Key, SpanTree>, treeObjects: set<Key>, ghost root: Key, subj: Key, links: seq<TargetLink>,
                    ids: nat -> Id, count: nat, ghost ms: Members, ghost p: Progress)
    returns (treeObjects': set<Key>, pending: seq<Key>, count': nat, ghost p': Progress)
    requires Separate(ms) && Assembled(ms, p, root) && Others(trees, ms, root) && tree == trees[root] && tree.Snap() == p.t
    requires treeObjects == p.placed && subj in p.placed && subj in trees && subj in ms.links && ms.links[subj] == links
    requires Fresh(ids, ms) && Used(ids, count, p.virtual.Keys) && forall i :: Stem(subj, i) !in p.virtual.Values
    modifies tree
    ensures Assembled(ms, p', root) && Others(trees, ms, root) && tree.Snap() == p'.t && treeObjects' == p'.placed
    ensures Used(ids, count', p'.virtual.Keys) && p'.virtual.Values == p.virtual.Values + ClassedOf(ms, subj, |links|)
    ensures p.placed <= p'.placed && Elems(pending) == p'.placed - p.placed && NoDup(pending)
    ensures LinksDone(ms, p'.placed, subj, |links|) && forall k :: k in pending ==> ChildLink(ms, subj, k)
  {
    hide Separate, Assembled, Others, LinksDone, Used, ClassedOf, Classed, HungBy;
    treeObjects', pending, count', p' := treeObjects, [], count, p;
    LinksNone(ms, p.placed, subj);
    NextStem(ms, subj, 0);
    for i := 0 to |links|
      invariant Assembled(ms, p', root) && Others(trees, ms, root) && tree.Snap() == p'.t && treeObjects' == p'.placed
      invariant Used(ids, count', p'.virtual.Keys) && p'.virtual.Values == p.virtual.Values + ClassedOf(ms, subj, i)
      invariant p.placed <= p'.placed && Elems(pending) == p'.placed - p.placed && NoDup(pending)
      invariant LinksDone(ms, p'.placed, subj, i) && forall k :: k in pending ==> ChildLink(ms, subj, k)
    {
      var link := links[i];
      ghost var before, virtual := p'.placed, p'.virtual.Keys;
      assert Has(ms.links, subj, link);
      NextStem(ms, subj, i);
      if link.role == CHILD {
        NextIdFresh(ms, p', root, ids, count');
        var added;
        added, p' := PlaceLink(tree, trees, treeObjects', root, subj, link, i, ids(count'), ms, p');
        if link.class_ != "" {
          assert p'.virtual.Keys == virtual + {ids(count')};
          count' := count' + 1;
        }
        if added {
          assert ChildLink(ms, subj, link.key);
          AppendNew(pending, link.key);
          treeObjects' := treeObjects' + {link.key};
          pending := pending + [link.key];
        }
      } else {
        NotClassed(ms, subj, i);
      }
      LinkPlaced(ms, before, p'.placed, subj, i);
    }
  }

  lemma {:induction false} NotClassed(ms: Members, s: Key, i: nat)
    requires s in ms.links && i < |ms.links[s]| && ms.links[s][i].role != CHILD
    ensures !Classed(ms, Stem(s, i))
  {
  }

  lemma {:induction false} AppendNew(s: seq<Key>, k: Key)
    requires NoDup(s) && k !in Elems(s)
    ensures NoDup(s + [k]) && Elems(s + [k]) == Elems(s) + {k}
  {
    ElemsAppend(s, k);
    assert forall i :: 0 <= i < |s| ==> s[i] in Elems(s);
  }

  lemma {:induction false} LinksNone(ms: Members, placed: set<Key>, s: Key)
    requires s in ms.links
    ensures LinksDone(ms, placed, s, 0) && Elems<Key>([]) == {}
  {
  }

  /** mergeLinkedTraces from a known root: a worklist of objects whose links are still to be followed. */
  method Assemble(trees: map<Key, SpanTree>, links: map<Key, seq<TargetLink>>, rootKey: Key, ids: nat -> Id, ghost ms: Members)
    returns (tree: SpanTree, ghost p: Progress)
    requires Separate(ms) && links == ms.links && rootKey in ms.trees && Fresh(ids, ms)
    requires Others(trees, ms, rootKey) && trees[rootKey].Snap() == ms.trees[rootKey]
    modifies trees[rootKey]
    ensures tree == trees[rootKey] && tree.Snap() == p.t && Others(trees, ms, rootKey)
    ensures Assembled(ms, p, rootKey) && Complete(ms, rootKey, p.placed) && StemsOf(ms, p.placed, p.virtual.Values)
  {
    hide Separate, Assembled, Expanding, Fresh, Used, StemsOf, Others, NoDup, Complete, Classed;
    OthersHas(trees, ms, rootKey);
    OneDistinct(rootKey);
    tree := trees[rootKey];
    var treeObjects := {rootKey};
    var pendingObjects := [rootKey];
    var count := 0;
    p := Progress(ms.trees[rootKey], {rootKey}, map[], map[]);
    AssembledStart(ms, rootKey);
    ExpandingStart(ms, rootKey);
    NoneUsed(ids, p);
    SeparateKeys(ms);
    ghost var expanded: set<Key> := {};
    StemsNone(ms, p.virtual.Values);
    while pendingObjects != []
      invariant Assembled(ms, p, rootKey) && Others(trees, ms, rootKey) && tree.Snap() == p.t && treeObjects == p.placed
      invariant Expanding(ms, rootKey, p.placed, Elems(pendingObjects)) && Elems(pendingObjects) <= p.placed <= trees.Keys
      invariant Used(ids, count, p.virtual.Keys) && StemsOf(ms, expanded, p.virtual.Values)
      invariant NoDup(pendingObjects) && expanded == p.placed - Elems(pendingObjects)
      decreases trees.Keys - treeObjects, |pendingObjects|
    {
      var n := |pendingObjects| - 1;
      var subj := pendingObjects[n];
      ghost var before, rest := p, pendingObjects[..n];
      assert pendingObjects == rest + [subj];
      ElemsAppend(rest, subj);
      pendingObjects := pendingObjects[..n];
      PoppedLast(rest, subj);
      StemsApart(ms, expanded, p.virtual.Values, subj);
      var more;
      treeObjects, more, count, p := PlaceLinks(tree, trees, treeObjects, rootKey, subj, links[subj], ids, count, ms, p);
      ExpandingLinks(ms, rootKey, before.placed, p.placed, rest, subj, more);
      NoElems(more);
      AssembledWithin(ms, p, rootKey);
      assert treeObjects == before.placed ==> more == [];
      StemsNext(ms, expanded, before.virtual.Values, subj);
      expanded := expanded + {subj};
      NoDupConcat(rest, more);
      pendingObjects := pendingObjects + more;
    }
    NoElems(pendingObjects);
    ExpandingEnd(ms, rootKey, p.placed);
    assert expanded == p.placed;
  }

  lemma {:induction false} PoppedLast(rest: seq<Key>, last: Key)
    requires NoDup(rest + [last])
    ensures NoDup(rest) && last !in Elems(rest)
  {
    assert forall i :: 0 <= i < |rest| ==> (rest + [last])[i] == rest[i];
    assert (rest + [last])[|rest|] == last;
  }

  lemma {:induction false} NoDupConcat(s: seq<Key>, t: seq<Key>)
    requires NoDup(s) && NoDup(t) && Elems(s) !! Elems(t)
    ensures NoDup(s + t) && Elems(s + t) == Elems(s) + Elems(t)
  {
    assert forall i :: 0 <= i < |s| ==> s[i] in Elems(s);
    assert forall i :: 0 <= i < |t| ==> t[i] in Elems(t);
  }

  lemma {:induction false} StemsNone(ms: Members, stems: set<Stem>)
    requires stems == {}
    ensures StemsOf(ms, {}, stems)
  {
  }

  lemma {:induction false} StemsApart(ms: Members, some: set<Key>, stems: set<Stem>, s: Key)
    requires StemsOf(ms, some, stems) && s !in some
    ensures forall i :: Stem(s, i) !in stems
  {
  }

  /** The classed links of one more object. */
  lemma {:induction false} StemsNext(ms: Members, some: set<Key>, stems: set<Stem>, s: Key)
    requires StemsOf(ms, some, stems) && s in ms.links
    ensures StemsOf(ms, some + {s}, stems + ClassedOf(ms, s, |ms.links[s]|))
  {
    forall stem ensures stem in ClassedOf(ms, s, |ms.links[s]|) <==> stem.subject == s && Classed(ms, stem) {
      if stem.subject == s && Classed(ms, stem) {
        assert stem == Stem(s, stem.index);
      }
    }
  }

  lemma {:induction false} OneDistinct(k: Key)
    ensures NoDup([k]) && NoDup<Key>([]) && Elems([k]) == {k}
  {
  }

  lemma {:induction false} NoneUsed(ids: nat -> Id, p: Progress)
    requires p.virtual == map[]
    ensures Used(ids, 0, p.virtual.Keys)
  {
  }

  lemma {:induction false} NoElems(s: seq<Key>)
    ensures Elems(s) == {} <==> s == []
  {
    if s != [] {
      assert s[0] in Elems(s);
    }
  }

  lemma {:induction false} AssembledWithin(ms: Members, p: Progress, root: Key)
    requires Separate(ms) && Assembled(ms, p, root)
    ensures p.placed <= ms.trees.Keys
  {
  }

  lemma {:induction false} SeparateKeys(ms: Members)
    requires Separate(ms)
    ensures ms.trees.Keys == ms.links.Keys
  {
  }

  lemma {:induction false} ExpandingAll(ms: Members, root: Key, placed: set<Key>, pending: set<Key>, s: Key, more: set<Key>)
    requires Expanding(ms, root, placed, pending) && s in placed && forall k :: k in more ==> ChildLink(ms, s, k)
    ensures Expanding(ms, root, placed + more, pending + more)
  {
    forall k | k in more ensures Descendant(ms, root, k) {
      DescendantNext(ms, root, s, k);
    }
  }

  lemma {:induction false} ExpandingLinks(ms: Members, root: Key, placed: set<Key>, placed': set<Key>, rest: seq<Key>, s: Key, more: seq<Key>)
    requires Expanding(ms, root, placed, Elems(rest) + {s}) && s in placed && Elems(rest) <= placed
    requires placed <= placed' && Elems(more) == placed' - placed && forall k :: k in more ==> ChildLink(ms, s, k)
    requires s in ms.links && LinksDone(ms, placed', s, |ms.links[s]|)
    ensures Expanding(ms, root, placed', Elems(rest + more)) && Elems(rest + more) <= placed'
  {
    hide Expanding, LinksDone, ChildLink;
    ExpandingAll(ms, root, placed, Elems(rest) + {s}, s, Elems(more));
    assert placed + Elems(more) == placed';
    assert Elems(rest + more) == Elems(rest) + Elems(more);
    assert Elems(rest) + {s} + Elems(more) == Elems(rest + more) + {s};
    AllLinksDone(ms, root, placed', Elems(rest + more), s);
  }

  /**
   mergeLinkedTraces: the root of the component is detected, and everything below it is merged into its tree.
   The root is a parentless ancestor of the first object, or on a cycle of parents; no tree is ever added to itself.
   */
  method MergeLinkedTraces(objects: seq<Key>, trees: map<Key, SpanTree>, links: map<Key, seq<TargetLink>>, abLinks: AbLinkMap, ids: nat -> Id, ghost ms: Members)
    returns (tree: SpanTree, rootKey: Key, hasCycle: bool, ghost p: Progress)
    requires objects != [] && Elems(objects) == ms.trees.Keys && Separate(ms) && links == ms.links && Fresh(ids, ms)
    requires forall root :: root in ms.trees ==> Others(trees, ms, root) && trees[root].Snap() == ms.trees[root]
    modifies trees.Values
    ensures rootKey in ms.trees && Ancestor(abLinks, ms.trees.Keys, objects[0], rootKey)
    ensures !hasCycle ==> forall k :: !ParentEdge(abLinks, ms.trees.Keys, rootKey, k)
    ensures hasCycle ==> ProperAncestor(abLinks, ms.trees.Keys, rootKey, rootKey)
    ensures rootKey in trees && tree == trees[rootKey] && tree.Snap() == p.t && Others(trees, ms, rootKey)
    ensures Assembled(ms, p, rootKey) && Complete(ms, rootKey, p.placed) && StemsOf(ms, p.placed, p.virtual.Values)
  {
    hide Separate, Assembled, Complete, Others, StemsOf;
    assert objects[0] in Elems(objects);
    rootKey, hasCycle := DfsRoot(abLinks, {}, objects[0], Elems(objects));
    assert Others(trees, ms, rootKey);
    OthersHas(trees, ms, rootKey);
    tree, p := Assemble(trees, links, rootKey, ids, ms);
  }

  lemma {:induction false} OthersHas(trees: map<Key, SpanTree>, ms: Members, root: Key)
    requires Others(trees, ms, root)
    ensures root in trees && trees.Keys == ms.trees.Keys
  {
  }
}
