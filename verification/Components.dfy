/** Connected components of the undirected link graph, and the root of one. */
module Components {
  import opened MapOrder
  import opened Links

  type AbLinkMap = map<Key, map<Key, AbLink>>

  predicate Edge(m: AbLinkMap, a: Key, b: Key) {
    a in m && b in m[a]
  }

  /** Every link is stored from both of its ends. */
  ghost predicate Symmetric(m: AbLinkMap) {
    forall a, b :: Edge(m, a, b) ==> Edge(m, b, a) && m[b][a] == m[a][b]
  }

  function InsertDirected(m: AbLinkMap, k1: Key, k2: Key, link: AbLink): AbLinkMap {
    m[k1 := (if k1 in m then m[k1] else map[])[k2 := link]]
  }

  /** abLinkMap.insert. */
  function Insert(m: AbLinkMap, link: AbLink): AbLinkMap {
    InsertDirected(InsertDirected(m, link.alpha, link.beta, link), link.beta, link.alpha, link)
  }

  lemma {:induction false} InsertEdges(m: AbLinkMap, link: AbLink)
    requires Symmetric(m)
    ensures Symmetric(Insert(m, link))
    ensures forall a, b :: Edge(Insert(m, link), a, b) <==> Edge(m, a, b) || (a == link.alpha && b == link.beta) || (a == link.beta && b == link.alpha)
  {
    var m' := Insert(m, link);
    forall a, b ensures Edge(m', a, b) <==> Edge(m, a, b) || (a == link.alpha && b == link.beta) || (a == link.beta && b == link.alpha) {}
    forall a, b | Edge(m', a, b) ensures Edge(m', b, a) && m'[b][a] == m'[a][b] {
      assert Edge(m, a, b) ==> Edge(m, b, a) && m[b][a] == m[a][b];
    }
  }

  predicate Has(links: map<Key, seq<TargetLink>>, a: Key, link: TargetLink) {
    a in links && link in links[a]
  }

  /** a has a link to b. */
  ghost predicate LinkedTo(links: map<Key, seq<TargetLink>>, a: Key, b: Key) {
    exists link :: Has(links, a, link) && link.key == b
  }

  /** ab is the canonical form of a link of s, one of a and b, to the other. */
  predicate StoredBy(links: map<Key, seq<TargetLink>>, ab: AbLink, a: Key, b: Key, s: Key, link: TargetLink) {
    Has(links, s, link) && ab == Canonical(s, link) && ((s == a && link.key == b) || (s == b && link.key == a))
  }

  ghost predicate Stored(links: map<Key, seq<TargetLink>>, ab: AbLink, a: Key, b: Key) {
    exists s, link :: StoredBy(links, ab, a, b, s, link)
  }

  /** m holds exactly the given links, in canonical form. */
  ghost predicate Collected(links: map<Key, seq<TargetLink>>, m: AbLinkMap) {
    && Symmetric(m)
    && (forall a, b :: Edge(m, a, b) <==> LinkedTo(links, a, b) || LinkedTo(links, b, a))
    && (forall a, b :: Edge(m, a, b) ==> Stored(links, m[a][b], a, b))
  }

  function More(links: map<Key, seq<TargetLink>>, key: Key, link: TargetLink): map<Key, seq<TargetLink>> {
    links[key := (if key in links then links[key] else []) + [link]]
  }

  lemma {:induction false} MoreHas(links: map<Key, seq<TargetLink>>, key: Key, link: TargetLink)
    ensures forall s, l :: Has(More(links, key, link), s, l) <==> Has(links, s, l) || (s == key && l == link)
  {
  }

  lemma {:induction false} MoreLinked(links: map<Key, seq<TargetLink>>, key: Key, link: TargetLink)
    ensures forall a, b :: LinkedTo(More(links, key, link), a, b) <==> LinkedTo(links, a, b) || (a == key && b == link.key)
  {
    MoreHas(links, key, link);
    assert Has(More(links, key, link), key, link);
    forall a, b | LinkedTo(links, a, b) ensures LinkedTo(More(links, key, link), a, b) {
      var l :| Has(links, a, l) && l.key == b;
      assert Has(More(links, key, link), a, l);
    }
  }

  lemma {:induction false} InsertedAt(m: AbLinkMap, link: AbLink, a: Key, b: Key)
    requires Symmetric(m) && Edge(Insert(m, link), a, b)
    ensures if (a == link.alpha && b == link.beta) || (a == link.beta && b == link.alpha) then Insert(m, link)[a][b] == link
            else Edge(m, a, b) && Insert(m, link)[a][b] == m[a][b]
  {
  }

  lemma {:induction false} InsertStored(m: AbLinkMap, links: map<Key, seq<TargetLink>>, key: Key, link: TargetLink, a: Key, b: Key)
    requires Collected(links, m) && Edge(Insert(m, Canonical(key, link)), a, b)
    ensures Stored(More(links, key, link), Insert(m, Canonical(key, link))[a][b], a, b)
  {
    var ab := Canonical(key, link);
    InsertedAt(m, ab, a, b);
    MoreHas(links, key, link);
    if (a == ab.alpha && b == ab.beta) || (a == ab.beta && b == ab.alpha) {
      assert StoredBy(More(links, key, link), ab, a, b, key, link);
    } else {
      assert Stored(links, m[a][b], a, b);
      hide Collected, Insert, More;
      var s, l :| StoredBy(links, m[a][b], a, b, s, l);
      assert StoredBy(More(links, key, link), m[a][b], a, b, s, l);
    }
  }

  lemma {:induction false} CollectOne(links: map<Key, seq<TargetLink>>, m: AbLinkMap, key: Key, link: TargetLink)
    requires Collected(links, m)
    ensures Collected(More(links, key, link), Insert(m, Canonical(key, link)))
  {
    InsertEdges(m, Canonical(key, link));
    MoreLinked(links, key, link);
    forall a, b | Edge(Insert(m, Canonical(key, link)), a, b) ensures Stored(More(links, key, link), Insert(m, Canonical(key, link))[a][b], a, b) {
      InsertStored(m, links, key, link, a, b);
    }
  }

  lemma {:induction false} CollectedSame(seen: map<Key, seq<TargetLink>>, links: map<Key, seq<TargetLink>>, m: AbLinkMap)
    requires Collected(seen, m) && forall s, l :: Has(seen, s, l) <==> Has(links, s, l)
    ensures Collected(links, m)
  {
    forall a, b ensures LinkedTo(seen, a, b) <==> LinkedTo(links, a, b) {
      if LinkedTo(seen, a, b) {
        var l :| Has(seen, a, l) && l.key == b;
        assert Has(links, a, l);
      }
    }
    forall a, b | Edge(m, a, b) ensures Stored(links, m[a][b], a, b) {
      var s, l :| StoredBy(seen, m[a][b], a, b, s, l);
      assert StoredBy(links, m[a][b], a, b, s, l);
    }
  }

  /** The first loop of MergeTraces. */
  method CollectLinks(links: map<Key, seq<TargetLink>>) returns (abLinks: AbLinkMap)
    ensures Collected(links, abLinks)
  {
    abLinks := map[];
    ghost var seen: map<Key, seq<TargetLink>> := map[];
    assert forall s, l :: !Has(seen, s, l);
    var todo := links.Keys;
    while todo != {}
      invariant todo <= links.Keys && Collected(seen, abLinks)
      invariant forall s, l :: Has(seen, s, l) <==> Has(links, s, l) && s !in todo
    {
      var key := Pick(todo);
      todo := todo - {key};
      for i := 0 to |links[key]|
        invariant Collected(seen, abLinks)
        invariant forall s, l :: Has(seen, s, l) <==> if s == key then l in links[key][..i] else Has(links, s, l) && s !in todo
      {
        CollectOne(seen, abLinks, key, links[key][i]);
        MoreHas(seen, key, links[key][i]);
        TakeNext(links[key], i);
        abLinks := Insert(abLinks, Canonical(key, links[key][i]));
        seen := More(seen, key, links[key][i]);
      }
      assert links[key][..|links[key]|] == links[key];
    }
    CollectedSame(seen, links, abLinks);
  }

  /** p is a parent of another object x only if x has a link to p that does not call it a child, or p has one that calls x a child. */
  lemma {:induction false} ParentEdgeMeans(links: map<Key, seq<TargetLink>>, m: AbLinkMap, among: set<Key>, x: Key, p: Key)
    requires Collected(links, m) && ParentEdge(m, among, x, p) && x != p
    ensures exists link :: (Has(links, x, link) && link.key == p && link.role != CHILD) || (Has(links, p, link) && link.key == x && link.role == CHILD)
  {
    assert Stored(links, m[x][p], x, p);
    var s, link :| StoredBy(links, m[x][p], x, p, s, link);
    CanonicalParent(s, link);
  }

  // ---------- Walks ----------

  ghost predicate Walk(m: AbLinkMap, among: set<Key>, a: Key, b: Key, n: nat)
    decreases n
  {
    a in among && if n == 0 then a == b else exists c :: Edge(m, a, c) && Walk(m, among, c, b, n - 1)
  }

  /** A path of links inside the object set joins a and b. */
  ghost predicate Joined(m: AbLinkMap, among: set<Key>, a: Key, b: Key) {
    exists n: nat :: Walk(m, among, a, b, n)
  }

  lemma {:induction false} WalkThen(m: AbLinkMap, among: set<Key>, a: Key, b: Key, c: Key, n: nat, k: nat)
    requires Walk(m, among, a, b, n) && Walk(m, among, b, c, k)
    ensures Walk(m, among, a, c, n + k)
    decreases n
  {
    if n > 0 {
      var d :| Edge(m, a, d) && Walk(m, among, d, b, n - 1);
      WalkThen(m, among, d, b, c, n - 1, k);
    }
  }

  lemma {:induction false} WalkBack(m: AbLinkMap, among: set<Key>, a: Key, b: Key, n: nat)
    requires Symmetric(m) && Walk(m, among, a, b, n)
    ensures Walk(m, among, b, a, n)
    decreases n
  {
    if n > 0 {
      var d :| Edge(m, a, d) && Walk(m, among, d, b, n - 1);
      WalkBack(m, among, d, b, n - 1);
      assert Walk(m, among, a, a, 0) && d in among;
      assert Walk(m, among, d, a, 1);
      WalkThen(m, among, b, d, a, n - 1, 1);
    }
  }

  lemma {:induction false} JoinedSelf(m: AbLinkMap, among: set<Key>, a: Key)
    requires a in among
    ensures Joined(m, among, a, a)
  {
    assert Walk(m, among, a, a, 0);
  }

  lemma {:induction false} JoinedNext(m: AbLinkMap, among: set<Key>, a: Key, b: Key, c: Key)
    requires a in among && Edge(m, a, b) && Joined(m, among, b, c)
    ensures Joined(m, among, a, c)
  {
    var n: nat :| Walk(m, among, b, c, n);
    assert Walk(m, among, a, c, n + 1);
  }

  lemma {:induction false} JoinedThrough(m: AbLinkMap, among: set<Key>, s: Key, a: Key, b: Key)
    requires Symmetric(m) && Joined(m, among, s, a) && Joined(m, among, s, b)
    ensures Joined(m, among, a, b)
  {
    var n: nat :| Walk(m, among, s, a, n);
    var k: nat :| Walk(m, among, s, b, k);
    WalkBack(m, among, s, a, n);
    WalkThen(m, among, a, s, b, n, k);
  }

  // ---------- Tainting ----------

  /** A depth-first search that started with `keys` left has tainted exactly those no longer in keys'. */
  ghost predicate Tainted(keys: set<Key>, keys': set<Key>, taints: map<Key, nat>, taints': map<Key, nat>, id: nat) {
    && keys' <= keys && taints'.Keys == taints.Keys + (keys - keys')
    && (forall k :: k in keys - keys' ==> taints'[k] == id)
    && (forall k :: k in taints && k !in keys - keys' ==> taints'[k] == taints[k])
  }

  /** Of the peers of x nobody is left. */
  ghost predicate Explored(m: AbLinkMap, keys: set<Key>, keys': set<Key>, x: Key) {
    forall y :: Edge(m, x, y) && y in keys ==> y !in keys'
  }

  /** seed has a peer, other than those of `todo`, that is not left. */
  ghost predicate ComesFrom(m: AbLinkMap, keys: set<Key>, seed: Key, todo: set<Key>) {
    exists p :: Edge(m, seed, p) && p !in keys && p !in todo
  }

  /** Every object searched but the first has met at least the one that the search came from. */
  ghost predicate MetBack(m: AbLinkMap, keys: set<Key>, keys': set<Key>, seed: Key, todo: set<Key>, met: nat) {
    Symmetric(m) ==> met >= |keys - keys'| - if ComesFrom(m, keys, seed, todo) then 0 else 1
  }

  lemma {:induction false} MetNone(m: AbLinkMap, keys: set<Key>, seed: Key)
    requires seed in keys
    ensures MetBack(m, keys, keys - {seed}, seed, if seed in m then m[seed].Keys else {}, 0)
  {
    assert keys - (keys - {seed}) == {seed};
  }

  lemma {:induction false} MetOne(m: AbLinkMap, keys: set<Key>, keys': set<Key>, seed: Key, todo: set<Key>, peer: Key, met: nat)
    requires MetBack(m, keys, keys', seed, todo, met) && peer in todo && peer !in keys'
    ensures MetBack(m, keys, keys', seed, todo - {peer}, met + 1)
  {
    if ComesFrom(m, keys, seed, todo) {
      var p :| Edge(m, seed, p) && p !in keys && p !in todo;
      assert p !in todo - {peer};
    }
  }

  lemma {:induction false} MetBelow(m: AbLinkMap, keys: set<Key>, keys': set<Key>, keys'': set<Key>, seed: Key, todo: set<Key>, peer: Key, met: nat, below: nat)
    requires MetBack(m, keys, keys', seed, todo, met) && peer in keys' && Edge(m, seed, peer) && seed !in keys' && keys'' <= keys' <= keys
    requires MetBack(m, keys', keys'', peer, {}, below)
    ensures MetBack(m, keys, keys'', seed, todo - {peer}, met + below)
  {
    assert keys - keys'' == (keys - keys') + (keys' - keys'');
    if Symmetric(m) {
      assert Edge(m, peer, seed);
      assert ComesFrom(m, keys', peer, {});
    }
    if ComesFrom(m, keys, seed, todo - {peer}) {
      var p :| Edge(m, seed, p) && p !in keys && p !in todo - {peer};
      assert ComesFrom(m, keys, seed, todo);
    }
  }

  /** What has been searched from seed is joined to it and, but for seed itself, explored. */
  ghost predicate SearchedFrom(m: AbLinkMap, among: set<Key>, keys: set<Key>, keys': set<Key>, seed: Key) {
    forall x :: x in keys - keys' ==> Joined(m, among, seed, x) && (x != seed ==> Explored(m, keys, keys', x))
  }

  lemma {:induction false} SearchedNone(m: AbLinkMap, among: set<Key>, keys: set<Key>, seed: Key)
    requires seed in keys && keys <= among
    ensures SearchedFrom(m, among, keys, keys - {seed}, seed)
  {
    JoinedSelf(m, among, seed);
  }

  lemma {:induction false} SearchedBelow(m: AbLinkMap, among: set<Key>, keys: set<Key>, keys': set<Key>, keys'': set<Key>, seed: Key, peer: Key)
    requires SearchedFrom(m, among, keys, keys', seed) && keys'' <= keys' <= keys && seed in keys - keys' && seed in among && Edge(m, seed, peer)
    requires forall x :: x in keys' - keys'' ==> Joined(m, among, peer, x) && Explored(m, keys', keys'', x)
    ensures SearchedFrom(m, among, keys, keys'', seed)
  {
    forall x | x in keys - keys'' ensures Joined(m, among, seed, x) && (x != seed ==> Explored(m, keys, keys'', x)) {
      if x in keys' {
        JoinedNext(m, among, seed, peer, x);
      } else {
        assert x != seed ==> Explored(m, keys, keys', x);
      }
    }
  }

  lemma {:induction false} SearchedAll(m: AbLinkMap, among: set<Key>, keys: set<Key>, keys': set<Key>, seed: Key)
    requires SearchedFrom(m, among, keys, keys', seed) && forall y :: Edge(m, seed, y) ==> y !in keys'
    ensures forall x :: x in keys - keys' ==> Joined(m, among, seed, x) && Explored(m, keys, keys', x)
  {
  }

  lemma {:induction false} TaintedSeed(keys: set<Key>, taints: map<Key, nat>, id: nat, seed: Key)
    requires seed in keys
    ensures Tainted(keys, keys - {seed}, taints, taints[seed := id], id)
  {
  }

  lemma {:induction false} TaintedFewer(keys: set<Key>, keys': set<Key>, taints: map<Key, nat>, taints': map<Key, nat>, id: nat)
    requires Tainted(keys, keys', taints, taints', id)
    ensures keys' <= keys
  {
  }

  /**
   dfsTaint. `met` counts how often a peer is passed over because it is not left any more: every object but the first meets at
   least the one that the search came from.
   */
  method DfsTaint(m: AbLinkMap, ghost among: set<Key>, keys: set<Key>, taints: map<Key, nat>, id: nat, seed: Key)
    returns (keys': set<Key>, taints': map<Key, nat>, ghost met: nat)
    requires seed in keys && keys <= among
    ensures Tainted(keys, keys', taints, taints', id) && seed !in keys'
    ensures forall x :: x in keys - keys' ==> Joined(m, among, seed, x) && Explored(m, keys, keys', x)
    ensures MetBack(m, keys, keys', seed, {}, met)
    decreases keys
  {
    hide MetBack, SearchedFrom, Tainted, Joined, Explored;
    met := 0;
    MetNone(m, keys, seed);
    TaintedSeed(keys, taints, id, seed);
    SearchedNone(m, among, keys, seed);
    taints' := taints[seed := id];
    keys' := keys - {seed};
    var todo := if seed in m then m[seed].Keys else {};
    while todo != {}
      invariant Tainted(keys, keys', taints, taints', id) && seed !in keys' && keys' <= keys
      invariant forall y :: Edge(m, seed, y) ==> y in todo || y !in keys'
      invariant todo <= if seed in m then m[seed].Keys else {}
      invariant SearchedFrom(m, among, keys, keys', seed) && MetBack(m, keys, keys', seed, todo, met)
    {
      var peer := Pick(todo);
      ghost var pending, before, beforeTaints := todo, keys', taints';
      todo := todo - {peer};
      if peer in keys' {
        ghost var below;
        keys', taints', below := DfsTaint(m, among, keys', taints', id, peer);
        TaintedFewer(before, keys', beforeTaints, taints', id);
        MetBelow(m, keys, before, keys', seed, pending, peer, met, below);
        met := met + below;
        TaintedThen(keys, before, keys', taints, beforeTaints, taints', id);
        SearchedBelow(m, among, keys, before, keys', seed, peer);
      } else {
        MetOne(m, keys, keys', seed, pending, peer, met);
        met := met + 1;
      }
    }
    SearchedAll(m, among, keys, keys', seed);
  }

  lemma {:induction false} TaintedThen(a: set<Key>, b: set<Key>, c: set<Key>, ta: map<Key, nat>, tb: map<Key, nat>, tc: map<Key, nat>, id: nat)
    requires Tainted(a, b, ta, tb, id) && Tainted(b, c, tb, tc, id)
    ensures Tainted(a, c, ta, tc, id)
  {
    assert a - c == (a - b) + (b - c);
  }

  /** Between two searches: equal taints are joined, and all the peers of a tainted object have its taint. */
  ghost predicate Settled(m: AbLinkMap, objects: set<Key>, keys: set<Key>, taints: map<Key, nat>, counter: nat) {
    && keys <= objects && taints.Keys == objects - keys
    && (forall x :: x in taints ==> taints[x] < counter)
    && (forall x, y :: Edge(m, x, y) && x in taints && y in objects ==> y in taints && taints[y] == taints[x])
    && (forall x, y :: x in taints && y in taints && taints[x] == taints[y] ==> Joined(m, objects, x, y))
  }

  lemma {:induction false} SettledNext(m: AbLinkMap, objects: set<Key>, keys: set<Key>, keys': set<Key>, taints: map<Key, nat>, taints': map<Key, nat>, counter: nat, seed: Key)
    requires Symmetric(m) && Settled(m, objects, keys, taints, counter) && Tainted(keys, keys', taints, taints', counter)
    requires forall x :: x in keys - keys' ==> Joined(m, objects, seed, x) && Explored(m, keys, keys', x)
    ensures Settled(m, objects, keys', taints', counter + 1)
  {
    forall x, y | Edge(m, x, y) && x in taints' && y in objects ensures y in taints' && taints'[y] == taints'[x] {
      assert Edge(m, y, x);
      assert x in keys || x in taints;
    }
    forall x, y | x in taints' && y in taints' && taints'[x] == taints'[y] ensures Joined(m, objects, x, y) {
      if x in keys - keys' {
        assert y in keys - keys';
        JoinedThrough(m, objects, seed, x, y);
      }
    }
  }

  lemma {:induction false} TaintAlong(m: AbLinkMap, objects: set<Key>, taints: map<Key, nat>, counter: nat, a: Key, b: Key, n: nat)
    requires Settled(m, objects, {}, taints, counter) && Walk(m, objects, a, b, n)
    ensures b in taints && taints[b] == taints[a]
    decreases n
  {
    if n > 0 {
      var c :| Edge(m, a, c) && Walk(m, objects, c, b, n - 1);
      TaintAlong(m, objects, taints, counter, c, b, n - 1);
    }
  }

  lemma {:induction false} TaintIffJoined(m: AbLinkMap, objects: set<Key>, taints: map<Key, nat>, counter: nat, a: Key, b: Key)
    requires Settled(m, objects, {}, taints, counter) && a in objects && b in objects
    ensures taints[a] == taints[b] <==> Joined(m, objects, a, b)
  {
    if Joined(m, objects, a, b) {
      var n: nat :| Walk(m, objects, a, b, n);
      TaintAlong(m, objects, taints, counter, a, b, n);
    }
  }

  predicate In(components: seq<seq<Key>>, i: int, k: Key) {
    0 <= i < |components| && k in components[i]
  }

  /** The objects with each taint. */
  ghost predicate Grouped(components: seq<seq<Key>>, taints: map<Key, nat>, done: set<Key>) {
    && (forall i :: 0 <= i < |components| ==> NoDup(components[i]))
    && forall i, k :: In(components, i, k) <==> 0 <= i < |components| && k in done && k in taints && taints[k] == i
  }

  /** Every object is in exactly one component, and two objects share it exactly when links join them. */
  ghost predicate Partition(m: AbLinkMap, objects: set<Key>, components: seq<seq<Key>>) {
    && (forall i :: 0 <= i < |components| ==> NoDup(components[i]) && components[i] != [])
    && (forall i, k :: In(components, i, k) ==> k in objects)
    && (forall k :: k in objects ==> exists i :: In(components, i, k))
    && (forall i, j, a, b :: In(components, i, a) && In(components, j, b) ==> (i == j <==> Joined(m, objects, a, b)))
  }

  method FindConnectedComponents(objects: set<Key>, m: AbLinkMap) returns (components: seq<seq<Key>>)
    requires Symmetric(m)
    ensures Partition(m, objects, components)
  {
    hide MetBack;
    var objectKeys := objects;
    var counter := 0;
    var taints: map<Key, nat> := map[];
    ghost var seeds: seq<Key> := [];
    while objectKeys != {}
      invariant Settled(m, objects, objectKeys, taints, counter)
      invariant |seeds| == counter && forall i :: 0 <= i < counter ==> seeds[i] in taints && taints[seeds[i]] == i
      decreases objectKeys
    {
      var seed := Pick(objectKeys);
      ghost var keys0, taints0 := objectKeys, taints;
      ghost var met;
      objectKeys, taints, met := DfsTaint(m, objects, objectKeys, taints, counter, seed);
      SettledNext(m, objects, keys0, objectKeys, taints0, taints, counter, seed);
      counter := counter + 1;
      seeds := seeds + [seed];
    }
    components := Group(taints, counter);
    GroupedPartition(m, objects, components, taints, counter, seeds);
  }

  lemma {:induction false} GroupOne(components: seq<seq<Key>>, taints: map<Key, nat>, done: set<Key>, key: Key)
    requires Grouped(components, taints, done) && key in taints && key !in done && taints[key] < |components|
    ensures Grouped(components[taints[key] := components[taints[key]] + [key]], taints, done + {key})
  {
    var t := taints[key];
    var more := components[t := components[t] + [key]];
    assert !In(components, t, key);
    forall i, k ensures In(more, i, k) <==> 0 <= i < |more| && k in done + {key} && k in taints && taints[k] == i {
      assert In(more, i, k) <==> In(components, i, k) || (i == t && k == key);
    }
  }

  method Group(taints: map<Key, nat>, counter: nat) returns (components: seq<seq<Key>>)
    requires forall x :: x in taints ==> taints[x] < counter
    ensures |components| == counter && Grouped(components, taints, taints.Keys)
  {
    components := seq(counter, _ => []);
    var todo := taints.Keys;
    while todo != {}
      invariant todo <= taints.Keys
      invariant |components| == counter && Grouped(components, taints, taints.Keys - todo)
    {
      var key := Pick(todo);
      todo := todo - {key};
      var taint := taints[key];
      GroupOne(components, taints, taints.Keys - todo - {key}, key);
      assert taints.Keys - todo == taints.Keys - todo - {key} + {key};
      components := components[taint := components[taint] + [key]];
    }
    assert taints.Keys - todo == taints.Keys;
  }

  lemma {:induction false} GroupedPartition(m: AbLinkMap, objects: set<Key>, components: seq<seq<Key>>, taints: map<Key, nat>, counter: nat, seeds: seq<Key>)
    requires Settled(m, objects, {}, taints, counter) && |components| == counter && Grouped(components, taints, taints.Keys)
    requires |seeds| == counter && forall i :: 0 <= i < counter ==> seeds[i] in taints && taints[seeds[i]] == i
    ensures Partition(m, objects, components)
  {
    forall i | 0 <= i < |components| ensures components[i] != [] {
      assert In(components, i, seeds[i]);
    }
    forall k | k in objects ensures exists i :: In(components, i, k) {
      assert In(components, taints[k], k);
    }
    forall i, j, a, b | In(components, i, a) && In(components, j, b)
      ensures i == j <==> Joined(m, objects, a, b)
    {
      TaintIffJoined(m, objects, taints, counter, a, b);
    }
  }

  // ---------- The root of a component ----------

  /** p is a parent of x among the given objects. */
  predicate ParentEdge(m: AbLinkMap, among: set<Key>, x: Key, p: Key) {
    Edge(m, x, p) && p in among && IsParent(m[x][p], p)
  }

  ghost predicate Ascends(m: AbLinkMap, among: set<Key>, a: Key, b: Key, n: nat)
    decreases n
  {
    if n == 0 then a == b else exists c :: ParentEdge(m, among, a, c) && Ascends(m, among, c, b, n - 1)
  }

  /** b is a, or a parent of a, or a parent of that, and so on. */
  ghost predicate Ancestor(m: AbLinkMap, among: set<Key>, a: Key, b: Key) {
    exists n: nat :: Ascends(m, among, a, b, n)
  }

  /** b is such an ancestor by at least one step. */
  ghost predicate ProperAncestor(m: AbLinkMap, among: set<Key>, a: Key, b: Key) {
    exists n: nat :: n > 0 && Ascends(m, among, a, b, n)
  }

  lemma {:induction false} AscendOne(m: AbLinkMap, among: set<Key>, a: Key, b: Key, p: Key, n: nat)
    requires Ascends(m, among, a, b, n) && ParentEdge(m, among, b, p)
    ensures Ascends(m, among, a, p, n + 1)
    decreases n
  {
    if n == 0 {
      assert Ascends(m, among, p, p, 0);
    } else {
      var c :| ParentEdge(m, among, a, c) && Ascends(m, among, c, b, n - 1);
      AscendOne(m, among, c, b, p, n - 1);
    }
  }

  lemma {:induction false} ProperAncestorNext(m: AbLinkMap, among: set<Key>, a: Key, b: Key, p: Key)
    requires a == b || ProperAncestor(m, among, a, b)
    requires ParentEdge(m, among, b, p)
    ensures ProperAncestor(m, among, a, p)
  {
    if a == b {
      assert Ascends(m, among, a, b, 0);
      AscendOne(m, among, a, b, p, 0);
    } else {
      var n: nat :| n > 0 && Ascends(m, among, a, b, n);
      AscendOne(m, among, a, b, p, n);
    }
  }

  lemma {:induction false} AncestorNext(m: AbLinkMap, among: set<Key>, a: Key, p: Key, b: Key)
    requires ParentEdge(m, among, a, p) && Ancestor(m, among, p, b)
    ensures Ancestor(m, among, a, b)
  {
    var n: nat :| Ascends(m, among, p, b, n);
    assert Ascends(m, among, a, b, n + 1);
  }

  /**
   dfsRoot: follows some parent among `among` until there is none or an object comes up again. The result is an ancestor of key;
   without a cycle it has no parent, and with one it is its own ancestor.
   */
  method DfsRoot(m: AbLinkMap, visited: set<Key>, key: Key, among: set<Key>) returns (root: Key, hasCycle: bool)
    requires key in among && visited <= among
    requires forall v :: v in visited ==> ProperAncestor(m, among, v, key)
    ensures root in among && Ancestor(m, among, key, root)
    ensures !hasCycle ==> forall p :: !ParentEdge(m, among, root, p)
    ensures hasCycle ==> ProperAncestor(m, among, root, root)
    decreases among - visited
  {
    assert Ascends(m, among, key, key, 0);
    if key in visited {
      return key, true;
    }
    var todo := if key in m then m[key].Keys else {};
    while todo != {}
      invariant todo <= if key in m then m[key].Keys else {}
      invariant forall p :: ParentEdge(m, among, key, p) ==> p in todo
    {
      var peer := Pick(todo);
      todo := todo - {peer};
      if peer in among && IsParent(m[key][peer], peer) {
        forall v | v in visited + {key} ensures ProperAncestor(m, among, v, peer) {
          ProperAncestorNext(m, among, v, key, peer);
        }
        root, hasCycle := DfsRoot(m, visited + {key}, peer, among);
        AncestorNext(m, among, key, peer, root);
        return;
      }
    }
    return key, false;
  }
}
