/** Object keys, their order, and links in canonical form. */
module Links {
  import opened GoStrings

  datatype Key = Key(cluster: string, group: string, resource: string, namespace: string, name: string)

  const PARENT := "parent"
  const CHILD := "child"

  datatype TargetLink = TargetLink(key: Key, role: string, class_: string)

  /** An undirected link; alpha and beta are in the order of their keys. */
  datatype AbLink = AbLink(alpha: Key, beta: Key, alphaIsParent: bool, class_: string)

  /** groupingKeyLess: group first, then resource, cluster, namespace and name. */
  predicate KeyLess(l: Key, r: Key) {
    if l.group != r.group then StringLess(l.group, r.group)
    else if l.resource != r.resource then StringLess(l.resource, r.resource)
    else if l.cluster != r.cluster then StringLess(l.cluster, r.cluster)
    else if l.namespace != r.namespace then StringLess(l.namespace, r.namespace)
    else if l.name != r.name then StringLess(l.name, r.name)
    else false
  }

  /** Two different keys are in order one way and not the other; no key is before itself. */
  lemma {:induction false} KeyTotal(l: Key, r: Key)
    ensures !(KeyLess(l, r) && KeyLess(r, l))
    ensures KeyLess(l, r) || KeyLess(r, l) <==> l != r
  {
    StringTotal(l.group, r.group);
    StringTotal(l.resource, r.resource);
    StringTotal(l.cluster, r.cluster);
    StringTotal(l.namespace, r.namespace);
    StringTotal(l.name, r.name);
  }

  /** What keys are compared by, the most important first. */
  function Fields(k: Key): seq<string> {
    [k.group, k.resource, k.cluster, k.namespace, k.name]
  }

  /** The keys agree in the first n fields, and l has the smaller string in the next. */
  predicate LessInField(l: Key, r: Key, n: nat) {
    n < 5 && Fields(l)[..n] == Fields(r)[..n] && StringLess(Fields(l)[n], Fields(r)[n])
  }

  /** The first field in which two keys differ decides their order. */
  lemma {:induction false} KeyLessIff(l: Key, r: Key)
    ensures KeyLess(l, r) <==> exists n: nat :: LessInField(l, r, n)
  {
    var a, b := Fields(l), Fields(r);
    if KeyLess(l, r) {
      var n := if a[0] != b[0] then 0 else if a[1] != b[1] then 1 else if a[2] != b[2] then 2 else if a[3] != b[3] then 3 else 4;
      assert LessInField(l, r, n);
    }
    if n: nat :| LessInField(l, r, n) {
      forall k | 0 <= k < n ensures a[k] == b[k] {
        assert a[k] == a[..n][k] && b[k] == b[..n][k];
      }
      StringTotal(a[n], b[n]);
      if n == 0 {
        assert l.group == a[0] && r.group == b[0];
      } else if n == 1 {
        assert a[0] == b[0] && l.resource == a[1];
      } else if n == 2 {
        assert a[0] == b[0] && a[1] == b[1] && l.cluster == a[2];
      } else if n == 3 {
        assert a[0] == b[0] && a[1] == b[1] && a[2] == b[2] && l.namespace == a[3];
      } else {
        assert a[0] == b[0] && a[1] == b[1] && a[2] == b[2] && a[3] == b[3] && l.name == a[4];
      }
    }
  }

  lemma {:induction false} KeyTransitive(a: Key, b: Key, c: Key)
    requires KeyLess(a, b) && KeyLess(b, c)
    ensures KeyLess(a, c)
  {
    StringBetween(a.group, b.group, c.group);
    if a.group == b.group == c.group {
      StringBetween(a.resource, b.resource, c.resource);
      if a.resource == b.resource == c.resource {
        StringBetween(a.cluster, b.cluster, c.cluster);
        if a.cluster == b.cluster == c.cluster {
          StringBetween(a.namespace, b.namespace, c.namespace);
          if a.namespace == b.namespace == c.namespace {
            StringBetween(a.name, b.name, c.name);
          }
        }
      }
    }
  }

  /** abLinkFromTargetLink. */
  function Canonical(subject: Key, link: TargetLink): AbLink {
    if KeyLess(subject, link.key)
    then AbLink(subject, link.key, link.role == CHILD, link.class_)
    else AbLink(link.key, subject, link.role != CHILD, link.class_)
  }

  predicate IsParent(link: AbLink, key: Key) {
    if link.alphaIsParent then link.alpha == key else link.beta == key
  }

  function ReverseRole(role: string): string {
    if role == PARENT then CHILD else if role == CHILD then PARENT else role
  }

  /** The same link seen from the other end. */
  function Reversed(subject: Key, link: TargetLink): TargetLink {
    TargetLink(subject, ReverseRole(link.role), link.class_)
  }

  /**
   A link and its reverse have one canonical form exactly when it joins two objects and has one of the two known roles,
   or joins an object to itself and has neither.
   */
  lemma {:induction false} CanonicalIff(subject: Key, link: TargetLink)
    ensures Canonical(subject, link) == Canonical(link.key, Reversed(subject, link))
            <==> ((subject != link.key) <==> (link.role == PARENT || link.role == CHILD))
  {
    KeyTotal(subject, link.key);
  }

  /** Between two objects the canonical form says who is the parent: the subject when its role names a child, else the target. */
  lemma {:induction false} CanonicalParent(subject: Key, link: TargetLink)
    requires subject != link.key
    ensures IsParent(Canonical(subject, link), subject) <==> link.role == CHILD
    ensures IsParent(Canonical(subject, link), link.key) <==> link.role != CHILD
  {
    KeyTotal(subject, link.key);
  }

  /** The canonical form joins the two objects of the link, the lesser key first, and has the class of the link. */
  lemma {:induction false} CanonicalEnds(subject: Key, link: TargetLink)
    ensures var c := Canonical(subject, link);
            && c.class_ == link.class_ && {c.alpha, c.beta} == {subject, link.key}
            && (subject != link.key ==> KeyLess(c.alpha, c.beta))
  {
    KeyTotal(subject, link.key);
  }
}
