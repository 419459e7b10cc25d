/** Link selectors: which paths of links they admit, step by step and as a whole. */
module Selectors {
  import opened Wrappers
  import opened Links

  /** A link that is about to be followed. */
  datatype Step = Step(parent: Key, child: Key, fromParent: bool, class_: string)

  /** A pattern of a link selector modifier; the object and string filters are given as predicates. */
  datatype LinkPattern = LinkPattern(parent: Key -> bool, child: Key -> bool, includeFromParent: Option<bool>, includeFromChild: Option<bool>, linkClass: Option<string -> bool>)

  datatype Selector =
    | Constant(admit: bool)
    | Intersect(all: seq<Selector>)
    | Union(any: seq<Option<Selector>>)
    | DenySiblings(hasFirst: bool, firstIsFromParent: bool)
    | Pattern(patterns: seq<LinkPattern>)
    | DirectedDistance(upwards: bool, distance: nat)

  function GetOr<T>(o: Option<T>, default: T): T {
    if o.Some? then o.value else default
  }

  predicate Matches(p: LinkPattern, s: Step) {
    && p.parent(s.parent) && p.child(s.child)
    && (s.fromParent ==> GetOr(p.includeFromParent, true))
    && (!s.fromParent ==> GetOr(p.includeFromChild, true))
    && (p.linkClass.Some? ==> p.linkClass.value(s.class_))
  }

  /** Admit, as a function: the selector for the links of the linked object, if the link is followed. */
  function Next(sel: Selector, s: Step): Option<Selector> {
    match sel
    case Constant(b) => if b then Some(sel) else None
    case Intersect(all) =>
      if forall i :: 0 <= i < |all| ==> Next(all[i], s).Some? then
        Some(Intersect(seq(|all|, i requires 0 <= i < |all| && Next(all[i], s).Some? => Next(all[i], s).value)))
      else None
    case Union(any) =>
      if exists i :: 0 <= i < |any| && any[i].Some? && Next(any[i].value, s).Some? then
        Some(Union(seq(|any|, i requires 0 <= i < |any| => if any[i].Some? then Next(any[i].value, s) else None)))
      else None
    case DenySiblings(hasFirst, first) =>
      if !hasFirst then Some(DenySiblings(true, s.fromParent))
      else if first != s.fromParent then None
      else Some(sel)
    case Pattern(patterns) =>
      if forall i :: 0 <= i < |patterns| ==> Matches(patterns[i], s) then Some(sel) else None
    case DirectedDistance(upwards, distance) =>
      if s.fromParent != !upwards then Some(sel)
      else if distance == 0 then None
      else Some(DirectedDistance(upwards, distance - 1))
  }

  /** Admit. */
  method Admit(sel: Selector, s: Step) returns (next: Option<Selector>)
    ensures next == Next(sel, s)
    decreases sel, 1
  {
    match sel {
      case Constant(b) => next := if b then Some(sel) else None;
      case Intersect(all) => next := AdmitAll(all, s);
      case Union(any) => next := AdmitAny(any, s);
      case DenySiblings(hasFirst, first) =>
        if !hasFirst {
          return Some(DenySiblings(true, s.fromParent));
        }
        next := if first != s.fromParent then None else Some(sel);
      case Pattern(patterns) =>
        for i := 0 to |patterns|
          invariant forall j :: 0 <= j < i ==> Matches(patterns[j], s)
        {
          if !Matches(patterns[i], s) {
            return None;
          }
        }
        next := Some(sel);
      case DirectedDistance(upwards, distance) =>
        if s.fromParent != !upwards {
          return Some(sel);
        }
        next := if distance == 0 then None else Some(DirectedDistance(upwards, distance - 1));
    }
  }

  method AdmitAll(all: seq<Selector>, s: Step) returns (next: Option<Selector>)
    ensures next == Next(Intersect(all), s)
    decreases Intersect(all), 0
  {
    var newChildren: seq<Selector> := [];
    for i := 0 to |all|
      invariant |newChildren| == i
      invariant forall j :: 0 <= j < i ==> Next(all[j], s) == Some(newChildren[j])
    {
      var child := Admit(all[i], s);
      if child.None? {
        return None;
      }
      newChildren := newChildren + [child.value];
    }
    next := Some(Intersect(newChildren));
    assert newChildren == Next(Intersect(all), s).value.all;
  }

  method AdmitAny(any: seq<Option<Selector>>, s: Step) returns (next: Option<Selector>)
    ensures next == Next(Union(any), s)
    decreases Union(any), 0
  {
    var newChildren: seq<Option<Selector>> := [];
    var ok := false;
    for i := 0 to |any|
      invariant |newChildren| == i
      invariant ok <==> exists j :: 0 <= j < i && any[j].Some? && Next(any[j].value, s).Some?
      invariant forall j :: 0 <= j < i ==> newChildren[j] == if any[j].Some? then Next(any[j].value, s) else None
    {
      var child := None;
      if any[i].Some? {
        child := Admit(any[i].value, s);
        ok := ok || child.Some?;
      }
      newChildren := newChildren + [child];
    }
    if ok {
      next := Some(Union(newChildren));
      assert newChildren == Next(Union(any), s).value.any;
    } else {
      next := None;
    }
  }

  // ---------- Whole paths ----------

  /** Every link of the path is admitted by the selector that the links before it have left. */
  predicate AdmitsPath(sel: Selector, path: seq<Step>)
    decreases |path|
  {
    path == [] || (Next(sel, path[0]).Some? && AdmitsPath(Next(sel, path[0]).value, path[1..]))
  }

  predicate OneDirection(path: seq<Step>, fromParent: bool) {
    forall i :: 0 <= i < |path| ==> path[i].fromParent == fromParent
  }

  /** The number of links followed upwards, or downwards. */
  function Steps(upwards: bool, path: seq<Step>): nat {
    if path == [] then 0 else (if path[0].fromParent == !upwards then 1 else 0) + Steps(upwards, path[1..])
  }

  /** What a selector means for a whole path. */
  predicate Meaning(sel: Selector, path: seq<Step>) {
    match sel
    case Constant(b) => b || path == []
    case Intersect(all) => forall i :: 0 <= i < |all| ==> Meaning(all[i], path)
    case Union(any) => path == [] || exists i :: 0 <= i < |any| && any[i].Some? && Meaning(any[i].value, path)
    case DenySiblings(hasFirst, first) => path == [] || OneDirection(path, if hasFirst then first else path[0].fromParent)
    case Pattern(patterns) => forall i, j :: 0 <= i < |path| && 0 <= j < |patterns| ==> Matches(patterns[j], path[i])
    case DirectedDistance(upwards, distance) => Steps(upwards, path) <= distance
  }

  lemma {:induction false} IntersectPath(all: seq<Selector>, path: seq<Step>)
    ensures AdmitsPath(Intersect(all), path) <==> forall i :: 0 <= i < |all| ==> AdmitsPath(all[i], path)
    decreases |path|
  {
    if path == [] {
    } else if Next(Intersect(all), path[0]).Some? {
      var next := Next(Intersect(all), path[0]).value.all;
      IntersectPath(next, path[1..]);
      forall i | 0 <= i < |all| ensures AdmitsPath(all[i], path) <==> AdmitsPath(next[i], path[1..]) {
      }
      assert AdmitsPath(Intersect(next), path[1..]) <==> forall i :: 0 <= i < |next| ==> AdmitsPath(next[i], path[1..]);
    } else {
      var i :| 0 <= i < |all| && Next(all[i], path[0]).None?;
      assert !AdmitsPath(all[i], path);
    }
  }

  lemma {:induction false} UnionPath(any: seq<Option<Selector>>, path: seq<Step>)
    requires path != []
    ensures AdmitsPath(Union(any), path) <==> exists i :: 0 <= i < |any| && any[i].Some? && AdmitsPath(any[i].value, path)
    decreases |path|
  {
    if Next(Union(any), path[0]).Some? {
      var next := Next(Union(any), path[0]).value.any;
      if |path| > 1 {
        UnionPath(next, path[1..]);
        forall i | 0 <= i < |any| && any[i].Some? && AdmitsPath(any[i].value, path)
          ensures next[i].Some? && AdmitsPath(next[i].value, path[1..])
        {
        }
      } else {
        var i :| 0 <= i < |any| && any[i].Some? && Next(any[i].value, path[0]).Some?;
        assert AdmitsPath(any[i].value, path);
      }
    }
  }

  lemma {:induction false} SiblingsPath(hasFirst: bool, first: bool, path: seq<Step>)
    ensures AdmitsPath(DenySiblings(hasFirst, first), path) <==> Meaning(DenySiblings(hasFirst, first), path)
    decreases |path|
  {
    if path != [] {
      SiblingsPath(true, path[0].fromParent, path[1..]);
      assert path == [path[0]] + path[1..];
    }
  }

  lemma {:induction false} PatternPath(patterns: seq<LinkPattern>, path: seq<Step>)
    ensures AdmitsPath(Pattern(patterns), path) <==> Meaning(Pattern(patterns), path)
    decreases |path|
  {
    if path != [] {
      PatternPath(patterns, path[1..]);
      assert path == [path[0]] + path[1..];
    }
  }

  lemma {:induction false} DistancePath(upwards: bool, distance: nat, path: seq<Step>)
    ensures AdmitsPath(DirectedDistance(upwards, distance), path) <==> Steps(upwards, path) <= distance
    decreases |path|
  {
    if path != [] {
      DistancePath(upwards, distance, path[1..]);
      if distance > 0 {
        DistancePath(upwards, distance - 1, path[1..]);
      }
    }
  }

  lemma {:induction false} ConstantPath(b: bool, path: seq<Step>)
    ensures AdmitsPath(Constant(b), path) <==> b || path == []
    decreases |path|
  {
    if path != [] {
      ConstantPath(b, path[1..]);
    }
  }

  /** Admitting link by link is admitting the whole path. */
  lemma {:induction false} AdmitsIffMeaning(sel: Selector, path: seq<Step>)
    ensures AdmitsPath(sel, path) <==> Meaning(sel, path)
    decreases sel
  {
    match sel
    case Constant(b) => ConstantPath(b, path);
    case Intersect(all) =>
      IntersectPath(all, path);
      forall i | 0 <= i < |all| ensures AdmitsPath(all[i], path) <==> Meaning(all[i], path) {
        AdmitsIffMeaning(all[i], path);
      }
    case Union(any) =>
      if path != [] {
        UnionPath(any, path);
        forall i | 0 <= i < |any| && any[i].Some? ensures AdmitsPath(any[i].value, path) <==> Meaning(any[i].value, path) {
          AdmitsIffMeaning(any[i].value, path);
        }
      }
    case DenySiblings(hasFirst, first) => SiblingsPath(hasFirst, first, path);
    case Pattern(patterns) => PatternPath(patterns, path);
    case DirectedDistance(upwards, distance) => DistancePath(upwards, distance, path);
  }

  // ---------- The link selector modifier ----------

  datatype Modifier = Modifier(includeSiblings: bool, patternFilters: seq<LinkPattern>, upwardDistance: Option<nat>, downwardDistance: Option<nat>)

  /** The selector that a modifier stands for. */
  function ModifierSelector(m: Modifier): Selector {
    Intersect(
      [Pattern(m.patternFilters)]
      + (if m.includeSiblings then [] else [DenySiblings(false, false)])
      + (if m.upwardDistance.Some? then [DirectedDistance(true, m.upwardDistance.value)] else [])
      + (if m.downwardDistance.Some? then [DirectedDistance(false, m.downwardDistance.value)] else []))
  }

  /** LinkSelectorModifier.Modify: the new selector of a configuration whose selector was `base`. */
  function Modify(m: Modifier, base: Option<Selector>): Selector {
    Union([base, Some(ModifierSelector(m))])
  }

  /** The links a modifier allows by itself. */
  predicate Allowed(m: Modifier, path: seq<Step>) {
    && (forall i, j :: 0 <= i < |path| && 0 <= j < |m.patternFilters| ==> Accepts(m.patternFilters[j], path[i]))
    && (m.includeSiblings || forall i, j :: 0 <= i < |path| && 0 <= j < |path| ==> path[i].fromParent == path[j].fromParent)
    && (m.upwardDistance.Some? ==> |StepsUp(path)| <= m.upwardDistance.value)
    && (m.downwardDistance.Some? ==> |StepsDown(path)| <= m.downwardDistance.value)
  }

  /** The link has both ends and the class that the pattern asks for, and its direction is not excluded; what the pattern leaves open is accepted. */
  predicate Accepts(p: LinkPattern, s: Step) {
    p.parent(s.parent) && p.child(s.child) && (p.linkClass == None || p.linkClass.value(s.class_))
    && (if s.fromParent then p.includeFromParent != Some(false) else p.includeFromChild != Some(false))
  }

  /** The links of the path that are followed from the child to the parent. */
  function StepsUp(path: seq<Step>): set<nat> {
    set i: nat | i < |path| && !path[i].fromParent
  }

  /** The links of the path that are followed from the parent to the child. */
  function StepsDown(path: seq<Step>): set<nat> {
    set i: nat | i < |path| && path[i].fromParent
  }

  /** A single pattern admits exactly the links it accepts. */
  lemma {:induction false} PatternAdmitsIff(p: LinkPattern, s: Step)
    ensures AdmitsPath(Pattern([p]), [s]) <==> Accepts(p, s)
  {
    assert Next(Pattern([p]), s).Some? <==> Matches([p][0], s);
    assert [s][1..] == [];
  }

  lemma {:induction false} StepsAppend(upwards: bool, path: seq<Step>, s: Step)
    ensures Steps(upwards, path + [s]) == Steps(upwards, path) + if s.fromParent == !upwards then 1 else 0
  {
    if path == [] {
      assert path + [s] == [s] && [s][1..] == [];
    } else {
      assert (path + [s])[1..] == path[1..] + [s];
      StepsAppend(upwards, path[1..], s);
    }
  }

  lemma {:induction false} StepsCounted(upwards: bool, path: seq<Step>)
    ensures Steps(upwards, path) == |if upwards then StepsUp(path) else StepsDown(path)|
  {
    if path == [] {
      assert StepsUp(path) == {} && StepsDown(path) == {};
    } else {
      var n := |path| - 1;
      StepsCounted(upwards, path[..n]);
      StepsAppend(upwards, path[..n], path[n]);
      assert path == path[..n] + [path[n]];
      LastCounted(path);
    }
  }

  lemma {:induction false} LastCounted(path: seq<Step>)
    requires path != []
    ensures var n := |path| - 1;
            && StepsUp(path) == StepsUp(path[..n]) + (if path[n].fromParent then {} else {n}) && n !in StepsUp(path[..n])
            && StepsDown(path) == StepsDown(path[..n]) + (if path[n].fromParent then {n} else {}) && n !in StepsDown(path[..n])
  {
  }

  /** A selector of a distance admits a path exactly when at most so many of its links go in its direction. */
  lemma {:induction false} DistanceAdmitsIff(upwards: bool, distance: nat, path: seq<Step>)
    ensures AdmitsPath(DirectedDistance(upwards, distance), path) <==> |if upwards then StepsUp(path) else StepsDown(path)| <= distance
  {
    DistancePath(upwards, distance, path);
    StepsCounted(upwards, path);
  }

  lemma {:induction false} IntersectAppend(all: seq<Selector>, more: seq<Selector>, path: seq<Step>)
    ensures Meaning(Intersect(all + more), path) <==> Meaning(Intersect(all), path) && Meaning(Intersect(more), path)
  {
    var both := all + more;
    assert forall i :: 0 <= i < |all| ==> both[i] == all[i];
    assert forall i :: 0 <= i < |more| ==> both[|all| + i] == more[i];
    if Meaning(Intersect(both), path) {
      forall i | 0 <= i < |more| ensures Meaning(more[i], path) {
        assert Meaning(both[|all| + i], path);
      }
    }
  }

  lemma {:induction false} IntersectOne(sel: Selector, path: seq<Step>)
    ensures Meaning(Intersect([sel]), path) <==> Meaning(sel, path)
  {
    assert [sel][0] == sel;
  }

  /** The selector of a distance, if there is one. */
  lemma {:induction false} DistanceMeaning(up: bool, distance: Option<nat>, path: seq<Step>)
    ensures Meaning(Intersect(if distance.Some? then [DirectedDistance(up, distance.value)] else []), path)
            <==> distance.Some? ==> |if up then StepsUp(path) else StepsDown(path)| <= distance.value
  {
    StepsCounted(up, path);
    if distance.Some? {
      IntersectOne(DirectedDistance(up, distance.value), path);
    }
  }

  lemma {:induction false} ModifierMeaning(m: Modifier, path: seq<Step>)
    requires path != []
    ensures Meaning(ModifierSelector(m), path) <==> Allowed(m, path)
  {
    var pattern := [Pattern(m.patternFilters)];
    var siblings := if m.includeSiblings then [] else [DenySiblings(false, false)];
    var up := if m.upwardDistance.Some? then [DirectedDistance(true, m.upwardDistance.value)] else [];
    var down := if m.downwardDistance.Some? then [DirectedDistance(false, m.downwardDistance.value)] else [];
    IntersectAppend(pattern + siblings + up, down, path);
    IntersectAppend(pattern + siblings, up, path);
    IntersectAppend(pattern, siblings, path);
    IntersectOne(Pattern(m.patternFilters), path);
    IntersectOne(DenySiblings(false, false), path);
    assert forall p, s :: Matches(p, s) <==> Accepts(p, s);
    DistanceMeaning(true, m.upwardDistance, path);
    DistanceMeaning(false, m.downwardDistance, path);
  }

  /** A modified configuration follows a path exactly when the original one does or the modifier allows it. */
  lemma {:induction false} ModifyAdmitsIff(m: Modifier, base: Option<Selector>, path: seq<Step>)
    requires path != []
    ensures AdmitsPath(Modify(m, base), path) <==> (base.Some? && AdmitsPath(base.value, path)) || Allowed(m, path)
  {
    hide Meaning, AdmitsPath, Allowed, ModifierSelector;
    var both := [base, Some(ModifierSelector(m))];
    UnionPath(both, path);
    AdmitsIffMeaning(ModifierSelector(m), path);
    ModifierMeaning(m, path);
    assert both[0] == base && both[1].Some?;
  }
}
