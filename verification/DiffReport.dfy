/** What the differ reports, path by path: which paths, with which values, how often, and in which order. */
module DiffReports {
  import opened MapOrder
  import opened GoStrings
  import opened Diffs

  /**
   The values at the end of the path differ, and are not both objects or both arrays; up to there both sides are objects, or both
   arrays. A key that only one side has ends the path, and is reported with null for the other side.
   */
  ghost predicate Reported(a: Json, b: Json, path: seq<Elem>, old_: Json, new_: Json)
    decreases |path|
  {
    if path == [] then
      a != b && !(a.Obj? && b.Obj?) && !(a.Arr? && b.Arr?) && old_ == a && new_ == b
    else
      match path[0]
      case Field(k) =>
        a.Obj? && b.Obj? &&
        if k in a.fields && k in b.fields then Reported(a.fields[k], b.fields[k], path[1..], old_, new_)
        else if k in a.fields then path == [Field(k)] && old_ == a.fields[k] && new_ == Null
        else k in b.fields && path == [Field(k)] && old_ == Null && new_ == b.fields[k]
      case Index(i) =>
        a.Arr? && b.Arr? && (i < |a.items| || i < |b.items|) &&
        Reported(if i < |a.items| then a.items[i] else Null, if i < |b.items| then b.items[i] else Null, path[1..], old_, new_)
  }

  /** The path ends at a key that only b has. */
  ghost predicate AddsKey(a: Json, b: Json, path: seq<Elem>)
    decreases |path|
  {
    path != [] &&
    match path[0]
    case Field(k) =>
      a.Obj? && b.Obj? &&
      if k in a.fields && k in b.fields then AddsKey(a.fields[k], b.fields[k], path[1..]) else k !in a.fields && k in b.fields && path == [Field(k)]
    case Index(i) =>
      a.Arr? && b.Arr? && AddsKey(if i < |a.items| then a.items[i] else Null, if i < |b.items| then b.items[i] else Null, path[1..])
  }

  /** How often a difference is to be reported: added keys are reported twice. */
  ghost function Times(a: Json, b: Json, d: Diff): nat {
    if !Reported(a, b, d.path, d.old_, d.new_) then 0 else if AddsKey(a, b, d.path) then 2 else 1
  }

  function Count(ds: seq<Diff>, d: Diff): nat {
    multiset(ds)[d]
  }

  lemma {:induction false} CountIs(ds: seq<Diff>, d: Diff)
    ensures Count(ds, d) == multiset(ds)[d]
  {
  }

  lemma {:induction false} CountConcat(x: seq<Diff>, y: seq<Diff>, d: Diff)
    ensures Count(x + y, d) == Count(x, d) + Count(y, d)
  {
  }

  lemma {:induction false} CountFirst(e: Elem, x: Diff, d: Diff)
    ensures Count([x.(path := [e] + x.path)], d) == if d.path != [] && d.path[0] == e then Count([x], d.(path := d.path[1..])) else 0
  {
    var first := x.(path := [e] + x.path);
    assert first.path[1..] == x.path;
    if d.path != [] && d.path[0] == e {
      assert d.path == [e] + d.path[1..];
      assert first == d <==> x == d.(path := d.path[1..]);
    }
  }

  lemma {:induction false} CountUnder(e: Elem, ds: seq<Diff>, d: Diff)
    ensures Count(Under(e, ds), d) == if d.path != [] && d.path[0] == e then Count(ds, d.(path := d.path[1..])) else 0
  {
    if ds != [] {
      CountUnder(e, ds[1..], d);
      CountFirst(e, ds[0], d);
      hide Count;
      assert ds == [ds[0]] + ds[1..];
      assert Under(e, ds) == [ds[0].(path := [e] + ds[0].path)] + Under(e, ds[1..]);
      CountConcat([ds[0].(path := [e] + ds[0].path)], Under(e, ds[1..]), d);
      if d.path != [] && d.path[0] == e {
        CountConcat([ds[0]], ds[1..], d.(path := d.path[1..]));
      }
    }
  }

  /** The part of a path in one key. */
  ghost function KeyTimes(a: Json, b: Json, k: string, d: Diff): nat
    requires a.Obj? && b.Obj?
  {
    if d.path != [] && d.path[0] == Field(k) then Times(a, b, d) else 0
  }

  lemma {:induction false} CountKey(a: Json, b: Json, k: string, d: Diff)
    requires a.Obj? && b.Obj? && (k in a.fields || k in b.fields)
    ensures Count(KeyDiffs(a, b, k), d) == KeyTimes(a, b, k, d)
    decreases Level(a), a, 0, 0
  {
    if k in a.fields && k in b.fields {
      hide Reported, AddsKey;
      CountUnder(Field(k), DiffsOf(a.fields[k], b.fields[k]), d);
      if d.path != [] && d.path[0] == Field(k) {
        ReportedTimes(a.fields[k], b.fields[k], d.(path := d.path[1..]));
        TimesBelow(a, b, k, d);
      }
    } else {
      CountOneSided(a, b, k, d);
    }
  }

  lemma {:induction false} TimesBelow(a: Json, b: Json, k: string, d: Diff)
    requires a.Obj? && b.Obj? && k in a.fields && k in b.fields && d.path != [] && d.path[0] == Field(k)
    ensures Times(a, b, d) == Times(a.fields[k], b.fields[k], d.(path := d.path[1..]))
  {
  }

  lemma {:induction false} CountOneSided(a: Json, b: Json, k: string, d: Diff)
    requires a.Obj? && b.Obj? && (k in a.fields <==> k !in b.fields)
    ensures Count(KeyDiffs(a, b, k), d) == KeyTimes(a, b, k, d)
  {
    if k in a.fields {
      assert KeyDiffs(a, b, k) == [Diff([Field(k)], a.fields[k], Null)];
    } else {
      var added := Diff([Field(k)], Null, b.fields[k]);
      assert KeyDiffs(a, b, k) == [added] + [added];
      CountConcat([added], [added], d);
    }
  }

  lemma {:induction false} CountMap(a: Json, b: Json, keys: seq<string>, n: nat, d: Diff)
    requires a.Obj? && b.Obj? && NoDup(keys) && n <= |keys| && forall i :: 0 <= i < |keys| ==> keys[i] in a.fields || keys[i] in b.fields
    ensures Count(MapDiffs(a, b, keys[..n]), d) == if d.path != [] && d.path[0].Field? && d.path[0].key in keys[..n] then Times(a, b, d) else 0
    decreases Level(a), a, 0, n + 1
  {
    hide Times, KeyDiffs;
    if n > 0 {
      CountMap(a, b, keys, n - 1, d);
      assert keys[..n][..n - 1] == keys[..n - 1];
      CountConcat(MapDiffs(a, b, keys[..n - 1]), KeyDiffs(a, b, keys[n - 1]), d);
      CountKey(a, b, keys[n - 1], d);
      TakeNext(keys, n - 1);
      assert keys[n - 1] !in keys[..n - 1];
    }
  }

  lemma {:induction false} CountSlice(a: Json, b: Json, n: nat, d: Diff)
    requires a.Arr? && b.Arr? && (n <= |a.items| || n <= |b.items|)
    ensures Count(SliceDiffs(a, b, n), d) == if d.path != [] && d.path[0].Index? && d.path[0].i < n then Times(a, b, d) else 0
    decreases Level(a), a, 0, n
  {
    hide Times, Reported, AddsKey, DiffsOf, SliceDiffs, Under, Count;
    SliceStep(a, b, n, d);
    if n > 0 {
      CountSlice(a, b, n - 1, d);
      var ds := DiffsOf(At(a.items, n - 1), At(b.items, n - 1));
      CountConcat(SliceDiffs(a, b, n - 1), Under(Index(n - 1), ds), d);
      CountUnder(Index(n - 1), ds, d);
      if d.path != [] && d.path[0] == Index(n - 1) {
        ReportedTimes(At(a.items, n - 1), At(b.items, n - 1), d.(path := d.path[1..]));
        CountIs(ds, d.(path := d.path[1..]));
        TimesAt(a, b, n - 1, d);
      }
    }
  }

  lemma {:induction false} SliceStep(a: Json, b: Json, n: nat, d: Diff)
    requires a.Arr? && b.Arr?
    ensures n == 0 ==> Count(SliceDiffs(a, b, n), d) == 0
    ensures n > 0 ==> SliceDiffs(a, b, n) == SliceDiffs(a, b, n - 1) + Under(Index(n - 1), DiffsOf(At(a.items, n - 1), At(b.items, n - 1)))
  {
  }

  lemma {:induction false} TimesAt(a: Json, b: Json, i: nat, d: Diff)
    requires a.Arr? && b.Arr? && (i < |a.items| || i < |b.items|) && d.path != [] && d.path[0] == Index(i)
    ensures Times(a, b, d) == Times(At(a.items, i), At(b.items, i), d.(path := d.path[1..]))
  {
  }

  /** A difference is in the report exactly as often as the two values give reason for: once, and twice for an added key. */
  lemma {:induction false} ReportedTimes(a: Json, b: Json, d: Diff)
    ensures multiset(DiffsOf(a, b))[d] == Times(a, b, d)
    decreases Level(a), a, 1, 1
  {
    if ComparePrimitive(a, b).0 || !((a.Obj? && b.Obj?) || (a.Arr? && b.Arr?)) {
      PrimitiveTimes(a, b, d);
    } else if a.Obj? {
      ObjectTimes(a, b, d);
    } else {
      SliceTimes(a, b, d);
    }
  }

  lemma {:induction false} PrimitiveTimes(a: Json, b: Json, d: Diff)
    requires ComparePrimitive(a, b).0 || !((a.Obj? && b.Obj?) || (a.Arr? && b.Arr?))
    ensures Count(DiffsOf(a, b), d) == Times(a, b, d)
  {
    assert DiffsOf(a, b) == if a == b then [] else [Diff([], a, b)];
  }

  lemma {:induction false} ObjectTimes(a: Json, b: Json, d: Diff)
    requires a.Obj? && b.Obj?
    ensures Count(DiffsOf(a, b), d) == Times(a, b, d)
    decreases Level(a), a, 1, 0
  {
    hide Count, Times, DiffsOf, MapDiffs;
    var keys := InOrder(a.fields.Keys + b.fields.Keys);
    KeysCovered(keys, a.fields.Keys + b.fields.Keys);
    SortedNoDup(keys, a.fields.Keys + b.fields.Keys);
    CountMap(a, b, keys, |keys|, d);
    assert keys[..|keys|] == keys;
    DiffsOfObjects(a, b);
    NoneElsewhere(a, b, d);
    assert forall k :: k in keys <==> k in a.fields || k in b.fields;
  }

  lemma {:induction false} SliceTimes(a: Json, b: Json, d: Diff)
    requires a.Arr? && b.Arr?
    ensures Count(DiffsOf(a, b), d) == Times(a, b, d)
    decreases Level(a), a, 1, 0
  {
    hide Count, Times, DiffsOf, SliceDiffs;
    var n := if |a.items| > |b.items| then |a.items| else |b.items|;
    CountSlice(a, b, n, d);
    DiffsOfSlices(a, b);
    NoneElsewhere(a, b, d);
  }

  lemma {:induction false} DiffsOfSlices(a: Json, b: Json)
    requires a.Arr? && b.Arr?
    ensures DiffsOf(a, b) == SliceDiffs(a, b, if |a.items| > |b.items| then |a.items| else |b.items|)
  {
    hide SliceDiffs;
  }

  /** Nothing is to be reported but at a key or an index of one of the two values. */
  lemma {:induction false} NoneElsewhere(a: Json, b: Json, d: Diff)
    ensures a.Arr? && b.Arr? && !(d.path != [] && d.path[0].Index? && (d.path[0].i < |a.items| || d.path[0].i < |b.items|)) ==> Times(a, b, d) == 0
    ensures a.Obj? && b.Obj? && !(d.path != [] && d.path[0].Field? && (d.path[0].key in a.fields || d.path[0].key in b.fields)) ==> Times(a, b, d) == 0
  {
    hide AddsKey;
  }

  // ---------- The order of the report ----------

  /** Keys in their string order, indexes in theirs; two elements of one path of which one is a key and one an index never meet. */
  predicate ElemLess(x: Elem, y: Elem) {
    match (x, y)
    case (Field(k), Field(l)) => StringLess(k, l)
    case (Index(i), Index(j)) => i < j
    case _ => false
  }

  /** The paths part at some element, where p has the smaller one. */
  predicate Before(p: seq<Elem>, q: seq<Elem>) {
    p != [] && q != [] && (ElemLess(p[0], q[0]) || (p[0] == q[0] && Before(p[1..], q[1..])))
  }

  ghost predicate Ordered(ds: seq<Diff>) {
    forall i, j :: 0 <= i < j < |ds| ==> ds[i] == ds[j] || Before(ds[i].path, ds[j].path)
  }

  ghost predicate AllFrom(ds: seq<Diff>, e: Elem) {
    forall i :: 0 <= i < |ds| ==> ds[i].path != [] && ds[i].path[0] == e
  }

  /** All of x begin with something smaller than e. */
  ghost predicate AllBefore(x: seq<Diff>, e: Elem) {
    forall i :: 0 <= i < |x| ==> x[i].path != [] && ElemLess(x[i].path[0], e)
  }

  lemma {:induction false} UnderAt(e: Elem, ds: seq<Diff>)
    ensures |Under(e, ds)| == |ds| && forall i :: 0 <= i < |ds| ==> Under(e, ds)[i] == ds[i].(path := [e] + ds[i].path)
  {
    if ds != [] {
      UnderAt(e, ds[1..]);
    }
  }

  lemma {:induction false} UnderOrdered(e: Elem, ds: seq<Diff>)
    requires Ordered(ds)
    ensures Ordered(Under(e, ds)) && AllFrom(Under(e, ds), e)
  {
    UnderAt(e, ds);
    var under := Under(e, ds);
    forall i, j | 0 <= i < j < |under| ensures under[i] == under[j] || Before(under[i].path, under[j].path) {
      if ds[i] != ds[j] {
        assert under[i].path[1..] == ds[i].path && under[j].path[1..] == ds[j].path;
      }
    }
  }

  lemma {:induction false} AppendOrdered(x: seq<Diff>, y: seq<Diff>, e: Elem)
    requires Ordered(x) && Ordered(y) && AllBefore(x, e) && AllFrom(y, e)
    ensures Ordered(x + y)
  {
    forall i, j | 0 <= i < j < |x + y| ensures (x + y)[i] == (x + y)[j] || Before((x + y)[i].path, (x + y)[j].path) {
      if i < |x| <= j {
        assert ElemLess(x[i].path[0], y[j - |x|].path[0]);
      }
    }
  }

  lemma {:induction false} KeyOrdered(a: Json, b: Json, k: string)
    requires a.Obj? && b.Obj?
    ensures Ordered(KeyDiffs(a, b, k)) && AllFrom(KeyDiffs(a, b, k), Field(k))
    decreases Level(a), a, 0, 0
  {
    if k in a.fields && k in b.fields {
      ReportOrdered(a.fields[k], b.fields[k]);
      UnderOrdered(Field(k), DiffsOf(a.fields[k], b.fields[k]));
    }
  }

  lemma {:induction false} MapOrdered(a: Json, b: Json, keys: seq<string>, n: nat)
    requires a.Obj? && b.Obj? && n <= |keys| && forall i, j :: 0 <= i < j < |keys| ==> StringLess(keys[i], keys[j])
    ensures Ordered(MapDiffs(a, b, keys[..n])) && forall m :: n <= m < |keys| ==> AllBefore(MapDiffs(a, b, keys[..n]), Field(keys[m]))
    decreases Level(a), a, 0, n + 1
  {
    hide KeyDiffs, Ordered;
    if n > 0 {
      MapOrdered(a, b, keys, n - 1);
      assert keys[..n][..n - 1] == keys[..n - 1];
      var x, y := MapDiffs(a, b, keys[..n - 1]), KeyDiffs(a, b, keys[n - 1]);
      KeyOrdered(a, b, keys[n - 1]);
      AppendOrdered(x, y, Field(keys[n - 1]));
      forall m | n <= m < |keys| ensures AllBefore(x + y, Field(keys[m])) {
        assert AllBefore(x, Field(keys[m]));
      }
    } else {
      NoneOrdered();
    }
  }

  lemma {:induction false} NoneOrdered()
    ensures Ordered([])
  {
  }

  lemma {:induction false} SliceOrdered(a: Json, b: Json, n: nat)
    requires a.Arr? && b.Arr?
    ensures Ordered(SliceDiffs(a, b, n)) && forall m :: n <= m ==> AllBefore(SliceDiffs(a, b, n), Index(m))
    decreases Level(a), a, 0, n
  {
    hide Ordered;
    if n > 0 {
      SliceOrdered(a, b, n - 1);
      var x, ds := SliceDiffs(a, b, n - 1), DiffsOf(At(a.items, n - 1), At(b.items, n - 1));
      ReportOrdered(At(a.items, n - 1), At(b.items, n - 1));
      UnderOrdered(Index(n - 1), ds);
      AppendOrdered(x, Under(Index(n - 1), ds), Index(n - 1));
      forall m | n <= m ensures AllBefore(x + Under(Index(n - 1), ds), Index(m)) {
        assert AllBefore(x, Index(m));
      }
    } else {
      NoneOrdered();
    }
  }

  /** The report goes through keys in string order and through indexes upwards; only the two reports of an added key are the same. */
  lemma {:induction false} ReportOrdered(a: Json, b: Json)
    ensures Ordered(DiffsOf(a, b))
    decreases Level(a), a, 1, 0
  {
    if !ComparePrimitive(a, b).0 && a.Obj? && b.Obj? {
      var keys := InOrder(a.fields.Keys + b.fields.Keys);
      MapOrdered(a, b, keys, |keys|);
      assert keys[..|keys|] == keys;
      DiffsOfObjects(a, b);
    } else if !ComparePrimitive(a, b).0 && a.Arr? && b.Arr? {
      SliceOrdered(a, b, if |a.items| > |b.items| then |a.items| else |b.items|);
    }
  }
}
