/** The structural object differ. */
module Diffs {
  import opened MapOrder
  import opened GoStrings

  /** A JSON-typed value; a number is an int64 or a float64 that is not NaN. */
  datatype Json =
    | Null
    | Str(s: string)
    | Bool(b: bool)
    | Int(n: int)
    | Float(x: real)
    | Arr(items: seq<Json>)
    | Obj(fields: map<string, Json>)

  datatype Elem = Field(key: string) | Index(i: nat)

  /** A difference; the path is kept as the list of its elements. */
  datatype Diff = Diff(path: seq<Elem>, old_: Json, new_: Json)

  /** compareMaybePrimitive: conclusive, and then equal. */
  function ComparePrimitive(a: Json, b: Json): (bool, bool) {
    match (a, b)
    case (Null, _) => (true, b.Null?)
    case (_, Null) => (true, false)
    case (Str(x), Str(y)) => (true, x == y)
    case (Bool(x), Bool(y)) => (true, x == y)
    case (Int(x), Int(y)) => (true, x == y)
    case (Float(x), Float(y)) => (true, x == y)
    case _ => (false, false)
  }

  function Under(e: Elem, ds: seq<Diff>): seq<Diff> {
    if ds == [] then [] else [ds[0].(path := [e] + ds[0].path)] + Under(e, ds[1..])
  }

  function At(items: seq<Json>, i: nat): Json {
    if i < |items| then items[i] else Null
  }

  /** Termination: a missing element counts as null, which is below everything else. */
  function Level(j: Json): nat {
    if j.Null? then 0 else 1
  }

  // ---------- The differ as a function ----------

  /** keys lists a set of strings in their order. */
  ghost predicate SortedKeys(keys: seq<string>, s: set<string>) {
    Elems(keys) == s && forall i, j :: 0 <= i < j < |keys| ==> StringLess(keys[i], keys[j])
  }

  lemma {:induction false} SortedUnique(a: seq<string>, b: seq<string>, s: set<string>)
    requires SortedKeys(a, s) && SortedKeys(b, s)
    ensures a == b
  {
    assert (a != [] ==> a[0] in Elems(a)) && (b != [] ==> b[0] in Elems(b));
    if a != [] {
      FirstIsLeast(a, b, s);
      FirstIsLeast(b, a, s);
      StringTotal(a[0], b[0]);
      SortedTail(a, s);
      SortedTail(b, s);
      SortedUnique(a[1..], b[1..], s - {a[0]});
      assert a == [a[0]] + a[1..] && b == [b[0]] + b[1..];
    }
  }

  lemma {:induction false} FirstIsLeast(a: seq<string>, b: seq<string>, s: set<string>)
    requires SortedKeys(a, s) && SortedKeys(b, s) && a != [] && b != []
    ensures a[0] == b[0] || StringLess(a[0], b[0])
  {
    assert b[0] in Elems(b) && b[0] in Elems(a);
    var i :| 0 <= i < |a| && a[i] == b[0];
  }

  lemma {:induction false} SortedTail(a: seq<string>, s: set<string>)
    requires SortedKeys(a, s) && a != []
    ensures SortedKeys(a[1..], s - {a[0]})
  {
    var rest := a[1..];
    forall k | k in Elems(rest) ensures k in s && k != a[0] {
      var i :| 0 <= i < |rest| && rest[i] == k;
      assert a[i + 1] in Elems(a);
      StringTotal(a[0], a[i + 1]);
    }
    forall k | k in s && k != a[0] ensures k in Elems(rest) {
      assert k in Elems(a);
      var i :| 0 <= i < |a| && a[i] == k;
      assert rest[i - 1] == k;
    }
  }

  /** Puts a key into a sorted list. */
  function Insert(k: string, keys: seq<string>): seq<string> {
    if keys == [] then [k]
    else if StringLess(k, keys[0]) then [k] + keys
    else [keys[0]] + Insert(k, keys[1..])
  }

  lemma {:induction false} InsertSorted(k: string, keys: seq<string>, s: set<string>)
    requires SortedKeys(keys, s) && k !in s
    ensures SortedKeys(Insert(k, keys), s + {k})
  {
    if keys == [] {
      assert Elems([k]) == {k};
    } else if StringLess(k, keys[0]) {
      forall j | 0 <= j < |keys| ensures StringLess(k, keys[j]) {
        if j > 0 {
          StringTransitive(k, keys[0], keys[j]);
        }
      }
      assert Elems([k] + keys) == Elems(keys) + {k};
    } else {
      assert keys[0] in Elems(keys);
      StringTotal(k, keys[0]);
      SortedTail(keys, s);
      InsertSorted(k, keys[1..], s - {keys[0]});
      var rest := Insert(k, keys[1..]);
      forall j | 0 <= j < |rest| ensures StringLess(keys[0], rest[j]) {
        assert rest[j] in Elems(rest);
        if rest[j] != k {
          assert rest[j] in Elems(keys[1..]);
        }
      }
      assert Elems([keys[0]] + rest) == {keys[0]} + Elems(rest);
    }
  }

  /** The keys of a set in order. */
  ghost function InOrder(s: set<string>): (keys: seq<string>)
    ensures SortedKeys(keys, s)
    decreases s
  {
    if s == {} then [] else
      var k := Any(s);
      var rest := InOrder(s - {k});
      InsertSorted(k, rest, s - {k});
      assert s == s - {k} + {k};
      Insert(k, rest)
  }

  ghost function DiffsOf(a: Json, b: Json): seq<Diff>
    decreases Level(a), a, 1, 0
  {
    if ComparePrimitive(a, b).0 then
      if ComparePrimitive(a, b).1 then [] else [Diff([], a, b)]
    else if a.Obj? && b.Obj? then MapDiffs(a, b, InOrder(a.fields.Keys + b.fields.Keys))
    else if a.Arr? && b.Arr? then SliceDiffs(a, b, if |a.items| > |b.items| then |a.items| else |b.items|)
    else [Diff([], a, b)]
  }

  ghost function KeyDiffs(a: Json, b: Json, k: string): seq<Diff>
    requires a.Obj? && b.Obj?
    decreases Level(a), a, 0, 0
  {
    if k in a.fields && k !in b.fields then [Diff([Field(k)], a.fields[k], Null)]
    else if k in b.fields && k !in a.fields then [Diff([Field(k)], Null, b.fields[k]), Diff([Field(k)], Null, b.fields[k])]
    else if k in a.fields then Under(Field(k), DiffsOf(a.fields[k], b.fields[k]))
    else []
  }

  ghost function MapDiffs(a: Json, b: Json, keys: seq<string>): seq<Diff>
    requires a.Obj? && b.Obj?
    decreases Level(a), a, 0, |keys| + 1
  {
    if keys == [] then [] else MapDiffs(a, b, keys[..|keys| - 1]) + KeyDiffs(a, b, keys[|keys| - 1])
  }

  ghost function SliceDiffs(a: Json, b: Json, n: nat): seq<Diff>
    requires a.Arr? && b.Arr?
    decreases Level(a), a, 0, n
  {
    if n == 0 then [] else SliceDiffs(a, b, n - 1) + Under(Index(n - 1), DiffsOf(At(a.items, n - 1), At(b.items, n - 1)))
  }

  // ---------- Nothing to report ----------

  /** a and b are the same but for nulls at the end of slices. */
  ghost predicate Same(a: Json, b: Json)
    decreases Level(a), a, 1
  {
    if ComparePrimitive(a, b).0 then ComparePrimitive(a, b).1
    else if a.Obj? && b.Obj? then a.fields.Keys == b.fields.Keys && forall k :: k in a.fields ==> Same(a.fields[k], b.fields[k])
    else if a.Arr? && b.Arr? then forall i: nat :: i < |a.items| || i < |b.items| ==> SameAt(a, b, i)
    else false
  }

  ghost predicate SameAt(a: Json, b: Json, i: nat)
    requires a.Arr? && b.Arr?
    decreases Level(a), a, 0
  {
    Same(At(a.items, i), At(b.items, i))
  }

  lemma {:induction false} UnderEmpty(e: Elem, ds: seq<Diff>)
    ensures Under(e, ds) == [] <==> ds == []
  {
  }

  lemma {:induction false} MapDiffsEmpty(a: Json, b: Json, keys: seq<string>)
    requires a.Obj? && b.Obj?
    ensures MapDiffs(a, b, keys) == [] <==> forall i :: 0 <= i < |keys| ==> KeyDiffs(a, b, keys[i]) == []
  {
    if keys != [] {
      MapDiffsEmpty(a, b, keys[..|keys| - 1]);
    }
  }

  ghost predicate NothingAt(a: Json, b: Json, i: nat)
    requires a.Arr? && b.Arr?
  {
    DiffsOf(At(a.items, i), At(b.items, i)) == []
  }

  lemma {:induction false} SliceDiffsEmpty(a: Json, b: Json, n: nat)
    requires a.Arr? && b.Arr?
    ensures SliceDiffs(a, b, n) == [] <==> forall i: nat :: i < n ==> NothingAt(a, b, i)
  {
    if n > 0 {
      hide DiffsOf, At;
      SliceDiffsEmpty(a, b, n - 1);
      UnderEmpty(Index(n - 1), DiffsOf(At(a.items, n - 1), At(b.items, n - 1)));
      assert NothingAt(a, b, n - 1) <==> DiffsOf(At(a.items, n - 1), At(b.items, n - 1)) == [];
    }
  }

  lemma {:induction false} EmptyIffSame(a: Json, b: Json)
    ensures DiffsOf(a, b) == [] <==> Same(a, b)
    decreases Level(a), a, 1
  {
    if ComparePrimitive(a, b).0 {
    } else if a.Obj? && b.Obj? {
      MapEmptyIffSame(a, b);
    } else if a.Arr? && b.Arr? {
      SliceEmptyIffSame(a, b);
    }
  }

  lemma {:induction false} MapEmptyIffSame(a: Json, b: Json)
    requires a.Obj? && b.Obj?
    ensures DiffsOf(a, b) == [] <==> Same(a, b)
    decreases Level(a), a, 0
  {
    var keys := InOrder(a.fields.Keys + b.fields.Keys);
    MapDiffsEmpty(a, b, keys);
    forall k | k in a.fields && k in b.fields ensures KeyDiffs(a, b, k) == [] <==> Same(a.fields[k], b.fields[k]) {
      EmptyIffSame(a.fields[k], b.fields[k]);
      UnderEmpty(Field(k), DiffsOf(a.fields[k], b.fields[k]));
    }
    KeysCovered(keys, a.fields.Keys + b.fields.Keys);
  }

  lemma {:induction false} SliceEmptyIffSame(a: Json, b: Json)
    requires a.Arr? && b.Arr?
    ensures DiffsOf(a, b) == [] <==> Same(a, b)
    decreases Level(a), a, 0
  {
    var n := if |a.items| > |b.items| then |a.items| else |b.items|;
    SliceDiffsEmpty(a, b, n);
    forall i: nat | i < n ensures NothingAt(a, b, i) <==> SameAt(a, b, i) {
      EmptyIffSame(At(a.items, i), At(b.items, i));
    }
  }

  lemma {:induction false} KeysCovered(keys: seq<string>, s: set<string>)
    requires SortedKeys(keys, s)
    ensures forall k :: k in s ==> exists i :: 0 <= i < |keys| && keys[i] == k
    ensures forall i :: 0 <= i < |keys| ==> keys[i] in s
  {
    forall i | 0 <= i < |keys| ensures keys[i] in s {
      assert keys[i] in Elems(keys);
    }
    forall k | k in s ensures exists i :: 0 <= i < |keys| && keys[i] == k {
      assert k in Elems(keys);
    }
  }

  function Strip(items: seq<Json>): seq<Json> {
    if items != [] && items[|items| - 1].Null? then Strip(items[..|items| - 1]) else items
  }

  function NormItems(items: seq<Json>): (r: seq<Json>)
    ensures |r| == |items|
  {
    seq(|items|, i requires 0 <= i < |items| => Norm(items[i]))
  }

  /** A value without the nulls at the end of its slices. */
  function Norm(j: Json): Json {
    match j
    case Arr(items) => Arr(Strip(NormItems(items)))
    case Obj(fields) => Obj(map k | k in fields :: Norm(fields[k]))
    case _ => j
  }

  lemma {:induction false} StripAt(items: seq<Json>, i: nat)
    ensures At(Strip(items), i) == At(items, i)
  {
    if items != [] && items[|items| - 1].Null? {
      StripAt(items[..|items| - 1], i);
    }
  }

  lemma {:induction false} StripLast(items: seq<Json>)
    ensures Strip(items) != [] ==> !Strip(items)[|Strip(items)| - 1].Null?
  {
    if items != [] && items[|items| - 1].Null? {
      StripLast(items[..|items| - 1]);
    }
  }

  /** Two slices are equal without their trailing nulls exactly when they agree at every index. */
  lemma {:induction false} StripIffAt(x: seq<Json>, y: seq<Json>)
    ensures Strip(x) == Strip(y) <==> forall i: nat :: At(x, i) == At(y, i)
  {
    forall i: nat ensures At(Strip(x), i) == At(x, i) && At(Strip(y), i) == At(y, i) {
      StripAt(x, i);
      StripAt(y, i);
    }
    StripLast(x);
    StripLast(y);
    var p, q := Strip(x), Strip(y);
    if forall i: nat :: At(x, i) == At(y, i) {
      forall i: nat ensures At(p, i) == At(q, i) {
        assert At(x, i) == At(y, i);
      }
      LengthsAgree(p, q);
      assert forall i: nat :: i < |p| ==> p[i] == At(p, i) && q[i] == At(q, i);
      assert p == q;
    } else {
      var i: nat :| At(x, i) != At(y, i);
      assert At(p, i) != At(q, i);
    }
  }

  lemma {:induction false} LengthsAgree(p: seq<Json>, q: seq<Json>)
    requires forall i: nat :: At(p, i) == At(q, i)
    requires p != [] ==> !p[|p| - 1].Null?
    requires q != [] ==> !q[|q| - 1].Null?
    ensures |p| == |q|
  {
    assert p != [] ==> At(p, |p| - 1) == At(q, |p| - 1);
    assert q != [] ==> At(p, |q| - 1) == At(q, |q| - 1);
  }

  /** The independent meaning of "no difference". */
  lemma {:induction false} SameIffNorm(a: Json, b: Json)
    ensures Same(a, b) <==> Norm(a) == Norm(b)
    decreases Level(a), a
  {
    if a.Obj? && b.Obj? {
      forall k | k in a.fields && k in b.fields ensures Same(a.fields[k], b.fields[k]) <==> Norm(a.fields[k]) == Norm(b.fields[k]) {
        SameIffNorm(a.fields[k], b.fields[k]);
      }
      var f, g := Norm(a).fields, Norm(b).fields;
      MapsEqualIff(f, g);
      assert f.Keys == a.fields.Keys && g.Keys == b.fields.Keys;
      assert forall k :: k in a.fields && k in b.fields ==> f[k] == Norm(a.fields[k]) && g[k] == Norm(b.fields[k]);
    } else if a.Arr? && b.Arr? {
      var x, y := NormItems(a.items), NormItems(b.items);
      StripIffAt(x, y);
      forall i: nat | i < |a.items| || i < |b.items| ensures SameAt(a, b, i) <==> At(x, i) == At(y, i) {
        SameIffNorm(At(a.items, i), At(b.items, i));
      }
      assert forall i: nat :: i >= |a.items| && i >= |b.items| ==> At(x, i) == At(y, i);
    }
  }

  lemma {:induction false} MapsEqualIff(f: map<string, Json>, g: map<string, Json>)
    ensures f == g <==> f.Keys == g.Keys && forall k :: k in f && k in g ==> f[k] == g[k]
  {
  }

  // ---------- Replaying ----------

  function Get(fields: map<string, Json>, k: string): Json {
    if k in fields then fields[k] else Null
  }

  function Put(items: seq<Json>, i: nat, v: Json): seq<Json> {
    if i < |items| then items[i := v] else items + seq(i - |items|, _ => Null) + [v]
  }

  /** Sets the value at a path, making objects and slices where there are none. */
  function SetAt(j: Json, path: seq<Elem>, v: Json): Json
    decreases |path|
  {
    if path == [] then v else
      match path[0]
      case Field(k) =>
        var fields := if j.Obj? then j.fields else map[];
        Obj(fields[k := SetAt(Get(fields, k), path[1..], v)])
      case Index(i) =>
        var items := if j.Arr? then j.items else [];
        Arr(Put(items, i, SetAt(At(items, i), path[1..], v)))
  }

  /** Applies the new value of every difference, in order. */
  function Replay(j: Json, ds: seq<Diff>): Json
    decreases |ds|
  {
    if ds == [] then j else Replay(SetAt(j, ds[0].path, ds[0].new_), ds[1..])
  }

  lemma {:induction false} ReplayThen(j: Json, x: seq<Diff>, y: seq<Diff>)
    ensures Replay(j, x + y) == Replay(Replay(j, x), y)
    decreases |x|
  {
    if x == [] {
      assert x + y == y;
    } else {
      assert (x + y)[1..] == x[1..] + y;
      ReplayThen(SetAt(j, x[0].path, x[0].new_), x[1..], y);
    }
  }

  lemma {:induction false} PutAt(items: seq<Json>, i: nat, v: Json, k: nat)
    ensures At(Put(items, i, v), k) == if k == i then v else At(items, k)
  {
  }

  /** Differences below a field change that field as they would change its value. */
  lemma {:induction false} ReplayField(j: Json, k: string, ds: seq<Diff>)
    requires j.Obj?
    ensures Replay(j, Under(Field(k), ds)).Obj?
    ensures forall q :: Get(Replay(j, Under(Field(k), ds)).fields, q) == if q == k then Replay(Get(j.fields, k), ds) else Get(j.fields, q)
    decreases |ds|
  {
    if ds != [] {
      var d := ds[0].(path := [Field(k)] + ds[0].path);
      assert d.path[1..] == ds[0].path;
      var j' := SetAt(j, d.path, d.new_);
      assert Get(j'.fields, k) == SetAt(Get(j.fields, k), ds[0].path, ds[0].new_);
      ReplayField(j', k, ds[1..]);
    }
  }

  lemma {:induction false} ReplayIndex(j: Json, i: nat, ds: seq<Diff>)
    requires j.Arr?
    ensures Replay(j, Under(Index(i), ds)).Arr?
    ensures forall q: nat :: At(Replay(j, Under(Index(i), ds)).items, q) == if q == i then Replay(At(j.items, i), ds) else At(j.items, q)
    decreases |ds|
  {
    if ds != [] {
      var d := ds[0].(path := [Index(i)] + ds[0].path);
      assert d.path[1..] == ds[0].path;
      var j' := SetAt(j, d.path, d.new_);
      forall q: nat ensures At(j'.items, q) == if q == i then SetAt(At(j.items, i), ds[0].path, ds[0].new_) else At(j.items, q) {
        PutAt(j.items, i, SetAt(At(j.items, i), ds[0].path, ds[0].new_), q);
      }
      ReplayIndex(j', i, ds[1..]);
    }
  }

  /** What becomes of a key. */
  ghost function KeyResult(a: Json, b: Json, k: string): Json
    requires a.Obj? && b.Obj?
  {
    if k in a.fields && k in b.fields then Replay(a.fields[k], DiffsOf(a.fields[k], b.fields[k])) else Get(b.fields, k)
  }

  lemma {:induction false} ReplayKey(j: Json, a: Json, b: Json, k: string)
    requires a.Obj? && b.Obj? && j.Obj? && Get(j.fields, k) == Get(a.fields, k) && (k in a.fields || k in b.fields)
    ensures Replay(j, KeyDiffs(a, b, k)).Obj?
    ensures forall q :: Get(Replay(j, KeyDiffs(a, b, k)).fields, q) == if q == k then KeyResult(a, b, k) else Get(j.fields, q)
  {
    if k in a.fields && k in b.fields {
      ReplayField(j, k, DiffsOf(a.fields[k], b.fields[k]));
    } else {
      var v := Get(b.fields, k);
      var d := KeyDiffs(a, b, k)[0];
      var j' := Obj(j.fields[k := v]);
      assert d.path[1..] == [] && d.new_ == v;
      ReplayOne(j, d);
      ReplayOne(j', d);
      ReplayThen(j, [d], [d]);
      assert KeyDiffs(a, b, k) == [d] || KeyDiffs(a, b, k) == [d] + [d];
      assert Replay(j, KeyDiffs(a, b, k)) == j';
    }
  }

  lemma {:induction false} ReplayOne(j: Json, d: Diff)
    ensures Replay(j, [d]) == SetAt(j, d.path, d.new_)
  {
    assert [d][1..] == [];
  }

  lemma {:induction false} ReplayMap(a: Json, b: Json, keys: seq<string>, n: nat)
    requires a.Obj? && b.Obj? && NoDup(keys) && n <= |keys| && forall i :: 0 <= i < |keys| ==> keys[i] in a.fields || keys[i] in b.fields
    ensures var r := Replay(a, MapDiffs(a, b, keys[..n]));
            r.Obj? && forall q :: Get(r.fields, q) == if q in keys[..n] then KeyResult(a, b, q) else Get(a.fields, q)
  {
    if n > 0 {
      ReplayMap(a, b, keys, n - 1);
      TakeNext(keys, n - 1);
      var k := keys[n - 1];
      var r := Replay(a, MapDiffs(a, b, keys[..n - 1]));
      assert keys[..n][..n - 1] == keys[..n - 1];
      assert k !in keys[..n - 1];
      ReplayThen(a, MapDiffs(a, b, keys[..n - 1]), KeyDiffs(a, b, k));
      ReplayKey(r, a, b, k);
    }
  }

  lemma {:induction false} ReplayNone(j: Json)
    ensures Replay(j, []) == j
  {
  }

  ghost function IndexResult(a: Json, b: Json, n: nat, q: nat): Json
    requires a.Arr? && b.Arr?
  {
    if q < n then Replay(At(a.items, q), DiffsOf(At(a.items, q), At(b.items, q))) else At(a.items, q)
  }

  lemma {:induction false} ReplaySlice(a: Json, b: Json, n: nat)
    requires a.Arr? && b.Arr?
    ensures Replay(a, SliceDiffs(a, b, n)).Arr?
    ensures forall q: nat :: At(Replay(a, SliceDiffs(a, b, n)).items, q) == IndexResult(a, b, n, q)
  {
    hide DiffsOf, Replay, At;
    if n > 0 {
      ReplaySlice(a, b, n - 1);
      var r := Replay(a, SliceDiffs(a, b, n - 1));
      var ds := DiffsOf(At(a.items, n - 1), At(b.items, n - 1));
      ReplayThen(a, SliceDiffs(a, b, n - 1), Under(Index(n - 1), ds));
      ReplayIndex(r, n - 1, ds);
    } else {
      ReplayNone(a);
    }
  }

  /** a and b are equal when a null counts as nothing, in objects and at the end of slices. */
  ghost predicate Equivalent(a: Json, b: Json)
    decreases Level(a), a, 1
  {
    if a.Obj? && b.Obj? then forall k :: k in a.fields || k in b.fields ==> EquivalentKey(a, b, k)
    else if a.Arr? && b.Arr? then forall i: nat :: i < |a.items| || i < |b.items| ==> EquivalentAt(a, b, i)
    else a == b
  }

  ghost predicate EquivalentKey(a: Json, b: Json, k: string)
    requires a.Obj? && b.Obj?
    decreases Level(a), a, 0
  {
    Equivalent(Get(a.fields, k), Get(b.fields, k))
  }

  ghost predicate EquivalentAt(a: Json, b: Json, i: nat)
    requires a.Arr? && b.Arr?
    decreases Level(a), a, 0
  {
    Equivalent(At(a.items, i), At(b.items, i))
  }

  lemma {:induction false} EquivalentSelf(a: Json)
    ensures Equivalent(a, a)
    decreases a
  {
    match a
    case Obj(fields) =>
      forall k | k in fields ensures EquivalentKey(a, a, k) {
        EquivalentSelf(fields[k]);
      }
    case Arr(items) =>
      forall i: nat | i < |items| ensures EquivalentAt(a, a, i) {
        EquivalentSelf(items[i]);
      }
    case _ =>
  }

  /** Replaying the differences over the old value gives the new one, up to nulls counting as nothing. */
  lemma {:induction false} ReplayGivesNew(a: Json, b: Json)
    ensures Equivalent(Replay(a, DiffsOf(a, b)), b)
    decreases Level(a), a, 1
  {
    if ComparePrimitive(a, b) == (true, true) {
      assert a == b;
      EquivalentSelf(b);
    } else if !ComparePrimitive(a, b).0 && a.Obj? && b.Obj? {
      ReplayGivesObject(a, b);
    } else if !ComparePrimitive(a, b).0 && a.Arr? && b.Arr? {
      ReplayGivesSlice(a, b);
    } else {
      assert DiffsOf(a, b) == [Diff([], a, b)];
      assert [Diff([], a, b)][1..] == [];
      assert Replay(a, [Diff([], a, b)]) == b;
      EquivalentSelf(b);
    }
  }

  /** Key by key, the old object with its differences replayed. */
  lemma {:induction false} ReplayedKeys(a: Json, b: Json)
    requires a.Obj? && b.Obj?
    ensures var r := Replay(a, DiffsOf(a, b));
            r.Obj? && forall k :: Get(r.fields, k) == if k in a.fields || k in b.fields then KeyResult(a, b, k) else Null
  {
    hide Replay, MapDiffs, DiffsOf, KeyResult, InOrder, SortedKeys;
    var s := a.fields.Keys + b.fields.Keys;
    var keys := InOrder(s);
    KeysCovered(keys, s);
    SortedNoDup(keys, s);
    ReplayMap(a, b, keys, |keys|);
    assert keys[..|keys|] == keys;
    DiffsOfObjects(a, b);
    assert forall k :: k in keys <==> k in a.fields || k in b.fields;
  }

  lemma {:induction false} DiffsOfObjects(a: Json, b: Json)
    requires a.Obj? && b.Obj?
    ensures DiffsOf(a, b) == MapDiffs(a, b, InOrder(a.fields.Keys + b.fields.Keys))
  {
  }

  lemma {:induction false} ObjectsEquivalent(a: Json, b: Json)
    requires a.Obj? && b.Obj? && forall k :: k in a.fields || k in b.fields ==> Equivalent(Get(a.fields, k), Get(b.fields, k))
    ensures Equivalent(a, b)
  {
    forall k | k in a.fields || k in b.fields ensures EquivalentKey(a, b, k) {
      assert Equivalent(Get(a.fields, k), Get(b.fields, k));
    }
  }

  lemma {:induction false} ReplayGivesObject(a: Json, b: Json)
    requires a.Obj? && b.Obj?
    ensures Equivalent(Replay(a, DiffsOf(a, b)), b)
    decreases Level(a), a, 0
  {
    hide Replay, DiffsOf, Equivalent;
    ReplayedKeys(a, b);
    var r := Replay(a, DiffsOf(a, b));
    forall k | k in r.fields || k in b.fields ensures Equivalent(Get(r.fields, k), Get(b.fields, k)) {
      if k in a.fields && k in b.fields {
        ReplayGivesNew(a.fields[k], b.fields[k]);
      } else {
        EquivalentSelf(Get(b.fields, k));
      }
    }
    ObjectsEquivalent(r, b);
  }

  lemma {:induction false} ReplayGivesSlice(a: Json, b: Json)
    requires a.Arr? && b.Arr?
    ensures Equivalent(Replay(a, DiffsOf(a, b)), b)
    decreases Level(a), a, 0
  {
    var n := if |a.items| > |b.items| then |a.items| else |b.items|;
    ReplaySlice(a, b, n);
    var r := Replay(a, DiffsOf(a, b));
    forall i: nat | i < |r.items| || i < |b.items| ensures EquivalentAt(r, b, i) {
      if i < n {
        ReplayGivesNew(At(a.items, i), At(b.items, i));
      } else {
        assert At(r.items, i) == Null;
      }
    }
  }

  lemma {:induction false} SortedNoDup(keys: seq<string>, s: set<string>)
    requires SortedKeys(keys, s)
    ensures NoDup(keys)
  {
    forall i, j | 0 <= i < j < |keys| ensures keys[i] != keys[j] {
      StringTotal(keys[i], keys[j]);
    }
  }

  // ---------- The differ ----------

  function Prefixed(path: seq<Elem>, ds: seq<Diff>): seq<Diff> {
    if ds == [] then [] else [ds[0].(path := path + ds[0].path)] + Prefixed(path, ds[1..])
  }

  lemma {:induction false} PrefixedThen(path: seq<Elem>, x: seq<Diff>, y: seq<Diff>)
    ensures Prefixed(path, x + y) == Prefixed(path, x) + Prefixed(path, y)
  {
    if x == [] {
      assert x + y == y;
    } else {
      assert (x + y)[1..] == x[1..] + y;
      PrefixedThen(path, x[1..], y);
    }
  }

  lemma {:induction false} PrefixedUnder(path: seq<Elem>, e: Elem, ds: seq<Diff>)
    ensures Prefixed(path + [e], ds) == Prefixed(path, Under(e, ds))
  {
    if ds != [] {
      PrefixedUnder(path, e, ds[1..]);
      assert path + [e] + ds[0].path == path + ([e] + ds[0].path);
      assert Under(e, ds)[1..] == Under(e, ds[1..]);
    }
  }

  lemma {:induction false} PrefixedNone(ds: seq<Diff>)
    ensures Prefixed([], ds) == ds
  {
    if ds != [] {
      PrefixedNone(ds[1..]);
      assert [] + ds[0].path == ds[0].path;
    }
  }

  /** sort.Strings on the keys of a map. */
  method SortStrings(s: set<string>) returns (keys: seq<string>)
    ensures keys == InOrder(s)
  {
    keys := [];
    var todo := s;
    while todo != {}
      invariant todo <= s && SortedKeys(keys, s - todo)
    {
      var k := Pick(todo);
      InsertSorted(k, keys, s - todo);
      assert s - (todo - {k}) == s - todo + {k};
      keys := Insert(k, keys);
      todo := todo - {k};
    }
    assert s - todo == s;
    SortedUnique(keys, InOrder(s), s);
  }

  lemma {:induction false} MapDiffsNone(path: seq<Elem>, a: Json, b: Json, keys: seq<string>)
    requires a.Obj? && b.Obj?
    ensures Prefixed(path, MapDiffs(a, b, keys[..0])) == []
  {
  }

  lemma {:induction false} MapDiffsNext(path: seq<Elem>, a: Json, b: Json, keys: seq<string>, i: nat, start: seq<Diff>, before: seq<Diff>)
    requires a.Obj? && b.Obj? && i < |keys| && before == start + Prefixed(path, MapDiffs(a, b, keys[..i]))
    ensures before + Prefixed(path, KeyDiffs(a, b, keys[i])) == start + Prefixed(path, MapDiffs(a, b, keys[..i + 1]))
  {
    hide KeyDiffs;
    assert keys[..i + 1][..i] == keys[..i];
    PrefixedThen(path, MapDiffs(a, b, keys[..i]), KeyDiffs(a, b, keys[i]));
  }

  lemma {:induction false} SliceDiffsNone(path: seq<Elem>, a: Json, b: Json)
    requires a.Arr? && b.Arr?
    ensures Prefixed(path, SliceDiffs(a, b, 0)) == []
  {
  }

  lemma {:induction false} SliceDiffsNext(path: seq<Elem>, a: Json, b: Json, i: nat)
    requires a.Arr? && b.Arr?
    ensures Prefixed(path, SliceDiffs(a, b, i + 1)) == Prefixed(path, SliceDiffs(a, b, i)) + Prefixed(path + [Index(i)], DiffsOf(At(a.items, i), At(b.items, i)))
  {
    hide DiffsOf;
    var ds := DiffsOf(At(a.items, i), At(b.items, i));
    PrefixedUnder(path, Index(i), ds);
    PrefixedThen(path, SliceDiffs(a, b, i), Under(Index(i), ds));
  }

  /** The list that the differ appends to. */
  class DiffList {
    var diffs: seq<Diff>

    constructor ()
      ensures diffs == []
    {
      diffs := [];
    }

    method PushDiff(path: seq<Elem>, a: Json, b: Json)
      modifies this
      ensures diffs == old(diffs) + [Diff(path, a, b)]
    {
      diffs := diffs + [Diff(path, a, b)];
    }

    /** compare: appends the differences of a and b, found at path. */
    method Compare(path: seq<Elem>, a: Json, b: Json)
      modifies this
      ensures diffs == old(diffs) + Prefixed(path, DiffsOf(a, b))
      decreases Level(a), a, 1
    {
      PrefixedLeaf(path, a, b);
      var (conclusive, equal) := ComparePrimitive(a, b);
      if conclusive {
        if !equal {
          PushDiff(path, a, b);
        }
      } else if a.Obj? && b.Obj? {
        CompareMaps(path, a, b);
      } else if a.Arr? && b.Arr? {
        CompareSlices(path, a, b);
      } else {
        PushDiff(path, a, b);
      }
    }

    method CompareMaps(path: seq<Elem>, a: Json, b: Json)
      requires a.Obj? && b.Obj?
      modifies this
      ensures diffs == old(diffs) + Prefixed(path, MapDiffs(a, b, InOrder(a.fields.Keys + b.fields.Keys)))
      decreases Level(a), a, 0, 1
    {
      hide DiffsOf, KeyDiffs, MapDiffs, Prefixed, InOrder, Level;
      var keys := SortStrings(a.fields.Keys + b.fields.Keys);
      KeysCovered(keys, a.fields.Keys + b.fields.Keys);
      MapDiffsNone(path, a, b, keys);
      for i := 0 to |keys|
        invariant diffs == old(diffs) + Prefixed(path, MapDiffs(a, b, keys[..i]))
      {
        ghost var before := diffs;
        CompareKey(path, a, b, keys[i]);
        MapDiffsNext(path, a, b, keys, i, old(diffs), before);
      }
      assert keys[..|keys|] == keys;
    }

    /** One round of the loop over the keys; an added key is pushed twice. */
    method CompareKey(path: seq<Elem>, a: Json, b: Json, k: string)
      requires a.Obj? && b.Obj? && (k in a.fields || k in b.fields)
      modifies this
      ensures diffs == old(diffs) + Prefixed(path, KeyDiffs(a, b, k))
      decreases Level(a), a, 0, 0
    {
      var keyPath := path + [Field(k)];
      if k in a.fields && k !in b.fields {
        PushDiff(keyPath, a.fields[k], Null);
      } else if k in b.fields && k !in a.fields {
        PushDiff(keyPath, Null, b.fields[k]);
        diffs := diffs + [Diff(keyPath, Null, b.fields[k])];
        var d := Diff([Field(k)], Null, b.fields[k]);
        PrefixedThen(path, [d], [d]);
        assert [d] + [d] == [d, d];
      } else {
        Compare(keyPath, a.fields[k], b.fields[k]);
        PrefixedUnder(path, Field(k), DiffsOf(a.fields[k], b.fields[k]));
      }
    }

    method CompareSlices(path: seq<Elem>, a: Json, b: Json)
      requires a.Arr? && b.Arr?
      modifies this
      ensures diffs == old(diffs) + Prefixed(path, SliceDiffs(a, b, if |a.items| > |b.items| then |a.items| else |b.items|))
      decreases Level(a), a, 0
    {
      hide DiffsOf, SliceDiffs, Prefixed;
      var i := 0;
      SliceDiffsNone(path, a, b);
      while i < |a.items| || i < |b.items|
        invariant i <= if |a.items| > |b.items| then |a.items| else |b.items|
        invariant diffs == old(diffs) + Prefixed(path, SliceDiffs(a, b, i))
        decreases |a.items| + |b.items| - i
      {
        var oldValue := Null;
        if i < |a.items| {
          oldValue := a.items[i];
        }
        var newValue := Null;
        if i < |b.items| {
          newValue := b.items[i];
        }
        Compare(path + [Index(i)], oldValue, newValue);
        SliceDiffsNext(path, a, b, i);
        i := i + 1;
      }
    }
  }

  lemma {:induction false} PrefixedLeaf(path: seq<Elem>, a: Json, b: Json)
    ensures Prefixed(path, [Diff([], a, b)]) == [Diff(path, a, b)]
  {
    assert path + [] == path;
    assert [Diff([], a, b)][1..] == [];
  }

  /** Compare. Empty exactly when nothing differs but nulls at the end of slices; otherwise replaying it over `a` gives `b`. */
  method CompareValues(a: Json, b: Json) returns (ds: seq<Diff>)
    ensures ds == DiffsOf(a, b)
    ensures ds == [] <==> Norm(a) == Norm(b)
    ensures Equivalent(Replay(a, ds), b)
  {
    hide DiffsOf, Norm, Same;
    var list := new DiffList();
    list.Compare([], a, b);
    ds := list.diffs;
    PrefixedNone(DiffsOf(a, b));
    EmptyIffSame(a, b);
    SameIffNorm(a, b);
    ReplayGivesNew(a, b);
  }
}
