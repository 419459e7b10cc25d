/** The swap map, and the store that turns its results back into deltas. */
module SwapMaps {
  import opened Wrappers
  import opened MapOrder

  datatype SwapResult<V> = Noop | Added(new_: V) | Removed(old_: V) | Replaced(old_: V, new_: V)

  /** What swapping an old value for a new one, either of which may be missing, answers. */
  function SwapOf<V>(old_: Option<V>, new_: Option<V>): SwapResult<V> {
    match (old_, new_)
    case (None, None) => Noop
    case (None, Some(n)) => Added(n)
    case (Some(o), None) => Removed(o)
    case (Some(o), Some(n)) => Replaced(o, n)
  }

  function Lookup<K, V>(m: map<K, V>, key: K): Option<V> {
    if key in m then Some(m[key]) else None
  }

  function With<K, V>(m: map<K, V>, key: K, value: Option<V>): map<K, V> {
    if value.Some? then m[key := value.value] else m - {key}
  }

  class SwapMap<K(==), V> {
    var data: map<K, V>

    constructor ()
      ensures data == map[]
    {
      data := map[];
    }

    /** lockedSwapIf: a value is kept when there is a new one and the condition refuses it. */
    method SwapIf(key: K, newValue: Option<V>, condition: (V, V) -> bool) returns (r: SwapResult<V>)
      modifies this
      ensures var o := Lookup(old(data), key);
              var keep := o.Some? && newValue.Some? && !condition(o.value, newValue.value);
              && data == (if keep then old(data) else With(old(data), key, newValue))
              && r == if keep then Noop else SwapOf(o, newValue)
    {
      if key in data && newValue.Some? {
        var oldValue := data[key];
        if condition(oldValue, newValue.value) {
          data := data[key := newValue.value];
          return Replaced(oldValue, newValue.value);
        } else {
          return Noop;
        }
      } else if key in data {
        var oldValue := data[key];
        data := data - {key};
        return Removed(oldValue);
      } else if newValue.Some? {
        data := data[key := newValue.value];
        return Added(newValue.value);
      } else {
        assert data - {key} == data;
        return Noop;
      }
    }

    /** SwapMapReplace: the map becomes the transformed values, and every key of the old or new map gets the result of its own swap. */
    method Replace<U>(values: map<K, U>, transform: U -> V) returns (output: map<K, SwapResult<V>>)
      modifies this
      ensures data.Keys == values.Keys && forall k :: k in values ==> data[k] == transform(values[k])
      ensures output.Keys == old(data.Keys) + values.Keys
      ensures forall k :: k in output ==> output[k] == SwapOf(Lookup(old(data), k), Lookup(data, k))
    {
      ghost var before := data;
      output := RemoveOthers(values.Keys);
      output := PutAll(values, transform, output, before);
    }

    /** The first loop of SwapMapReplace. */
    method RemoveOthers(retain: set<K>) returns (output: map<K, SwapResult<V>>)
      modifies this
      ensures data.Keys == old(data.Keys) * retain && forall k :: k in data ==> data[k] == old(data)[k]
      ensures output.Keys == old(data.Keys) - retain && forall k :: k in output ==> output[k] == Removed(old(data)[k])
    {
      output := map[];
      ghost var before := data;
      var todo := data.Keys;
      while todo != {}
        invariant todo <= data.Keys <= before.Keys && before.Keys - todo - retain == output.Keys && data.Keys == before.Keys - output.Keys
        invariant forall k :: k in data ==> data[k] == before[k]
        invariant forall k :: k in output ==> output[k] == Removed(before[k])
      {
        var key := Pick(todo);
        todo := todo - {key};
        if key !in retain {
          output := output[key := Removed(data[key])];
          data := data - {key};
        }
      }
    }

    /** The second loop of SwapMapReplace. */
    method PutAll<U>(values: map<K, U>, transform: U -> V, removed: map<K, SwapResult<V>>, ghost before: map<K, V>) returns (output: map<K, SwapResult<V>>)
      requires data.Keys == before.Keys * values.Keys && forall k :: k in data ==> data[k] == before[k]
      requires removed.Keys == before.Keys - values.Keys && forall k :: k in removed ==> removed[k] == Removed(before[k])
      modifies this
      ensures data.Keys == values.Keys && forall k :: k in values ==> data[k] == transform(values[k])
      ensures output.Keys == before.Keys + values.Keys
      ensures forall k :: k in output ==> output[k] == SwapOf(Lookup(before, k), Lookup(data, k))
    {
      hide Putting;
      output := removed;
      var todo := values.Keys;
      PutNone(before, values, transform, data, output);
      while todo != {}
        invariant todo <= values.Keys && Putting(before, values, transform, data, output, todo)
      {
        var key := Pick(todo);
        PutOne(before, values, transform, data, output, todo, key);
        todo := todo - {key};
        var swap := SwapIf(key, Some(transform(values[key])), (_, _) => true);
        output := output[key := swap];
      }
      PutEverything(before, values, transform, data, output);
    }
  }

  /** The keys of `todo` have still to be put. */
  ghost predicate Putting<K, V, U>(before: map<K, V>, values: map<K, U>, transform: U -> V, data: map<K, V>, output: map<K, SwapResult<V>>, todo: set<K>) {
    && data.Keys == (before.Keys * todo) + (values.Keys - todo)
    && output.Keys == (before.Keys - values.Keys) + (values.Keys - todo)
    && (forall k :: k in data ==> data[k] == if k in todo then before[k] else transform(values[k]))
    && (forall k :: k in output ==> output[k] == SwapOf(Lookup(before, k), if k in values then Some(transform(values[k])) else None))
  }

  lemma {:induction false} PutNone<K, V, U>(before: map<K, V>, values: map<K, U>, transform: U -> V, data: map<K, V>, removed: map<K, SwapResult<V>>)
    requires data.Keys == before.Keys * values.Keys && forall k :: k in data ==> data[k] == before[k]
    requires removed.Keys == before.Keys - values.Keys && forall k :: k in removed ==> removed[k] == Removed(before[k])
    ensures Putting(before, values, transform, data, removed, values.Keys)
  {
  }

  lemma {:induction false} PutOne<K, V, U>(before: map<K, V>, values: map<K, U>, transform: U -> V, data: map<K, V>, output: map<K, SwapResult<V>>, todo: set<K>, key: K)
    requires Putting(before, values, transform, data, output, todo) && todo <= values.Keys && key in todo
    ensures var v := Some(transform(values[key]));
            Putting(before, values, transform, With(data, key, v), output[key := SwapOf(Lookup(data, key), v)], todo - {key})
  {
    assert Lookup(data, key) == Lookup(before, key);
  }

  lemma {:induction false} PutEverything<K, V, U>(before: map<K, V>, values: map<K, U>, transform: U -> V, data: map<K, V>, output: map<K, SwapResult<V>>)
    requires Putting(before, values, transform, data, output, {})
    ensures data.Keys == values.Keys && forall k :: k in values ==> data[k] == transform(values[k])
    ensures output.Keys == before.Keys + values.Keys
    ensures forall k :: k in output ==> output[k] == SwapOf(Lookup(before, k), Lookup(data, k))
  {
  }

  // ---------- The store ----------

  /** An object, as far as the store looks at it. */
  datatype Object = Object(namespace: string, name: string, content: string)

  datatype ObjectKey = ObjectKey(namespace: string, name: string)

  function KeyOf(o: Object): ObjectKey {
    ObjectKey(o.namespace, o.name)
  }

  /** A callback of the store. */
  datatype Delta = OnAdd(new_: Object) | OnUpdate(old_: Object, new_: Object) | OnDelete(old_: Object) | OnPostReplace

  /** What a listener that keeps its own copy makes of a delta. */
  function Follow(copy: map<ObjectKey, Object>, d: Delta): map<ObjectKey, Object> {
    match d
    case OnAdd(n) => copy[KeyOf(n) := n]
    case OnUpdate(o, n) => copy[KeyOf(n) := n]
    case OnDelete(o) => copy - {KeyOf(o)}
    case OnPostReplace => copy
  }

  /** Additions are new to the listener, and updates and deletions name what it has. */
  predicate Expected(copy: map<ObjectKey, Object>, d: Delta) {
    match d
    case OnAdd(n) => KeyOf(n) !in copy
    case OnUpdate(o, n) => KeyOf(o) == KeyOf(n) && KeyOf(o) in copy && copy[KeyOf(o)] == o
    case OnDelete(o) => KeyOf(o) in copy && copy[KeyOf(o)] == o
    case OnPostReplace => true
  }

  function Copy(deltas: seq<Delta>): map<ObjectKey, Object> {
    if deltas == [] then map[] else Follow(Copy(deltas[..|deltas| - 1]), deltas[|deltas| - 1])
  }

  predicate AllExpected(deltas: seq<Delta>) {
    deltas == [] || (AllExpected(deltas[..|deltas| - 1]) && Expected(Copy(deltas[..|deltas| - 1]), deltas[|deltas| - 1]))
  }

  /** The callback for the result of a swap; none for a deletion of something unknown. */
  function DeltaOf(r: SwapResult<Object>): seq<Delta> {
    match r
    case Noop => []
    case Added(n) => [OnAdd(n)]
    case Replaced(o, n) => [OnUpdate(o, n)]
    case Removed(o) => [OnDelete(o)]
  }

  lemma {:induction false} OneMore(deltas: seq<Delta>, d: Delta)
    ensures Copy(deltas + [d]) == Follow(Copy(deltas), d)
    ensures AllExpected(deltas + [d]) <==> AllExpected(deltas) && Expected(Copy(deltas), d)
  {
    assert (deltas + [d])[..|deltas|] == deltas;
  }

  lemma {:induction false} SwapFollowed(deltas: seq<Delta>, key: ObjectKey, new_: Option<Object>)
    requires AllExpected(deltas) && (forall k :: k in Copy(deltas) ==> KeyOf(Copy(deltas)[k]) == k) && (new_.Some? ==> KeyOf(new_.value) == key)
    ensures var more := deltas + DeltaOf(SwapOf(Lookup(Copy(deltas), key), new_)); AllExpected(more) && Copy(more) == With(Copy(deltas), key, new_)
  {
    var r := SwapOf(Lookup(Copy(deltas), key), new_);
    if r == Noop {
      assert deltas + [] == deltas;
      assert Copy(deltas) - {key} == Copy(deltas);
    } else {
      OneMore(deltas, DeltaOf(r)[0]);
    }
  }

  /** After replacing, the keys that have been reported are as in the new map and the others as in the old one. */
  ghost predicate Reporting(before: map<ObjectKey, Object>, after: map<ObjectKey, Object>, copy: map<ObjectKey, Object>, done: set<ObjectKey>) {
    forall k :: Lookup(copy, k) == if k in done then Lookup(after, k) else Lookup(before, k)
  }

  lemma {:induction false} LookupEqual(a: map<ObjectKey, Object>, b: map<ObjectKey, Object>)
    requires forall k :: Lookup(a, k) == Lookup(b, k)
    ensures a == b
  {
    forall k ensures (k in a <==> k in b) && (k in a ==> a[k] == b[k]) {
      assert Lookup(a, k) == Lookup(b, k);
    }
  }

  class PrepushUndeltaStore {
    const objectFilter: Object -> bool
    const data: SwapMap<ObjectKey, Object>
    ghost var deltas: seq<Delta>    // the callbacks so far, in order

    constructor (objectFilter: Object -> bool)
      ensures Valid() && deltas == [] && this.objectFilter == objectFilter && fresh(data)
    {
      this.objectFilter := objectFilter;
      data := new SwapMap<ObjectKey, Object>();
      deltas := [];
    }

    /** Replaying the callbacks gives the contents, and every callback was right when it was made. */
    ghost predicate Valid()
      reads this, data
    {
      Copy(deltas) == data.data && AllExpected(deltas) && forall k :: k in data.data ==> KeyOf(data.data[k]) == k
    }

    /** set: Add, Update and Delete. An object that the filter refuses is ignored, whatever the store has under its key. */
    method Set(obj: Object, isDelete: bool)
      requires Valid()
      modifies this, data
      ensures Valid()
      ensures data.data == AfterCall(objectFilter, old(data.data), CallSet(obj, isDelete))
      ensures old(deltas) <= deltas
    {
      if !objectFilter(obj) {
        return;
      }
      var key := KeyOf(obj);
      var newValue := if isDelete then None else Some(obj);
      SwapFollowed(deltas, key, newValue);
      var swap := data.SwapIf(key, newValue, (_, _) => true);
      deltas := deltas + DeltaOf(swap);
    }

    /** Replace: the contents become the listed objects, of two with the same key the later; the filter is not asked. */
    method Replace(list: seq<Object>)
      requires Valid()
      modifies this, data
      ensures Valid() && data.data == AfterCall(objectFilter, old(data.data), CallReplace(list))
      ensures old(deltas) <= deltas && deltas != [] && deltas[|deltas| - 1] == OnPostReplace
    {
      var kv: map<ObjectKey, Object> := map[];
      for i := 0 to |list|
        invariant kv == Latest(list[..i])
      {
        assert list[..i + 1][..i] == list[..i];
        kv := kv[KeyOf(list[i]) := list[i]];
      }
      assert list[..|list|] == list;
      LatestKeyed(list);
      ghost var before := data.data;
      var results := data.Replace(kv, o => o);
      assert data.data == kv;
      Report(results, before);
      OneMore(deltas, OnPostReplace);
      deltas := deltas + [OnPostReplace];
    }

    /** The loop over the results, in any order. */
    method Report(results: map<ObjectKey, SwapResult<Object>>, ghost before: map<ObjectKey, Object>)
      requires Copy(deltas) == before && AllExpected(deltas)
      requires (forall k :: k in before ==> KeyOf(before[k]) == k) && forall k :: k in data.data ==> KeyOf(data.data[k]) == k
      requires results.Keys == before.Keys + data.data.Keys
      requires forall k :: k in results ==> results[k] == SwapOf(Lookup(before, k), Lookup(data.data, k))
      modifies this
      ensures Valid() && old(deltas) <= deltas
    {
      hide Copy, AllExpected;
      var todo := results.Keys;
      ghost var after := data.data;
      while todo != {}
        invariant todo <= results.Keys && AllExpected(deltas) && old(deltas) <= deltas
        invariant Reporting(before, after, Copy(deltas), results.Keys - todo)
      {
        var key := Pick(todo);
        ReportOne(before, after, deltas, results.Keys - todo, key);
        assert results.Keys - (todo - {key}) == results.Keys - todo + {key};
        todo := todo - {key};
        deltas := deltas + DeltaOf(results[key]);
      }
      forall k ensures Lookup(Copy(deltas), k) == Lookup(after, k) {
        assert k !in results.Keys ==> Lookup(before, k) == None && Lookup(after, k) == None;
      }
      LookupEqual(Copy(deltas), after);
    }
  }

  lemma {:induction false} ReportOne(before: map<ObjectKey, Object>, after: map<ObjectKey, Object>, deltas: seq<Delta>, done: set<ObjectKey>, key: ObjectKey)
    requires AllExpected(deltas) && Reporting(before, after, Copy(deltas), done) && key !in done
    requires (forall k :: k in before ==> KeyOf(before[k]) == k) && forall k :: k in after ==> KeyOf(after[k]) == k
    ensures var more := deltas + DeltaOf(SwapOf(Lookup(before, key), Lookup(after, key)));
            AllExpected(more) && Reporting(before, after, Copy(more), done + {key})
  {
    hide AllExpected;
    var copy := Copy(deltas);
    forall k | k in copy ensures KeyOf(copy[k]) == k {
      assert Lookup(copy, k) == if k in done then Lookup(after, k) else Lookup(before, k);
    }
    SwapFollowed(deltas, key, Lookup(after, key));
    forall k ensures Lookup(With(copy, key, Lookup(after, key)), k) == if k in done + {key} then Lookup(after, k) else Lookup(before, k) {
      assert Lookup(copy, k) == if k in done then Lookup(after, k) else Lookup(before, k);
    }
  }

  /** The last object of every key. */
  function Latest(list: seq<Object>): map<ObjectKey, Object> {
    if list == [] then map[] else Latest(list[..|list| - 1])[KeyOf(list[|list| - 1]) := list[|list| - 1]]
  }

  lemma {:induction false} LatestKeyed(list: seq<Object>)
    ensures forall k :: k in Latest(list) ==> KeyOf(Latest(list)[k]) == k
  {
    if list != [] {
      LatestKeyed(list[..|list| - 1]);
    }
  }

  // ---------- Whole histories ----------

  /** Add, Update and Delete are sets. */
  datatype Call = CallSet(obj: Object, isDelete: bool) | CallReplace(list: seq<Object>)

  /** The contents after a call; only a set asks the filter. */
  function AfterCall(filter: Object -> bool, m: map<ObjectKey, Object>, call: Call): map<ObjectKey, Object> {
    match call
    case CallSet(obj, isDelete) => if !filter(obj) then m else With(m, KeyOf(obj), if isDelete then None else Some(obj))
    case CallReplace(list) => Latest(list)
  }

  function AfterCalls(filter: Object -> bool, calls: seq<Call>): map<ObjectKey, Object> {
    if calls == [] then map[] else AfterCall(filter, AfterCalls(filter, calls[..|calls| - 1]), calls[|calls| - 1])
  }

  predicate OnlyAccepted(filter: Object -> bool, m: map<ObjectKey, Object>) {
    forall k :: k in m ==> filter(m[k])
  }

  /** Throughout a history the store holds only objects that the filter accepts. */
  ghost predicate AlwaysAccepted(filter: Object -> bool, calls: seq<Call>) {
    forall n :: 0 <= n <= |calls| ==> OnlyAccepted(filter, AfterCalls(filter, calls[..n]))
  }

  /** Of every list put in place, the last object of each key is accepted. */
  ghost predicate ListsAccepted(filter: Object -> bool, calls: seq<Call>) {
    forall i :: 0 <= i < |calls| && calls[i].CallReplace? ==> OnlyAccepted(filter, Latest(calls[i].list))
  }

  lemma {:induction false} NextCall(filter: Object -> bool, calls: seq<Call>, n: nat)
    requires n < |calls|
    ensures AfterCalls(filter, calls[..n + 1]) == AfterCall(filter, AfterCalls(filter, calls[..n]), calls[n])
  {
    assert calls[..n + 1][..n] == calls[..n];
  }

  lemma {:induction false} AcceptedSoFar(filter: Object -> bool, calls: seq<Call>, n: nat)
    requires ListsAccepted(filter, calls) && n <= |calls|
    ensures OnlyAccepted(filter, AfterCalls(filter, calls[..n]))
  {
    if n > 0 {
      AcceptedSoFar(filter, calls, n - 1);
      NextCall(filter, calls, n - 1);
    }
  }

  /** The store holds only accepted objects throughout exactly when the lists put in place are accepted: Replace does not ask the filter. */
  lemma {:induction false} AlwaysAcceptedIff(filter: Object -> bool, calls: seq<Call>)
    ensures AlwaysAccepted(filter, calls) <==> ListsAccepted(filter, calls)
  {
    if AlwaysAccepted(filter, calls) {
      forall i | 0 <= i < |calls| && calls[i].CallReplace? ensures OnlyAccepted(filter, Latest(calls[i].list)) {
        NextCall(filter, calls, i);
        assert OnlyAccepted(filter, AfterCalls(filter, calls[..i + 1]));
      }
    }
    if ListsAccepted(filter, calls) {
      forall n | 0 <= n <= |calls| ensures OnlyAccepted(filter, AfterCalls(filter, calls[..n])) {
        AcceptedSoFar(filter, calls, n);
      }
    }
  }

  /** An object that the filter refuses but a list has put in place stays there, whatever is set for it, until the next list. */
  lemma {:induction false} RefusedStays(filter: Object -> bool, calls: seq<Call>, m: nat, n: nat, k: ObjectKey)
    requires m <= n <= |calls| && k in AfterCalls(filter, calls[..m]) && !filter(AfterCalls(filter, calls[..m])[k])
    requires forall i :: m <= i < n ==> calls[i].CallSet? && (KeyOf(calls[i].obj) == k ==> !filter(calls[i].obj))
    ensures k in AfterCalls(filter, calls[..n]) && AfterCalls(filter, calls[..n])[k] == AfterCalls(filter, calls[..m])[k]
  {
    if m < n {
      RefusedStays(filter, calls, m, n - 1, k);
      NextCall(filter, calls, n - 1);
    }
  }
}
