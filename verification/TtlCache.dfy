/** The write-once cache with a time to live. */
module TtlCaches {
  import opened Wrappers
  import opened Deques

  datatype CleanupEntry = CleanupEntry(key: string, expiry: int)

  /** The cache as a value: its data and its cleanup queue from the front. */
  datatype Contents<V> = Contents(data: map<string, V>, queue: seq<CleanupEntry>)

  /** The queue has one entry for every key, and is sorted by expiry, none later than latest. */
  ghost predicate Sorted<V>(c: Contents<V>, latest: int) {
    && (forall i, j :: 0 <= i < j < |c.queue| ==> c.queue[i].key != c.queue[j].key && c.queue[i].expiry <= c.queue[j].expiry)
    && (forall i :: 0 <= i < |c.queue| ==> c.queue[i].key in c.data && c.queue[i].expiry <= latest)
    && (forall k :: k in c.data ==> Queued(c.queue, k))
  }

  ghost predicate Queued(queue: seq<CleanupEntry>, k: string) {
    exists i :: 0 <= i < |queue| && queue[i].key == k
  }

  function AddF<V>(c: Contents<V>, key: string, value: V, expiry: int): Contents<V> {
    if key in c.data then c else Contents(c.data[key := value], c.queue + [CleanupEntry(key, expiry)])
  }

  function PopF<V>(c: Contents<V>): Contents<V>
    requires c.queue != []
  {
    Contents(c.data - {c.queue[0].key}, c.queue[1..])
  }

  lemma {:induction false} QueuedMore(queue: seq<CleanupEntry>, e: CleanupEntry, k: string)
    ensures Queued(queue + [e], k) <==> Queued(queue, k) || k == e.key
  {
    if Queued(queue, k) {
      var i :| 0 <= i < |queue| && queue[i].key == k;
      assert (queue + [e])[i].key == k;
    }
    assert (queue + [e])[|queue|] == e;
  }

  lemma {:induction false} AddKeepsSorted<V>(c: Contents<V>, key: string, value: V, latest: int, expiry: int)
    requires Sorted(c, latest) && latest <= expiry && key !in c.data
    ensures Sorted(AddF(c, key, value, expiry), expiry)
  {
    forall k | k in AddF(c, key, value, expiry).data ensures Queued(c.queue + [CleanupEntry(key, expiry)], k) {
      QueuedMore(c.queue, CleanupEntry(key, expiry), k);
    }
  }

  lemma {:induction false} PopKeepsSorted<V>(c: Contents<V>, latest: int)
    requires Sorted(c, latest) && c.queue != []
    ensures Sorted(PopF(c), latest)
  {
    var c' := PopF(c);
    forall k | k in c'.data ensures Queued(c'.queue, k) {
      var i :| 0 <= i < |c.queue| && c.queue[i].key == k;
      assert c'.queue[i - 1].key == k;
    }
  }

  /** c' is c without exactly the entries that had expired at time `at`. */
  ghost predicate Cleaned<V>(c: Contents<V>, c': Contents<V>, at: int) {
    && (forall i :: 0 <= i < |c.queue| ==> (c.queue[i].key in c'.data <==> c.queue[i].expiry >= at))
    && (forall k :: k in c'.data ==> k in c.data && c'.data[k] == c.data[k])
  }

  /** n entries have been popped, all of them expired. */
  ghost predicate Popped<V>(c: Contents<V>, c': Contents<V>, n: nat) {
    && n <= |c.queue| && c'.queue == c.queue[n..]
    && (forall k :: k in c'.data <==> k in c.data && forall i :: 0 <= i < n ==> c.queue[i].key != k)
    && (forall k :: k in c'.data ==> k in c.data && c'.data[k] == c.data[k])
  }

  lemma {:induction false} PopOne<V>(c: Contents<V>, c': Contents<V>, n: nat)
    requires Popped(c, c', n) && n < |c.queue|
    ensures c'.queue != [] && c'.queue[0] == c.queue[n] && Popped(c, PopF(c'), n + 1)
  {
  }

  /** The first n entries had each expired when the clock was read for it. */
  ghost predicate Expired<V>(c: Contents<V>, clock: nat -> int, n: nat) {
    n <= |c.queue| && forall i :: 0 <= i < n ==> c.queue[i].expiry < clock(i)
  }

  /** The clock has been read once for each of the n entries popped, and once more for the front, if there is one, which had not expired. */
  ghost predicate CleanedBy<V>(c: Contents<V>, clock: nat -> int, n: nat) {
    Expired(c, clock, n) && (n < |c.queue| ==> c.queue[n].expiry >= clock(n))
  }

  /** The number of the last reading; the first one for an empty queue, where the clock is not read at all. */
  function LastReading<V>(c: Contents<V>, n: nat): nat {
    if n < |c.queue| || n == 0 then n else n - 1
  }

  /** Once the front has not expired, exactly the entries expired at the last reading have been removed. */
  lemma {:induction false} PoppedCleaned<V>(c: Contents<V>, c': Contents<V>, clock: nat -> int, n: nat, latest: int, ttl: int)
    requires Sorted(c, latest) && Popped(c, c', n) && CleanedBy(c, clock, n) && forall i, j :: i <= j ==> clock(i) <= clock(j)
    ensures Step(ttl, c, Clean(clock(LastReading(c, n))), c')
  {
    var last := LastReading(c, n);
    forall i | 0 <= i < |c.queue| ensures c.queue[i].key in c'.data <==> c.queue[i].expiry >= clock(last) {
      if i < n {
        assert clock(i) <= clock(last);
      } else {
        assert forall j :: 0 <= j < n ==> c.queue[j].key != c.queue[i].key;
      }
    }
  }

  lemma {:induction false} PoppedNone<V>(c: Contents<V>, clock: nat -> int)
    ensures Popped(c, c, 0) && Expired(c, clock, 0)
  {
  }

  lemma {:induction false} NoneLeft<V>(c: Contents<V>, c': Contents<V>, clock: nat -> int, n: nat)
    requires Popped(c, c', n) && c'.queue == [] && Expired(c, clock, n)
    ensures CleanedBy(c, clock, n)
  {
  }

  lemma {:induction false} FrontIs<V>(c: Contents<V>, c': Contents<V>, clock: nat -> int, n: nat)
    requires Popped(c, c', n) && c'.queue != [] && Expired(c, clock, n)
    ensures n < |c.queue| && c'.queue[0] == c.queue[n]
    ensures if c'.queue[0].expiry < clock(n) then Expired(c, clock, n + 1) else CleanedBy(c, clock, n)
  {
  }

  class TtlOnce<V> {
    const ttl: int
    var data: map<string, V>
    var cleanupQueue: Deque<CleanupEntry>
    ghost var latest: int    // an upper bound of the expiries; the clock reading of the last Add plus ttl

    ghost predicate Valid()
      reads this, cleanupQueue, cleanupQueue.data
    {
      cleanupQueue.Valid() && Sorted(View(), latest)
    }

    ghost function View(): Contents<V>
      reads this, cleanupQueue, cleanupQueue.data
      requires cleanupQueue.Valid()
    {
      Contents(data, cleanupQueue.Contents())
    }

    constructor (ttl: int)
      ensures Valid() && View() == Contents(map[], []) && this.ttl == ttl
      ensures fresh(cleanupQueue) && fresh(cleanupQueue.data)
    {
      this.ttl, data, latest := ttl, map[], 0;
      cleanupQueue := new Deque<CleanupEntry>(16);
    }

    /** Stores a value unless the key is present; now is a reading of a monotone clock. */
    method Add(key: string, value: V, now: int)
      requires Valid() && latest <= now + ttl
      modifies this, cleanupQueue, cleanupQueue.data
      ensures Valid() && View() == AddF(old(View()), key, value, now + ttl) && latest <= now + ttl
      ensures cleanupQueue == old(cleanupQueue) && (cleanupQueue.data == old(cleanupQueue.data) || fresh(cleanupQueue.data))
    {
      hide Sorted;
      if key !in data {
        AddKeepsSorted(View(), key, value, latest, now + ttl);
        data := data[key := value];
        cleanupQueue.PushBack(CleanupEntry(key, now + ttl));
        latest := now + ttl;
      }
    }

    method Get(key: string) returns (value: Option<V>)
      ensures value == if key in data then Some(data[key]) else None
    {
      value := if key in data then Some(data[key]) else None;
    }

    method Size() returns (n: nat)
      requires Valid()
      ensures n == |View().queue|
    {
      n := |data|;
      SizeIsQueue(View(), latest);
    }

    /** doCleanup; clock(i) is the i-th reading of the clock. */
    method DoCleanup(clock: nat -> int, zero: CleanupEntry) returns (ghost popped: nat)
      requires Valid() && forall i, j :: i <= j ==> clock(i) <= clock(j)
      modifies this`data, cleanupQueue, cleanupQueue.data
      ensures Valid() && cleanupQueue.data == old(cleanupQueue.data)
      ensures Popped(old(View()), View(), popped) && CleanedBy(old(View()), clock, popped)
      ensures Step(ttl, old(View()), Clean(clock(LastReading(old(View()), popped))), View())
    {
      hide Sorted, Popped, Cleaned, Expired, CleanedBy, Step;
      ghost var c := View();
      PoppedNone(c, clock);
      var round: nat := 0;
      while true
        invariant Valid() && Popped(c, View(), round) && Expired(c, clock, round) && cleanupQueue.data == old(cleanupQueue.data)
        decreases |cleanupQueue.Contents()|
      {
        var entry := cleanupQueue.PeekFront();
        if entry.None? {
          NoneLeft(c, View(), clock, round);
          PoppedCleaned(c, View(), clock, round, latest, ttl);
          return round;
        }
        FrontIs(c, View(), clock, round);
        if entry.value.expiry >= clock(round) {
          PoppedCleaned(c, View(), clock, round, latest, ttl);
          return round;
        }
        PopOne(c, View(), round);
        PopKeepsSorted(View(), latest);
        var _ := cleanupQueue.PopFront(zero);
        data := data - {entry.value.key};
        round := round + 1;
      }
    }
  }

  lemma {:induction false} SizeIsQueue<V>(c: Contents<V>, latest: int)
    requires Sorted(c, latest)
    ensures |c.data| == |c.queue|
    decreases |c.queue|
  {
    if c.queue == [] {
      assert forall k :: k in c.data ==> Queued(c.queue, k);
      assert c.data.Keys == {};
    } else {
      PopKeepsSorted(c, latest);
      SizeIsQueue(PopF(c), latest);
      assert PopF(c).data.Keys == c.data.Keys - {c.queue[0].key};
      assert |c.data.Keys| == |c.data| && |PopF(c).data.Keys| == |PopF(c).data|;
    }
  }

  // ---------- Whole histories ----------

  datatype Op<V> = Add(key: string, value: V, now: int) | Clean(now: int)

  function Now<V>(op: Op<V>): int {
    op.now
  }

  /** One operation on the cache. */
  ghost predicate Step<V>(ttl: int, c: Contents<V>, op: Op<V>, c': Contents<V>) {
    match op
    case Add(key, value, now) => c' == AddF(c, key, value, now + ttl)
    case Clean(now) => Cleaned(c, c', now) && exists n :: Popped(c, c', n)
  }

  /** k is stored with value v and will expire at time e. */
  ghost predicate Holds<V>(c: Contents<V>, k: string, v: V, e: int) {
    k in c.data && c.data[k] == v && CleanupEntry(k, e) in c.queue
  }

  lemma {:induction false} StepKeepsValue<V>(ttl: int, c: Contents<V>, op: Op<V>, c': Contents<V>, k: string, v: V, e: int)
    requires Step(ttl, c, op, c') && Holds(c, k, v, e) && Now(op) <= e
    ensures Holds(c', k, v, e)
  {
    if op.Clean? {
      var i :| 0 <= i < |c.queue| && c.queue[i] == CleanupEntry(k, e);
      var n :| Popped(c, c', n);
      assert i >= n;
      assert c'.queue[i - n] == c.queue[i];
    }
  }

  /** A stored value is returned, and not replaced, by every operation until its time to live has passed. */
  lemma {:induction false} ValueStays<V>(ttl: int, states: seq<Contents<V>>, ops: seq<Op<V>>, n: nat, k: string, v: V, e: int)
    requires |states| == |ops| + 1 && n <= |ops|
    requires forall i :: 0 <= i < |ops| ==> Step(ttl, states[i], ops[i], states[i + 1])
    requires forall i :: 0 <= i < n ==> Now(ops[i]) <= e
    requires Holds(states[0], k, v, e)
    ensures Holds(states[n], k, v, e)
  {
    if n > 0 {
      ValueStays(ttl, states, ops, n - 1, k, v, e);
      StepKeepsValue(ttl, states[n - 1], ops[n - 1], states[n], k, v, e);
    }
  }

  /** Right after it is added, a new key holds its value until ttl later. */
  lemma {:induction false} AddHolds<V>(ttl: int, c: Contents<V>, key: string, value: V, now: int)
    requires key !in c.data
    ensures Holds(AddF(c, key, value, now + ttl), key, value, now + ttl)
  {
    assert AddF(c, key, value, now + ttl).queue[|c.queue|] == CleanupEntry(key, now + ttl);
  }

  /** A value added under a new key is there after every history of operations until ttl after it was added. */
  lemma {:induction false} AddedStays<V>(ttl: int, states: seq<Contents<V>>, ops: seq<Op<V>>, i: nat, n: nat, key: string, value: V, now: int)
    requires |states| == |ops| + 1 && i < n <= |ops|
    requires forall j :: 0 <= j < |ops| ==> Step(ttl, states[j], ops[j], states[j + 1])
    requires ops[i] == Add(key, value, now) && key !in states[i].data
    requires forall j :: i < j < n ==> Now(ops[j]) <= now + ttl
    ensures Holds(states[n], key, value, now + ttl)
  {
    AddHolds(ttl, states[i], key, value, now);
    hide Holds;
    var later, laterOps := states[i + 1..], ops[i + 1..];
    forall j | 0 <= j < |laterOps| ensures Step(ttl, later[j], laterOps[j], later[j + 1]) {
      assert Step(ttl, states[i + 1 + j], ops[i + 1 + j], states[i + 1 + j + 1]);
    }
    ValueStays(ttl, later, laterOps, n - i - 1, key, value, now + ttl);
  }
}
