/** The guarantee that a span cache gives its clients, and the aggregator as a client. */
module Reservations {
  import opened Wrappers

  type Uid = int
  type Byte = x: int | 0 <= x < 256
  type Data = seq<Byte>

  /** An entry from its reservation on; it is named by the uid of the reservation. */
  datatype Lifetime = Lifetime(key: string, value: Option<Data>)

  type Lifetimes = map<Uid, Lifetime>

  datatype Event =
    | Reserve(key: string, uid: Uid)               // a reservation is made
    | Win(key: string, uid: Uid, value: Data)      // SetReserved succeeds with the uid of a reservation
    | Fetch(key: string, uid: Uid, value: Data)    // an initialized entry is returned
    | Quiet

  /** Uids are new, a reservation is won at most once, and what is fetched is what was won. */
  ghost predicate Follows(a: Lifetimes, e: Event, b: Lifetimes) {
    match e
    case Reserve(key, uid) => uid !in a && b == a[uid := Lifetime(key, None)]
    case Win(key, uid, value) => uid in a && a[uid] == Lifetime(key, None) && b == a[uid := Lifetime(key, Some(value))]
    case Fetch(key, uid, value) => uid in a && a[uid] == Lifetime(key, Some(value)) && b == a
    case Quiet => b == a
  }

  /** Lifetimes are never forgotten, and a value that has been set stays. */
  predicate Extends(a: Lifetimes, b: Lifetimes) {
    forall u :: u in a ==> u in b && b[u].key == a[u].key && (a[u].value.Some? ==> b[u] == a[u])
  }

  lemma {:induction false} FollowsExtends(a: Lifetimes, e: Event, b: Lifetimes)
    requires Follows(a, e, b)
    ensures Extends(a, b)
  {
  }

  ghost predicate Accepts(a: Lifetimes, log: seq<Event>, b: Lifetimes)
    decreases |log|, 1
  {
    if log == [] then a == b else exists m :: Via(a, log, m, b)
  }

  /** m comes before the last event. */
  ghost predicate Via(a: Lifetimes, log: seq<Event>, m: Lifetimes, b: Lifetimes)
    requires log != []
    decreases |log|, 0
  {
    Accepts(a, log[..|log| - 1], m) && Follows(m, log[|log| - 1], b)
  }

  lemma {:induction false} WonBefore(a: Lifetimes, log: seq<Event>, b: Lifetimes, i: nat)
    requires Accepts(a, log, b) && i < |log| && log[i].Win?
    ensures log[i].uid in b && b[log[i].uid] == Lifetime(log[i].key, Some(log[i].value))
    decreases |log|
  {
    var n := |log| - 1;
    var m :| Via(a, log, m, b);
    if i < n {
      WonBefore(a, log[..n], m, i);
      FollowsExtends(m, log[n], b);
    }
  }

  /** In any history that a cache may show, each reservation is won at most once. */
  lemma {:induction false} WonOnce(a: Lifetimes, log: seq<Event>, b: Lifetimes, i: nat, j: nat)
    requires Accepts(a, log, b) && i < j < |log| && log[i].Win? && log[j].Win?
    ensures log[i].uid != log[j].uid
    decreases |log|
  {
    var n := |log| - 1;
    var m :| Via(a, log, m, b);
    if j < n {
      WonOnce(a, log[..n], m, i, j);
    } else {
      WonBefore(a, log[..n], m, i);
    }
  }

  /** Everything fetched after a reservation was won is the value it was won with. */
  lemma {:induction false} FetchesAgree(a: Lifetimes, log: seq<Event>, b: Lifetimes, i: nat, j: nat)
    requires Accepts(a, log, b) && i < j < |log| && log[i].Win? && log[j].Fetch? && log[i].uid == log[j].uid
    ensures log[i].value == log[j].value && log[i].key == log[j].key
    decreases |log|
  {
    var n := |log| - 1;
    var m :| Via(a, log, m, b);
    if j < n {
      FetchesAgree(a, log[..n], m, i, j);
    } else {
      WonBefore(a, log[..n], m, i);
    }
  }

  // ---------- The aggregator ----------

  /** One call of GetOrCreatePseudoSpan; a span is identified with its serialized context. */
  datatype Caller =
    | Asking(key: string, pending: Option<Uid>)                    // in fetchOrReserve; pending once a reservation is made for it
    | Holding(key: string, uid: Uid)                               // the reservation has been returned
    | Created(key: string, uid: Uid, span: Data)                   // CreatePseudoSpan is done, SetReserved is not
    | Returned(key: string, uid: Uid, span: Data, isNew: bool)     // uid: the lifetime the span is from
    | Failed

  /** What a caller does around one cache event. */
  ghost predicate Moves(c: Caller, e: Event, c': Caller) {
    match c
    case Asking(key, None) =>
      || (e.Reserve? && e.key == key && c' == Asking(key, Some(e.uid)))
      || (e.Fetch? && e.key == key && c' == Returned(key, e.uid, e.value, false))
      || (e.Quiet? && (c' == c || c' == Failed))                          // retried while reserved by another, or given up
    case Asking(key, Some(uid)) =>
      || (e.Fetch? && e.key == key && c' == Returned(key, e.uid, e.value, false))
      || (e.Quiet? && (c' == c || c' == Holding(key, uid) || c' == Failed))
    case Holding(key, uid) =>
      e.Quiet? && (c' == c || c' == Failed || exists span :: c' == Created(key, uid, span))
    case Created(key, uid, span) =>
      || (e == Win(key, uid, span) && (c' == Returned(key, uid, span, true) || c' == Failed))
      || (e.Quiet? && (c' == c || c' == Failed))
    case _ => e.Quiet? && c' == c
  }

  datatype System = System(cache: Lifetimes, callers: seq<Caller>)

  /** One cache event, caused by caller t or, if there is no such caller, by somebody else. */
  ghost predicate SystemStep(a: System, t: nat, e: Event, b: System) {
    && |a.callers| == |b.callers| && Follows(a.cache, e, b.cache)
    && (t < |a.callers| ==> Moves(a.callers[t], e, b.callers[t]))
    && forall i :: 0 <= i < |a.callers| && i != t ==> b.callers[i] == a.callers[i]
  }

  /** The reservation that a caller was given and no other caller was. */
  function Given(c: Caller): Option<Uid> {
    match c
    case Asking(_, pending) => pending
    case Holding(_, uid) => Some(uid)
    case Created(_, uid, _) => Some(uid)
    case Returned(_, uid, _, isNew) => if isNew then Some(uid) else None
    case Failed => None
  }

  ghost predicate CallerOk(cache: Lifetimes, c: Caller) {
    && (Given(c).Some? ==> Given(c).value in cache)
    && (c.Returned? ==> c.uid in cache && cache[c.uid] == Lifetime(c.key, Some(c.span)))
  }

  ghost predicate SystemOk(s: System) {
    && (forall i :: 0 <= i < |s.callers| ==> CallerOk(s.cache, s.callers[i]))
    && forall i, j :: 0 <= i < j < |s.callers| && Given(s.callers[i]).Some? ==> Given(s.callers[i]) != Given(s.callers[j])
  }

  lemma {:induction false} StepKeepsOk(a: System, t: nat, e: Event, b: System)
    requires SystemOk(a) && SystemStep(a, t, e, b)
    ensures SystemOk(b)
  {
    FollowsExtends(a.cache, e, b.cache);
    forall i | 0 <= i < |b.callers| ensures CallerOk(b.cache, b.callers[i]) {
      assert CallerOk(a.cache, a.callers[i]);
    }
    assert t < |b.callers| ==> Given(b.callers[t]) == None || Given(b.callers[t]) == Given(a.callers[t]) || (e.Reserve? && Given(b.callers[t]) == Some(e.uid));
    forall i, j | 0 <= i < j < |b.callers| && Given(b.callers[i]).Some? ensures Given(b.callers[i]) != Given(b.callers[j]) {
      assert CallerOk(a.cache, a.callers[i]) && CallerOk(a.cache, a.callers[j]);
    }
  }

  ghost predicate Linked(a: System, b: System) {
    exists t: nat, e :: SystemStep(a, t, e, b)
  }

  ghost predicate SystemRun(run: seq<System>) {
    && run != [] && run[0].cache == map[] && (forall i :: 0 <= i < |run[0].callers| ==> run[0].callers[i].Asking? && run[0].callers[i].pending == None)
    && forall i, j :: 0 <= i < |run| && j == i + 1 && j < |run| ==> Linked(run[i], run[j])
  }

  lemma {:induction false} RunKeepsOk(run: seq<System>, n: nat)
    requires SystemRun(run) && n < |run|
    ensures SystemOk(run[n])
  {
    if n > 0 {
      RunKeepsOk(run, n - 1);
      assert Linked(run[n - 1], run[n]);
      var t: nat, e :| SystemStep(run[n - 1], t, e, run[n]);
      StepKeepsOk(run[n - 1], t, e, run[n]);
    }
  }

  /**
   A caller that is answered finds its span new exactly when it has just won its own reservation with it; otherwise it was given what
   had been won with that reservation. Nobody's answer changes later.
   */
  lemma {:induction false} NewExactlyByWinning(a: System, t: nat, e: Event, b: System, i: nat)
    requires SystemOk(a) && SystemStep(a, t, e, b) && i < |b.callers| && b.callers[i].Returned?
    ensures a.callers[i].Returned? ==> b.callers[i] == a.callers[i]
    ensures !a.callers[i].Returned? ==> i == t && (PublishesLinkJob(b.callers[i]) <==> e == Win(b.callers[i].key, b.callers[i].uid, b.callers[i].span))
    ensures !a.callers[i].Returned? && !PublishesLinkJob(b.callers[i]) ==> e == Fetch(b.callers[i].key, b.callers[i].uid, b.callers[i].span)
    ensures !a.callers[i].Returned? && PublishesLinkJob(b.callers[i]) ==> a.callers[i] == Created(b.callers[i].key, b.callers[i].uid, b.callers[i].span)
  {
  }

  // ---------- The history of a run ----------

  ghost predicate Causes(a: System, e: Event, b: System) {
    exists t: nat :: SystemStep(a, t, e, b)
  }

  /** The event of every step of a run. */
  ghost predicate Logs(run: seq<System>, log: seq<Event>) {
    |run| == |log| + 1 && forall k :: 0 <= k < |log| ==> Causes(run[k], log[k], run[k + 1])
  }

  /** The events of a run are a history that a cache may show. */
  lemma {:induction false} LogAccepted(run: seq<System>, log: seq<Event>, n: nat)
    requires SystemRun(run) && Logs(run, log) && n <= |log|
    ensures Accepts(map[], log[..n], run[n].cache)
  {
    if n > 0 {
      LogAccepted(run, log, n - 1);
      assert log[..n][..n - 1] == log[..n - 1];
      assert Causes(run[n - 1], log[n - 1], run[n]);
      assert Via(map[], log[..n], run[n - 1].cache, run[n].cache);
    }
  }

  ghost function SomeEvent(a: System, b: System): (e: Event)
    ensures Linked(a, b) ==> Causes(a, e, b)
  {
    if Linked(a, b) then
      var t: nat, e :| SystemStep(a, t, e, b);
      e
    else
      Quiet
  }

  lemma {:induction false} RunLinked(run: seq<System>, k: nat)
    requires SystemRun(run) && k + 1 < |run|
    ensures Linked(run[k], run[k + 1])
  {
  }

  /** A log that has two given events of a run. */
  lemma {:induction false} LogWith(run: seq<System>, i: nat, e: Event, j: nat, f: Event) returns (log: seq<Event>)
    requires SystemRun(run) && i < j && j + 1 < |run| && Causes(run[i], e, run[i + 1]) && Causes(run[j], f, run[j + 1])
    ensures Logs(run, log) && log[i] == e && log[j] == f
  {
    hide SystemRun, SystemStep;
    log := seq(|run| - 1, k requires 0 <= k < |run| - 1 => if k == i then e else if k == j then f else SomeEvent(run[k], run[k + 1]));
    forall k | 0 <= k < |log| ensures Causes(run[k], log[k], run[k + 1]) {
      RunLinked(run, k);
    }
  }

  /** After a reservation has been won it is not won again, and what is fetched of it is what it was won with. */
  predicate AfterWin(e: Event, f: Event) {
    e.Win? ==> (f.Win? ==> f.uid != e.uid) && (f.Fetch? && f.uid == e.uid ==> f.value == e.value && f.key == e.key)
  }

  /** In every run a reservation is won at most once, and what is fetched after that is what it was won with. */
  lemma {:induction false} RunWinsOnce(run: seq<System>, i: nat, e: Event, j: nat, f: Event)
    requires SystemRun(run) && i < j && j + 1 < |run| && Causes(run[i], e, run[i + 1]) && Causes(run[j], f, run[j + 1])
    ensures AfterWin(e, f)
  {
    var log := LogWith(run, i, e, j, f);
    LogAccepted(run, log, |log|);
    assert log[..|log|] == log;
    if e.Win? && f.Win? {
      WonOnce(map[], log, run[|log|].cache, i, j);
    } else if e.Win? && f.Fetch? && f.uid == e.uid {
      FetchesAgree(map[], log, run[|log|].cache, i, j);
    }
  }

  /** Whether EnsureObjectSpan publishes a link job for this call. */
  predicate PublishesLinkJob(c: Caller) {
    c.Returned? && c.isNew
  }

  /**
   In every run at most one caller per lifetime of an entry finds its span new and publishes a link job, and all callers that are
   answered from that lifetime get the same span.
   */
  lemma {:induction false} OneCreatorPerLifetime(run: seq<System>, n: nat, i: nat, j: nat)
    requires SystemRun(run) && n < |run| && i < |run[n].callers| && j < |run[n].callers|
    requires run[n].callers[i].Returned? && run[n].callers[j].Returned? && run[n].callers[i].uid == run[n].callers[j].uid
    ensures run[n].callers[i].span == run[n].callers[j].span && run[n].callers[i].key == run[n].callers[j].key
    ensures PublishesLinkJob(run[n].callers[i]) && PublishesLinkJob(run[n].callers[j]) ==> i == j
  {
    RunKeepsOk(run, n);
    assert CallerOk(run[n].cache, run[n].callers[i]) && CallerOk(run[n].cache, run[n].callers[j]);
  }
}
