/** The local span cache: entries under two levels of locks, with expiry and trimming. */
module LocalCache {
  import opened Wrappers
  import opened Reservations

  /** An entry object; first is the uid it was created with, key the key it was created for. */
  datatype Entry = Entry(key: string, first: Uid, value: Option<Data>, expiry: int, uid: Uid)

  /** A call between its two critical sections: the entry was looked up under entriesLock and is next locked itself. */
  datatype Call =
    | Reserving(entry: nat, isInsert: bool)
    | Setting(entry: nat, value: Data, lastUid: Uid)

  /** pool holds every entry object ever made; entries says which are in the map. */
  datatype State = State(now: int, entries: map<string, nat>, pool: seq<Entry>, calls: map<nat, Call>)

  datatype Step =
    | Tick(d: nat)
    | TrimOne(key: string)
    | BeginFetchOrReserve(t: nat, key: string, expiry: int, uid: Uid)
    | EndFetchOrReserve(t: nat)
    | BeginSet(t: nat, key: string, value: Data, lastUid: Uid)
    | EndSet(t: nat, expiry: int, newUid: Uid)
    | FetchEntry(entry: nat)

  datatype Response =
    | Pending
    | NewReservation(uid: Uid)
    | Value(value: Data, first: Uid)
    | AlreadyReserved
    | SetDone
    | InvalidKey
    | UidMismatch

  datatype Outcome = Outcome(state: State, event: Event, response: Response)

  predicate Known(s: State, uid: Uid) {
    exists i :: 0 <= i < |s.pool| && s.pool[i].first == uid
  }

  /** The steps that can be taken; random uids are taken not to repeat. */
  predicate Enabled(s: State, step: Step) {
    match step
    case Tick(_) => true
    case TrimOne(key) => key in s.entries && s.entries[key] < |s.pool| && s.pool[s.entries[key]].expiry < s.now
    case BeginFetchOrReserve(t, key, _, uid) => t !in s.calls && !Known(s, uid) && (key in s.entries ==> s.entries[key] < |s.pool|)
    case EndFetchOrReserve(t) => t in s.calls && s.calls[t].Reserving? && s.calls[t].entry < |s.pool|
    case BeginSet(t, key, _, _) => t !in s.calls && (key in s.entries ==> s.entries[key] < |s.pool|)
    case EndSet(t, _, newUid) => t in s.calls && s.calls[t].Setting? && s.calls[t].entry < |s.pool|
    case FetchEntry(entry) => entry < |s.pool|
  }

  function Apply(s: State, step: Step): Outcome
    requires Enabled(s, step)
  {
    match step
    case Tick(d) => Outcome(s.(now := s.now + d), Quiet, Pending)
    case TrimOne(key) => Outcome(s.(entries := s.entries - {key}), Quiet, Pending)
    case BeginFetchOrReserve(t, key, expiry, uid) =>
      if key in s.entries then
        Outcome(s.(calls := s.calls[t := Reserving(s.entries[key], false)]), Quiet, Pending)
      else
        var n := |s.pool|;
        Outcome(s.(entries := s.entries[key := n], pool := s.pool + [Entry(key, uid, None, expiry, uid)], calls := s.calls[t := Reserving(n, true)]),
                Reserve(key, uid), Pending)
    case EndFetchOrReserve(t) =>
      var ent := s.pool[s.calls[t].entry];
      var s' := s.(calls := s.calls - {t});
      if ent.value.Some? then Outcome(s', Fetch(ent.key, ent.first, ent.value.value), Value(ent.value.value, ent.first))
      else if !s.calls[t].isInsert then Outcome(s', Quiet, AlreadyReserved)
      else Outcome(s', Quiet, NewReservation(ent.uid))
    case BeginSet(t, key, value, lastUid) =>
      if key !in s.entries then Outcome(s, Quiet, InvalidKey)
      else Outcome(s.(calls := s.calls[t := Setting(s.entries[key], value, lastUid)]), Quiet, Pending)
    case EndSet(t, expiry, newUid) =>
      var n := s.calls[t].entry;
      var ent := s.pool[n];
      var s' := s.(calls := s.calls - {t});
      if ent.value.Some? || ent.expiry < s.now then Outcome(s', Quiet, InvalidKey)
      else if ent.uid != s.calls[t].lastUid then Outcome(s', Quiet, UidMismatch)
      else Outcome(s'.(pool := s.pool[n := ent.(expiry := expiry, value := Some(s.calls[t].value), uid := newUid)]),
                   Win(ent.key, s.calls[t].lastUid, s.calls[t].value), SetDone)
    case FetchEntry(entry) =>
      var ent := s.pool[entry];
      Outcome(s, if ent.value.Some? then Fetch(ent.key, ent.first, ent.value.value) else Quiet,
              if ent.value.Some? then Value(ent.value.value, ent.first) else Pending)
  }

  /** The entry that was created with a uid. */
  function Abs(pool: seq<Entry>): Lifetimes {
    if pool == [] then map[] else
      var e := pool[|pool| - 1];
      Abs(pool[..|pool| - 1])[e.first := Lifetime(e.key, e.value)]
  }

  ghost predicate Distinct(pool: seq<Entry>) {
    forall i, j :: 0 <= i < j < |pool| ==> pool[i].first != pool[j].first
  }

  lemma {:induction false} AbsAt(pool: seq<Entry>, i: nat)
    requires Distinct(pool) && i < |pool|
    ensures pool[i].first in Abs(pool) && Abs(pool)[pool[i].first] == Lifetime(pool[i].key, pool[i].value)
  {
    if i < |pool| - 1 {
      AbsAt(pool[..|pool| - 1], i);
    }
  }

  lemma {:induction false} AbsOnly(pool: seq<Entry>, u: Uid)
    requires u in Abs(pool)
    ensures exists i :: 0 <= i < |pool| && pool[i].first == u
  {
    var n := |pool| - 1;
    if u != pool[n].first {
      AbsOnly(pool[..n], u);
      var i :| 0 <= i < |pool[..n]| && pool[..n][i].first == u;
      assert pool[i].first == u;
    }
  }

  lemma {:induction false} AbsUpdate(pool: seq<Entry>, i: nat, e: Entry)
    requires Distinct(pool) && i < |pool| && e.first == pool[i].first
    ensures Abs(pool[i := e]) == Abs(pool)[e.first := Lifetime(e.key, e.value)]
  {
    var n := |pool| - 1;
    if i == n {
      assert pool[i := e][..n] == pool[..n];
    } else {
      assert pool[i := e][..n] == pool[..n][i := e];
      AbsUpdate(pool[..n], i, e);
    }
  }

  /** An entry that has left the map has expired for good; a reservation that has not been set has the uid it was created with. */
  ghost predicate Ok(s: State) {
    && Distinct(s.pool)
    && (forall key :: key in s.entries ==> s.entries[key] < |s.pool| && s.pool[s.entries[key]].key == key)
    && (forall i :: 0 <= i < |s.pool| && s.pool[i].value == None ==> s.pool[i].uid == s.pool[i].first)
    && (forall i :: 0 <= i < |s.pool| && !InMap(s, i) ==> s.pool[i].expiry < s.now)
    && (forall t :: t in s.calls ==> s.calls[t].entry < |s.pool|)
  }

  predicate InMap(s: State, i: nat)
    requires i < |s.pool|
  {
    s.pool[i].key in s.entries && s.entries[s.pool[i].key] == i
  }

  lemma {:induction false} AbsInsert(pool: seq<Entry>, e: Entry)
    requires forall i :: 0 <= i < |pool| ==> pool[i].first != e.first
    ensures e.first !in Abs(pool) && Abs(pool + [e]) == Abs(pool)[e.first := Lifetime(e.key, e.value)]
  {
    assert (pool + [e])[..|pool|] == pool;
    if e.first in Abs(pool) {
      AbsOnly(pool, e.first);
    }
  }

  lemma {:induction false} InsertDetached(s: State, s': State, key: string)
    requires forall i :: 0 <= i < |s.pool| && !InMap(s, i) ==> s.pool[i].expiry < s.now
    requires key !in s.entries && s'.now == s.now && s'.entries == s.entries[key := |s.pool|]
    requires |s'.pool| == |s.pool| + 1 && s'.pool[..|s.pool|] == s.pool && s'.pool[|s.pool|].key == key
    ensures forall i :: 0 <= i < |s'.pool| && !InMap(s', i) ==> s'.pool[i].expiry < s'.now
  {
    forall i | 0 <= i < |s'.pool| && !InMap(s', i) ensures s'.pool[i].expiry < s.now {
      assert i < |s.pool| && s'.pool[i] == s.pool[i];
      assert !InMap(s, i);
    }
  }

  lemma {:induction false} InsertRefines(s: State, t: nat, key: string, expiry: int, uid: Uid)
    requires Ok(s) && Enabled(s, BeginFetchOrReserve(t, key, expiry, uid)) && key !in s.entries
    ensures var o := Apply(s, BeginFetchOrReserve(t, key, expiry, uid)); Ok(o.state) && Follows(Abs(s.pool), o.event, Abs(o.state.pool))
  {
    var o := Apply(s, BeginFetchOrReserve(t, key, expiry, uid));
    AbsInsert(s.pool, o.state.pool[|s.pool|]);
    InsertDetached(s, o.state, key);
  }

  lemma {:induction false} SetRefines(s: State, t: nat, expiry: int, newUid: Uid)
    requires Ok(s) && Enabled(s, EndSet(t, expiry, newUid)) && Apply(s, EndSet(t, expiry, newUid)).response == SetDone
    ensures var o := Apply(s, EndSet(t, expiry, newUid)); Ok(o.state) && Follows(Abs(s.pool), o.event, Abs(o.state.pool))
  {
    var o, n := Apply(s, EndSet(t, expiry, newUid)), s.calls[t].entry;
    AbsAt(s.pool, n);
    AbsUpdate(s.pool, n, o.state.pool[n]);
    assert InMap(s, n);
    forall i | 0 <= i < |o.state.pool| && !InMap(o.state, i) ensures o.state.pool[i].expiry < s.now {
      assert i != n && !InMap(s, i);
    }
  }

  lemma {:induction false} CallsKeepOk(s: State, calls: map<nat, Call>)
    requires Ok(s) && forall t :: t in calls ==> calls[t].entry < |s.pool|
    ensures Ok(s.(calls := calls))
  {
    assert forall i :: 0 <= i < |s.pool| ==> (InMap(s.(calls := calls), i) <==> InMap(s, i));
  }

  lemma {:induction false} TickKeepsOk(s: State, d: nat)
    requires Ok(s)
    ensures Ok(s.(now := s.now + d))
  {
    assert forall i :: 0 <= i < |s.pool| ==> (InMap(s.(now := s.now + d), i) <==> InMap(s, i));
  }

  lemma {:induction false} OkFacts(s: State)
    requires Ok(s)
    ensures Distinct(s.pool) && forall t :: t in s.calls ==> s.calls[t].entry < |s.pool|
  {
  }

  /** Every step keeps the cache in order and is one that the guarantee allows. */
  lemma {:induction false} StepRefines(s: State, step: Step)
    requires Ok(s) && Enabled(s, step)
    ensures var o := Apply(s, step); Ok(o.state) && Follows(Abs(s.pool), o.event, Abs(o.state.pool))
  {
    hide Abs, Ok, Distinct;
    OkFacts(s);
    match step
    case Tick(d) => TickKeepsOk(s, d);
    case TrimOne(key) => TrimRefines(s, key);
    case BeginFetchOrReserve(t, key, expiry, uid) =>
      if key in s.entries {
        CallsKeepOk(s, s.calls[t := Reserving(s.entries[key], false)]);
      } else {
        InsertRefines(s, t, key, expiry, uid);
      }
    case EndFetchOrReserve(t) =>
      AbsAt(s.pool, s.calls[t].entry);
      CallsKeepOk(s, s.calls - {t});
    case BeginSet(t, key, value, lastUid) =>
      if key in s.entries {
        CallsKeepOk(s, s.calls[t := Setting(s.entries[key], value, lastUid)]);
      }
    case EndSet(t, expiry, newUid) =>
      if Apply(s, step).response == SetDone {
        SetRefines(s, t, expiry, newUid);
      } else {
        CallsKeepOk(s, s.calls - {t});
      }
    case FetchEntry(entry) => AbsAt(s.pool, entry);
  }

  lemma {:induction false} TrimRefines(s: State, key: string)
    requires Ok(s) && Enabled(s, TrimOne(key))
    ensures Ok(Apply(s, TrimOne(key)).state)
  {
    var s' := Apply(s, TrimOne(key)).state;
    forall i | 0 <= i < |s'.pool| && !InMap(s', i) ensures s'.pool[i].expiry < s.now {
      assert !InMap(s, i) || i == s.entries[key];
    }
  }

  /** A reservation can be won only while it is in the map and has not expired. */
  lemma {:induction false} WinsWhileLive(s: State, step: Step)
    requires Ok(s) && Enabled(s, step) && Apply(s, step).event.Win?
    ensures step.EndSet? && InMap(s, s.calls[step.t].entry) && s.pool[s.calls[step.t].entry].expiry >= s.now
  {
  }

  /** While an entry has not expired, no reservation is made for its key. */
  lemma {:induction false} LiveKeepsKey(s: State, step: Step, i: nat)
    requires Ok(s) && Enabled(s, step) && i < |s.pool| && s.pool[i].expiry >= s.now
    ensures Apply(s, step).event.Reserve? ==> Apply(s, step).event.key != s.pool[i].key
  {
  }

  /** Both critical sections of FetchOrReserve, with nothing in between. */
  function FetchOrReserve(s: State, t: nat, key: string, expiry: int, uid: Uid): Outcome
    requires Enabled(s, BeginFetchOrReserve(t, key, expiry, uid))
  {
    Apply(Apply(s, BeginFetchOrReserve(t, key, expiry, uid)).state, EndFetchOrReserve(t))
  }

  /** Both critical sections of SetReserved; the second is left out for a key that is not in the map. */
  function SetReserved(s: State, t: nat, key: string, value: Data, lastUid: Uid, expiry: int, newUid: Uid): Outcome
    requires Enabled(s, BeginSet(t, key, value, lastUid))
  {
    var begun := Apply(s, BeginSet(t, key, value, lastUid));
    if key in s.entries then Apply(begun.state, EndSet(t, expiry, newUid)) else begun
  }

  /** The entry in the map under key. */
  predicate Has(s: State, key: string, e: Entry) {
    key in s.entries && s.entries[key] < |s.pool| && s.pool[s.entries[key]] == e
  }

  /** Any steps of any callers, with time passing and trimming between them. */
  ghost predicate History(h: seq<State>, steps: seq<Step>) {
    |h| == |steps| + 1 && forall i :: 0 <= i < |steps| ==> Enabled(h[i], steps[i]) && h[i + 1] == Apply(h[i], steps[i]).state
  }

  /** Nobody sets the entry that was reserved with uid. */
  ghost predicate NobodyWins(h: seq<State>, steps: seq<Step>, uid: Uid)
    requires History(h, steps)
  {
    forall i :: 0 <= i < |steps| ==> !Wins(h[i], steps[i], uid)
  }

  predicate Wins(s: State, step: Step, uid: Uid)
    requires Enabled(s, step)
  {
    var e := Apply(s, step).event;
    e.Win? && e.uid == uid
  }

  predicate Until(h: seq<State>, expiry: int) {
    forall i :: 0 <= i < |h| ==> h[i].now <= expiry
  }

  /** An entry that has not expired, and that has been set or is not set now, stays as it is. */
  lemma {:induction false} StepKeepsEntry(s: State, step: Step, key: string, e: Entry)
    requires Ok(s) && Enabled(s, step) && Has(s, key, e) && s.now <= e.expiry && (e.value.Some? || !Wins(s, step, e.first))
    ensures Has(Apply(s, step).state, key, e)
  {
  }

  lemma {:induction false} HistoryKeepsEntry(h: seq<State>, steps: seq<Step>, n: nat, key: string, e: Entry)
    requires History(h, steps) && n <= |steps| && Ok(h[0]) && Has(h[0], key, e) && Until(h, e.expiry) && (e.value.Some? || NobodyWins(h, steps, e.first))
    ensures Ok(h[n]) && Has(h[n], key, e)
  {
    hide Ok, Has, Apply, Enabled;
    if n > 0 {
      HistoryKeepsEntry(h, steps, n - 1, key, e);
      StepRefines(h[n - 1], steps[n - 1]);
      StepKeepsEntry(h[n - 1], steps[n - 1], key, e);
    }
  }

  /** A key that is not in the map is reserved for the caller. */
  lemma {:induction false} AbsentIsReserved(s: State, t: nat, key: string, expiry: int, uid: Uid)
    requires Ok(s) && Enabled(s, BeginFetchOrReserve(t, key, expiry, uid)) && key !in s.entries
    ensures var o := FetchOrReserve(s, t, key, expiry, uid);
            o.response == NewReservation(uid) && Has(o.state, key, Entry(key, uid, None, expiry, uid)) && Ok(o.state)
  {
    hide Ok;
    var begun := Apply(s, BeginFetchOrReserve(t, key, expiry, uid)).state;
    StepRefines(s, BeginFetchOrReserve(t, key, expiry, uid));
    StepRefines(begun, EndFetchOrReserve(t));
  }

  /** A key in the map is answered with its value, or before it is set the caller is told to wait. */
  ghost predicate Answers(s: State, key: string, e: Entry) {
    forall t, expiry, uid :: Enabled(s, BeginFetchOrReserve(t, key, expiry, uid)) ==>
      FetchOrReserve(s, t, key, expiry, uid).response == if e.value.Some? then Value(e.value.value, e.first) else AlreadyReserved
  }

  lemma {:induction false} PresentAnswers(s: State, key: string, e: Entry)
    requires Has(s, key, e)
    ensures Answers(s, key, e)
  {
  }

  /** Who sets a reserved entry with its uid before it expires succeeds, and the entry has the value. */
  lemma {:induction false} HolderSets(s: State, t: nat, key: string, value: Data, expiry: int, newUid: Uid, e: Entry)
    requires Ok(s) && Has(s, key, e) && Enabled(s, BeginSet(t, key, value, e.uid)) && e.value == None && e.expiry >= s.now
    ensures var o := SetReserved(s, t, key, value, e.uid, expiry, newUid);
            o.response == SetDone && Has(o.state, key, e.(value := Some(value), expiry := expiry, uid := newUid)) && Ok(o.state)
  {
    hide Ok;
    var begun := Apply(s, BeginSet(t, key, value, e.uid)).state;
    StepRefines(s, BeginSet(t, key, value, e.uid));
    StepRefines(begun, EndSet(t, expiry, newUid));
  }

  /**
   A key that is not in the map is reserved for who asks. Whatever steps follow, until it expires others are told to wait, unless
   somebody wins with that uid; who has the uid sets it; and whatever steps follow then, until the new expiry all are answered with the value.
   */
  lemma {:induction false} ReserveSetFetch(s: State, t: nat, key: string, expiry: int, uid: Uid, h: seq<State>, steps: seq<Step>,
                                           t': nat, value: Data, expiry': int, newUid: Uid, h': seq<State>, steps': seq<Step>)
    requires Ok(s) && Enabled(s, BeginFetchOrReserve(t, key, expiry, uid)) && key !in s.entries
    requires History(h, steps) && h[0] == FetchOrReserve(s, t, key, expiry, uid).state && Until(h, expiry) && NobodyWins(h, steps, uid)
    requires Enabled(h[|steps|], BeginSet(t', key, value, uid))
    requires History(h', steps') && h'[0] == SetReserved(h[|steps|], t', key, value, uid, expiry', newUid).state && Until(h', expiry')
    ensures FetchOrReserve(s, t, key, expiry, uid).response == NewReservation(uid)
    ensures Answers(h[|steps|], key, Entry(key, uid, None, expiry, uid))
    ensures SetReserved(h[|steps|], t', key, value, uid, expiry', newUid).response == SetDone
    ensures Answers(h'[|steps'|], key, Entry(key, uid, Some(value), expiry', newUid))
  {
    hide Ok, Has, Apply, Enabled, Answers, FetchOrReserve, SetReserved;
    var e, e' := Entry(key, uid, None, expiry, uid), Entry(key, uid, Some(value), expiry', newUid);
    AbsentIsReserved(s, t, key, expiry, uid);
    HistoryKeepsEntry(h, steps, |steps|, key, e);
    PresentAnswers(h[|steps|], key, e);
    HolderSets(h[|steps|], t', key, value, expiry', newUid, e);
    HistoryKeepsEntry(h', steps', |steps'|, key, e');
    PresentAnswers(h'[|steps'|], key, e');
  }

  // ---------- The aggregator over the local cache ----------

  datatype LocalSystem = LocalSystem(cache: State, callers: seq<Caller>)

  /** What caller t makes of a step of its own; reserving may be retried or given up, and a failed SetReserved gives up. */
  ghost predicate Reacts(s: State, step: Step, t: nat, c: Caller, c': Caller)
    requires Enabled(s, step)
  {
    var r := Apply(s, step).response;
    match step
    case BeginFetchOrReserve(t', key, _, uid) =>
      t' == t && c.Asking? && c.key == key && c' == if key in s.entries then c else Asking(key, Some(uid))
    case EndFetchOrReserve(t') =>
      t' == t && c.Asking? &&
      (match r
       case NewReservation(uid) => c' == Holding(c.key, uid)
       case Value(v, first) => c' == Returned(c.key, first, v, false)
       case _ => c' == c || c' == Failed)
    case BeginSet(t', key, value, lastUid) =>
      t' == t && c == Created(key, lastUid, value) && c' == if r == InvalidKey then Failed else c
    case EndSet(t', _, _) =>
      t' == t && c.Created? && c' == if r == SetDone then Returned(c.key, c.uid, c.span, true) else Failed
    case _ => false
  }

  /** The call that a caller has under way belongs to it. */
  ghost predicate Engaged(s: State, t: nat, c: Caller) {
    if t !in s.calls then c.Asking? ==> c.pending == None
    else if s.calls[t].entry >= |s.pool| then false
    else
      var ent := s.pool[s.calls[t].entry];
      match s.calls[t]
      case Reserving(_, isInsert) => c == Asking(ent.key, if isInsert then Some(ent.first) else None)
      case Setting(_, value, lastUid) => c == Created(ent.key, lastUid, value)
  }

  /** A caller takes a cache step, or a step of its own, or somebody else takes a cache step that concerns no caller. */
  ghost predicate LocalStep(a: LocalSystem, t: nat, step: Option<Step>, b: LocalSystem) {
    && |a.callers| == |b.callers| && (forall i :: 0 <= i < |a.callers| && i != t ==> b.callers[i] == a.callers[i])
    && match step
       case None =>
         t < |a.callers| && b.cache == a.cache && a.callers[t].Holding? && Moves(a.callers[t], Quiet, b.callers[t])
       case Some(st) =>
         && Enabled(a.cache, st) && b.cache == Apply(a.cache, st).state
         && if t < |a.callers| then Reacts(a.cache, st, t, a.callers[t], b.callers[t])
            else st.Tick? || st.TrimOne? || st.FetchEntry?
  }

  ghost predicate LocalOk(s: LocalSystem) {
    && Ok(s.cache) && (forall t :: t in s.cache.calls ==> t < |s.callers|)
    && forall i :: 0 <= i < |s.callers| ==> Engaged(s.cache, i, s.callers[i])
  }

  /** What a step shows of the cache. */
  function EventOf(a: LocalSystem, step: Option<Step>): Event
  {
    if step.Some? && Enabled(a.cache, step.value) then Apply(a.cache, step.value).event else Quiet
  }

  function AbsSystem(s: LocalSystem): System {
    System(Abs(s.cache.pool), s.callers)
  }

  lemma {:induction false} OthersEngaged(s: State, step: Step, t: nat, i: nat, c: Caller)
    requires Ok(s) && Enabled(s, step) && Engaged(s, i, c) && i != t
    requires step.Tick? || step.TrimOne? || step.FetchEntry? || step.t == t
    ensures Engaged(Apply(s, step).state, i, c)
  {
  }

  lemma {:induction false} CallerEngaged(s: State, step: Step, t: nat, c: Caller, c': Caller)
    requires Ok(s) && Enabled(s, step) && Engaged(s, t, c) && Reacts(s, step, t, c, c')
    ensures Engaged(Apply(s, step).state, t, c') && Moves(c, Apply(s, step).event, c')
  {
  }

  /** Every step of the aggregator over the local cache is a step that the guarantee allows. */
  lemma {:induction false} LocalSimulates(a: LocalSystem, t: nat, step: Option<Step>, b: LocalSystem)
    requires LocalOk(a) && LocalStep(a, t, step, b)
    ensures LocalOk(b) && SystemStep(AbsSystem(a), t, EventOf(a, step), AbsSystem(b)) && Linked(AbsSystem(a), AbsSystem(b))
  {
    match step
    case None =>
      assert SystemStep(AbsSystem(a), t, Quiet, AbsSystem(b));
    case Some(st) =>
      StepRefines(a.cache, st);
      forall i | 0 <= i < |b.callers| ensures Engaged(b.cache, i, b.callers[i]) {
        if i == t {
          CallerEngaged(a.cache, st, t, a.callers[t], b.callers[t]);
        } else {
          OthersEngaged(a.cache, st, t, i, a.callers[i]);
        }
      }
      if t < |a.callers| {
        CallerEngaged(a.cache, st, t, a.callers[t], b.callers[t]);
      }
      assert SystemStep(AbsSystem(a), t, Apply(a.cache, st).event, AbsSystem(b));
  }

  ghost predicate LocalLinked(a: LocalSystem, b: LocalSystem) {
    exists t: nat, step :: LocalStep(a, t, step, b)
  }

  ghost predicate LocalRun(run: seq<LocalSystem>) {
    && run != [] && run[0].cache.pool == [] && run[0].cache.entries == map[] && run[0].cache.calls == map[]
    && (forall i :: 0 <= i < |run[0].callers| ==> run[0].callers[i].Asking? && run[0].callers[i].pending == None)
    && forall i, j :: 0 <= i < |run| && j == i + 1 && j < |run| ==> LocalLinked(run[i], run[j])
  }

  lemma {:induction false} LocalRunOk(run: seq<LocalSystem>, n: nat)
    requires LocalRun(run) && n < |run|
    ensures LocalOk(run[n])
  {
    if n > 0 {
      LocalRunOk(run, n - 1);
      assert LocalLinked(run[n - 1], run[n]);
      var t: nat, step :| LocalStep(run[n - 1], t, step, run[n]);
      LocalSimulates(run[n - 1], t, step, run[n]);
    }
  }

  /** Every run of the aggregator over the local cache, with expiry and trimming, is one that the guarantee is proved for. */
  lemma {:induction false} LocalRunGuaranteed(run: seq<LocalSystem>)
    requires LocalRun(run)
    ensures SystemRun(seq(|run|, i requires 0 <= i < |run| => AbsSystem(run[i])))
  {
    hide Ok, LocalStep, LocalOk;
    forall i, j | 0 <= i < |run| && j == i + 1 && j < |run| ensures Linked(AbsSystem(run[i]), AbsSystem(run[j])) {
      LocalRunOk(run, i);
      assert LocalLinked(run[i], run[j]);
      var t: nat, step :| LocalStep(run[i], t, step, run[j]);
      LocalSimulates(run[i], t, step, run[j]);
    }
  }

  lemma {:induction false} LocalCauses(run: seq<LocalSystem>, i: nat, t: nat, step: Option<Step>)
    requires LocalRun(run) && i + 1 < |run| && LocalStep(run[i], t, step, run[i + 1])
    ensures Causes(AbsSystem(run[i]), EventOf(run[i], step), AbsSystem(run[i + 1]))
  {
    hide Ok, LocalOk, SystemStep, LocalRun;
    LocalRunOk(run, i);
    LocalSimulates(run[i], t, step, run[i + 1]);
  }

  /** In every run over the local cache a reservation is won at most once, and what is fetched after that is what it was won with. */
  lemma {:induction false} LocalWinsOnce(run: seq<LocalSystem>, i: nat, s: nat, x: Option<Step>, j: nat, t: nat, y: Option<Step>)
    requires LocalRun(run) && i < j && j + 1 < |run| && LocalStep(run[i], s, x, run[i + 1]) && LocalStep(run[j], t, y, run[j + 1])
    ensures AfterWin(EventOf(run[i], x), EventOf(run[j], y))
  {
    hide *;
    LocalCauses(run, i, s, x);
    LocalCauses(run, j, t, y);
    LocalRunGuaranteed(run);
    RunWinsOnce(seq(|run|, k requires 0 <= k < |run| => AbsSystem(run[k])), i, EventOf(run[i], x), j, EventOf(run[j], y));
  }
}
