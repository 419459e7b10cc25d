/** The span cache on etcd: a revisioned map with leases, and transactions that compare revisions. */
module EtcdCache {
  import opened Wrappers
  import opened Reservations
  import opened Int64Bytes

  /** A stored pair; create and mod are the revisions at which it was created and last put. */
  datatype Kv = Kv(data: Data, create: nat, mod: nat)

  /** lives remembers the reservations ever made, by create revision. */
  datatype State = State(kv: map<string, Kv>, rev: nat, lives: Lifetimes)

  datatype Content = Reserved | Initialized(value: Data) | Malformed

  /** What a stored value says: the first byte is its header. */
  function Parse(data: Data): Content {
    if data == [] then Malformed
    else if data[0] == 0 then Reserved
    else if data[0] == 1 then Initialized(data[1..])
    else Malformed
  }

  lemma {:induction false} ParseInitialized(value: Data)
    ensures Parse([1 as Byte] + value) == Initialized(value)
  {
    assert ([1 as Byte] + value)[1..] == value;
  }

  datatype Step =
    | FetchOrReserve(key: string, stamp: Data)
    | SetReserved(key: string, value: Data, lastUid: Data)
    | LeaseExpires(key: string)
    | OtherWrite

  datatype Response =
    | NewReservation(uid: Data)
    | Value(value: Data, uid: Data)
    | AlreadyReserved
    | BadHeader
    | SetDone
    | InvalidKey
    | UidMismatch
    | NoResponse

  datatype Outcome = Outcome(state: State, event: Event, response: Response)

  /** Revisions are taken to fit into 64 bits. */
  predicate Enabled(s: State, step: Step) {
    && s.rev + 1 < TWO_63
    && (step.SetReserved? ==> |step.lastUid| == 8)
    && (step.FetchOrReserve? && step.key in s.kv ==> s.kv[step.key].create < TWO_63)
    && (step.LeaseExpires? ==> step.key in s.kv)
  }

  function Apply(s: State, step: Step): Outcome
    requires Enabled(s, step)
  {
    var next := s.rev + 1;
    match step
    case FetchOrReserve(key, stamp) =>
      if key !in s.kv then
        Outcome(State(s.kv[key := Kv([0] + stamp, next, next)], next, s.lives[next := Lifetime(key, None)]), Reserve(key, next), NewReservation(EncodeInt64(next)))
      else
        (match Parse(s.kv[key].data)
         case Reserved => Outcome(s, Quiet, AlreadyReserved)
         case Initialized(v) => Outcome(s, Fetch(key, s.kv[key].create, v), Value(v, EncodeInt64(s.kv[key].create)))
         case Malformed => Outcome(s, Quiet, BadHeader))
    case SetReserved(key, value, lastUid) =>
      var revision := DecodeInt64(lastUid);
      var mod := if key in s.kv then s.kv[key].mod else 0;
      if mod == revision then
        var create := if key in s.kv then s.kv[key].create else next;
        Outcome(State(s.kv[key := Kv([1] + value, create, next)], next, s.lives[create := Lifetime(key, Some(value))]), Win(key, create, value), SetDone)
      else
        Outcome(s, Quiet, if key in s.kv then UidMismatch else InvalidKey)
    case LeaseExpires(key) => Outcome(s.(kv := s.kv - {key}, rev := next), Quiet, NoResponse)
    case OtherWrite => Outcome(s.(rev := next), Quiet, NoResponse)
  }

  /** A reservation has been put once, an initialized entry again; the revision of that second put is no reservation's. */
  ghost predicate KvOk(s: State, key: string, e: Kv) {
    && 1 <= e.create <= e.mod <= s.rev && e.create in s.lives
    && match Parse(e.data)
       case Reserved => e.mod == e.create && s.lives[e.create] == Lifetime(key, None)
       case Initialized(v) => e.mod !in s.lives && s.lives[e.create] == Lifetime(key, Some(v))
       case Malformed => false
  }

  ghost predicate Ok(s: State) {
    && (forall key :: key in s.kv ==> KvOk(s, key, s.kv[key]))
    && (forall u :: u in s.lives ==> 1 <= u <= s.rev)
  }

  /** A uid that a reservation was answered with. */
  ghost predicate Issued(s: State, lastUid: Data) {
    |lastUid| == 8 && DecodeInt64(lastUid) in s.lives
  }

  lemma {:induction false} ReserveRefines(s: State, key: string, stamp: Data)
    requires Ok(s) && Enabled(s, FetchOrReserve(key, stamp)) && key !in s.kv
    ensures var o := Apply(s, FetchOrReserve(key, stamp)); Ok(o.state) && Follows(s.lives, o.event, o.state.lives)
  {
    var o := Apply(s, FetchOrReserve(key, stamp));
    assert Parse([0] + stamp) == Reserved;
    forall k | k in o.state.kv ensures KvOk(o.state, k, o.state.kv[k]) {
      assert k != key ==> KvOk(s, k, s.kv[k]);
    }
  }

  lemma {:induction false} SetRefines(s: State, key: string, value: Data, lastUid: Data)
    requires Ok(s) && Enabled(s, SetReserved(key, value, lastUid)) && Issued(s, lastUid)
    ensures var o := Apply(s, SetReserved(key, value, lastUid)); Ok(o.state) && Follows(s.lives, o.event, o.state.lives)
    ensures var o := Apply(s, SetReserved(key, value, lastUid)); o.event.Win? ==> o.event == Win(key, DecodeInt64(lastUid), value)
  {
    var o := Apply(s, SetReserved(key, value, lastUid));
    if o.response == SetDone {
      ParseInitialized(value);
      assert key in s.kv && KvOk(s, key, s.kv[key]);
      forall k | k in o.state.kv ensures KvOk(o.state, k, o.state.kv[k]) {
        if k != key {
          assert KvOk(s, k, s.kv[k]);
        }
      }
    }
  }

  /** With uids from reservations, every step keeps the store in order and is one that the guarantee allows. */
  lemma {:induction false} StepRefines(s: State, step: Step)
    requires Ok(s) && Enabled(s, step) && (step.SetReserved? ==> Issued(s, step.lastUid))
    ensures var o := Apply(s, step); Ok(o.state) && Follows(s.lives, o.event, o.state.lives)
  {
    match step
    case FetchOrReserve(key, stamp) =>
      if key in s.kv {
        assert KvOk(s, key, s.kv[key]);
      } else {
        ReserveRefines(s, key, stamp);
      }
    case SetReserved(key, value, lastUid) => SetRefines(s, key, value, lastUid);
    case _ => OthersRefine(s, Apply(s, step).state);
  }

  lemma {:induction false} OthersRefine(s: State, s': State)
    requires Ok(s) && s'.lives == s.lives && s'.rev >= s.rev && forall k :: k in s'.kv ==> k in s.kv && s'.kv[k] == s.kv[k]
    ensures Ok(s')
  {
    forall k | k in s'.kv ensures KvOk(s', k, s'.kv[k]) {
      assert KvOk(s, k, s.kv[k]);
    }
  }

  /**
   SetReserved looks at the revision only and never at the header. So it overwrites an initialized entry exactly when it is given
   the revision of its last put, which is what Fetch answers with; and it makes an entry out of nothing exactly for revision zero.
   */
  lemma {:induction false} OverwritesIff(s: State, key: string, value: Data, lastUid: Data)
    requires Ok(s) && Enabled(s, SetReserved(key, value, lastUid))
    ensures Apply(s, SetReserved(key, value, lastUid)).response == SetDone <==> DecodeInt64(lastUid) == if key in s.kv then s.kv[key].mod else 0
    ensures key in s.kv && Parse(s.kv[key].data).Initialized? ==> Apply(s, SetReserved(key, value, EncodeInt64(s.kv[key].create))).response != SetDone
  {
    if key in s.kv {
      assert KvOk(s, key, s.kv[key]);
      DecodeEncode(s.kv[key].create);
    }
  }

  /** A key without value is reserved; who sets it before the lease ends succeeds, and later callers get that value; before that they are told to wait. */
  lemma {:induction false} ReserveSetFetch(s: State, key: string, stamp: Data, value: Data)
    requires Ok(s) && s.rev + 3 < TWO_63 && key !in s.kv
    ensures var reserved := Apply(s, FetchOrReserve(key, stamp));
            && reserved.response == NewReservation(EncodeInt64(s.rev + 1))
            && Apply(reserved.state, FetchOrReserve(key, stamp)).response == AlreadyReserved
            && var set_ := Apply(reserved.state, SetReserved(key, value, EncodeInt64(s.rev + 1)));
               set_.response == SetDone && Apply(set_.state, FetchOrReserve(key, stamp)).response == Value(value, EncodeInt64(s.rev + 1))
  {
    assert Parse([0] + stamp) == Reserved;
    DecodeEncode(s.rev + 1);
    ParseInitialized(value);
  }

  /** How a set fails: an absent key is invalid, and another revision than that of the last put is a mismatch; nothing is changed then. */
  lemma {:induction false} SetRefusedIff(s: State, key: string, value: Data, lastUid: Data)
    requires Enabled(s, SetReserved(key, value, lastUid))
    ensures var o := Apply(s, SetReserved(key, value, lastUid));
            && (o.response == InvalidKey <==> key !in s.kv && DecodeInt64(lastUid) != 0)
            && (o.response == UidMismatch <==> key in s.kv && DecodeInt64(lastUid) != s.kv[key].mod)
            && (o.response != SetDone ==> o.state == s && o.event == Quiet)
  {
  }

  /** What is stored, byte by byte: a zero byte and the timestamp for a reservation, and a one byte and the value once it has been set. */
  lemma {:induction false} StoredBytes(s: State, key: string, stamp: Data, value: Data, lastUid: Data)
    requires Enabled(s, FetchOrReserve(key, stamp)) && Enabled(s, SetReserved(key, value, lastUid))
    ensures key !in s.kv ==> var kv := Apply(s, FetchOrReserve(key, stamp)).state.kv;
              key in kv && |kv[key].data| == 1 + |stamp| && kv[key].data[0] == 0 && kv[key].data[1..] == stamp
    ensures Apply(s, SetReserved(key, value, lastUid)).response == SetDone ==> var kv := Apply(s, SetReserved(key, value, lastUid)).state.kv;
              key in kv && |kv[key].data| == 1 + |value| && kv[key].data[0] == 1 && kv[key].data[1..] == value
    ensures forall other :: other in s.kv && other != key ==>
              other in Apply(s, SetReserved(key, value, lastUid)).state.kv && Apply(s, SetReserved(key, value, lastUid)).state.kv[other] == s.kv[other]
  {
    assert ([0 as Byte] + stamp)[1..] == stamp && ([1 as Byte] + value)[1..] == value;
  }

  // ---------- The aggregator over etcd ----------

  datatype EtcdSystem = EtcdSystem(cache: State, callers: seq<Caller>)

  ghost predicate Reacts(s: State, step: Step, c: Caller, c': Caller)
    requires Enabled(s, step)
  {
    var o := Apply(s, step);
    match step
    case FetchOrReserve(key, _) =>
      c == Asking(key, None) &&
      (match o.response
       case NewReservation(uid) => c' == Asking(key, Some(DecodeInt64(uid)))
       case Value(v, uid) => c' == Returned(key, DecodeInt64(uid), v, false)
       case AlreadyReserved => c' == c || c' == Failed
       case _ => c' == Failed)
    case SetReserved(key, value, lastUid) =>
      c.Created? && c.key == key && c.span == value && -TWO_63 <= c.uid < TWO_63 && lastUid == EncodeInt64(c.uid) &&
      (c' == Failed || (o.response == SetDone && c' == Returned(key, c.uid, value, true)))
    case _ => false
  }

  ghost predicate EtcdStep(a: EtcdSystem, t: nat, step: Option<Step>, b: EtcdSystem) {
    && |a.callers| == |b.callers| && (forall i :: 0 <= i < |a.callers| && i != t ==> b.callers[i] == a.callers[i])
    && match step
       case None => t < |a.callers| && b.cache == a.cache && !a.callers[t].Created? && Moves(a.callers[t], Quiet, b.callers[t])
       case Some(st) =>
         && Enabled(a.cache, st) && b.cache == Apply(a.cache, st).state
         && if t < |a.callers| then Reacts(a.cache, st, a.callers[t], b.callers[t]) else !st.SetReserved? && !st.FetchOrReserve?
  }

  ghost predicate EtcdOk(s: EtcdSystem) {
    && Ok(s.cache) && s.cache.rev < TWO_63
    && forall i :: 0 <= i < |s.callers| ==> Given(s.callers[i]).Some? ==> Given(s.callers[i]).value in s.cache.lives
  }

  /** What a step shows of the cache. */
  function EventOf(a: EtcdSystem, step: Option<Step>): Event
  {
    if step.Some? && Enabled(a.cache, step.value) then Apply(a.cache, step.value).event else Quiet
  }

  function AbsSystem(s: EtcdSystem): System {
    System(s.cache.lives, s.callers)
  }

  lemma {:induction false} CallerMoves(s: State, step: Step, c: Caller, c': Caller)
    requires Ok(s) && Enabled(s, step) && Reacts(s, step, c, c') && (Given(c).Some? ==> Given(c).value in s.lives)
    ensures step.SetReserved? ==> Issued(s, step.lastUid)
    ensures Moves(c, Apply(s, step).event, c') && (Given(c').Some? ==> Given(c').value in Apply(s, step).state.lives)
  {
    match step
    case FetchOrReserve(key, stamp) =>
      if key in s.kv {
        assert KvOk(s, key, s.kv[key]);
        DecodeEncode(s.kv[key].create);
      } else {
        DecodeEncode(s.rev + 1);
      }
    case SetReserved(key, value, lastUid) =>
      DecodeEncode(c.uid);
      SetRefines(s, key, value, lastUid);
    case _ =>
  }

  /** Every step of the aggregator over etcd, with leases expiring at any time, is a step that the guarantee allows. */
  lemma {:induction false} EtcdSimulates(a: EtcdSystem, t: nat, step: Option<Step>, b: EtcdSystem)
    requires EtcdOk(a) && EtcdStep(a, t, step, b)
    ensures EtcdOk(b) && SystemStep(AbsSystem(a), t, EventOf(a, step), AbsSystem(b)) && Linked(AbsSystem(a), AbsSystem(b))
  {
    match step
    case None =>
      assert SystemStep(AbsSystem(a), t, Quiet, AbsSystem(b));
    case Some(st) =>
      if t < |a.callers| {
        CallerMoves(a.cache, st, a.callers[t], b.callers[t]);
      }
      StepRefines(a.cache, st);
      FollowsExtends(a.cache.lives, Apply(a.cache, st).event, b.cache.lives);
      assert SystemStep(AbsSystem(a), t, Apply(a.cache, st).event, AbsSystem(b));
  }

  ghost predicate EtcdLinked(a: EtcdSystem, b: EtcdSystem) {
    exists t: nat, step :: EtcdStep(a, t, step, b)
  }

  ghost predicate EtcdRun(run: seq<EtcdSystem>) {
    && run != [] && run[0].cache == State(map[], 0, map[])
    && (forall i :: 0 <= i < |run[0].callers| ==> run[0].callers[i].Asking? && run[0].callers[i].pending == None)
    && forall i, j :: 0 <= i < |run| && j == i + 1 && j < |run| ==> EtcdLinked(run[i], run[j])
  }

  lemma {:induction false} EtcdRunOk(run: seq<EtcdSystem>, n: nat)
    requires EtcdRun(run) && n < |run|
    ensures EtcdOk(run[n])
  {
    if n > 0 {
      EtcdRunOk(run, n - 1);
      assert EtcdLinked(run[n - 1], run[n]);
      var t: nat, step :| EtcdStep(run[n - 1], t, step, run[n]);
      EtcdSimulates(run[n - 1], t, step, run[n]);
    }
  }

  /** Every run of the aggregator over etcd is one that the guarantee is proved for. */
  lemma {:induction false} EtcdRunGuaranteed(run: seq<EtcdSystem>)
    requires EtcdRun(run)
    ensures SystemRun(seq(|run|, i requires 0 <= i < |run| => AbsSystem(run[i])))
  {
    hide Ok, EtcdStep, EtcdOk;
    forall i, j | 0 <= i < |run| && j == i + 1 && j < |run| ensures Linked(AbsSystem(run[i]), AbsSystem(run[j])) {
      EtcdRunOk(run, i);
      assert EtcdLinked(run[i], run[j]);
      var t: nat, step :| EtcdStep(run[i], t, step, run[j]);
      EtcdSimulates(run[i], t, step, run[j]);
    }
  }

  lemma {:induction false} EtcdCauses(run: seq<EtcdSystem>, i: nat, t: nat, step: Option<Step>)
    requires EtcdRun(run) && i + 1 < |run| && EtcdStep(run[i], t, step, run[i + 1])
    ensures Causes(AbsSystem(run[i]), EventOf(run[i], step), AbsSystem(run[i + 1]))
  {
    hide Ok, EtcdOk, SystemStep, EtcdRun;
    EtcdRunOk(run, i);
    EtcdSimulates(run[i], t, step, run[i + 1]);
  }

  /** In every run over etcd a reservation is won at most once, and what is fetched after that is what it was won with. */
  lemma {:induction false} EtcdWinsOnce(run: seq<EtcdSystem>, i: nat, s: nat, x: Option<Step>, j: nat, t: nat, y: Option<Step>)
    requires EtcdRun(run) && i < j && j + 1 < |run| && EtcdStep(run[i], s, x, run[i + 1]) && EtcdStep(run[j], t, y, run[j + 1])
    ensures AfterWin(EventOf(run[i], x), EventOf(run[j], y))
  {
    hide *;
    EtcdCauses(run, i, s, x);
    EtcdCauses(run, j, t, y);
    EtcdRunGuaranteed(run);
    RunWinsOnce(seq(|run|, k requires 0 <= k < |run| => AbsSystem(run[k])), i, EventOf(run[i], x), j, EventOf(run[j], y));
  }
}
