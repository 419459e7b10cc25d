/** The unbounded queue: senders, a notifier with room for one signal, and the receiver loop. */
module UnboundedQueues {

  /** Where the receiver loop is; hand is the item it has popped and offers. */
  datatype Receiver<T> = Popping | Offering(hand: T) | Waiting | Closed(dropped: seq<T>)

  /** deque is the contents of the ring buffer; notifying counts the senders between PushBack and their signal. */
  datatype State<T> = State(deque: seq<T>, notifying: nat, signal: bool, receiver: Receiver<T>, cancelled: bool, sent: seq<T>, delivered: seq<T>)

  datatype Step<T> =
    | Push(item: T)      // Send: PushBack
    | Notify             // Send: the non-blocking signal
    | Pop                // receiverLoop: PopFront
    | Deliver            // receiverLoop: the item is received
    | Wake               // receiverLoop: the notifier is received
    | Cancel             // Close
    | StopReceiver       // receiverLoop: the context is done

  function Start<T>(): State<T> {
    State([], 0, false, Popping, false, [], [])
  }

  predicate Enabled<T>(s: State<T>, step: Step<T>) {
    match step
    case Push(_) => true
    case Notify => s.notifying > 0
    case Pop => s.receiver.Popping?
    case Deliver => s.receiver.Offering?
    case Wake => s.receiver.Waiting? && s.signal
    case Cancel => true
    case StopReceiver => s.cancelled && (s.receiver.Offering? || s.receiver.Waiting?)
  }

  function Apply<T>(s: State<T>, step: Step<T>): State<T>
    requires Enabled(s, step)
  {
    match step
    case Push(item) => s.(deque := s.deque + [item], notifying := s.notifying + 1, sent := s.sent + [item])
    case Notify => s.(notifying := s.notifying - 1, signal := true)
    case Pop => if s.deque == [] then s.(receiver := Waiting) else s.(deque := s.deque[1..], receiver := Offering(s.deque[0]))
    case Deliver => s.(receiver := Popping, delivered := s.delivered + [s.receiver.hand])
    case Wake => s.(receiver := Popping, signal := false)
    case Cancel => s.(cancelled := true)
    case StopReceiver => s.(receiver := Closed(Hand(s.receiver)))
  }

  /** The popped item that has not been delivered. */
  function Hand<T>(r: Receiver<T>): seq<T> {
    match r
    case Offering(x) => [x]
    case Closed(dropped) => dropped
    case _ => []
  }

  /** Nothing is lost or reordered, and a waiting receiver with items to pop has been or will be signalled. */
  predicate Ok<T(==)>(s: State<T>) {
    && s.sent == s.delivered + Hand(s.receiver) + s.deque
    && (s.receiver.Waiting? && s.deque != [] ==> s.signal || s.notifying > 0)
  }

  lemma {:induction false} StepKeepsOk<T>(s: State<T>, step: Step<T>)
    requires Ok(s) && Enabled(s, step)
    ensures Ok(Apply(s, step))
  {
    var s' := Apply(s, step);
    match step
    case Push(item) => assert s'.sent == s.delivered + Hand(s.receiver) + (s.deque + [item]);
    case Pop =>
      if s.deque != [] {
        assert s.deque == [s.deque[0]] + s.deque[1..];
      }
    case Deliver => assert s.delivered + Hand(s.receiver) + s.deque == s'.delivered + [] + s.deque;
    case _ =>
  }

  ghost predicate Run<T>(run: seq<State<T>>, steps: seq<Step<T>>) {
    && |run| == |steps| + 1 && run[0] == Start()
    && forall i :: 0 <= i < |steps| ==> Enabled(run[i], steps[i]) && run[i + 1] == Apply(run[i], steps[i])
  }

  /** In every run, whatever the interleaving of senders and receiver, what was sent is what was delivered, then the item in hand, then the deque. */
  lemma {:induction false} RunKeepsOk<T>(run: seq<State<T>>, steps: seq<Step<T>>, n: nat)
    requires Run(run, steps) && n < |run|
    ensures Ok(run[n])
  {
    if n > 0 {
      RunKeepsOk(run, steps, n - 1);
      StepKeepsOk(run[n - 1], steps[n - 1]);
    }
  }

  /** Delivered items are always a prefix of the sent ones, also after the queue has been closed. */
  lemma {:induction false} DeliveredInOrder<T>(run: seq<State<T>>, steps: seq<Step<T>>, n: nat)
    requires Run(run, steps) && n < |run|
    ensures run[n].delivered <= run[n].sent
  {
    RunKeepsOk(run, steps, n);
    var s := run[n];
    assert s.delivered + Hand(s.receiver) + s.deque == s.delivered + (Hand(s.receiver) + s.deque);
  }

  predicate Internal<T>(step: Step<T>) {
    step.Notify? || step.Pop? || step.Deliver? || step.Wake?
  }

  /** Without new sends, the steps still to come while somebody receives. */
  function Work<T>(s: State<T>): nat {
    4 * |s.deque| + 3 * s.notifying + (if s.signal then 2 else 0)
    + match s.receiver
      case Popping => 1
      case Offering(_) => 2
      case Waiting => 0
      case Closed(_) => 0
  }

  /** Every step but a send or a close uses up some of the work: without new sends the queue comes to rest. */
  lemma {:induction false} WorkDecreases<T>(s: State<T>, step: Step<T>)
    requires Enabled(s, step) && Internal(step)
    ensures Work(Apply(s, step)) < Work(s)
  {
  }

  /** At rest, with a receiver that was not closed, everything that was sent has been delivered: no wake-up is lost. */
  lemma {:induction false} AtRestAllDelivered<T>(s: State<T>)
    requires Ok(s) && !s.receiver.Closed? && forall step :: Internal(step) ==> !Enabled(s, step)
    ensures s.delivered == s.sent
  {
    assert !Enabled(s, Notify) && !Enabled(s, Pop) && !Enabled(s, Deliver) && !Enabled(s, Wake);
    assert s.delivered + [] + [] == s.delivered;
  }

  /** Sending never blocks, and a signal that is due can be given. */
  lemma {:induction false} SendNeverBlocks<T>(s: State<T>, item: T)
    ensures Enabled(s, Push(item)) && Enabled(Apply(s, Push(item)), Notify)
    ensures Apply(s, Push(item)).sent == s.sent + [item]
    ensures Enabled(s, Cancel)
  {
  }

  /** How many sends a run has made up to some point, and how many signals. */
  function Pushes<T>(steps: seq<Step<T>>): nat {
    if steps == [] then 0 else Pushes(steps[..|steps| - 1]) + if steps[|steps| - 1].Push? then 1 else 0
  }

  function Notifies<T>(steps: seq<Step<T>>): nat {
    if steps == [] then 0 else Notifies(steps[..|steps| - 1]) + if steps[|steps| - 1].Notify? then 1 else 0
  }

  lemma {:induction false} StepSignals<T>(s: State<T>, step: Step<T>)
    requires Enabled(s, step)
    ensures var t := Apply(s, step);
            && t.notifying + (if step.Notify? then 1 else 0) == s.notifying + (if step.Push? then 1 else 0)
            && |t.sent| == |s.sent| + (if step.Push? then 1 else 0)
            && (t.cancelled <==> s.cancelled || step.Cancel?)
            && (t.receiver.Closed? ==> s.receiver.Closed? || s.cancelled)
  {
  }

  ghost predicate HasCancel<T>(steps: seq<Step<T>>) {
    exists i :: 0 <= i < |steps| && steps[i].Cancel?
  }

  lemma {:induction false} CancelAppend<T>(steps: seq<Step<T>>, step: Step<T>)
    ensures HasCancel(steps + [step]) <==> HasCancel(steps) || step.Cancel?
  {
    var more := steps + [step];
    if i :| 0 <= i < |steps| && steps[i].Cancel? {
      assert more[i].Cancel?;
    }
    if step.Cancel? {
      assert more[|steps|].Cancel?;
    }
  }

  /** Every send gives one signal; the receiver stops only after Close. */
  lemma {:induction false} OneSignalPerSend<T>(run: seq<State<T>>, steps: seq<Step<T>>, n: nat)
    requires Run(run, steps) && n < |run|
    ensures run[n].notifying + Notifies(steps[..n]) == Pushes(steps[..n]) == |run[n].sent|
    ensures run[n].receiver.Closed? ==> run[n].cancelled
    ensures run[n].cancelled <==> HasCancel(steps[..n])
  {
    hide Enabled, Apply, HasCancel;
    if n == 0 {
      NoCancel(steps[..0]);
    } else {
      OneSignalPerSend(run, steps, n - 1);
      assert steps[..n] == steps[..n - 1] + [steps[n - 1]] && steps[..n][..n - 1] == steps[..n - 1];
      CancelAppend(steps[..n - 1], steps[n - 1]);
      StepSignals(run[n - 1], steps[n - 1]);
    }
  }

  lemma {:induction false} NoCancel<T>(steps: seq<Step<T>>)
    requires steps == []
    ensures !HasCancel(steps)
  {
  }

  /** Once the queue has been closed, the receiver can stop wherever it would otherwise wait, and nothing is delivered after it has. */
  lemma {:induction false} CloseEnds<T>(s: State<T>, step: Step<T>)
    requires s.cancelled && Enabled(s, step)
    ensures Apply(s, step).cancelled
    ensures s.receiver.Offering? || s.receiver.Waiting? ==> Enabled(s, StopReceiver) && Apply(s, StopReceiver).receiver.Closed?
    ensures s.receiver.Closed? ==> Apply(s, step).receiver == s.receiver && Apply(s, step).delivered == s.delivered
  {
  }
}
