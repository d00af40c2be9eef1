/**
 The backend thread, woken through an eventfd by guest kicks and once more by shutdown.
 Its steps interleave with the guest's and with the main thread's; inside a kick it runs
 the queue protocol of module Virtqueue one memory access at a time.
 */
module Worker {
  import Q = Virtqueue

  const TOTAL_REQUESTS: nat := 6

  /** Where the thread stands.  A count read from the eventfd remembers how much of it
      guest kicks contributed; the rest is the shutdown wake. */
  datatype Thread =
    | Reading
    | Woken(count: nat, kicks: nat)
    | Kicked(count: nat)
    | Serving
    | Served
    | Verified
    | Raised
    | Exited

  datatype State = State(
    queue: Q.State,
    thread: Thread,
    // the kick eventfd's counter, by contributor
    pendingKicks: nat,
    pendingWake: bool,
    // shutdown as seen by the main thread
    stop: bool,
    woken: bool,
    interruptStatus: bool,
    guestKicks: nat,
    guestCalls: nat,
    result: int,
    // history: kicks the guest ever made, kicks read after stop, heads published when the
    // guest last kicked, and when the kick now being served was made
    issued: nat,
    dropped: nat,
    atLastKick: nat,
    promised: nat)

  datatype Step =
    | Driver(d: Q.Step)
    | Kick
    | AckInterrupt
    | SetStop
    | Wake
    | ReadKick
    | ReadFails
    | CheckStop
    | CountOne
    | Queue(b: Q.Step)
    | Verify
    | SetInterrupt
    | Signal
    | SignalFails

  /** The thread starts with an idle queue that already served requests over MMIO. */
  ghost predicate Start(s: State) {
    && Q.Inv(s.queue) && s.queue.backend.Parked?
    && s == State(s.queue, Reading, 0, false, false, false, false, 0, 0, 0, 0, 0, 0, 0)
  }

  function Counter(s: State): nat {
    s.pendingKicks + (if s.pendingWake then 1 else 0)
  }

  predicate Enabled(s: State, step: Step) {
    match step
    case Driver(d) => Q.DriverEnabled(s.queue, d)
    case Kick => true
    case AckInterrupt => true
    case SetStop => !s.stop
    case Wake => s.stop && !s.woken
    case ReadKick => s.thread.Reading? && Counter(s) > 0
    case ReadFails => s.thread.Reading?
    case CheckStop => s.thread.Woken?
    case CountOne => s.thread.Kicked?
    case Queue(b) => s.thread.Serving? && Q.BackendEnabled(s.queue, b)
    case Verify => s.thread.Served?
    case SetInterrupt => s.thread.Verified?
    case Signal => s.thread.Raised?
    case SignalFails => s.thread.Raised?
  }

  function Fail(s: State): State {
    s.(thread := Exited, result := -1)
  }

  /** One access of process_queue; when the call returns, its verdict decides how the kick goes on. */
  function QueueStep(s: State, b: Q.Step): State
    requires Q.Shaped(s.queue) && Q.BackendEnabled(s.queue, b)
  {
    var q := Q.BackendStep(s.queue, b);
    if !q.backend.Parked? then s.(queue := q)
    else if q.verdict.Fine? then s.(queue := q, thread := Served)
    else Fail(s).(queue := q)
  }

  function Apply(s: State, step: Step): State
    requires Q.Shaped(s.queue) && Enabled(s, step)
  {
    match step
    case Driver(d) => s.(queue := Q.DriverStep(s.queue, d))
    case Kick => s.(pendingKicks := s.pendingKicks + 1, issued := s.issued + 1, atLastKick := |s.queue.published|)
    case AckInterrupt => s.(interruptStatus := false)
    case SetStop => s.(stop := true)
    case Wake => s.(pendingWake := true, woken := true)
    case ReadKick =>
      s.(thread := Woken(Counter(s), s.pendingKicks), pendingKicks := 0, pendingWake := false, promised := s.atLastKick)
    case ReadFails => Fail(s)
    case CheckStop =>
      if s.stop then s.(thread := Exited, dropped := s.dropped + s.thread.kicks)
      else s.(thread := Kicked(s.thread.count), guestKicks := s.guestKicks + s.thread.count)
    case CountOne => if s.thread.count == 1 then s.(thread := Serving) else Fail(s)
    case Queue(b) => QueueStep(s, b)
    case Verify =>
      if s.queue.lastAvail == TOTAL_REQUESTS && s.queue.usedIdx == TOTAL_REQUESTS
      then s.(thread := Verified) else Fail(s)
    case SetInterrupt => s.(interruptStatus := true, thread := Raised)
    case Signal => s.(guestCalls := s.guestCalls + 1, result := 0, thread := Reading)
    case SignalFails => Fail(s)
  }

  ghost predicate Linked(trace: seq<State>, i: nat)
    requires i + 1 < |trace|
  {
    exists step :: Q.Shaped(trace[i].queue) && Enabled(trace[i], step) && trace[i + 1] == Apply(trace[i], step)
  }

  ghost predicate Behaviour(trace: seq<State>) {
    trace != [] && Start(trace[0]) && forall i: nat :: i + 1 < |trace| ==> Linked(trace, i)
  }

  // ---- invariant -------------------------------------------------------------------

  /** Every kick the guest made is counted once, still pending, in hand, or read after stop;
      the wake only exists once stop is set. */
  predicate Conserved(s: State) {
    && s.issued == s.guestKicks + s.pendingKicks + s.dropped + (if s.thread.Woken? then s.thread.kicks else 0)
    && (s.pendingWake || s.woken ==> s.stop)
    && (s.thread.Woken? ==> s.thread.kicks <= s.thread.count && (s.thread.count != s.thread.kicks ==> s.stop))
  }

  /** A kick in service is the one not yet answered. */
  predicate Answered(s: State) {
    match s.thread
    case Exited => s.result == 0 ==> s.guestCalls == s.guestKicks
    case Reading => s.result == 0 && s.guestCalls == s.guestKicks
    case Woken(_, _) => s.result == 0 && s.guestCalls == s.guestKicks
    case Kicked(count) => s.result == 0 && s.guestCalls + count == s.guestKicks
    case _ => s.result == 0 && s.guestCalls + 1 == s.guestKicks
  }

  /** What was published when the guest kicked is in the call's snapshot, and completed once
      the call has returned. */
  predicate Promise(s: State) {
    && s.promised <= s.atLastKick <= |s.queue.published|
    && (!s.thread.Serving? ==> s.queue.backend.Parked?)
    && (!s.queue.backend.Parked? ==> s.promised <= s.queue.snapshot)
    && (s.thread.Served? || s.thread.Verified? || s.thread.Raised? ==> s.promised <= |s.queue.completed|)
    && (s.thread.Verified? || s.thread.Raised? ==>
          s.queue.lastAvail == TOTAL_REQUESTS && s.queue.usedIdx == TOTAL_REQUESTS)
  }

  ghost predicate Inv(s: State) {
    Q.Inv(s.queue) && Conserved(s) && Answered(s) && Promise(s)
  }

  lemma DriverKeeps(q: Q.State, d: Q.Step)
    requires Q.Inv(q) && Q.DriverEnabled(q, d)
    ensures var r := Q.DriverStep(q, d);
            Q.Inv(r) && |q.published| <= |r.published| && r.completed == q.completed
            && r.backend == q.backend && r.snapshot == q.snapshot
            && r.lastAvail == q.lastAvail && r.usedIdx == q.usedIdx
  {
    hide Q.Wrap, Q.Slot, Q.Shaped, Q.Counts, Q.Conserved, Q.Rings, Q.Log, Q.Batch;
    Q.StepKeeps(q, d);
  }

  /** What a queue step can do to the parts the thread relies on. */
  lemma BackendKeeps(q: Q.State, b: Q.Step)
    requires Q.Inv(q) && Q.BackendEnabled(q, b)
    ensures var r := Q.BackendStep(q, b);
            Q.Inv(r) && r.published == q.published
            && (q.backend.Parked? && !r.backend.Parked? ==> r.snapshot == |q.published|)
            && (!q.backend.Parked? ==> r.snapshot == q.snapshot)
            && (r.backend.Parked? && r.verdict.Fine? ==>
                  |r.completed| >= if q.backend.Parked? then |q.published| else q.snapshot)
  {
    hide Q.Wrap, Q.Slot, Q.Shaped, Q.Counts, Q.Conserved, Q.Rings, Q.Log, Q.Batch;
    Q.StepKeeps(q, b);
    Q.FineMeansServed(q, b);
  }

  /** Steps that leave the queue alone. */
  lemma ThreadKeeps(s: State, step: Step)
    requires Inv(s) && Enabled(s, step) && !step.Driver? && !step.Queue?
    ensures Inv(Apply(s, step))
  {
    hide Q.Wrap, Q.Slot, Q.Inv, Q.BackendStep, Q.DriverStep, Q.BackendEnabled, Q.DriverEnabled;
  }

  lemma StepKeeps(s: State, step: Step)
    requires Inv(s) && Enabled(s, step)
    ensures Inv(Apply(s, step))
  {
    hide Q.Wrap, Q.Slot, Q.Inv, Q.BackendStep, Q.DriverStep, Q.BackendEnabled, Q.DriverEnabled;
    if step.Driver? {
      DriverKeeps(s.queue, step.d);
    } else if step.Queue? {
      BackendKeeps(s.queue, step.b);
    } else {
      ThreadKeeps(s, step);
    }
  }

  lemma {:induction false} InvAt(trace: seq<State>, i: nat)
    requires Behaviour(trace) && i < |trace|
    ensures Inv(trace[i])
  {
    hide Conserved, Answered, Promise, Enabled, Apply, Q.Inv;
    if i == 0 {
      StartHolds(trace[0]);
    } else {
      InvAt(trace, i - 1);
      assert Linked(trace, i - 1);
      var step :| Q.Shaped(trace[i - 1].queue) && Enabled(trace[i - 1], step) && trace[i] == Apply(trace[i - 1], step);
      StepKeeps(trace[i - 1], step);
    }
  }

  lemma StartHolds(s: State)
    requires Start(s)
    ensures Inv(s)
  {
    hide Q.Inv;
  }

  lemma BehaviourInv(trace: seq<State>, s: State)
    requires Behaviour(trace) && s in trace
    ensures Inv(s)
  {
    hide Inv;
    var i :| 0 <= i < |trace| && trace[i] == s;
    InvAt(trace, i);
  }

  // ---- what every interleaving guarantees --------------------------------------------

  /** Kicks are conserved, so the shutdown wake is never among those counted; and until
      stop is set, none is lost either. */
  lemma WakeIsNeverCounted(trace: seq<State>, s: State)
    requires Behaviour(trace) && s in trace
    ensures s.guestKicks + s.pendingKicks + s.dropped + (if s.thread.Woken? then s.thread.kicks else 0) == s.issued
    ensures s.guestKicks <= s.issued
    ensures s.thread.Kicked? && s.thread.count == 1 ==> s.issued > 0
  {
    hide Q.Inv, Behaviour, Promise;
    BehaviourInv(trace, s);
  }

  /** Between kicks, and after a clean exit, every counted kick has had its completion signal. */
  lemma CallsMatchKicks(trace: seq<State>, s: State)
    requires Behaviour(trace) && s in trace
    requires s.thread.Reading? || (s.thread.Exited? && s.result == 0)
    ensures s.guestCalls == s.guestKicks
  {
    hide Q.Inv, Behaviour, Promise, Conserved;
    BehaviourInv(trace, s);
  }

  /** When InterruptStatus is about to be set, and when it just was, every head published
      before the kick being served has its used element published, and both 16-bit indices
      stand at the total number of requests. */
  lemma InterruptFollowsCompletion(trace: seq<State>, s: State)
    requires Behaviour(trace) && s in trace && (s.thread.Verified? || s.thread.Raised?)
    ensures s.promised <= |s.queue.completed|
    ensures forall k :: 0 <= k < s.promised && k < |s.queue.published|
              ==> s.queue.completed[k] == Q.UsedElem(s.queue.published[k], Q.REQUEST_LEN)
    ensures s.queue.lastAvail == s.queue.usedIdx == TOTAL_REQUESTS
  {
    hide Behaviour, Conserved, Answered, Q.Wrap, Q.Slot, Q.Rings, Q.Batch, Q.Conserved;
    BehaviourInv(trace, s);
  }

  /** Setting the bit is the only step that raises it, and it starts from that state. */
  lemma OnlyVerifiedRaises(s: State, step: Step)
    requires Q.Shaped(s.queue) && Enabled(s, step)
    requires !s.interruptStatus && Apply(s, step).interruptStatus
    ensures s.thread.Verified? && Apply(s, step).thread.Raised?
  {
  }

  /** No interleaving makes the queue protocol itself fail under the thread. */
  lemma FailureMeansEntropyOrIo(trace: seq<State>, s: State, step: Step)
    requires Behaviour(trace) && s in trace
    requires Q.Shaped(s.queue) && Enabled(s, step) && s.thread.Serving? && Apply(s, step).thread.Exited?
    ensures step == Queue(Q.EntropyFails)
  {
    hide Behaviour, Q.Wrap, Q.Slot, Q.Rings, Q.Log, Q.Conserved;
    BehaviourInv(trace, s);
    if step.Queue? {
      BackendKeeps(s.queue, step.b);
      assert Q.Batch(Q.BackendStep(s.queue, step.b));
    }
  }

  /** When the queue call has returned, the thread goes on to raise the interrupt if and only if the
      completed requests, counted in 16 bits, are all of them; otherwise it gives up. */
  lemma CompletionDecides(trace: seq<State>, i: nat)
    requires Behaviour(trace) && i + 1 < |trace|
    requires trace[i].thread.Served? && !trace[i + 1].thread.Served?
    ensures if |trace[i].queue.completed| % 0x1_0000 == TOTAL_REQUESTS then trace[i + 1].thread.Verified?
            else trace[i + 1].thread.Exited? && trace[i + 1].result == -1
  {
    hide Conserved, Answered, Q.Slot, Q.Rings, Q.Batch, Q.Conserved, Q.Log;
    var s := trace[i];
    InvAt(trace, i);
    assert Linked(trace, i);
    assert s.queue.usedIdx == s.queue.lastAvail == Q.Wrap(|s.queue.completed|);
  }
}
