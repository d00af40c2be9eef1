/**
 The other half: whatever breaks the quiet start of a DMA write, some interleaving of that
 very write reports success over a buffer that does not hold the caller's bytes.
 */
module QeduRaces {
  import opened Bytes
  import opened QeduProtocol
  import opened QeduStages
  import opened QeduEcho

  /** The steps lead from s to t within one job: no other write starts, no fault is injected. */
  ghost predicate Runs(s: State, steps: seq<Step>, t: State)
    decreases |steps|
  {
    if steps == [] then s == t
    else
      && Shaped(s) && Enabled(s, steps[0]) && !steps[0].Acquire? && !steps[0].SpuriousIrq?
      && Runs(Apply(s, steps[0]), steps[1..], t)
  }

  ghost predicate Leads(s: State, t: State) {
    exists steps :: Runs(s, steps, t)
  }

  lemma {:induction false} RunsJoin(a: State, p: seq<Step>, b: State, q: seq<Step>, c: State)
    requires Runs(a, p, b) && Runs(b, q, c)
    ensures Runs(a, p + q, c)
    decreases |p|
  {
    hide Apply, Shaped, Enabled;
    if p == [] {
      assert p + q == q;
    } else {
      assert (p + q)[1..] == p[1..] + q;
      RunsJoin(Apply(a, p[0]), p[1..], b, q, c);
    }
  }

  lemma LeadsJoin(a: State, b: State, c: State)
    requires Leads(a, b) && Leads(b, c)
    ensures Leads(a, c)
  {
    hide Runs;
    var p :| Runs(a, p, b);
    var q :| Runs(b, q, c);
    RunsJoin(a, p, b, q, c);
  }

  lemma LeadsHere(s: State)
    ensures Leads(s, s)
  {
    assert Runs(s, [], s);
  }

  /** One more step at the end of a run; the stage invariant comes along. */
  lemma Then(s: State, t: State, step: Step) returns (u: State)
    requires Leads(s, t) && StageInv(t) && Enabled(t, step) && !step.Acquire? && !step.SpuriousIrq?
    ensures u == Apply(t, step) && Leads(s, u) && StageInv(u)
  {
    hide Apply, Enabled, Stages, Workers, Queue, History;
    u := Apply(t, step);
    assert Runs(u, [], u);
    assert Runs(t, [step], u) by { assert [step][1..] == []; }
    LeadsJoin(s, t, u);
    StepKeeps(t, step);
  }

  // ---- safe direction over one job ---------------------------------------------------

  lemma {:induction false} RunKeepsEcho(s: State, steps: seq<Step>, t: State)
    requires Runs(s, steps, t) && StageInv(s) && Echo(s)
    ensures StageInv(t) && Echo(t)
    decreases |steps|
  {
    hide Apply, Enabled, Echo, Stages, Workers, Queue, History;
    if steps != [] {
      StepEcho(s, steps[0]);
      StepKeeps(s, steps[0]);
      RunKeepsEcho(Apply(s, steps[0]), steps[1..], t);
    }
  }

  lemma QuietIsSafe(s: State, t: State)
    requires StageInv(s) && s.writer.Locked? && Quiet(s) && s.resultSize == 0 && s.published == []
    requires Leads(s, t) && t.writer.Woken?
    ensures Prefix(t.buffer, t.writer.bytes)
  {
    var steps :| Runs(s, steps, t);
    RunKeepsEcho(s, steps, t);
  }

  // ---- unsafe direction ----------------------------------------------------------------

  /** t is s but for the writer's progress to submission and the buffer. */
  lemma Prepare(s: State) returns (u: State)
    requires StageInv(s) && s.writer.Locked?
    ensures Leads(s, u) && StageInv(u)
    ensures u.writer == Submitted(s.writer.bytes) && u.dmaLen == |s.writer.bytes| && u.stage == ToDevice
    ensures u.handler == s.handler && u.worker == s.worker && u.queue == s.queue
    ensures u.engine == s.engine && u.irqPending == s.irqPending
  {
    hide Leads, Overwrite, Stages, Workers, Queue, History;
    LeadsHere(s);
    u := Then(s, s, Copy);
    u := Then(s, u, ClearBit);
    u := Then(s, u, SetLength);
    u := Then(s, u, SubmitJob);
  }

  /** The submitted job before anything of it happened. */
  predicate Fresh(s: State, bytes: seq<byte>) {
    StageInv(s) && s.writer == Submitted(bytes) && s.dmaLen == |bytes| && s.stage.ToDevice? && s.engine.Stopped?
  }

  /** A leftover transfer turns into a leftover interrupt. */
  lemma StopEngine(s: State, t: State) returns (u: State)
    requires Leads(s, t) && StageInv(t) && t.writer.Submitted? && t.dmaLen == |t.writer.bytes| && t.stage.ToDevice?
    requires !Quiet(t)
    ensures Leads(s, u) && Fresh(u, t.writer.bytes) && !Quiet(u)
  {
    hide Leads, Overwrite, Stages, Workers, Queue, History;
    u := t;
    if t.engine.Transfer? {
      u := Then(s, u, DeviceDone);
    }
  }

  predicate AdvanceComing(s: State) {
    AdvanceWork in s.queue || s.worker == Popped(AdvanceWork)
  }

  lemma Queued(queue: seq<Work>, work: Work)
    ensures work in Enqueue(queue, work)
    ensures forall w :: w in queue ==> w in Enqueue(queue, work)
  {
  }

  /** The handler, holding the stage the new job just set, queues an advance for it. */
  lemma QueueHeld(s: State, t: State, bytes: seq<byte>) returns (u: State)
    requires Leads(s, t) && Fresh(t, bytes) && (t.handler == Acked || t.handler == Holds(ToDevice))
    ensures Leads(s, u) && Fresh(u, bytes) && AdvanceComing(u)
  {
    hide Leads, Stages, Workers, Queue, History, Enqueue;
    u := t;
    if t.handler.Acked? {
      u := Then(s, u, IrqRead);
    }
    Queued(u.queue, AdvanceWork);
    u := Then(s, u, IrqQueue);
  }

  /** Any leftover ends up as an advance in the worker's queue. */
  lemma LeftoverQueues(s: State, t: State, bytes: seq<byte>) returns (u: State)
    requires Leads(s, t) && Fresh(t, bytes) && !Quiet(t)
    ensures Leads(s, u) && Fresh(u, bytes) && AdvanceComing(u)
  {
    hide Leads, Stages, Workers, Queue, History, Enqueue;
    u := t;
    if AdvanceComing(t) {
    } else if !HandlerCalm(t.handler) {
      u := QueueHeld(s, t, bytes);
    } else {
      if t.handler.Holds? {
        u := Then(s, u, IrqQueue);
      }
      u := Then(s, u, IrqAck);
      u := QueueHeld(s, u, bytes);
    }
  }

  lemma FreshWorker(s: State, bytes: seq<byte>)
    requires Fresh(s, bytes)
    ensures s.worker.Resting? || s.worker.Popped?
    ensures AdvanceWork in s.queue ==> s.queue[0] == AdvanceWork || s.queue == [FinishWork, AdvanceWork]
  {
  }

  /** A leftover finish gets out of the way without effect. */
  lemma SkipFinish(s: State, t: State, bytes: seq<byte>) returns (u: State)
    requires Leads(s, t) && Fresh(t, bytes) && AdvanceComing(t)
    ensures Leads(s, u) && Fresh(u, bytes) && AdvanceComing(u) && u.worker != Popped(FinishWork)
    ensures t.worker == Popped(FinishWork) ==> u.queue == t.queue
  {
    hide Leads, Stages, Workers, Queue, History;
    FreshWorker(t, bytes);
    u := t;
    if u.worker == Popped(FinishWork) {
      u := Then(s, u, RunFinish);
    }
  }

  lemma PopOne(s: State, t: State, bytes: seq<byte>) returns (u: State)
    requires Leads(s, t) && Fresh(t, bytes) && t.worker == Resting && AdvanceWork in t.queue
    ensures Leads(s, u) && Fresh(u, bytes) && AdvanceComing(u)
    ensures u.worker == Popped(t.queue[0]) && u.queue == t.queue[1..]
    ensures t.queue[0] == FinishWork ==> u.queue == [AdvanceWork]
  {
    hide Leads, Stages, Workers, Queue, History;
    FreshWorker(t, bytes);
    u := Then(s, t, Pop);
  }

  /** The worker reaches that advance while the device has not even started. */
  lemma ReachAdvance(s: State, t: State, bytes: seq<byte>) returns (u: State)
    requires Leads(s, t) && Fresh(t, bytes) && AdvanceComing(t)
    ensures Leads(s, u) && Fresh(u, bytes) && u.worker == Popped(AdvanceWork)
  {
    hide Leads, StageInv, Apply, Enabled;
    u := SkipFinish(s, t, bytes);
    FreshWorker(u, bytes);
    if u.worker == Resting {
      u := PopOne(s, u, bytes);
      if u.worker == Popped(FinishWork) {
        u := SkipFinish(s, u, bytes);
        FreshWorker(u, bytes);
        if u.worker == Resting {
          u := PopOne(s, u, bytes);
          FreshWorker(u, bytes);
        }
      }
    }
  }

  lemma AdvanceTooEarly(s: State, t: State, bytes: seq<byte>) returns (u: State)
    requires Leads(s, t) && Fresh(t, bytes) && AdvanceComing(t)
    ensures Leads(s, u) && StageInv(u) && u.writer == Submitted(bytes) && u.dmaLen == |bytes|
    ensures u.engine.Stopped? && u.stage.FromDevice? && u.worker == Advancing
  {
    hide Leads, Stages, Workers, Queue, History;
    u := ReachAdvance(s, t, bytes);
    u := Then(s, u, RunAdvance);
  }

  /** The wiped buffer makes the round trip in place of the bytes. */
  lemma ZerosGoOut(s: State, t: State, bytes: seq<byte>) returns (u: State)
    requires Leads(s, t) && StageInv(t) && t.writer == Submitted(bytes) && t.dmaLen == |bytes|
    requires t.engine.Stopped? && t.stage.FromDevice? && t.worker == Advancing
    ensures Leads(s, u) && StageInv(u) && u.writer == Waiting(bytes) && u.stage.FromDevice? && u.dmaLen == |bytes|
    ensures u.engine.Stopped? && u.worker == Wiped && Prefix(u.deviceBuffer, Zeros(|bytes|))
  {
    hide Leads, Stages, Workers, Queue, History, Overwrite;
    OverwritePrefix(t.buffer, Zeros(|bytes|));
    u := Then(s, t, Wipe);
    u := Then(s, u, StartOut);
    OverwritePrefix(u.deviceBuffer, u.buffer[..|bytes|]);
    u := Then(s, u, DeviceDone);
  }

  lemma ZerosComeBack(s: State, t: State, bytes: seq<byte>) returns (u: State)
    requires Leads(s, t) && StageInv(t) && t.writer == Waiting(bytes) && t.stage.FromDevice? && t.dmaLen == |bytes|
    requires t.engine.Stopped? && t.worker == Wiped && Prefix(t.deviceBuffer, Zeros(|bytes|))
    ensures Leads(s, u) && StageInv(u) && u.writer == Waiting(bytes) && u.stage.FromDevice?
    ensures u.worker == Resting && u.irqPending && Prefix(u.buffer, Zeros(|bytes|))
  {
    hide Leads, Stages, Workers, Queue, History, Overwrite;
    u := Then(s, t, StartBack);
    OverwritePrefix(u.buffer, u.deviceBuffer[..|bytes|]);
    u := Then(s, u, DeviceDone);
  }

  /** The second interrupt finishes the job over that buffer. */
  lemma FinishAnyway(s: State, t: State, bytes: seq<byte>) returns (u: State)
    requires Leads(s, t) && StageInv(t) && t.writer == Waiting(bytes) && t.stage.FromDevice?
    requires t.worker == Resting && t.irqPending
    ensures Leads(s, u) && u.writer == Woken(bytes) && u.buffer == t.buffer
  {
    hide Leads, Stages, Workers, Queue, History;
    u := QueueFinish(s, t, bytes);
    u := ReachFinish(s, u, bytes);
    u := Then(s, u, RunFinish);
    u := Then(s, u, SetBit);
    u := Then(s, u, WaitDone);
  }

  lemma ReachFinish(s: State, t: State, bytes: seq<byte>) returns (u: State)
    requires Leads(s, t) && StageInv(t) && t.writer == Waiting(bytes) && t.stage.FromDevice?
    requires t.worker == Resting && FinishWork in t.queue
    ensures Leads(s, u) && StageInv(u) && u.writer == Waiting(bytes) && u.stage.FromDevice?
    ensures u.worker == Popped(FinishWork) && u.buffer == t.buffer
  {
    FinishPlace(t);
    hide Leads, Stages, Workers, Queue, History;
    u := Then(s, t, Pop);
    if u.worker == Popped(AdvanceWork) {
      u := Then(s, u, RunAdvance);
      u := Then(s, u, Pop);
    }
  }

  lemma FinishPlace(s: State)
    requires StageInv(s) && FinishWork in s.queue
    ensures s.queue[0] == FinishWork || s.queue == [AdvanceWork, FinishWork]
  {
  }

  lemma QueueFinish(s: State, t: State, bytes: seq<byte>) returns (u: State)
    requires Leads(s, t) && StageInv(t) && t.writer == Waiting(bytes) && t.stage.FromDevice?
    requires t.worker == Resting && t.irqPending
    ensures Leads(s, u) && StageInv(u) && u.writer == Waiting(bytes) && u.stage.FromDevice?
    ensures u.worker == Resting && FinishWork in u.queue && u.buffer == t.buffer
  {
    hide Leads, Stages, Workers, Queue, History, Enqueue;
    u := t;
    if u.handler.Acked? {
      u := Then(s, u, IrqRead);
    }
    if u.handler.Holds? {
      u := Then(s, u, IrqQueue);
    }
    u := Then(s, u, IrqAck);
    u := Then(s, u, IrqRead);
    Queued(u.queue, FinishWork);
    u := Then(s, u, IrqQueue);
  }

  /** A write that does not start quiet can report success without having echoed anything. */
  lemma LeftoverCorrupts(s: State) returns (t: State)
    requires StageInv(s) && s.writer.Locked? && !Quiet(s)
    ensures Leads(s, t) && t.writer == Woken(s.writer.bytes) && Prefix(t.buffer, Zeros(|s.writer.bytes|))
  {
    hide Apply, Enabled, Stages, Workers, Queue, History, Leads;
    var bytes := s.writer.bytes;
    t := Prepare(s);
    t := StopEngine(s, t);
    t := LeftoverQueues(s, t, bytes);
    t := AdvanceTooEarly(s, t, bytes);
    t := ZerosGoOut(s, t, bytes);
    t := ZerosComeBack(s, t, bytes);
    t := FinishAnyway(s, t, bytes);
  }

  /** The exact condition: with bytes that are not all zero, every way the write can report
      success returns them if and only if it started quiet. */
  lemma EchoCorrectIffQuiet(s: State, k: nat)
    requires StageInv(s) && s.writer.Locked? && s.resultSize == 0 && s.published == []
    requires k < |s.writer.bytes| && s.writer.bytes[k] != 0
    ensures Quiet(s) <==>
            forall t :: Leads(s, t) && t.writer == Woken(s.writer.bytes) ==> Prefix(t.buffer, s.writer.bytes)
  {
    hide StageInv, Leads;
    if Quiet(s) {
      forall t | Leads(s, t) && t.writer == Woken(s.writer.bytes)
        ensures Prefix(t.buffer, s.writer.bytes)
      {
        QuietIsSafe(s, t);
      }
    } else {
      var t := LeftoverCorrupts(s);
      assert t.buffer[..|s.writer.bytes|][k] == 0;
    }
  }

  /** The first transfer's interrupt is taken, but its handler has not queued the work yet. */
  lemma HandlerStalls(s: State, t: State) returns (u: State)
    requires Leads(s, t) && StageInv(t) && t.writer.Submitted? && t.stage.ToDevice?
    requires t.engine.Stopped? && !t.irqPending && t.handler.Quiescent? && t.worker.Resting? && t.queue == []
    ensures Leads(s, u) && StageInv(u) && u.writer.Waiting? && u.handler == Holds(ToDevice)
    ensures u.engine.Stopped? && !u.irqPending && u.worker.Resting? && u.queue == []
  {
    hide Leads, Stages, Workers, Queue, History, Overwrite;
    u := Then(s, t, StartOut);
    u := Then(s, u, DeviceDone);
    u := Then(s, u, IrqAck);
    u := Then(s, u, IrqRead);
  }

  /** A signal ends the write; only then does the stalled handler queue its advance. */
  lemma AbortMissesIt(s: State, t: State) returns (u: State)
    requires Leads(s, t) && StageInv(t) && t.writer.Waiting? && t.handler == Holds(ToDevice)
    requires t.engine.Stopped? && !t.irqPending && t.worker.Resting? && t.queue == []
    ensures Leads(s, u) && StageInv(u) && u.writer.Unlocked? && u.handler.Quiescent?
    ensures u.engine.Stopped? && !u.irqPending && u.queue == [AdvanceWork]
  {
    hide Leads, Stages, Workers, Queue, History;
    u := Then(s, t, AbortWait);
    u := Then(s, u, CancelAdvance);
    u := Then(s, u, CancelFinish);
    u := Then(s, u, IrqQueue);
  }

  /** An aborted first write can leave an idle device, no interrupt pending and a handler at
      rest, and still not a quiet start for the next one. */
  lemma IdleDeviceIsNotEnough(s: State, bytes: seq<byte>) returns (t: State)
    requires Initial(s) && 0 < |bytes| < DMA_SIZE
    ensures Leads(Apply(s, Acquire(bytes)), t) && t.writer.Unlocked?
    ensures StageInv(t) && t.engine.Stopped? && !t.irqPending && t.handler.Quiescent? && !Quiet(t)
  {
    InitialHolds(s);
    var a := Apply(s, Acquire(bytes));
    assert StageInv(a) by { StepKeeps(s, Acquire(bytes)); }
    assert a.writer.Locked? && a.engine.Stopped? && !a.irqPending && a.handler.Quiescent?
           && a.worker.Resting? && a.queue == [];
    hide *;
    t := Prepare(a);
    t := HandlerStalls(a, t);
    t := AbortMissesIt(a, t);
    assert AdvanceWork in t.queue;
    NotQuiet(t);
  }

  lemma NotQuiet(s: State)
    requires AdvanceWork in s.queue
    ensures !Quiet(s)
  {
  }

  /**
   From power-on to a wrong success: a first write is aborted, the device goes idle with no interrupt
   pending and the handler at rest, and then a run of the second write reports success over zeros.
   */
  lemma SecondWriteEchoesZeros(s: State, first: seq<byte>, second: seq<byte>) returns (t: State, u: State)
    requires Initial(s) && 0 < |first| < DMA_SIZE && 0 < |second| < DMA_SIZE
    ensures Leads(Apply(s, Acquire(first)), t)
    ensures Shaped(t) && Enabled(t, Acquire(second)) && t.engine.Stopped? && !t.irqPending && t.handler.Quiescent?
    ensures Leads(Apply(t, Acquire(second)), u) && u.writer == Woken(second) && Prefix(u.buffer, Zeros(|second|))
    ensures (exists k :: 0 <= k < |second| && second[k] != 0) ==> !Prefix(u.buffer, second)
  {
    t := IdleDeviceIsNotEnough(s, first);
    var b := Apply(t, Acquire(second));
    StepKeeps(t, Acquire(second));
    assert b.writer == Locked(second) && !Quiet(b);
    hide *;
    u := LeftoverCorrupts(b);
    ZerosOnly(u.buffer, second);
  }

  lemma ZerosOnly(buffer: seq<byte>, bytes: seq<byte>)
    ensures Prefix(buffer, Zeros(|bytes|)) && (exists k :: 0 <= k < |bytes| && bytes[k] != 0) ==> !Prefix(buffer, bytes)
  {
    if Prefix(buffer, Zeros(|bytes|)) {
      if k :| 0 <= k < |bytes| && bytes[k] != 0 {
        assert buffer[..|bytes|][k] == 0;
      }
    }
  }
}
