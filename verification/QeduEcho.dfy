/**
 What the bytes of a DMA echo are.  A write that takes the DMA path returns the caller's
 bytes exactly when nothing of an earlier transfer can still act as the first interrupt of
 the new one; an idle device with no interrupt pending is not enough for that.
 */
module QeduEcho {
  import opened Bytes
  import opened QeduProtocol
  import opened QeduStages

  predicate Prefix(buffer: seq<byte>, bytes: seq<byte>) {
    |bytes| <= |buffer| && buffer[..|bytes|] == bytes
  }

  /** The handler is not on its way to queueing an advance. */
  predicate HandlerCalm(h: Handler) {
    h != Acked && h != Holds(ToDevice)
  }

  /** No advance is queued or about to run. */
  predicate NoAdvance(s: State) {
    AdvanceWork !in s.queue && s.worker != Popped(AdvanceWork)
  }

  /** Nothing left over from earlier transfers can be taken for the new one's progress.
      A leftover finish is harmless: the queue is ordered, so it runs too early to matter. */
  predicate Quiet(s: State) {
    s.engine.Stopped? && !s.irqPending && HandlerCalm(s.handler) && NoAdvance(s)
  }

  /** The device is reading the buffer. */
  predicate GoingOut(s: State, bytes: seq<byte>) {
    && s.stage.ToDevice? && s.engine == Transfer(true, |bytes|) && !s.irqPending
    && HandlerCalm(s.handler) && NoAdvance(s) && Prefix(s.buffer, bytes)
  }

  /** The device holds the bytes, and exactly one token is on its way to the advance work. */
  predicate Arrived(s: State, bytes: seq<byte>) {
    && s.stage.ToDevice? && s.engine.Stopped? && Prefix(s.deviceBuffer, bytes)
    && (|| (s.irqPending && HandlerCalm(s.handler) && NoAdvance(s))
        || (!s.irqPending && !HandlerCalm(s.handler) && NoAdvance(s))
        || (!s.irqPending && s.handler.Quiescent? && s.worker != Popped(AdvanceWork)
            && (s.queue == [AdvanceWork] || s.queue == [FinishWork, AdvanceWork]))
        || (!s.irqPending && s.handler.Quiescent? && s.worker == Popped(AdvanceWork) && s.queue == []))
  }

  predicate Still(s: State) {
    !s.irqPending && s.handler.Quiescent? && s.queue == []
  }

  /** The worker is between its exchange and the second transfer. */
  predicate TurningRound(s: State, bytes: seq<byte>) {
    && s.stage.FromDevice? && s.engine.Stopped? && Still(s)
    && (s.worker.Advancing? || s.worker.Wiped?) && Prefix(s.deviceBuffer, bytes)
  }

  predicate ComingBack(s: State, bytes: seq<byte>) {
    && s.stage.FromDevice? && s.engine == Transfer(false, |bytes|) && Still(s)
    && s.worker.Resting? && Prefix(s.deviceBuffer, bytes)
  }

  /** The bytes are back, and exactly one token is on its way to the finish work. */
  predicate Returned(s: State, bytes: seq<byte>) {
    && s.stage.FromDevice? && s.engine.Stopped? && Prefix(s.buffer, bytes)
    && (|| (s.irqPending && s.handler.Quiescent? && s.queue == [] && s.worker.Resting?)
        || (!s.irqPending && (s.handler.Acked? || s.handler == Holds(FromDevice)) && s.queue == [] && s.worker.Resting?)
        || (!s.irqPending && s.handler.Quiescent? && s.queue == [FinishWork] && s.worker.Resting?)
        || (Still(s) && s.worker == Popped(FinishWork)))
  }

  predicate Settled(s: State, bytes: seq<byte>) {
    && s.stage.Idle? && s.engine.Stopped? && Still(s) && Prefix(s.buffer, bytes)
    && (s.worker.Finishing? || s.worker.Resting?)
  }

  predicate InFlight(s: State, bytes: seq<byte>) {
    || GoingOut(s, bytes) || Arrived(s, bytes) || TurningRound(s, bytes)
    || ComingBack(s, bytes) || Returned(s, bytes) || Settled(s, bytes)
  }

  /** The data invariant of a job that started quiet. */
  predicate Echo(s: State) {
    match s.writer
    case Unlocked => |s.published| == s.resultSize && (s.resultSize > 0 ==> Quiet(s) && Prefix(s.buffer, s.published))
    case Locked(_) => s.resultSize == 0 && s.published == [] && Quiet(s)
    case Copied(bytes) => s.resultSize == 0 && s.published == [] && Quiet(s) && Prefix(s.buffer, bytes)
    case Cleared(bytes) => s.resultSize == 0 && s.published == [] && Quiet(s) && Prefix(s.buffer, bytes)
    case Sized(bytes) =>
      s.resultSize == 0 && s.published == [] && Quiet(s) && Prefix(s.buffer, bytes) && s.dmaLen == |bytes|
    case Submitted(bytes) =>
      s.resultSize == 0 && s.published == [] && Quiet(s) && Prefix(s.buffer, bytes) && s.dmaLen == |bytes|
      && s.stage.ToDevice?
    case Waiting(bytes) => s.resultSize == 0 && s.published == [] && InFlight(s, bytes) && s.dmaLen == |bytes|
    case Woken(bytes) => s.resultSize == 0 && s.published == [] && Settled(s, bytes)
    case Aborted => s.resultSize == 0 && s.published == []
    case AdvanceCancelled => s.resultSize == 0 && s.published == []
  }

  lemma OverwritePrefix(before: seq<byte>, front: seq<byte>)
    requires |front| <= |before|
    ensures Prefix(Overwrite(before, front), front)
  {
  }

  lemma OverwriteLonger(before: seq<byte>, bytes: seq<byte>)
    requires |bytes| + 1 <= |before|
    ensures Prefix(Overwrite(before, bytes + [0]), bytes)
  {
  }

  /** Steps that can be mistaken neither for a fresh job nor for a hardware fault. */
  predicate Clean(s: State, step: Step) {
    !step.SpuriousIrq? && (step.Acquire? ==> Quiet(s))
  }

  lemma WriterEcho(s: State, step: Step)
    requires StageInv(s) && Echo(s) && Enabled(s, step) && Clean(s, step)
    requires step.TurnAway? || step.Acquire? || step.CopyFails? || step.Copy? || step.Factorial? || step.FactorialFails?
             || step.ClearBit? || step.SetLength? || step.SubmitJob? || step.StartOut?
    ensures Echo(Apply(s, step))
  {
    hide Ends, Turned, Overwrite, Prefix, Ended;
    if step.Copy? {
      OverwriteLonger(s.buffer, s.writer.bytes);
    } else if step.Factorial? {
      OverwriteLonger(s.buffer, step.text);
    }
  }

  lemma EndEcho(s: State, step: Step)
    requires StageInv(s) && Echo(s) && Enabled(s, step)
    requires step.WaitDone? || step.Succeed? || step.AbortWait? || step.CancelAdvance? || step.CancelFinish?
    ensures Echo(Apply(s, step))
  {
    hide Ends, Turned, Overwrite, Prefix, Without;
  }

  lemma EnqueueCases(queue: seq<Work>)
    requires |queue| <= 2 && (|queue| == 2 ==> queue[0] != queue[1]) && AdvanceWork !in queue
    ensures queue == [] || queue == [FinishWork]
    ensures Enqueue(queue, AdvanceWork) == (if queue == [] then [AdvanceWork] else [FinishWork, AdvanceWork])
    ensures Enqueue(queue, FinishWork) == [FinishWork]
  {
    assert |queue| >= 1 ==> queue[0] in queue;
    if |queue| == 1 {
      assert queue[0] == FinishWork;
      assert queue == [FinishWork];
    }
  }

  lemma InterruptEcho(s: State, step: Step)
    requires StageInv(s) && Echo(s) && Enabled(s, step)
    requires step.IrqAck? || step.IrqRead?
    ensures Echo(Apply(s, step))
  {
    hide Ends, Turned, Overwrite, Prefix, Ended;
  }

  lemma IrqQueueEcho(s: State)
    requires StageInv(s) && Echo(s) && Enabled(s, IrqQueue)
    ensures Echo(Apply(s, IrqQueue))
  {
    hide Ends, Turned, Overwrite, Prefix, Ended, Enqueue;
    if AdvanceWork !in s.queue {
      EnqueueCases(s.queue);
    }
  }

  lemma PopEcho(s: State)
    requires StageInv(s) && Echo(s) && Enabled(s, Pop)
    ensures Echo(Apply(s, Pop))
  {
    hide Ends, Turned, Overwrite, Prefix, Ended;
    if AdvanceWork !in s.queue {
      EnqueueCases(s.queue);
    }
  }

  lemma WorkerEcho(s: State, step: Step)
    requires StageInv(s) && Echo(s) && Enabled(s, step)
    requires step.RunAdvance? || step.Wipe? || step.StartBack? || step.RunFinish? || step.SetBit?
    ensures Echo(Apply(s, step))
  {
    hide Ends, Turned, Overwrite, Prefix, Ended, Zeros;
  }

  lemma DeviceEcho(s: State)
    requires StageInv(s) && Echo(s) && Enabled(s, DeviceDone)
    ensures Echo(Apply(s, DeviceDone))
  {
    hide Ends, Turned, Overwrite, Ended;
    if s.writer.Waiting? && s.engine.len == |s.writer.bytes| {
      OverwritePrefix(s.deviceBuffer, s.buffer[..s.engine.len]);
      OverwritePrefix(s.buffer, s.deviceBuffer[..s.engine.len]);
    }
  }

  lemma StepEcho(s: State, step: Step)
    requires StageInv(s) && Echo(s) && Enabled(s, step) && Clean(s, step)
    ensures Echo(Apply(s, step))
  {
    hide Echo, StageInv, Apply, Enabled;
    if step.DeviceDone? {
      DeviceEcho(s);
    } else if step.Pop? {
      PopEcho(s);
    } else if step.RunAdvance? || step.Wipe? || step.StartBack? || step.RunFinish? || step.SetBit? {
      WorkerEcho(s, step);
    } else if step.IrqQueue? {
      IrqQueueEcho(s);
    } else if step.IrqAck? || step.IrqRead? {
      InterruptEcho(s, step);
    } else if step.WaitDone? || step.Succeed? || step.AbortWait? || step.CancelAdvance? || step.CancelFinish? {
      EndEcho(s, step);
    } else {
      WriterEcho(s, step);
    }
  }

  ghost predicate CleanlyLinked(trace: seq<State>, i: nat)
    requires i + 1 < |trace|
  {
    exists step :: Shaped(trace[i]) && Enabled(trace[i], step) && Clean(trace[i], step)
                   && trace[i + 1] == Apply(trace[i], step)
  }

  /** An interleaving without hardware faults in which every write starts quiet. */
  ghost predicate CleanBehaviour(trace: seq<State>) {
    trace != [] && Initial(trace[0]) && forall i: nat :: i + 1 < |trace| ==> CleanlyLinked(trace, i)
  }

  lemma InitialEcho(s: State)
    requires Initial(s)
    ensures Echo(s) && StageInv(s)
  {
    InitialHolds(s);
  }

  lemma {:induction false} EchoAt(trace: seq<State>, i: nat)
    requires CleanBehaviour(trace) && i < |trace|
    ensures StageInv(trace[i]) && Echo(trace[i])
  {
    hide Echo, StageInv, Apply, Enabled, Clean, Shaped;
    if i == 0 {
      InitialEcho(trace[0]);
    } else {
      EchoAt(trace, i - 1);
      assert CleanlyLinked(trace, i - 1);
      var step :| Shaped(trace[i - 1]) && Enabled(trace[i - 1], step) && Clean(trace[i - 1], step)
                  && trace[i] == Apply(trace[i - 1], step);
      StepEcho(trace[i - 1], step);
      StepKeeps(trace[i - 1], step);
    }
  }

  /** read(2): a slice of the shared buffer, bounded by the size of the last result. */
  function Read(s: State, offset: nat, count: nat): seq<byte>
    requires Shaped(s)
  {
    if offset >= s.resultSize then []
    else s.buffer[offset..if count < s.resultSize - offset then offset + count else s.resultSize]
  }

  /** The same slice of what the last successful write put there, or nothing after a failed one. */
  function Slice(bytes: seq<byte>, offset: nat, count: nat): (r: seq<byte>)
    ensures offset + count <= |bytes| ==> |r| == count
    ensures offset <= |bytes| < offset + count ==> |r| == |bytes| - offset
    ensures offset >= |bytes| ==> r == []
    ensures forall k :: 0 <= k < |r| ==> offset + k < |bytes| && r[k] == bytes[offset + k]
  {
    if offset >= |bytes| then []
    else bytes[offset..if count < |bytes| - offset then offset + count else |bytes|]
  }

  /** When every write starts quiet: a write about to report success finds its caller's
      bytes in the buffer, a failed one leaves nothing readable, and every read with the
      lock free returns the requested slice of the last result. */
  lemma EchoIsFaithful(trace: seq<State>, s: State)
    requires CleanBehaviour(trace) && s in trace
    ensures s.writer.Woken? ==> Prefix(s.buffer, s.writer.bytes)
    ensures s.writer.Aborted? || s.writer.AdvanceCancelled? ==> s.resultSize == 0 && s.published == []
    ensures Shaped(s)
    ensures s.writer.Unlocked? ==> forall offset, count :: Read(s, offset, count) == Slice(s.published, offset, count)
  {
    hide CleanBehaviour;
    var i :| 0 <= i < |trace| && trace[i] == s;
    EchoAt(trace, i);
    if s.writer.Unlocked? {
      forall offset, count
        ensures Read(s, offset, count) == Slice(s.published, offset, count)
      {
        ReadsSlice(s, offset, count);
      }
    }
  }

  lemma ReadsSlice(s: State, offset: nat, count: nat)
    requires Shaped(s) && Echo(s) && s.writer.Unlocked?
    ensures Read(s, offset, count) == Slice(s.published, offset, count)
  {
    if offset < s.resultSize {
      var end := if count < s.resultSize - offset then offset + count else s.resultSize;
      SlicesAgree(s.buffer, s.published, offset, end);
    }
  }

  lemma SlicesAgree(buffer: seq<byte>, front: seq<byte>, low: nat, high: nat)
    requires Prefix(buffer, front) && low <= high <= |front| <= |buffer|
    ensures buffer[low..high] == front[low..high]
  {
    assert buffer[..|front|] == front;
    assert buffer[..|front|][low..high] == buffer[low..high];
  }
}
