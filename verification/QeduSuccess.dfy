/** A DMA write that starts quiet can always go through, whatever harmless leftover there is. */
module QeduSuccess {
  import opened Bytes
  import opened QeduProtocol
  import opened QeduStages
  import opened QeduEcho
  import opened QeduRaces

  /** Nothing is queued, running or pending. */
  predicate AllStill(s: State) {
    Still(s) && s.engine.Stopped? && s.worker.Resting?
  }

  lemma QuietQueue(s: State)
    requires StageInv(s) && s.writer.Locked? && NoAdvance(s)
    ensures s.queue == [] || s.queue == [FinishWork]
    ensures s.worker.Resting? || s.worker == Popped(FinishWork)
  {
    EnqueueCases(s.queue);
    if s.worker.Popped? {
      assert s.worker == Popped(s.worker.work);
      assert s.worker.work == AdvanceWork || s.worker.work == FinishWork;
    }
  }

  /** Leftover finishes run without effect. */
  lemma DrainFinish(s: State, t: State) returns (u: State)
    requires Leads(s, t) && StageInv(t) && t.writer.Locked? && Quiet(t) && t.handler.Quiescent?
    ensures Leads(s, u) && StageInv(u) && u.writer == t.writer && AllStill(u)
  {
    QuietQueue(t);
    hide Leads, Stages, Workers, Queue, History;
    u := t;
    if u.worker.Popped? {
      u := RunLeftover(s, u);
    }
    if u.queue != [] {
      u := Then(s, u, Pop);
      u := RunLeftover(s, u);
    }
  }

  lemma RunLeftover(s: State, t: State) returns (u: State)
    requires Leads(s, t) && StageInv(t) && t.writer.Locked? && t.worker == Popped(FinishWork)
    ensures Leads(s, u) && StageInv(u) && u == t.(worker := Resting)
  {
    IdleWhenLocked(t);
    hide Leads, Stages, Workers, Queue, History;
    u := Then(s, t, RunFinish);
  }

  lemma IdleWhenLocked(s: State)
    requires StageInv(s) && s.writer.Locked?
    ensures s.stage.Idle?
  {
  }

  lemma Drain(s: State) returns (u: State)
    requires StageInv(s) && s.writer.Locked? && Quiet(s)
    ensures Leads(s, u) && StageInv(u) && u.writer == s.writer && AllStill(u)
  {
    QuietQueue(s);
    EnqueueCases(s.queue);
    hide Leads, Stages, Workers, Queue, History, Enqueue;
    LeadsHere(s);
    u := s;
    if u.handler.Holds? {
      u := Then(s, u, IrqQueue);
    }
    u := DrainFinish(s, u);
  }

  /** The bytes go out, and the device's interrupt starts the advance. */
  lemma GoOut(s: State, t: State) returns (u: State)
    requires Leads(s, t) && StageInv(t) && t.writer.Submitted? && t.stage.ToDevice? && AllStill(t)
    ensures Leads(s, u) && StageInv(u) && u.writer == Waiting(t.writer.bytes) && u.stage.FromDevice?
    ensures u.engine.Stopped? && u.worker == Advancing
  {
    hide Leads, Stages, Workers, Queue, History, Overwrite, Zeros, Ends, Turned, Without;
    u := Then(s, t, StartOut);
    u := Then(s, u, DeviceDone);
    u := Then(s, u, IrqAck);
    u := Interrupt(s, u);
  }

  /** The handler's interrupt reaches the worker. */
  lemma Interrupt(s: State, t: State) returns (u: State)
    requires Leads(s, t) && StageInv(t) && t.writer.Waiting? && t.stage.ToDevice? && t.handler.Acked?
    requires t.engine.Stopped? && t.queue == [] && t.worker.Resting?
    ensures Leads(s, u) && StageInv(u) && u.writer == t.writer && u.stage.FromDevice?
    ensures u.engine.Stopped? && u.worker == Advancing
  {
    hide Leads, Stages, Workers, Queue, History, Overwrite, Zeros, Ends, Turned, Without;
    u := Then(s, t, IrqRead);
    u := Then(s, u, IrqQueue);
    u := Then(s, u, Pop);
    u := Then(s, u, RunAdvance);
  }

  /** They come back, and the second interrupt is pending. */
  lemma ComeBack(s: State, t: State) returns (u: State)
    requires Leads(s, t) && StageInv(t) && t.writer.Waiting? && t.stage.FromDevice?
    requires t.engine.Stopped? && t.worker == Advancing
    ensures Leads(s, u) && StageInv(u) && u.writer == t.writer && u.stage.FromDevice?
    ensures u.worker == Resting && u.irqPending
  {
    hide Leads, Stages, Workers, Queue, History, Overwrite, Zeros, Ends, Turned, Without, Enqueue;
    u := Then(s, t, Wipe);
    u := Then(s, u, StartBack);
    u := DeviceReturns(s, u);
  }

  lemma DeviceReturns(s: State, t: State) returns (u: State)
    requires Leads(s, t) && StageInv(t) && t.engine.Transfer?
    ensures Leads(s, u) && StageInv(u) && u.irqPending
    ensures u.writer == t.writer && u.stage == t.stage && u.worker == t.worker
  {
    hide Leads, Stages, Workers, Queue, History, Overwrite;
    u := Then(s, t, DeviceDone);
  }

  /** From every quiet start some run of the write succeeds, and its bytes are in the buffer. */
  lemma QuietSucceeds(s: State) returns (t: State)
    requires StageInv(s) && s.writer.Locked? && Quiet(s) && s.resultSize == 0 && s.published == []
    ensures Leads(s, t) && t.writer == Woken(s.writer.bytes) && Prefix(t.buffer, s.writer.bytes)
  {
    hide Leads, StageInv, Prefix;
    var bytes := s.writer.bytes;
    var d := Drain(s);
    var p := Prepare(d);
    LeadsJoin(s, d, p);
    t := GoOut(s, p);
    t := ComeBack(s, t);
    t := FinishAnyway(s, t, bytes);
    QuietIsSafe(s, t);
  }

  /** Cancelling removes the work it names from the queue and no other. */
  lemma CancelRemoves(s: State, step: Step)
    requires StageInv(s) && Enabled(s, step) && (step.CancelAdvance? || step.CancelFinish?)
    ensures var work := if step.CancelAdvance? then AdvanceWork else FinishWork;
            forall w :: w in Apply(s, step).queue <==> w in s.queue && w != work
  {
    hide Without, Ends;
    WithoutShort(s.queue, AdvanceWork);
    WithoutShort(s.queue, FinishWork);
  }
}
