/** Stage changes of the QEDU DMA protocol, in every interleaving whatsoever. */
module QeduStages {
  import opened QeduProtocol

  /** The stage changes one job may make. */
  predicate Lawful(log: seq<Reason>) {
    log in {[Submit], [Submit, Advance], [Submit, Advance, Finish],
            [Submit, Abort], [Submit, Advance, Abort], [Submit, Advance, Finish, Abort]}
  }

  predicate Ended(log: seq<Reason>) {
    log in {[Submit, Advance, Finish],
            [Submit, Abort], [Submit, Advance, Abort], [Submit, Advance, Finish, Abort]}
  }

  /** The stage is what the running job's log says, and Idle outside a job. */
  predicate Stages(s: State) {
    match s.writer
    case Submitted(_) => Running(s)
    case Waiting(_) => Running(s)
    case Woken(_) => s.stage.Idle? && s.log == [Submit, Advance, Finish]
    case Aborted => s.stage.Idle? && Ended(s.log) && s.log != [Submit, Advance, Finish]
    case AdvanceCancelled => s.stage.Idle? && Ended(s.log) && s.log != [Submit, Advance, Finish]
    case _ => s.stage.Idle?
  }

  predicate Running(s: State) {
    || (s.stage.ToDevice? && s.log == [Submit])
    || (s.stage.FromDevice? && s.log == [Submit, Advance])
    || (s.stage.Idle? && s.log == [Submit, Advance, Finish])
  }

  /** A work item past its compare-and-exchange belongs to the job that is running, or is
      waited for by its abort; and the completion bit is this job's. */
  predicate Workers(s: State) {
    && (s.worker.Advancing? || s.worker.Wiped? ==>
          (InJob(s.writer) && s.stage.FromDevice?) || s.writer.Aborted?)
    && (s.worker.Finishing? ==>
          (InJob(s.writer) && s.stage.Idle?) || s.writer.Aborted? || s.writer.AdvanceCancelled?)
    && (s.writer.Cleared? || s.writer.Sized? ==> !s.doneBit)
    && (InJob(s.writer) && s.doneBit ==> s.log == [Submit, Advance, Finish] && !s.worker.Finishing?)
  }

  predicate Queue(s: State) {
    && |s.queue| <= 2
    && (|s.queue| == 2 ==> s.queue[0] != s.queue[1])
  }

  predicate History(s: State) {
    forall k :: 0 <= k < |s.jobs| ==> Ended(s.jobs[k])
  }

  predicate StageInv(s: State) {
    Shaped(s) && Stages(s) && Workers(s) && Queue(s) && History(s)
  }

  lemma WithoutShort(queue: seq<Work>, work: Work)
    requires |queue| <= 2 && (|queue| == 2 ==> queue[0] != queue[1])
    ensures var q := Without(queue, work);
            && |q| <= 1 && work !in q && (forall w :: w in q ==> w in queue)
            && (forall w :: w in queue && w != work ==> w in q)
  {
    if |queue| == 2 {
      assert queue == [queue[0], queue[1]] && queue[1..] == [queue[1]];
      assert queue[0] == work || queue[1] == work;
      assert Without([queue[1]], work) == if queue[1] == work then [] else [queue[1]];
    }
  }

  lemma EnqueueShort(queue: seq<Work>, work: Work)
    requires |queue| <= 2 && (|queue| == 2 ==> queue[0] != queue[1])
    ensures var q := Enqueue(queue, work); |q| <= 2 && (|q| == 2 ==> q[0] != q[1]) && work in q
    ensures forall w :: w in Enqueue(queue, work) <==> w in queue || w == work
  {
    if |queue| == 2 {
      assert queue[0] == work || queue[1] == work;
    }
  }

  lemma InitialHolds(s: State)
    requires Initial(s)
    ensures StageInv(s)
  {
  }

  /** The writer up to submission, and a job that ends there. */
  lemma PrepareKeeps(s: State, step: Step)
    requires StageInv(s) && Enabled(s, step)
    requires step.TurnAway? || step.Acquire? || step.CopyFails? || step.Copy? || step.Factorial? || step.FactorialFails?
             || step.ClearBit? || step.SetLength?
    ensures StageInv(Apply(s, step))
  {
    hide Ends, Turned, Overwrite, Ended;
  }

  lemma JobKeeps(s: State, step: Step)
    requires StageInv(s) && Enabled(s, step)
    requires step.SubmitJob? || step.StartOut? || step.WaitDone? || step.Succeed? || step.AbortWait?
    ensures StageInv(Apply(s, step))
  {
    if step.AbortWait? {
      assert [Submit] + [Abort] == [Submit, Abort];
      assert [Submit, Advance] + [Abort] == [Submit, Advance, Abort];
      assert [Submit, Advance, Finish] + [Abort] == [Submit, Advance, Finish, Abort];
    }
  }

  lemma CancelKeeps(s: State, step: Step)
    requires StageInv(s) && Enabled(s, step)
    requires step.CancelAdvance? || step.CancelFinish?
    ensures StageInv(Apply(s, step))
  {
    hide Ends, Turned, Without, Ended;
    WithoutShort(s.queue, AdvanceWork);
    WithoutShort(s.queue, FinishWork);
  }

  lemma InterruptKeeps(s: State, step: Step)
    requires StageInv(s) && Enabled(s, step)
    requires step.IrqAck? || step.IrqRead? || step.DeviceDone? || step.SpuriousIrq?
    ensures StageInv(Apply(s, step))
  {
    hide Ends, Turned, Overwrite, Ended;
  }

  lemma IrqQueueKeeps(s: State)
    requires StageInv(s) && Enabled(s, IrqQueue)
    ensures StageInv(Apply(s, IrqQueue))
  {
    hide Ends, Turned, Enqueue, Ended;
    EnqueueShort(s.queue, AdvanceWork);
    EnqueueShort(s.queue, FinishWork);
  }

  lemma WorkerKeeps(s: State, step: Step)
    requires StageInv(s) && Enabled(s, step)
    requires step.Pop? || step.Wipe? || step.StartBack? || step.SetBit?
    ensures StageInv(Apply(s, step))
  {
    hide Ends, Turned, Overwrite, Zeros, Ended;
  }

  /** The two compare-and-exchange steps. */
  lemma ExchangeKeeps(s: State, step: Step)
    requires StageInv(s) && Enabled(s, step)
    requires step.RunAdvance? || step.RunFinish?
    ensures StageInv(Apply(s, step))
  {
    hide Ends, Turned, Overwrite, Zeros;
    if step.RunAdvance? || step.RunFinish? {
      assert [Submit] + [Advance] == [Submit, Advance];
      assert [Submit, Advance] + [Finish] == [Submit, Advance, Finish];
    }
  }

  lemma StepKeeps(s: State, step: Step)
    requires StageInv(s) && Enabled(s, step)
    ensures StageInv(Apply(s, step))
  {
    hide StageInv, Apply, Enabled, Shaped;
    if step.RunAdvance? || step.RunFinish? {
      ExchangeKeeps(s, step);
    } else if step.Pop? || step.Wipe? || step.StartBack? || step.SetBit? {
      WorkerKeeps(s, step);
    } else if step.IrqQueue? {
      IrqQueueKeeps(s);
    } else if step.IrqAck? || step.IrqRead? || step.DeviceDone? || step.SpuriousIrq? {
      InterruptKeeps(s, step);
    } else if step.CancelAdvance? || step.CancelFinish? {
      CancelKeeps(s, step);
    } else if step.SubmitJob? || step.StartOut? || step.WaitDone? || step.Succeed? || step.AbortWait? {
      JobKeeps(s, step);
    } else {
      PrepareKeeps(s, step);
    }
  }

  lemma {:induction false} InvAt(trace: seq<State>, i: nat)
    requires Behaviour(trace) && i < |trace|
    ensures StageInv(trace[i])
  {
    hide StageInv, Apply, Enabled, Shaped;
    if i == 0 {
      InitialHolds(trace[0]);
    } else {
      InvAt(trace, i - 1);
      assert Linked(trace, i - 1);
      var step :| Shaped(trace[i - 1]) && Enabled(trace[i - 1], step) && trace[i] == Apply(trace[i - 1], step);
      StepKeeps(trace[i - 1], step);
    }
  }

  lemma BehaviourInv(trace: seq<State>, s: State)
    requires Behaviour(trace) && s in trace
    ensures StageInv(s)
  {
    hide StageInv;
    var i :| 0 <= i < |trace| && trace[i] == s;
    InvAt(trace, i);
  }

  // ---- what every interleaving guarantees --------------------------------------------

  /** A job about to be submitted finds the stage Idle. */
  lemma SubmitFindsIdle(trace: seq<State>, s: State)
    requires Behaviour(trace) && s in trace && s.writer.Sized?
    ensures s.stage == Idle
  {
    hide Behaviour;
    BehaviourInv(trace, s);
  }

  /** Past jobs and the running one changed the stage only as SUBMIT [ADVANCE [FINISH]] [ABORT]. */
  lemma JobsAreLawful(trace: seq<State>, s: State)
    requires Behaviour(trace) && s in trace
    ensures forall k :: 0 <= k < |s.jobs| ==> Ended(s.jobs[k])
    ensures InJob(s.writer) || s.writer.Woken? || s.writer.Aborted? || s.writer.AdvanceCancelled? ==> Lawful(s.log)
  {
    hide Behaviour;
    BehaviourInv(trace, s);
  }

  /** The completion bit a waiter can see was set after a FINISH of its own job, and a
      waiter that left on it finds the stage Idle with no abort. */
  lemma CompletionIsOwn(trace: seq<State>, s: State)
    requires Behaviour(trace) && s in trace
    ensures (s.writer.Waiting? && s.doneBit) || s.writer.Woken? ==>
              s.log == [Submit, Advance, Finish] && s.stage == Idle
    ensures s.writer.Sized? ==> !s.doneBit
  {
    hide Behaviour;
    BehaviourInv(trace, s);
  }

  /** Once a write has returned, no work item of its job is left half done. */
  lemma NothingOutlivesItsJob(trace: seq<State>, s: State)
    requires Behaviour(trace) && s in trace && (s.writer.Unlocked? || s.writer.Locked? || s.writer.Copied?)
    ensures s.stage == Idle && (s.worker == Resting || s.worker.Popped?)
  {
    hide Behaviour;
    BehaviourInv(trace, s);
  }
}
