/**
 The DMA echo of the QEDU driver as an interleaving of its actors: the writer holding the
 device mutex, writes turned away before the lock, the device, the hard interrupt handler, the
 ordered workqueue's worker, and readers.  Each step is one access to the state they share, except
 that the four register writes which program a transfer are one step.

 The parsing that selects a job, and the factorial engine itself, are nondeterministic
 here; a transfer is copied in one step when the device completes it.
 */
module QeduProtocol {

  import opened Bytes

  const DMA_SIZE: nat := 4096

  datatype Stage = Idle | ToDevice | FromDevice

  datatype Work = AdvanceWork | FinishWork

  /** Where the writer stands; bytes is what its caller wrote. */
  datatype Writer =
    | Unlocked
    | Locked(bytes: seq<byte>)
    | Copied(bytes: seq<byte>)
    | Cleared(bytes: seq<byte>)
    | Sized(bytes: seq<byte>)
    | Submitted(bytes: seq<byte>)
    | Waiting(bytes: seq<byte>)
    | Woken(bytes: seq<byte>)
    | Aborted
    | AdvanceCancelled

  datatype Handler = Quiescent | Acked | Holds(stage: Stage)

  datatype Worker = Resting | Popped(work: Work) | Advancing | Wiped | Finishing

  datatype Engine = Stopped | Transfer(toDevice: bool, len: nat)

  datatype Reason = Submit | Advance | Finish | Abort

  /** How a write ended: turned away before the lock, failed with the lock held, or with a result. */
  datatype End = TurnedAway | Failed | Computed(text: seq<byte>) | Echoed

  /** One write that is over: what it wrote, how it ended, what a reader could get before and after it. */
  datatype Outcome = Outcome(bytes: seq<byte>, end: End, before: seq<byte>, after: seq<byte>)

  datatype State = State(
    writer: Writer,
    handler: Handler,
    worker: Worker,
    queue: seq<Work>,
    engine: Engine,
    irqPending: bool,
    stage: Stage,
    doneBit: bool,
    dmaLen: nat,
    buffer: seq<byte>,
    deviceBuffer: seq<byte>,
    resultSize: nat,
    // history: what readers should see, the stage changes of the current job, those of past jobs
    published: seq<byte>,
    log: seq<Reason>,
    jobs: seq<seq<Reason>>,
    // history: what the writer holding the lock wrote, what was readable when it came, and all writes that are over
    written: seq<byte>,
    readableBefore: seq<byte>,
    outcomes: seq<Outcome>)

  datatype Step =
    | TurnAway(bytes: seq<byte>, interrupted: bool)
    | Acquire(bytes: seq<byte>)
    | CopyFails(copied: nat)
    | Copy
    | Factorial(text: seq<byte>)
    | FactorialFails
    | ClearBit
    | SetLength
    | SubmitJob
    | StartOut
    | WaitDone
    | Succeed
    | AbortWait
    | CancelAdvance
    | CancelFinish
    | IrqAck
    | IrqRead
    | IrqQueue
    | Pop
    | RunAdvance
    | Wipe
    | StartBack
    | RunFinish
    | SetBit
    | DeviceDone
    | SpuriousIrq

  predicate Initial(s: State) {
    && |s.buffer| == |s.deviceBuffer| == DMA_SIZE
    && s == State(Unlocked, Quiescent, Resting, [], Stopped, false, Idle, false, 0,
                  s.buffer, s.deviceBuffer, 0, [], [], [], [], [], [])
  }

  predicate InJob(w: Writer) {
    w.Submitted? || w.Waiting?
  }

  predicate Shaped(s: State) {
    && |s.buffer| == |s.deviceBuffer| == DMA_SIZE
    && s.dmaLen < DMA_SIZE && s.resultSize < DMA_SIZE
    && (s.engine.Transfer? ==> s.engine.len < DMA_SIZE)
    && (!s.writer.Unlocked? && !s.writer.Aborted? && !s.writer.AdvanceCancelled? ==> 0 < |s.writer.bytes| < DMA_SIZE)
  }

  predicate Enabled(s: State, step: Step) {
    match step
    case TurnAway(bytes, interrupted) => bytes == [] || |bytes| >= DMA_SIZE || interrupted
    case Acquire(bytes) => s.writer.Unlocked? && 0 < |bytes| < DMA_SIZE
    case CopyFails(copied) => s.writer.Locked? && copied < |s.writer.bytes|
    case Copy => s.writer.Locked?
    case Factorial(text) => s.writer.Copied? && |text| < DMA_SIZE
    case FactorialFails => s.writer.Copied?
    case ClearBit => s.writer.Copied?
    case SetLength => s.writer.Cleared?
    case SubmitJob => s.writer.Sized?
    case StartOut => s.writer.Submitted?
    case WaitDone => s.writer.Waiting? && s.doneBit
    case Succeed => s.writer.Woken?
    case AbortWait => s.writer.Waiting?
    case CancelAdvance =>
      s.writer.Aborted? && s.worker != Popped(AdvanceWork) && !s.worker.Advancing? && !s.worker.Wiped?
    case CancelFinish => s.writer.AdvanceCancelled? && s.worker != Popped(FinishWork) && !s.worker.Finishing?
    case IrqAck => s.irqPending && s.handler.Quiescent?
    case IrqRead => s.handler.Acked?
    case IrqQueue => s.handler.Holds?
    case Pop => s.worker.Resting? && s.queue != []
    case RunAdvance => s.worker == Popped(AdvanceWork)
    case Wipe => s.worker.Advancing?
    case StartBack => s.worker.Wiped?
    case RunFinish => s.worker == Popped(FinishWork)
    case SetBit => s.worker.Finishing?
    case DeviceDone => s.engine.Transfer?
    case SpuriousIrq => true
  }

  function Overwrite(before: seq<byte>, front: seq<byte>): (r: seq<byte>)
    requires |front| <= |before|
    ensures |r| == |before|
  {
    front + before[|front|..]
  }

  function Zeros(n: nat): seq<byte> {
    seq(n, _ => 0)
  }

  function Without(queue: seq<Work>, work: Work): seq<Work> {
    if queue == [] then []
    else if queue[0] == work then Without(queue[1..], work)
    else [queue[0]] + Without(queue[1..], work)
  }

  /** queue_work: a work item already pending is not queued again. */
  function Enqueue(queue: seq<Work>, work: Work): seq<Work> {
    if work in queue then queue else queue + [work]
  }

  /** Register writes reach an engine only while no transfer runs. */
  function Start(s: State, toDevice: bool, len: nat): State {
    if s.engine.Stopped? then s.(engine := Transfer(toDevice, len)) else s
  }

  /** What a reader could get. */
  function Readable(s: State): seq<byte> {
    if s.resultSize <= |s.buffer| then s.buffer[..s.resultSize] else s.buffer
  }

  /** The write holding the lock is over. */
  function Ends(t: State, end: End): (r: State)
    ensures r == t.(outcomes := r.outcomes)
  {
    t.(outcomes := t.outcomes + [Outcome(t.written, end, t.readableBefore, Readable(t))])
  }

  /** A write is over before it took the lock. */
  function Turned(s: State, bytes: seq<byte>): (r: State)
    ensures r == s.(outcomes := r.outcomes)
  {
    s.(outcomes := s.outcomes + [Outcome(bytes, TurnedAway, Readable(s), Readable(s))])
  }

  function WriterStep(s: State, step: Step): State
    requires Shaped(s) && Enabled(s, step)
  {
    match step
    case TurnAway(bytes, _) => Turned(s, bytes)
    case Acquire(bytes) =>
      s.(writer := Locked(bytes), resultSize := 0, published := [], written := bytes, readableBefore := Readable(s))
    case CopyFails(copied) =>
      Ends(s.(writer := Unlocked, buffer := Overwrite(s.buffer, s.writer.bytes[..copied])), Failed)
    case Copy => s.(writer := Copied(s.writer.bytes), buffer := Overwrite(s.buffer, s.writer.bytes + [0]))
    case Factorial(text) =>
      Ends(s.(writer := Unlocked, buffer := Overwrite(s.buffer, text + [0]), resultSize := |text|, published := text),
           Computed(text))
    case FactorialFails => Ends(s.(writer := Unlocked), Failed)
    case ClearBit => s.(writer := Cleared(s.writer.bytes), doneBit := false)
    case SetLength => s.(writer := Sized(s.writer.bytes), dmaLen := |s.writer.bytes|)
    case SubmitJob => s.(writer := Submitted(s.writer.bytes), stage := ToDevice, log := [Submit])
    case StartOut => Start(s, true, |s.writer.bytes|).(writer := Waiting(s.writer.bytes))
    case WaitDone => s.(writer := Woken(s.writer.bytes))
    case Succeed =>
      Ends(s.(writer := Unlocked, resultSize := |s.writer.bytes|, published := s.writer.bytes,
              jobs := s.jobs + [s.log]),
           Echoed)
    case AbortWait => s.(writer := Aborted, stage := Idle, log := s.log + [Abort])
    case CancelAdvance => s.(writer := AdvanceCancelled, queue := Without(s.queue, AdvanceWork))
    case CancelFinish =>
      Ends(s.(writer := Unlocked, queue := Without(s.queue, FinishWork), jobs := s.jobs + [s.log]), Failed)
    case _ => s
  }

  function Apply(s: State, step: Step): State
    requires Shaped(s) && Enabled(s, step)
  {
    match step
    case IrqAck => s.(irqPending := false, handler := Acked)
    case IrqRead => s.(handler := if s.stage.Idle? then Quiescent else Holds(s.stage))
    case IrqQueue =>
      s.(handler := Quiescent,
         queue := Enqueue(s.queue, if s.handler.stage.ToDevice? then AdvanceWork else FinishWork))
    case Pop => s.(worker := Popped(s.queue[0]), queue := s.queue[1..])
    case RunAdvance =>
      if s.stage.ToDevice? then s.(worker := Advancing, stage := FromDevice, log := s.log + [Advance])
      else s.(worker := Resting)
    case Wipe => s.(worker := Wiped, buffer := Overwrite(s.buffer, Zeros(s.dmaLen)))
    case StartBack => Start(s, false, s.dmaLen).(worker := Resting)
    case RunFinish =>
      if s.stage.FromDevice? then s.(worker := Finishing, stage := Idle, log := s.log + [Finish])
      else s.(worker := Resting)
    case SetBit => s.(worker := Resting, doneBit := true)
    case DeviceDone =>
      var n := s.engine.len;
      if s.engine.toDevice
      then s.(engine := Stopped, irqPending := true, deviceBuffer := Overwrite(s.deviceBuffer, s.buffer[..n]))
      else s.(engine := Stopped, irqPending := true, buffer := Overwrite(s.buffer, s.deviceBuffer[..n]))
    case SpuriousIrq => s.(irqPending := true)
    case _ => WriterStep(s, step)
  }

  ghost predicate Linked(trace: seq<State>, i: nat)
    requires i + 1 < |trace|
  {
    exists step :: Shaped(trace[i]) && Enabled(trace[i], step) && trace[i + 1] == Apply(trace[i], step)
  }

  /** Any interleaving at all: late and spurious interrupts, aborts, overlapping jobs. */
  ghost predicate Behaviour(trace: seq<State>) {
    trace != [] && Initial(trace[0]) && forall i: nat :: i + 1 < |trace| ==> Linked(trace, i)
  }
}
