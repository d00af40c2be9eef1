/**
 How each write(2) on the QEDU device ended and what a reader could get before and after it.  A write that
 ends without a result leaves nothing readable if it got the lock; one turned away before the lock (zero
 length, too long, interrupted) leaves the previous result where it was.
 */
module QeduOutcomes {
  import opened Bytes
  import opened QeduProtocol
  import opened QeduStages
  import opened QeduEcho

  /** What an ended write promises about what is readable after it. */
  predicate Told(o: Outcome) {
    match o.end
    case TurnedAway => o.after == o.before
    case Failed => o.after == []
    case Computed(text) => o.after == text
    case Echoed => |o.after| == |o.bytes|
  }

  predicate AllTold(outcomes: seq<Outcome>) {
    forall k :: 0 <= k < |outcomes| ==> Told(outcomes[k])
  }

  /** An echo that was reported handed back its bytes. */
  predicate Faithful(outcomes: seq<Outcome>) {
    forall k :: 0 <= k < |outcomes| && outcomes[k].end.Echoed? ==> outcomes[k].after == outcomes[k].bytes
  }

  predicate HoldsBytes(w: Writer) {
    !w.Unlocked? && !w.Aborted? && !w.AdvanceCancelled?
  }

  /** The writer holding the lock has emptied the result, and its history is its own. */
  predicate Emptied(s: State) {
    && (!s.writer.Unlocked? ==> s.resultSize == 0)
    && (HoldsBytes(s.writer) ==> s.written == s.writer.bytes)
  }

  lemma StepEmpties(s: State, step: Step)
    requires StageInv(s) && Enabled(s, step) && Emptied(s)
    ensures Emptied(Apply(s, step))
  {
    hide Ends, Turned, Overwrite, Stages, Workers, Queue, History, Without, Enqueue;
  }

  /** The steps that end a write. */
  predicate Ending(step: Step) {
    step.TurnAway? || step.CopyFails? || step.Factorial? || step.FactorialFails? || step.Succeed? || step.CancelFinish?
  }

  lemma OthersAddNothing(s: State, step: Step)
    requires StageInv(s) && Enabled(s, step) && !Ending(step)
    ensures Apply(s, step).outcomes == s.outcomes
  {
    hide Overwrite, Stages, Workers, Queue, History, Without, Enqueue, Readable;
  }

  /** The outcome a step that ends a write adds. */
  lemma EndingAdds(s: State, step: Step) returns (o: Outcome)
    requires StageInv(s) && Enabled(s, step) && Emptied(s) && Ending(step)
    ensures Apply(s, step).outcomes == s.outcomes + [o] && Told(o)
    ensures o.end.Echoed? ==>
              step.Succeed? && o.bytes == s.writer.bytes && o.after == s.buffer[..|s.writer.bytes|]
  {
    hide Overwrite, Stages, Workers, Queue, History, Without, Enqueue;
    var t := Apply(s, step);
    o := t.outcomes[|s.outcomes|];
    if step.Factorial? {
      ReadBack(s.buffer, step.text);
    }
  }

  lemma ReadBack(before: seq<byte>, text: seq<byte>)
    requires |text| + 1 <= |before|
    ensures Overwrite(before, text + [0])[..|text|] == text
  {
  }

  lemma {:induction false} OutcomesTold(trace: seq<State>, i: nat)
    requires Behaviour(trace) && i < |trace|
    ensures StageInv(trace[i]) && Emptied(trace[i]) && AllTold(trace[i].outcomes)
  {
    hide StageInv, Apply, Enabled, Shaped, Emptied, Told;
    InvAt(trace, i);
    if i == 0 {
      InitialEmpty(trace[0]);
    } else {
      OutcomesTold(trace, i - 1);
      assert Linked(trace, i - 1);
      var step :| Shaped(trace[i - 1]) && Enabled(trace[i - 1], step) && trace[i] == Apply(trace[i - 1], step);
      StepEmpties(trace[i - 1], step);
      if Ending(step) {
        var o := EndingAdds(trace[i - 1], step);
      } else {
        OthersAddNothing(trace[i - 1], step);
      }
    }
  }

  lemma InitialEmpty(s: State)
    requires Initial(s)
    ensures Emptied(s) && s.outcomes == []
  {
  }

  /**
   In every interleaving: a write that ended without a result leaves nothing readable if and only if it got
   the lock or nothing was readable before it; a computed result is readable in full.
   */
  lemma WithoutResult(trace: seq<State>, s: State, o: Outcome)
    requires Behaviour(trace) && s in trace && o in s.outcomes
    ensures o.end.TurnedAway? || o.end.Failed? ==> (o.after == [] <==> o.end.Failed? || o.before == [])
    ensures o.end.TurnedAway? ==> o.after == o.before
    ensures o.end.Computed? ==> o.after == o.end.text
  {
    hide Behaviour, StageInv, Emptied;
    var i :| 0 <= i < |trace| && trace[i] == s;
    OutcomesTold(trace, i);
    var k :| 0 <= k < |s.outcomes| && s.outcomes[k] == o;
    assert Told(s.outcomes[k]);
  }

  lemma CleanIsBehaviour(trace: seq<State>)
    requires CleanBehaviour(trace)
    ensures Behaviour(trace)
  {
    hide Apply, Enabled, Shaped, Initial;
    forall i: nat | i + 1 < |trace| ensures Linked(trace, i) {
      assert CleanlyLinked(trace, i);
    }
  }

  lemma {:induction false} OutcomesFaithful(trace: seq<State>, i: nat)
    requires CleanBehaviour(trace) && i < |trace|
    ensures Faithful(trace[i].outcomes)
  {
    hide StageInv, Echo, Apply, Enabled, Shaped, Emptied, Told, Behaviour, Clean;
    CleanIsBehaviour(trace);
    if i == 0 {
      InitialEmpty(trace[0]);
    } else {
      OutcomesFaithful(trace, i - 1);
      OutcomesTold(trace, i - 1);
      EchoAt(trace, i - 1);
      assert CleanlyLinked(trace, i - 1);
      var step :| Shaped(trace[i - 1]) && Enabled(trace[i - 1], step) && Clean(trace[i - 1], step)
                  && trace[i] == Apply(trace[i - 1], step);
      if Ending(step) {
        var o := EndingAdds(trace[i - 1], step);
        if o.end.Echoed? {
          AboutToSucceed(trace[i - 1]);
        }
      } else {
        OthersAddNothing(trace[i - 1], step);
      }
    }
  }

  lemma AboutToSucceed(s: State)
    requires Enabled(s, Succeed) && Echo(s)
    ensures Prefix(s.buffer, s.writer.bytes)
  {
  }

  /** When every write starts quiet, each echo that was reported made exactly its own bytes readable. */
  lemma EchoesAreFaithful(trace: seq<State>, s: State, o: Outcome)
    requires CleanBehaviour(trace) && s in trace && o in s.outcomes && o.end.Echoed?
    ensures o.after == o.bytes
  {
    hide CleanBehaviour;
    var i :| 0 <= i < |trace| && trace[i] == s;
    OutcomesFaithful(trace, i);
  }

  /** A write that is too long, after a successful one: it is turned away and the old result still reads back. */
  lemma TooLongKeepsOldResult(s: State, bytes: seq<byte>, text: seq<byte>, long: seq<byte>) returns (trace: seq<State>)
    requires Initial(s) && 0 < |bytes| < DMA_SIZE && 0 < |text| < DMA_SIZE && |long| >= DMA_SIZE
    ensures CleanBehaviour(trace) && trace[0] == s
    ensures var t := trace[|trace| - 1];
            && |t.outcomes| == 2 && t.outcomes[0].end == Computed(text)
            && t.outcomes[1] == Outcome(long, TurnedAway, text, text)
            && Shaped(t) && t.writer.Unlocked? && Read(t, 0, |text|) == text
  {
    hide Stages, Workers, Queue, History, CleanlyLinked, Overwrite;
    InitialHolds(s);
    var s1 := Go(s, Acquire(bytes));
    var s2 := Go(s1, Copy);
    var s3 := Go(s2, Factorial(text));
    var s4 := Go(s3, TurnAway(long, false));
    trace := [s, s1, s2, s3, s4];
    LinkBy(trace, 0, Acquire(bytes));
    LinkBy(trace, 1, Copy);
    LinkBy(trace, 2, Factorial(text));
    LinkBy(trace, 3, TurnAway(long, false));
    ReadBack(s2.buffer, text);
  }

  lemma Go(s: State, step: Step) returns (t: State)
    requires StageInv(s) && Enabled(s, step)
    ensures t == Apply(s, step) && StageInv(t)
  {
    t := Apply(s, step);
    StepKeeps(s, step);
  }

  lemma LinkBy(trace: seq<State>, i: nat, step: Step)
    requires i + 1 < |trace| && StageInv(trace[i]) && Enabled(trace[i], step) && Clean(trace[i], step)
    requires trace[i + 1] == Apply(trace[i], step)
    ensures CleanlyLinked(trace, i)
  {
  }
}
