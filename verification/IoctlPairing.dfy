/**
 The observer that pairs ioctl returns with their calls through two bounded maps keyed by thread.
 Any number of threads alternate enter and exit; map updates and event output may fail at any time.
 */
module IoctlPairing {

  datatype Call = Call(fd: int, request: nat, argument: nat, id: nat)

  datatype Event = Enter(tid: nat, call: Call) | Exit(tid: nat, call: Call, result: int)

  /**
   The observer's maps, its two loss counters and the event stream; which threads are inside a call; and
   as history the threads that had a counter update fail, and whether one of them was shown entering later.
   */
  datatype State = State(counters: map<nat, nat>, active: map<nat, Call>, dropped: nat, failures: nat,
                         log: seq<Event>, inside: set<nat>, missed: set<nat>, reentered: bool)

  const INIT: State := State(map[], map[], 0, 0, [], {}, {}, false)

  /** What may happen; the flags say which of the observer's own operations succeed. */
  datatype Step =
    | Enters(tid: nat, fd: int, request: nat, argument: nat, counted: bool, remembered: bool, sent: bool)
    | EntersUnseen(tid: nat)
    | Exits(tid: nat, result: int, seen: bool, sent: bool)

  function Output(s: State, e: Event, sent: bool): State {
    if sent then s.(log := s.log + [e]) else s.(dropped := s.dropped + 1)
  }

  function UpdateCounter(s: State, tid: nat, value: nat, works: bool): State {
    if works then s.(counters := s.counters[tid := value])
    else s.(failures := s.failures + 1, missed := s.missed + {tid})
  }

  function UpdateActive(s: State, tid: nat, call: Call, works: bool): State {
    if works then s.(active := s.active[tid := call]) else s.(failures := s.failures + 1)
  }

  function NextId(s: State, tid: nat): nat {
    if tid in s.counters then s.counters[tid] + 1 else 1
  }

  /** A thread enters when it is outside and exits when it is inside. */
  predicate Enabled(s: State, step: Step) {
    if step.Exits? then step.tid in s.inside else step.tid !in s.inside
  }

  function Apply(s: State, step: Step): State {
    match step
    case Enters(tid, fd, request, argument, counted, remembered, sent) =>
      var call := Call(fd, request, argument, NextId(s, tid));
      var s0 := s.(inside := s.inside + {tid}, reentered := s.reentered || (sent && tid in s.missed));
      var s1 := UpdateCounter(s0, tid, call.id, counted);
      var s2 := UpdateActive(s1, tid, call, remembered);
      Output(s2, Enter(tid, call), sent)
    case EntersUnseen(tid) => s.(inside := s.inside + {tid})
    case Exits(tid, result, seen, sent) =>
      var s0 := s.(inside := s.inside - {tid});
      if tid !in s.active then s0
      else
        var s1 := if seen then Output(s0, Exit(tid, s.active[tid], result), sent) else s0;
        s1.(active := s.active - {tid})
  }

  ghost predicate Linked(trace: seq<State>, i: nat)
    requires i + 1 < |trace|
  {
    exists step :: Enabled(trace[i], step) && trace[i + 1] == Apply(trace[i], step)
  }

  ghost predicate Behaviour(trace: seq<State>) {
    |trace| > 0 && trace[0] == INIT && forall i: nat :: i + 1 < |trace| ==> Linked(trace, i)
  }

  // ---- what the stream should say ----------------------------------------------------------

  datatype Last = NoEvent | LastWas(event: Event)

  /** The last event of a thread. */
  function LastOf(log: seq<Event>, tid: nat): Last {
    if log == [] then NoEvent
    else if log[|log| - 1].tid == tid then LastWas(log[|log| - 1])
    else LastOf(log[..|log| - 1], tid)
  }

  /** How many calls of a thread the stream shows. */
  function Calls(log: seq<Event>, tid: nat): nat {
    if log == [] then 0
    else Calls(log[..|log| - 1], tid) + (if log[|log| - 1].Enter? && log[|log| - 1].tid == tid then 1 else 0)
  }

  /** Event k is an exit that repeats its thread's last event, which is the enter of the same call. */
  predicate PairedAt(log: seq<Event>, k: nat)
    requires k < |log|
  {
    log[k].Exit? ==> LastOf(log[..k], log[k].tid) == LastWas(Enter(log[k].tid, log[k].call))
  }

  /** Event k, if an enter, carries the next number of its thread. */
  predicate NumberedAt(log: seq<Event>, k: nat)
    requires k < |log|
  {
    log[k].Enter? ==> log[k].call.id == Calls(log[..k], log[k].tid) + 1
  }

  predicate Paired(log: seq<Event>) {
    forall k: nat :: k < |log| ==> PairedAt(log, k)
  }

  predicate Numbered(log: seq<Event>) {
    forall k: nat :: k < |log| ==> NumberedAt(log, k)
  }

  // ---- the invariant -----------------------------------------------------------------------

  ghost predicate Inv(s: State) {
    && (forall t <- s.active :: t in s.inside)
    && (s.dropped == 0 ==> Paired(s.log))
    && (s.dropped == 0 ==> forall t <- s.active :: LastOf(s.log, t) == LastWas(Enter(t, s.active[t])))
    && (s.failures == 0 ==> s.missed == {} && !s.reentered)
    && (s.dropped == 0 ==> (Numbered(s.log) <==> !s.reentered))
    && (s.dropped == 0 ==> forall t ::
          if t in s.missed then NextId(s, t) <= Calls(s.log, t) else NextId(s, t) == Calls(s.log, t) + 1)
  }

  lemma Appended(log: seq<Event>, e: Event)
    ensures forall t :: LastOf(log + [e], t) == if e.tid == t then LastWas(e) else LastOf(log, t)
    ensures forall t :: Calls(log + [e], t) == Calls(log, t) + (if e.Enter? && e.tid == t then 1 else 0)
    ensures Paired(log + [e]) <==>
              Paired(log) && (e.Exit? ==> LastOf(log, e.tid) == LastWas(Enter(e.tid, e.call)))
    ensures Numbered(log + [e]) <==> Numbered(log) && (e.Enter? ==> e.call.id == Calls(log, e.tid) + 1)
  {
    var log' := log + [e];
    assert log'[..|log|] == log;
    forall k: nat | k < |log|
      ensures PairedAt(log', k) == PairedAt(log, k) && NumberedAt(log', k) == NumberedAt(log, k)
    {
      assert log'[..k] == log[..k] && log'[k] == log[k];
    }
    assert Paired(log') ==> PairedAt(log', |log|);
    assert Numbered(log') ==> NumberedAt(log', |log|);
    if Paired(log') {
      forall k: nat | k < |log| ensures PairedAt(log, k) { assert PairedAt(log', k); }
    }
    if Numbered(log') {
      forall k: nat | k < |log| ensures NumberedAt(log, k) { assert NumberedAt(log', k); }
    }
  }

  lemma StepKeeps(s: State, step: Step)
    requires Inv(s) && Enabled(s, step)
    ensures Inv(Apply(s, step))
  {
    hide LastOf, Calls, Paired, Numbered;
    match step
    case Enters(tid, fd, request, argument, counted, remembered, sent) =>
      Appended(s.log, Enter(tid, Call(fd, request, argument, NextId(s, tid))));
    case EntersUnseen(tid) =>
    case Exits(tid, result, seen, sent) =>
      if tid in s.active {
        Appended(s.log, Exit(tid, s.active[tid], result));
      }
  }

  lemma {:induction false} BehaviourInv(trace: seq<State>, i: nat)
    requires Behaviour(trace) && i < |trace|
    ensures Inv(trace[i])
  {
    hide Inv;
    if i == 0 {
      InitInv();
    } else {
      BehaviourInv(trace, i - 1);
      assert Linked(trace, i - 1);
      var step :| Enabled(trace[i - 1], step) && trace[i] == Apply(trace[i - 1], step);
      StepKeeps(trace[i - 1], step);
    }
  }

  lemma InitInv()
    ensures Inv(INIT)
  {
  }

  /** A shown event carries what the thread did: an enter its arguments, an exit its result and the call it ends. */
  lemma EventsTellTheStep(trace: seq<State>, i: nat, step: Step)
    requires Behaviour(trace) && i + 1 < |trace|
    requires Enabled(trace[i], step) && trace[i + 1] == Apply(trace[i], step)
    ensures step.Enters? && step.sent ==>
              && |trace[i + 1].log| == |trace[i].log| + 1 && trace[i + 1].log[..|trace[i].log|] == trace[i].log
              && var e := trace[i + 1].log[|trace[i].log|];
              e.Enter? && e.tid == step.tid
              && e.call.fd == step.fd && e.call.request == step.request && e.call.argument == step.argument
    ensures step.Enters? && step.remembered && trace[i + 1].dropped == 0 ==>
              step.tid in trace[i + 1].active
              && LastOf(trace[i + 1].log, step.tid) == LastWas(Enter(step.tid, trace[i + 1].active[step.tid]))
    ensures step.Exits? && step.seen && step.sent && step.tid in trace[i].active ==>
              trace[i + 1].log == trace[i].log + [Exit(step.tid, trace[i].active[step.tid], step.result)]
    ensures step.EntersUnseen? || (step.Exits? && step.tid !in trace[i].active) ==> trace[i + 1].log == trace[i].log
  {
    hide Behaviour, LastOf, Calls, Paired, Numbered;
    BehaviourInv(trace, i);
    if step.Enters? {
      Appended(trace[i].log, Enter(step.tid, Call(step.fd, step.request, step.argument, NextId(trace[i], step.tid))));
    }
  }

  /** While no event was dropped, every exit shown repeats the call its thread last entered. */
  lemma ExitsRepeatTheirCall(trace: seq<State>, s: State)
    requires Behaviour(trace) && s in trace && s.dropped == 0
    ensures Paired(s.log)
  {
    var i :| 0 <= i < |trace| && trace[i] == s;
    BehaviourInv(trace, i);
  }

  /**
   While no event was dropped, each thread's calls are numbered 1, 2, 3 and so on if and only if no thread
   entered a call after one of its counter updates failed; so they are when no map update failed at all.
   */
  lemma CallsAreNumbered(trace: seq<State>, s: State)
    requires Behaviour(trace) && s in trace && s.dropped == 0
    ensures Numbered(s.log) <==> !s.reentered
    ensures s.failures == 0 ==> Numbered(s.log)
  {
    var i :| 0 <= i < |trace| && trace[i] == s;
    BehaviourInv(trace, i);
  }

  /** A failed counter update is enough to show two calls under one number. */
  lemma FailureRepeatsNumber()
    ensures var s1 := Apply(INIT, Enters(7, 3, 1, 0, false, true, true));
            var s2 := Apply(s1, Exits(7, 0, true, true));
            var s3 := Apply(s2, Enters(7, 4, 2, 0, true, true, true));
            && Behaviour([INIT, s1, s2, s3]) && s3.dropped == 0 && s3.failures == 1
            && !Numbered(s3.log)
  {
    hide LastOf, Calls, Paired, Numbered;
    var e1, e2 := Enters(7, 3, 1, 0, false, true, true), Exits(7, 0, true, true);
    var e3 := Enters(7, 4, 2, 0, true, true, true);
    var c1, c3 := Enter(7, Call(3, 1, 0, 1)), Enter(7, Call(4, 2, 0, 1));
    var x2 := Exit(7, Call(3, 1, 0, 1), 0);
    var s1 := Apply(INIT, e1);
    assert s1 == State(map[], map[7 := c1.call], 0, 1, [] + [c1], {} + {7}, {} + {7}, false);
    var s2 := Apply(s1, e2);
    assert s2.counters == map[] && s2.log == [] + [c1] + [x2] && 7 !in s2.inside;
    var s3 := Apply(s2, e3);
    assert s3.log == [] + [c1] + [x2] + [c3];
    var trace := [INIT, s1, s2, s3];
    assert Linked(trace, 0) && Linked(trace, 1) && Linked(trace, 2);
    Repeated(c1, x2, c3);
  }

  lemma Repeated(c1: Event, x2: Event, c3: Event)
    requires c1.Enter? && x2.Exit? && c3.Enter? && c1.tid == c3.tid && c3.call.id == 1
    ensures !Numbered([] + [c1] + [x2] + [c3])
  {
    hide LastOf, Calls, Paired, Numbered;
    Appended([], c1);
    Appended([] + [c1], x2);
    Appended([] + [c1] + [x2], c3);
  }
}
