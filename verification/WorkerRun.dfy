/** A run of guest and backend thread that goes all the way: six requests, one kick, one interrupt. */
module WorkerRun {
  import opened GuestLayout
  import Q = Virtqueue
  import opened Worker

  /** A run from one state to another. */
  ghost predicate Path(trace: seq<State>, s: State, t: State) {
    && trace != [] && trace[0] == s && trace[|trace| - 1] == t
    && forall i: nat :: i + 1 < |trace| ==> Linked(trace, i)
  }

  ghost predicate Leads(s: State, t: State) {
    exists trace :: Path(trace, s, t)
  }

  lemma LeadsHere(s: State)
    ensures Leads(s, s)
  {
    assert Path([s], s, s);
  }

  /** One more step at the end of a run; the invariant comes along. */
  lemma Then(s: State, t: State, step: Step) returns (u: State)
    requires Leads(s, t) && Inv(t) && Enabled(t, step)
    ensures u == Apply(t, step) && Leads(s, u) && Inv(u)
  {
    hide Conserved, Answered, Promise, Enabled, Apply, Q.Counts, Q.Conserved, Q.Rings, Q.Log, Q.Batch;
    u := Apply(t, step);
    StepKeeps(t, step);
    var trace :| Path(trace, s, t);
    var longer := trace + [u];
    forall i: nat | i + 1 < |longer| ensures Linked(longer, i) {
      if i + 1 < |trace| {
        assert Linked(trace, i);
        assert longer[i] == trace[i] && longer[i + 1] == trace[i + 1];
      } else {
        assert longer[i] == t && longer[i + 1] == u;
      }
    }
    assert Path(longer, s, u);
  }

  // ---- the driver publishes ----------------------------------------------------------------

  /** t is s with a longer queue history and nothing else moved but the driver's side. */
  predicate DriverOnly(s: State, t: State) {
    && t == s.(queue := t.queue)
    && t.queue.completed == s.queue.completed && t.queue.backend == s.queue.backend
    && t.queue.consumed == s.queue.consumed && t.queue.lastAvail == s.queue.lastAvail
    && t.queue.verdict == s.queue.verdict && t.queue.reaped == s.queue.reaped
  }

  /** A head the driver owns becomes the newest published one. */
  lemma PublishOne(s: State, t: State, h: int) returns (u: State)
    requires Leads(s, t) && Inv(t) && h in t.queue.free && t.queue.staged == []
    ensures Leads(s, u) && Inv(u) && DriverOnly(t, u)
    ensures u.queue.published == t.queue.published + [h]
    ensures u.queue.free == t.queue.free - {h} && u.queue.staged == []
  {
    hide Inv, Leads, Q.Wrap, Q.Slot;
    InvShaped(t);
    u := Then(s, t, Driver(Q.Scribble(h, Q.EntropyDesc(h))));
    InvShaped(u);
    u := Then(s, u, Driver(Q.Stage(h)));
    InvShaped(u);
    u := Then(s, u, Driver(Q.Publish));
  }

  lemma InvShaped(s: State)
    requires Inv(s)
    ensures Q.Shaped(s.queue)
  {
  }

  /** The driver publishes heads 0 to n - 1 of an untouched queue. */
  lemma {:induction false} PublishMany(s: State, n: nat) returns (u: State)
    requires Inv(s) && n <= SIZE && forall h :: h in s.queue.free <==> 0 <= h < SIZE
    requires s.queue.staged == [] && s.queue.published == []
    ensures Leads(s, u) && Inv(u) && DriverOnly(s, u)
    ensures |u.queue.published| == n && u.queue.staged == []
    ensures forall h :: h in u.queue.free <==> n <= h < SIZE
  {
    hide Inv, Leads;
    if n == 0 {
      u := s;
      LeadsHere(s);
    } else {
      u := PublishMany(s, n - 1);
      u := PublishOne(s, u, n - 1);
    }
  }

  // ---- the backend serves ------------------------------------------------------------------

  /** What a batch of the backend leaves alone. */
  predicate BackendOnly(s: State, t: State) {
    t == s.(queue := t.queue) && t.queue.published == s.queue.published && t.queue.snapshot == s.queue.snapshot
  }

  lemma FetchFinds(t: State)
    requires Inv(t) && t.thread.Serving? && t.queue.backend.Looping?
    ensures var b := Q.BackendStep(t.queue, Q.Fetch).backend;
            if t.queue.consumed < t.queue.snapshot
            then b.Fetched? && b.snap == t.queue.backend.snap
            else b.Parked? && Q.BackendStep(t.queue, Q.Fetch).verdict.Fine?
  {
    hide Q.Wrap, Q.Slot, Conserved, Answered, Promise;
    var q := t.queue;
    Q.FetchKeeps(q);
    if q.consumed < q.snapshot {
      InFlight(q);
      if Q.Wrap(q.consumed) == Q.Wrap(q.snapshot) {
        Q.WrapAgrees(q.consumed, q.snapshot);
      }
    }
  }

  lemma InFlight(q: Q.State)
    requires Q.Inv(q)
    ensures q.snapshot <= |q.published| && |q.published| - q.reaped <= SIZE && q.reaped <= q.consumed + 1
  {
    hide Q.Wrap, Q.Slot, Q.Rings, Q.Log;
  }

  /** One access of the queue call that does not end it. */
  lemma Access(s: State, t: State, b: Q.Step) returns (u: State)
    requires Leads(s, t) && Inv(t) && t.thread.Serving? && Q.BackendEnabled(t.queue, b)
    requires Q.Shaped(t.queue) && !Q.BackendStep(t.queue, b).backend.Parked?
    ensures Leads(s, u) && Inv(u) && Q.Shaped(u.queue) && u == t.(queue := Q.BackendStep(t.queue, b))
  {
    hide Leads, Inv, Q.Shaped, Q.BackendStep, Q.BackendEnabled;
    u := Then(s, t, Queue(b));
    InvShaped(u);
  }

  /** A request of a batch is fetched, checked and filled ... */
  lemma ServeFirstHalf(s: State, t: State) returns (u: State)
    requires Leads(s, t) && Inv(t) && t.thread.Serving? && t.queue.backend.Looping?
    requires t.queue.consumed < t.queue.snapshot
    ensures Leads(s, u) && Inv(u) && Q.Shaped(u.queue) && BackendOnly(t, u)
    ensures u.queue.backend.Filled? && u.queue.backend.snap == t.queue.backend.snap
    ensures u.queue.consumed == t.queue.consumed
  {
    hide Leads, Inv, Q.Wrap, Q.Slot, Q.Shaped;
    InvShaped(t);
    FetchFinds(t);
    u := Access(s, t, Q.Fetch);
    CheckPasses(u);
    u := Access(s, u, Q.Check);
    u := Access(s, u, Q.Fill);
  }

  /** ... and stored and published. */
  lemma ServeSecondHalf(s: State, t: State) returns (u: State)
    requires Leads(s, t) && Inv(t) && Q.Shaped(t.queue) && t.thread.Serving? && t.queue.backend.Filled?
    ensures Leads(s, u) && Inv(u) && BackendOnly(t, u) && u.queue.backend == Q.Looping(t.queue.backend.snap)
    ensures u.queue.consumed == t.queue.consumed + 1
  {
    hide Leads, Inv, Q.Wrap, Q.Slot, Q.Shaped;
    u := Access(s, t, Q.StoreId);
    u := Access(s, u, Q.StoreLen);
    u := Access(s, u, Q.PublishUsed);
    u := Access(s, u, Q.Advance);
  }

  lemma ServeOne(s: State, t: State) returns (u: State)
    requires Leads(s, t) && Inv(t) && t.thread.Serving? && t.queue.backend.Looping?
    requires t.queue.consumed < t.queue.snapshot
    ensures Leads(s, u) && Inv(u) && BackendOnly(t, u) && u.queue.backend == t.queue.backend
    ensures u.queue.consumed == t.queue.consumed + 1
  {
    hide Leads, Inv, Q.Shaped;
    u := ServeFirstHalf(s, t);
    u := ServeSecondHalf(s, u);
  }

  lemma CheckPasses(t: State)
    requires Inv(t) && t.queue.backend.Fetched?
    ensures Q.BackendStep(t.queue, Q.Check).backend == Q.Accepted(t.queue.backend.snap, t.queue.backend.head)
  {
    hide Q.Wrap, Q.Slot, Conserved, Answered, Promise;
    Q.LocalKeeps(t.queue, Q.Check);
  }

  lemma {:induction false} ServeAll(s: State, t: State) returns (u: State)
    requires Leads(s, t) && Inv(t) && t.thread.Serving? && t.queue.backend.Looping?
    requires t.queue.consumed <= t.queue.snapshot
    ensures Leads(s, u) && Inv(u) && u.thread.Served? && BackendOnly(t.(thread := Served), u)
    ensures u.queue.consumed == t.queue.snapshot && u.queue.backend.Parked?
    decreases t.queue.snapshot - t.queue.consumed
  {
    hide Leads, Inv, Q.Wrap, Q.Slot;
    if t.queue.consumed < t.queue.snapshot {
      u := ServeOne(s, t);
      u := ServeAll(s, u);
    } else {
      InvShaped(t);
      FetchFinds(t);
      u := Then(s, t, Queue(Q.Fetch));
    }
  }

  // ---- all of it ---------------------------------------------------------------------------

  /** The six requests are counted, in 16 bits and in full. */
  lemma AllSix(t: State)
    requires Inv(t) && t.queue.backend.Parked? && t.queue.consumed == TOTAL_REQUESTS
    ensures |t.queue.completed| == TOTAL_REQUESTS
    ensures t.queue.lastAvail == TOTAL_REQUESTS && t.queue.usedIdx == TOTAL_REQUESTS
  {
    hide Q.Slot, Q.Rings, Q.Log, Q.Batch, Q.Conserved, Conserved, Answered, Promise;
  }

  lemma SampleSees(q: Q.State)
    requires Q.Inv(q) && q.backend.Parked? && q.consumed < |q.published|
    ensures var r := Q.BackendStep(q, Q.Sample);
            r.backend.Looping? && r.snapshot == |q.published| && r.published == q.published
            && r.consumed == q.consumed && r.completed == q.completed
  {
    hide Q.Wrap, Q.Slot, Q.Rings, Q.Log;
    InFlight(q);
    Q.WrapDistance(q.consumed, |q.published|);
    Q.SampleKeeps(q);
  }

  lemma InvQueue(s: State)
    requires Inv(s)
    ensures Q.Inv(s.queue)
  {
  }

  lemma StartsEmpty(desc: seq<Q.Desc>) returns (s: State)
    requires |desc| == SIZE
    ensures Start(s) && Inv(s) && s.queue == Q.Init(desc)
    ensures s.queue.published == [] && s.queue.staged == [] && s.queue.consumed == 0
    ensures forall h :: h in s.queue.free <==> 0 <= h < SIZE
  {
    s := State(Q.Init(desc), Reading, 0, false, false, false, false, 0, 0, 0, 0, 0, 0, 0);
    Q.InitHolds(desc);
    hide Q.Inv;
    StartHolds(s);
  }

  /**
   From an untouched queue, whatever its descriptors hold: the driver publishes six requests and kicks once; the
   thread serves all six, raises the interrupt bit and signals, and is ready for the next kick.
   */
  lemma SixRequestsRaiseInterrupt(desc: seq<Q.Desc>) returns (trace: seq<State>)
    requires |desc| == SIZE
    ensures Behaviour(trace) && trace[0].queue == Q.Init(desc)
    ensures var t := trace[|trace| - 1];
            && t.thread.Reading? && t.interruptStatus && t.result == 0
            && t.guestKicks == t.guestCalls == t.issued == 1
            && |t.queue.completed| == |t.queue.published| == TOTAL_REQUESTS
  {
    hide Leads, Inv, Start, Q.Wrap, Q.Slot, Q.Inv;
    var s := StartsEmpty(desc);
    var t := PublishMany(s, TOTAL_REQUESTS);
    StartReads(s);
    t := Then(s, t, Kick);
    t := Then(s, t, ReadKick);
    t := Then(s, t, CheckStop);
    t := Then(s, t, CountOne);
    InvQueue(t);
    InvShaped(t);
    SampleSees(t.queue);
    t := Then(s, t, Queue(Q.Sample));
    t := ServeAll(s, t);
    AllSix(t);
    t := Then(s, t, Verify);
    t := Then(s, t, SetInterrupt);
    t := Then(s, t, Signal);
    trace := Traced(s, t);
  }

  lemma StartReads(s: State)
    requires Start(s)
    ensures s == State(s.queue, Reading, 0, false, false, false, false, 0, 0, 0, 0, 0, 0, 0)
    ensures s.queue.backend.Parked?
  {
  }

  lemma Traced(s: State, t: State) returns (trace: seq<State>)
    requires Start(s) && Leads(s, t)
    ensures Behaviour(trace) && trace[0] == s && trace[|trace| - 1] == t
  {
    hide Start;
    trace :| Path(trace, s, t);
  }
}
