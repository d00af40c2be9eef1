/**
 The split virtqueue shared by a driver and the entropy backend, as an interleaving
 of single memory accesses.  The 16-bit indices wrap; behind them the state carries
 unbounded history (which heads were published, which completions were made), and
 the invariant ties the two together in every reachable state.

 The driver follows section 2.7 of Virtio 1.2: it writes descriptors it owns, stores a
 head into the available ring, then advances avail.idx, and takes a head back only
 from a used element.  Memory is sequentially consistent.
 */
module Virtqueue {
  import opened GuestLayout

  const WRAP: nat := 0x1_0000
  const REQUEST_LEN: nat := 32
  const DESC_F_WRITE: nat := 2
  const BUFFER_GPA: nat := 0x7000
  const BUFFER_STRIDE: nat := 0x100

  /** A 16-bit counter value. */
  function Wrap(n: int): (r: int)
    ensures 0 <= r < WRAP
  {
    n % WRAP
  }

  /** The ring slot an index selects. */
  function Slot(n: int): (r: int)
    ensures 0 <= r < SIZE
  {
    n % SIZE
  }

  datatype Desc = Desc(addr: int, len: int, flags: int, next: int)

  datatype UsedElem = UsedElem(id: int, len: int)

  /** The only descriptor the backend accepts for a head: its own direct writable buffer. */
  function EntropyDesc(head: int): Desc {
    Desc(BUFFER_GPA + head * BUFFER_STRIDE, REQUEST_LEN, DESC_F_WRITE, 0)
  }

  /** Where process_queue stands.  Every arrow between two of these is one memory access. */
  datatype Backend =
    | Parked
    | Looping(snap: int)
    | Fetched(snap: int, head: int)
    | Accepted(snap: int, head: int)
    | Filled(snap: int, head: int)
    | IdStored(snap: int, head: int, oldUsed: int)
    | LenStored(snap: int, head: int, oldUsed: int)
    | UsedPublished(snap: int)

  /** How the last process_queue call ended. */
  datatype Verdict = Fine | Overfull | Malformed | NoEntropy

  datatype State = State(
    // guest memory
    desc: seq<Desc>,
    availIdx: int,
    availRing: seq<int>,
    usedIdx: int,
    usedRing: seq<UsedElem>,
    // device and driver private indices
    lastAvail: int,
    lastUsed: int,
    backend: Backend,
    verdict: Verdict,
    // the driver's bookkeeping: heads it owns, and a head stored but not yet published
    free: set<int>,
    staged: seq<int>,
    // history behind the wrapping indices
    published: seq<int>,
    completed: seq<UsedElem>,
    consumed: nat,
    reaped: nat,
    snapshot: nat)

  /** A driver may store anything, field by field, in a descriptor it owns (Scribble), and puts a
      head in the available ring once its descriptor is complete (Stage). */
  datatype Step =
    | Scribble(h: int, d: Desc)
    | Stage(h: int)
    | Publish
    | Reap
    | Sample
    | Fetch
    | Check
    | Fill
    | EntropyFails
    | StoreId
    | StoreLen
    | PublishUsed
    | Advance

  function Init(desc: seq<Desc>): State {
    State(desc, 0, seq(SIZE, _ => 0), 0, seq(SIZE, _ => UsedElem(0, 0)), 0, 0, Parked, Fine,
          {0, 1, 2, 3, 4, 5, 6, 7}, [], [], [], 0, 0, 0)
  }

  predicate DriverEnabled(s: State, step: Step) {
    match step
    case Scribble(h, _) => h in s.free
    case Stage(h) => h in s.free && s.staged == [] && 0 <= h < |s.desc| && s.desc[h] == EntropyDesc(h)
    case Publish => s.staged != []
    case Reap => s.lastUsed != s.usedIdx
    case _ => false
  }

  predicate BackendEnabled(s: State, step: Step) {
    match step
    case Sample => s.backend.Parked?
    case Fetch => s.backend.Looping?
    case Check => s.backend.Fetched?
    case Fill => s.backend.Accepted?
    case EntropyFails => s.backend.Accepted?
    case StoreId => s.backend.Filled?
    case StoreLen => s.backend.IdStored?
    case PublishUsed => s.backend.LenStored?
    case Advance => s.backend.UsedPublished?
    case _ => false
  }

  predicate Enabled(s: State, step: Step) {
    DriverEnabled(s, step) || BackendEnabled(s, step)
  }

  /** Array shapes and 16-bit ranges that make every access in a step well defined. */
  predicate Shaped(s: State) {
    && |s.desc| == |s.availRing| == |s.usedRing| == SIZE
    && 0 <= s.availIdx < WRAP && 0 <= s.usedIdx < WRAP
    && 0 <= s.lastAvail < WRAP && 0 <= s.lastUsed < WRAP
    && (forall h :: h in s.free ==> 0 <= h < SIZE)
    && (s.backend.Fetched? ==> 0 <= s.backend.head < SIZE)
    && (s.backend.IdStored? || s.backend.LenStored? ==> 0 <= s.backend.oldUsed < WRAP)
  }

  function DriverStep(s: State, step: Step): State
    requires Shaped(s) && DriverEnabled(s, step)
  {
    match step
    case Scribble(h, d) => s.(desc := s.desc[h := d])
    case Stage(h) =>
      s.(availRing := s.availRing[Slot(s.availIdx) := h], free := s.free - {h}, staged := [h])
    case Publish =>
      s.(availIdx := Wrap(s.availIdx + 1), published := s.published + s.staged, staged := [])
    case Reap =>
      s.(lastUsed := Wrap(s.lastUsed + 1), reaped := s.reaped + 1,
         free := s.free + {s.usedRing[Slot(s.lastUsed)].id})
  }

  function BackendStep(s: State, step: Step): State
    requires Shaped(s) && BackendEnabled(s, step)
  {
    match step
    case Sample =>
      var pending := Wrap(s.availIdx - s.lastAvail);
      if pending == 0 then s.(verdict := Fine)
      else if pending > SIZE then s.(verdict := Overfull)
      else s.(backend := Looping(s.availIdx), snapshot := |s.published|)
    case Fetch =>
      if s.lastAvail == s.backend.snap then s.(backend := Parked, verdict := Fine)
      else
        var head := s.availRing[Slot(s.lastAvail)];
        if 0 <= head < SIZE then s.(backend := Fetched(s.backend.snap, head))
        else s.(backend := Parked, verdict := Malformed)
    case Check =>
      if s.desc[s.backend.head] == EntropyDesc(s.backend.head)
      then s.(backend := Accepted(s.backend.snap, s.backend.head))
      else s.(backend := Parked, verdict := Malformed)
    case Fill => s.(backend := Filled(s.backend.snap, s.backend.head))
    case EntropyFails => s.(backend := Parked, verdict := NoEntropy)
    case StoreId =>
      var slot := Slot(s.usedIdx);
      s.(usedRing := s.usedRing[slot := s.usedRing[slot].(id := s.backend.head)],
         backend := IdStored(s.backend.snap, s.backend.head, s.usedIdx))
    case StoreLen =>
      var slot := Slot(s.backend.oldUsed);
      s.(usedRing := s.usedRing[slot := s.usedRing[slot].(len := REQUEST_LEN)],
         backend := LenStored(s.backend.snap, s.backend.head, s.backend.oldUsed))
    case PublishUsed =>
      s.(usedIdx := Wrap(s.backend.oldUsed + 1),
         completed := s.completed + [s.usedRing[Slot(s.backend.oldUsed)]],
         backend := UsedPublished(s.backend.snap))
    case Advance =>
      s.(lastAvail := Wrap(s.lastAvail + 1), consumed := s.consumed + 1,
         backend := Looping(s.backend.snap))
  }

  function Apply(s: State, step: Step): State
    requires Shaped(s) && Enabled(s, step)
  {
    if DriverEnabled(s, step) then DriverStep(s, step) else BackendStep(s, step)
  }

  /** State i + 1 follows state i by one enabled step. */
  ghost predicate Linked(trace: seq<State>, i: nat)
    requires i + 1 < |trace|
  {
    exists step :: Shaped(trace[i]) && Enabled(trace[i], step) && trace[i + 1] == Apply(trace[i], step)
  }

  /** An interleaving from a zeroed queue whose descriptors hold anything. */
  ghost predicate Behaviour(trace: seq<State>)
  {
    && trace != []
    && |trace[0].desc| == SIZE && trace[0] == Init(trace[0].desc)
    && forall i: nat :: i + 1 < |trace| ==> Linked(trace, i)
  }

  // ---- the invariant -------------------------------------------------------------

  /** The 16-bit indices are the unbounded counts modulo 2^16, and the counts are ordered. */
  predicate Counts(s: State) {
    && s.availIdx == Wrap(|s.published|)
    && s.usedIdx == Wrap(|s.completed|)
    && s.lastAvail == Wrap(s.consumed)
    && s.lastUsed == Wrap(s.reaped)
    && s.reaped <= |s.completed| <= |s.published|
    && |s.completed| == s.consumed + (if s.backend.UsedPublished? then 1 else 0)
  }

  /** Heads are conserved: each is free, staged, or in flight, and never twice. */
  ghost predicate Conserved(s: State)
    requires s.reaped <= |s.published|
  {
    && |s.staged| <= 1
    && |s.free| + |s.staged| + (|s.published| - s.reaped) == SIZE
    && (forall h :: h in s.staged ==> 0 <= h < SIZE && h !in s.free)
    && (forall i :: s.reaped <= i < |s.published| ==>
          0 <= s.published[i] < SIZE && s.published[i] !in s.free && s.published[i] !in s.staged)
    && (forall i, j :: s.reaped <= i < j < |s.published| ==> s.published[i] != s.published[j])
  }

  /** The ring slots of entries still in flight hold exactly what the history says. */
  predicate Rings(s: State)
    requires Shaped(s) && Counts(s)
  {
    && (forall i :: s.reaped <= i < |s.published| ==> s.availRing[Slot(i)] == s.published[i])
    && (forall i :: s.reaped <= i < |s.completed| ==> s.usedRing[Slot(i)] == s.completed[i])
    && (s.staged != [] ==> s.availRing[Slot(|s.published|)] == s.staged[0])
    && (forall h :: 0 <= h < SIZE && h !in s.free ==> s.desc[h] == EntropyDesc(h))
  }

  /** Completions repeat the published heads, in order, with the full request length. */
  predicate Log(s: State)
    requires |s.completed| <= |s.published|
  {
    forall i :: 0 <= i < |s.completed| ==> s.completed[i] == UsedElem(s.published[i], REQUEST_LEN)
  }

  /** What a backend in the middle of a batch knows. */
  predicate Batch(s: State)
    requires Shaped(s) && Counts(s)
  {
    var b := s.backend;
    && s.snapshot <= |s.published|
    && (!b.Parked? ==> b.snap == Wrap(s.snapshot) && s.consumed <= s.snapshot
                       && (!b.Looping? ==> s.consumed < s.snapshot))
    && (b.Fetched? || b.Accepted? || b.Filled? || b.IdStored? || b.LenStored?
        ==> b.head == s.published[s.consumed])
    && (b.IdStored? || b.LenStored? ==> b.oldUsed == s.usedIdx)
    && (b.IdStored? ==> s.usedRing[Slot(s.usedIdx)].id == b.head)
    && (b.LenStored? ==> s.usedRing[Slot(s.usedIdx)] == UsedElem(b.head, REQUEST_LEN))
    && (s.verdict.Fine? || s.verdict.NoEntropy?)
  }

  ghost predicate Inv(s: State) {
    Shaped(s) && Counts(s) && Conserved(s) && Rings(s) && Log(s) && Batch(s)
  }

  // ---- arithmetic and multiset helpers ---------------------------------------------

  lemma WrapAgrees(a: nat, b: nat)
    requires a <= b < a + WRAP && Wrap(a) == Wrap(b)
    ensures a == b
  {
  }

  lemma WrapSmall(n: nat)
    requires n < WRAP
    ensures Wrap(n) == n
  {
  }

  lemma WrapSucc(n: nat)
    ensures Wrap(Wrap(n) + 1) == Wrap(n + 1)
  {
  }

  /** The 16-bit difference of two counters is their true distance while that fits. */
  lemma WrapDistance(a: nat, b: nat)
    requires a <= b < a + WRAP
    ensures Wrap(Wrap(b) - Wrap(a)) == b - a
  {
  }

  lemma WrapShift(a: nat, b: nat, n: nat)
    ensures Wrap(Wrap(a + n) - Wrap(b + n)) == Wrap(a - b)
  {
    hide Wrap;
    WrapDrops(a + n, 0);
    WrapDrops(b + n, 0);
    var qa, qb :| Wrap(a + n) == a + n - WRAP * qa && Wrap(b + n) == b + n - WRAP * qb;
    WrapDrops(a - b, qb - qa);
  }

  /** Whole turns of the counter vanish, and nothing else does. */
  lemma WrapDrops(x: int, turns: int)
    ensures Wrap(x + WRAP * turns) == Wrap(x)
    ensures exists q :: Wrap(x) == x - WRAP * q
  {
    assert x % WRAP == x - WRAP * (x / WRAP);
  }

  lemma SlotOfIndex(n: nat)
    ensures Slot(Wrap(n)) == Slot(n)
  {
  }

  lemma SlotsDiffer(i: nat, j: nat)
    requires i < j < i + SIZE
    ensures Slot(i) != Slot(j)
  {
  }

  // ---- every step keeps the invariant ------------------------------------------------

  lemma InitHolds(desc: seq<Desc>)
    requires |desc| == SIZE
    ensures Inv(Init(desc))
  {
  }

  lemma ScribbleKeeps(s: State, h: int, d: Desc)
    requires Inv(s) && DriverEnabled(s, Scribble(h, d))
    ensures Inv(DriverStep(s, Scribble(h, d)))
  {
    hide Wrap, Slot;
  }

  lemma StageKeeps(s: State, h: int)
    requires Inv(s) && DriverEnabled(s, Stage(h))
    ensures Inv(DriverStep(s, Stage(h)))
  {
    hide Wrap, Slot;
    var t := DriverStep(s, Stage(h));
    SlotOfIndex(|s.published|);
    forall i | s.reaped <= i < |s.published|
      ensures t.availRing[Slot(i)] == t.published[i]
    {
      SlotsDiffer(i, |s.published|);
    }
  }

  lemma PublishKeeps(s: State)
    requires Inv(s) && DriverEnabled(s, Publish)
    ensures Inv(DriverStep(s, Publish))
  {
    hide Wrap, Slot;
    var t := DriverStep(s, Publish);
    WrapSucc(|s.published|);
    assert s.staged == [s.staged[0]] && s.staged[0] in s.staged;
    assert t.published[t.reaped..] == s.published[s.reaped..] + s.staged;
  }

  lemma ReapKeeps(s: State)
    requires Inv(s) && DriverEnabled(s, Reap)
    ensures Inv(DriverStep(s, Reap))
  {
    hide Wrap, Slot, Conserved;
    ReapsPublished(s);
    WrapSucc(s.reaped);
    ReapConserves(s);
  }

  /** The used element the driver takes names the oldest published head it has not taken. */
  lemma ReapsPublished(s: State)
    requires Inv(s) && DriverEnabled(s, Reap)
    ensures s.reaped < |s.completed|
    ensures 0 <= s.published[s.reaped] < SIZE
    ensures s.usedRing[Slot(s.lastUsed)] == UsedElem(s.published[s.reaped], REQUEST_LEN)
  {
    hide Wrap, Slot;
    SlotOfIndex(s.reaped);
    assert s.usedRing[Slot(s.lastUsed)] == s.completed[s.reaped];
  }

  lemma ReapConserves(s: State)
    requires Inv(s) && DriverEnabled(s, Reap)
    ensures DriverStep(s, Reap).reaped <= |s.published| && Conserved(DriverStep(s, Reap))
  {
    hide Wrap, Slot, Rings, Log, Batch;
    ReapsPublished(s);
    var h := s.published[s.reaped];
    assert h !in s.free;
  }

  lemma SampleKeeps(s: State)
    requires Inv(s) && BackendEnabled(s, Sample)
    ensures Inv(BackendStep(s, Sample))
  {
    hide Wrap, Slot;
    WrapDistance(s.consumed, |s.published|);
    var t := BackendStep(s, Sample);
    assert |s.published| - s.consumed <= SIZE;
    assert Counts(t) && Rings(t);
    assert Batch(t);
  }

  lemma FetchKeeps(s: State)
    requires Inv(s) && BackendEnabled(s, Fetch)
    ensures Inv(BackendStep(s, Fetch))
  {
    hide Wrap, Slot;
    SlotOfIndex(s.consumed);
    if s.lastAvail != s.backend.snap {
      assert s.availRing[Slot(s.lastAvail)] == s.published[s.consumed];
    }
  }

  lemma StoreKeeps(s: State, step: Step)
    requires Inv(s) && (step == StoreId || step == StoreLen) && BackendEnabled(s, step)
    ensures Inv(BackendStep(s, step))
  {
    hide Wrap, Slot;
    var t := BackendStep(s, step);
    SlotOfIndex(|s.completed|);
    forall i | s.reaped <= i < |s.completed|
      ensures t.usedRing[Slot(i)] == t.completed[i]
    {
      SlotsDiffer(i, |s.completed|);
    }
  }

  lemma PublishUsedKeeps(s: State)
    requires Inv(s) && BackendEnabled(s, PublishUsed)
    ensures Inv(BackendStep(s, PublishUsed))
  {
    hide Wrap, Slot;
    SlotOfIndex(|s.completed|);
    WrapSucc(|s.completed|);
  }

  /** The steps that touch no index. */
  lemma LocalKeeps(s: State, step: Step)
    requires Inv(s) && BackendEnabled(s, step)
    requires step == Check || step == Fill || step == EntropyFails || step == Advance
    ensures Inv(BackendStep(s, step))
  {
    hide Wrap, Slot;
    WrapSucc(s.consumed);
  }

  lemma StepKeeps(s: State, step: Step)
    requires Inv(s) && Enabled(s, step)
    ensures Inv(Apply(s, step))
  {
    hide Wrap, Slot, Shaped, Counts, Conserved, Rings, Log, Batch;
    match step
    case Scribble(h, d) => ScribbleKeeps(s, h, d);
    case Stage(h) => StageKeeps(s, h);
    case Publish => PublishKeeps(s);
    case Reap => ReapKeeps(s);
    case Sample => SampleKeeps(s);
    case Fetch => FetchKeeps(s);
    case StoreId => StoreKeeps(s, step);
    case StoreLen => StoreKeeps(s, step);
    case PublishUsed => PublishUsedKeeps(s);
    case _ => LocalKeeps(s, step);
  }

  /** A call that returns without an error has completed every request it was to see. */
  lemma FineMeansServed(s: State, step: Step)
    requires Inv(s) && BackendEnabled(s, step)
    ensures var t := BackendStep(s, step);
            t.backend.Parked? && t.verdict.Fine? ==>
              |t.completed| >= if s.backend.Parked? then |s.published| else s.snapshot
  {
    hide Wrap, Slot, Rings, Log;
    if step == Sample {
      WrapDistance(s.consumed, |s.published|);
    } else if step == Fetch && s.lastAvail == s.backend.snap {
      WrapAgrees(s.consumed, s.snapshot);
    }
  }

  lemma {:induction false} InvAt(trace: seq<State>, i: nat)
    requires Behaviour(trace) && i < |trace|
    ensures Inv(trace[i])
  {
    hide Shaped, Counts, Conserved, Rings, Log, Batch, Apply, Enabled;
    if i == 0 {
      InitHolds(trace[0].desc);
    } else {
      InvAt(trace, i - 1);
      assert Linked(trace, i - 1);
      var step :| Shaped(trace[i - 1]) && Enabled(trace[i - 1], step) && trace[i] == Apply(trace[i - 1], step);
      StepKeeps(trace[i - 1], step);
    }
  }

  lemma BehaviourInv(trace: seq<State>, s: State)
    requires Behaviour(trace) && s in trace
    ensures Inv(s)
  {
    var i :| 0 <= i < |trace| && trace[i] == s;
    InvAt(trace, i);
  }

  // ---- what every interleaving guarantees ----------------------------------------------

  /** The used log is the published heads in order, each once, each 32 bytes long. */
  lemma UsedLogIsPublishedPrefix(trace: seq<State>, s: State)
    requires Behaviour(trace) && s in trace
    ensures |s.completed| <= |s.published|
    ensures s.completed ==
            seq(|s.completed|, k requires 0 <= k < |s.completed| => UsedElem(s.published[k], REQUEST_LEN))
  {
    hide Wrap, Slot, Behaviour;
    BehaviourInv(trace, s);
  }

  /** used.idx and last_avail_idx agree except between the two stores that advance them. */
  lemma IndicesInLockStep(trace: seq<State>, s: State)
    requires Behaviour(trace) && s in trace
    ensures Wrap(s.usedIdx - s.lastAvail) == (if s.backend.UsedPublished? then 1 else 0)
    ensures s.backend.Parked? ==> s.usedIdx == s.lastAvail
  {
    hide Wrap, Slot, Behaviour;
    BehaviourInv(trace, s);
    WrapDistance(s.consumed, |s.completed|);
  }

  datatype Owner = Driver | AvailableRing | UsedRing

  /** Who holds a head: the driver, the ring the device has yet to serve, or the used ring. */
  ghost predicate OwnedBy(s: State, h: int, who: Owner)
    requires s.reaped <= |s.completed| <= |s.published|
  {
    match who
    case Driver => h in s.free || h in s.staged
    case AvailableRing => exists i :: |s.completed| <= i < |s.published| && s.published[i] == h
    case UsedRing => exists i :: s.reaped <= i < |s.completed| && s.published[i] == h
  }

  lemma {:induction false} DistinctCount(xs: seq<int>)
    requires forall i, j :: 0 <= i < j < |xs| ==> xs[i] != xs[j]
    ensures |set x | x in xs| == |xs|
  {
    if xs != [] {
      var front, last := xs[..|xs| - 1], xs[|xs| - 1];
      DistinctCount(front);
      assert (set x | x in xs) == (set x | x in front) + {last};
      assert last !in front;
    }
  }

  lemma {:induction false} FullSet(a: set<int>, n: nat)
    requires |a| == n && forall x :: x in a ==> 0 <= x < n
    ensures forall x :: 0 <= x < n ==> x in a
  {
    if n > 0 {
      if n - 1 in a {
        FullSet(a - {n - 1}, n - 1);
        forall x | 0 <= x < n
          ensures x in a
        {
          assert x < n - 1 ==> x in a - {n - 1};
        }
      } else {
        BoundedSet(a, n - 1);
      }
    }
  }

  lemma {:induction false} BoundedSet(a: set<int>, n: nat)
    requires forall x :: x in a ==> 0 <= x < n
    ensures |a| <= n
  {
    if n == 0 {
      assert forall x :: x !in a;
      assert a == {};
    } else {
      BoundedSet(a - {n - 1}, n - 1);
    }
  }

  /** n distinct numbers below n leave none out. */
  lemma Exhaustive(free: set<int>, staged: seq<int>, window: seq<int>, n: nat, h: int)
    requires |free| + |staged| + |window| == n && |staged| <= 1 && 0 <= h < n
    requires forall x :: x in free || x in staged || x in window ==> 0 <= x < n
    requires forall x :: x in free ==> x !in staged && x !in window
    requires forall x :: x in staged ==> x !in window
    requires forall i, j :: 0 <= i < j < |window| ==> window[i] != window[j]
    ensures h in free || h in staged || h in window
  {
    DistinctCount(window);
    DistinctCount(staged);
    var inFlight := set x | x in window;
    var held := set x | x in staged;
    DisjointCount(free, held, inFlight);
    FullSet(free + held + inFlight, n);
    assert h in free + held + inFlight;
  }

  /** Counting leaves no head unaccounted for. */
  lemma EveryHeadSomewhere(s: State, h: int)
    requires s.reaped <= |s.published| && Conserved(s) && 0 <= h < SIZE
    requires forall x :: x in s.free ==> 0 <= x < SIZE
    ensures h in s.free || h in s.staged || exists i :: s.reaped <= i < |s.published| && s.published[i] == h
  {
    var window := s.published[s.reaped..];
    assert forall k :: 0 <= k < |window| ==> window[k] == s.published[s.reaped + k];
    Exhaustive(s.free, s.staged, window, SIZE, h);
    if h in window {
      var k :| 0 <= k < |window| && window[k] == h;
      assert s.published[s.reaped + k] == h;
    }
  }

  lemma DisjointCount(a: set<int>, b: set<int>, c: set<int>)
    requires a !! b && a !! c && b !! c
    ensures |a + b + c| == |a| + |b| + |c|
  {
    assert (a + b) !! c;
  }

  /** Every descriptor has exactly one owner, and the two rings never name one twice. */
  lemma ExactlyOneOwner(trace: seq<State>, s: State, h: int)
    requires Behaviour(trace) && s in trace && 0 <= h < SIZE
    ensures s.reaped <= |s.completed| <= |s.published|
    ensures exists who :: OwnedBy(s, h, who)
    ensures forall a, b :: OwnedBy(s, h, a) && OwnedBy(s, h, b) ==> a == b
    ensures forall i, j :: s.reaped <= i < j < |s.published| ==> s.published[i] != s.published[j]
  {
    hide Wrap, Slot, Behaviour;
    BehaviourInv(trace, s);
    if h in s.free || h in s.staged {
      assert OwnedBy(s, h, Driver);
    } else {
      EveryHeadSomewhere(s, h);
      var i :| s.reaped <= i < |s.published| && s.published[i] == h;
      if i < |s.completed| {
        assert OwnedBy(s, h, UsedRing);
      } else {
        assert OwnedBy(s, h, AvailableRing);
      }
    }
  }

  /** With such a driver the backend never meets an overfull ring or a bad descriptor. */
  lemma NoProtocolError(trace: seq<State>, s: State)
    requires Behaviour(trace) && s in trace
    ensures s.verdict == Fine || s.verdict == NoEntropy
  {
    hide Wrap, Slot, Behaviour;
    BehaviourInv(trace, s);
  }

  /** A head the driver takes back is the next published one it has not taken yet. */
  lemma ReapReturnsNextHead(trace: seq<State>, s: State)
    requires Behaviour(trace) && s in trace && DriverEnabled(s, Reap)
    ensures Shaped(s) && s.reaped < |s.published|
    ensures s.usedRing[Slot(s.lastUsed)] == UsedElem(s.published[s.reaped], REQUEST_LEN)
  {
    hide Wrap, Slot, Behaviour;
    BehaviourInv(trace, s);
    SlotOfIndex(s.reaped);
    assert s.reaped < |s.completed|;
    assert s.usedRing[Slot(s.reaped)] == s.completed[s.reaped];
  }
}
