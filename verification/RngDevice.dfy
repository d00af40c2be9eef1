/**
 The entropy device as the VMM drives it: a register file updated in place, and the
 backend that serves the queue byte by byte in guest RAM.
 */
module RngDevice {
  import opened Bytes
  import opened Numbers
  import opened GuestLayout
  import opened GuestMemory
  import T = Transport
  import opened Virtqueue

  const USED_END: nat := USED + 4 + 8 * SIZE

  function DescAt(h: nat): nat { DESC + 16 * h }
  function BufferAt(h: nat): nat { BUFFER_GPA + h * BUFFER_STRIDE }
  function UsedAt(slot: nat): nat { USED + 4 + 8 * slot }

  function AvailIdx(m: seq<byte>): nat
    requires |m| == MEM_SIZE
  {
    Le16(m, AVAIL + 2)
  }

  /** The head the driver stored for the n-th request ever made. */
  function HeadAt(m: seq<byte>, n: nat): nat
    requires |m| == MEM_SIZE
  {
    Le16(m, AVAIL + 4 + 2 * Slot(n))
  }

  function UsedIdx(m: seq<byte>): nat
    requires |m| == MEM_SIZE
  {
    Le16(m, USED + 2)
  }

  function UsedElemAt(m: seq<byte>, slot: nat): UsedElem
    requires |m| == MEM_SIZE && slot < SIZE
  {
    UsedElem(Le32(m, UsedAt(slot)), Le32(m, UsedAt(slot) + 4))
  }

  /** The head is in the table and its descriptor is the expected direct writable buffer. */
  predicate Acceptable(m: seq<byte>, h: nat)
    requires |m| == MEM_SIZE
  {
    && h < SIZE
    && Le64(m, DescAt(h)) == BufferAt(h) && Le32(m, DescAt(h) + 8) == REQUEST_LEN
    && Le16(m, DescAt(h) + 12) == DESC_F_WRITE && Le16(m, DescAt(h) + 14) == 0
  }

  function Pending(m: seq<byte>, last: nat): nat
    requires |m| == MEM_SIZE
  {
    Wrap(AvailIdx(m) - last)
  }

  /** The next n heads the driver has stored behind index last. */
  function Heads(m: seq<byte>, last: nat, n: nat): seq<nat>
    requires |m| == MEM_SIZE
  {
    seq<nat>(n, k requires 0 <= k < n => HeadAt(m, last + k))
  }

  predicate InBuffer(h: nat, a: nat) {
    BufferAt(h) <= a < BufferAt(h) + REQUEST_LEN
  }

  ghost predicate InSomeBuffer(heads: seq<nat>, a: nat) {
    exists k :: 0 <= k < |heads| && heads[k] < SIZE && InBuffer(heads[k], a)
  }

  /** What a call that looks at these requests may write: the used ring and their buffers. */
  ghost predicate Confined(m: seq<byte>, m': seq<byte>, heads: seq<nat>)
    requires |m| == |m'| == MEM_SIZE
  {
    forall a :: 0 <= a < MEM_SIZE && m'[a] != m[a] ==>
      USED + 2 <= a < USED_END || InSomeBuffer(heads, a)
  }

  /** What a notification may write: nothing if more entries are published than the queue can hold, and
      otherwise the used ring and the buffers of the requests published since index last. */
  ghost predicate NotificationWrites(m: seq<byte>, m': seq<byte>, last: nat)
    requires |m| == |m'| == MEM_SIZE
  {
    if Pending(m, last) > SIZE then m' == m else Confined(m, m', Heads(m, last, Pending(m, last)))
  }

  lemma ConfinedMore(m: seq<byte>, m': seq<byte>, heads: seq<nat>, n: nat)
    requires |m| == |m'| == MEM_SIZE && n <= |heads| && Confined(m, m', heads[..n])
    ensures Confined(m, m', heads)
  {
    forall a | 0 <= a < MEM_SIZE && m'[a] != m[a]
      ensures USED + 2 <= a < USED_END || InSomeBuffer(heads, a)
    {
      if InSomeBuffer(heads[..n], a) {
        var k :| 0 <= k < n && heads[..n][k] < SIZE && InBuffer(heads[..n][k], a);
        assert InBuffer(heads[k], a);
      }
    }
  }

  /** The getrandom call at which request number n of this call starts. */
  ghost function CallAt(replies: nat -> Reply, c: nat, n: nat): nat
    requires EventuallyAnswers(replies)
  {
    if n == 0 then c else Deliver(replies, CallAt(replies, c, n - 1), REQUEST_LEN).next
  }

  ghost function Delivered(replies: nat -> Reply, c: nat, n: nat): (d: Draw)
    requires EventuallyAnswers(replies)
    ensures |d.data| <= REQUEST_LEN
  {
    Deliver(replies, CallAt(replies, c, n), REQUEST_LEN)
  }

  ghost predicate Holds(m: seq<byte>, h: nat, data: seq<byte>)
    requires |m| == MEM_SIZE && h < SIZE && |data| <= REQUEST_LEN
  {
    forall i :: 0 <= i < |data| ==> m[BufferAt(h) + i] == data[i]
  }

  /** The first n requests are answered: each got a full delivery, its used element says
      so, and its buffer holds the bytes unless another request looked at since names the
      same head. */
  ghost predicate Served(m: seq<byte>, m': seq<byte>, heads: seq<nat>, n: nat, looked: nat,
                         replies: nat -> Reply, c: nat)
    requires |m| == |m'| == MEM_SIZE && n <= looked <= |heads| <= SIZE && EventuallyAnswers(replies)
  {
    && UsedIdx(m') == Wrap(UsedIdx(m) + n)
    && (forall k :: 0 <= k < n ==> heads[k] < SIZE && Acceptable(m, heads[k]) && Delivered(replies, c, k).ok)
    && (forall k :: 0 <= k < n ==> UsedElemAt(m', Slot(UsedIdx(m) + k)) == UsedElem(heads[k], REQUEST_LEN))
    && (forall k :: 0 <= k < n && (forall j :: k < j < looked ==> heads[j] != heads[k])
          ==> Holds(m', heads[k], Delivered(replies, c, k).data))
  }

  /** Acceptable, spelled out as the comparisons the backend makes. */
  lemma AcceptableFields(m: seq<byte>, h: nat)
    requires |m| == MEM_SIZE
    ensures h >= SIZE ==> !Acceptable(m, h)
    ensures h < SIZE ==>
              (Acceptable(m, h) <==> Le64(m, DescAt(h)) == BufferAt(h) && Le32(m, DescAt(h) + 8) == REQUEST_LEN
                                     && Le16(m, DescAt(h) + 12) == DESC_F_WRITE && Le16(m, DescAt(h) + 14) == 0)
  {
  }

  /** The range test that follows the descriptor match can refuse nothing the match let through. */
  lemma BufferInRam(h: nat)
    ensures h < SIZE ==> USED_END <= BufferAt(h) <= MEM_SIZE && REQUEST_LEN <= MEM_SIZE - BufferAt(h)
  {
  }

  /** Nothing below the used index changes: the available ring and the descriptors are read only. */
  lemma SameRequests(m: seq<byte>, m': seq<byte>, n: nat)
    requires |m| == |m'| == MEM_SIZE && Agree(m, m', DESC, USED)
    ensures AvailIdx(m') == AvailIdx(m) && HeadAt(m', n) == HeadAt(m, n)
    ensures forall h :: 0 <= h < SIZE ==> Acceptable(m', h) == Acceptable(m, h)
  {
    hide Le16, Le32, Le64, Agree, Slot;
    SameFields(m, m', DESC, USED, AVAIL + 2);
    SameFields(m, m', DESC, USED, AVAIL + 4 + 2 * Slot(n));
    forall h | 0 <= h < SIZE
      ensures Acceptable(m', h) == Acceptable(m, h)
    {
      SameFields(m, m', DESC, USED, DescAt(h));
      SameFields(m, m', DESC, USED, DescAt(h) + 8);
      SameFields(m, m', DESC, USED, DescAt(h) + 12);
      SameFields(m, m', DESC, USED, DescAt(h) + 14);
    }
  }

  /** Memory before and after one used element is stored and published. */
  ghost predicate Completion(m: seq<byte>, m': seq<byte>, h: nat)
    requires |m| == |m'| == MEM_SIZE
  {
    var slot := Slot(UsedIdx(m));
    && UsedIdx(m') == Wrap(UsedIdx(m) + 1) && UsedElemAt(m', slot) == UsedElem(h, REQUEST_LEN)
    && Agree(m, m', 0, USED + 2) && Agree(m, m', USED + 4, UsedAt(slot)) && Agree(m, m', UsedAt(slot) + 8, MEM_SIZE)
  }

  /** The rest of RAM is untouched while head h's buffer is filled. */
  ghost predicate OnlyBuffer(m: seq<byte>, m': seq<byte>, h: nat)
    requires |m| == |m'| == MEM_SIZE && h < SIZE
  {
    Agree(m, m', 0, BufferAt(h)) && Agree(m, m', BufferAt(h) + REQUEST_LEN, MEM_SIZE)
  }

  lemma OtherElem(m: seq<byte>, m1: seq<byte>, m2: seq<byte>, h: nat, slot: nat)
    requires |m| == |m1| == |m2| == MEM_SIZE && h < SIZE && slot < SIZE
    requires OnlyBuffer(m, m1, h) && Completion(m1, m2, h)
    ensures UsedIdx(m1) == UsedIdx(m)
    ensures slot != Slot(UsedIdx(m)) ==> UsedElemAt(m2, slot) == UsedElemAt(m, slot)
  {
    hide Le16, Le32, Le64, Slot, Wrap;
    SameFields(m, m1, 0, BufferAt(h), USED + 2);
    if slot != Slot(UsedIdx(m)) {
      var at := UsedAt(slot);
      assert Agree(m, m2, at, at + 8);
      SameFields(m, m2, at, at + 8, at);
      SameFields(m, m2, at, at + 8, at + 4);
    }
  }

  lemma PendingReaches(m: seq<byte>, last: nat)
    requires |m| == MEM_SIZE && last < WRAP
    ensures Wrap(last + Pending(m, last)) == AvailIdx(m)
  {
  }

  lemma NothingServed(m: seq<byte>, heads: seq<nat>, replies: nat -> Reply, c: nat)
    requires |m| == MEM_SIZE && |heads| <= SIZE && EventuallyAnswers(replies)
    ensures Served(m, m, heads, 0, 0, replies, c) && Confined(m, m, heads[..0]) && CallAt(replies, c, 0) == c
  {
  }

  /** However far a call gets, the two indices move by the same number of requests. */
  lemma InLockStep(m: seq<byte>, m': seq<byte>, heads: seq<nat>, n: nat, looked: nat,
                   replies: nat -> Reply, c: nat, last: nat)
    requires |m| == |m'| == MEM_SIZE && n <= looked <= |heads| <= SIZE && EventuallyAnswers(replies) && last < WRAP
    requires Served(m, m', heads, n, looked, replies, c)
    ensures Wrap(UsedIdx(m') - Wrap(last + n)) == Wrap(UsedIdx(m) - last)
  {
    hide Wrap, Slot, Le16;
    WrapShift(UsedIdx(m), last, n);
  }

  lemma NextCall(replies: nat -> Reply, c: nat, n: nat)
    requires EventuallyAnswers(replies)
    ensures Delivered(replies, c, n) == Deliver(replies, CallAt(replies, c, n), REQUEST_LEN)
    ensures Delivered(replies, c, n).next == CallAt(replies, c, n + 1)
  {
  }

  /** Answering one more request leaves the earlier answers in place. */
  lemma ServeOneMore(m: seq<byte>, m0: seq<byte>, m1: seq<byte>, m2: seq<byte>,
                     heads: seq<nat>, n: nat, replies: nat -> Reply, c: nat)
    requires |m| == |m0| == |m1| == |m2| == MEM_SIZE && n < |heads| <= SIZE && EventuallyAnswers(replies)
    requires Served(m, m0, heads, n, n, replies, c)
    requires heads[n] < SIZE && Acceptable(m, heads[n]) && Delivered(replies, c, n).ok
    requires OnlyBuffer(m0, m1, heads[n]) && Holds(m1, heads[n], Delivered(replies, c, n).data)
    requires Completion(m1, m2, heads[n])
    ensures Served(m, m2, heads, n + 1, n + 1, replies, c)
  {
    hide Le16, Le32, Le64, Wrap, Slot, Delivered, Acceptable, UsedElemAt, UsedIdx, OnlyBuffer, Completion, Holds;
    ElementsSurvive(m, m0, m1, m2, heads, n, replies, c);
    AnswersSurvive(m, m0, m1, m2, heads, n, replies, c);
  }

  lemma ElementsSurvive(m: seq<byte>, m0: seq<byte>, m1: seq<byte>, m2: seq<byte>,
                        heads: seq<nat>, n: nat, replies: nat -> Reply, c: nat)
    requires |m| == |m0| == |m1| == |m2| == MEM_SIZE && n < |heads| <= SIZE && EventuallyAnswers(replies)
    requires Served(m, m0, heads, n, n, replies, c)
    requires heads[n] < SIZE && OnlyBuffer(m0, m1, heads[n]) && Completion(m1, m2, heads[n])
    ensures UsedIdx(m2) == Wrap(UsedIdx(m) + (n + 1))
    ensures forall k :: 0 <= k < n + 1 ==> UsedElemAt(m2, Slot(UsedIdx(m) + k)) == UsedElem(heads[k], REQUEST_LEN)
  {
    hide Le16, Le32, Le64, Wrap, Slot, Delivered, Acceptable, UsedElemAt, UsedIdx, OnlyBuffer, Holds, Agree;
    var u := UsedIdx(m);
    OtherElem(m0, m1, m2, heads[n], 0);
    WrapSucc(u + n);
    SlotOfIndex(u + n);
    forall k | 0 <= k < n + 1
      ensures UsedElemAt(m2, Slot(u + k)) == UsedElem(heads[k], REQUEST_LEN)
    {
      if k < n {
        SlotsDiffer(u + k, u + n);
        OtherElem(m0, m1, m2, heads[n], Slot(u + k));
      }
    }
  }

  lemma AnswersSurvive(m: seq<byte>, m0: seq<byte>, m1: seq<byte>, m2: seq<byte>,
                       heads: seq<nat>, n: nat, replies: nat -> Reply, c: nat)
    requires |m| == |m0| == |m1| == |m2| == MEM_SIZE && n < |heads| <= SIZE && EventuallyAnswers(replies)
    requires Served(m, m0, heads, n, n, replies, c)
    requires heads[n] < SIZE
    requires OnlyBuffer(m0, m1, heads[n]) && Holds(m1, heads[n], Delivered(replies, c, n).data)
    requires Completion(m1, m2, heads[n])
    ensures forall k :: 0 <= k < n + 1 && (forall j :: k < j < n + 1 ==> heads[j] != heads[k]) ==>
              Holds(m2, heads[k], Delivered(replies, c, k).data)
  {
    hide Le16, Le32, Le64, Wrap, Slot, Delivered, Acceptable, UsedElemAt, UsedIdx;
    forall k | 0 <= k < n + 1 && (forall j :: k < j < n + 1 ==> heads[j] != heads[k])
      ensures Holds(m2, heads[k], Delivered(replies, c, k).data)
    {
      if k < n {
        assert heads[n] != heads[k];
        assert Holds(m0, heads[k], Delivered(replies, c, k).data);
      }
    }
  }

  /** A fill that gives up half way spoils no answer but one in the same buffer. */
  lemma FailedServes(m: seq<byte>, m0: seq<byte>, m1: seq<byte>, heads: seq<nat>, n: nat, replies: nat -> Reply, c: nat)
    requires |m| == |m0| == |m1| == MEM_SIZE && n < |heads| <= SIZE && EventuallyAnswers(replies)
    requires Served(m, m0, heads, n, n, replies, c)
    requires heads[n] < SIZE && OnlyBuffer(m0, m1, heads[n])
    ensures Served(m, m1, heads, n, n + 1, replies, c)
  {
    hide Le16, Le32, Le64, Wrap, Slot, Delivered, Acceptable;
    SameFields(m0, m1, 0, BufferAt(heads[n]), USED + 2);
    forall k | 0 <= k < n
      ensures UsedElemAt(m1, Slot(UsedIdx(m) + k)) == UsedElem(heads[k], REQUEST_LEN)
    {
      var at := UsedAt(Slot(UsedIdx(m) + k));
      SameFields(m0, m1, 0, BufferAt(heads[n]), at);
      SameFields(m0, m1, 0, BufferAt(heads[n]), at + 4);
    }
    forall k | 0 <= k < n && (forall j :: k < j < n + 1 ==> heads[j] != heads[k])
      ensures Holds(m1, heads[k], Delivered(replies, c, k).data)
    {
      assert heads[n] != heads[k];
      assert Holds(m0, heads[k], Delivered(replies, c, k).data);
    }
  }

  lemma StaysConfined(m: seq<byte>, m0: seq<byte>, m1: seq<byte>, heads: seq<nat>, n: nat)
    requires |m| == |m0| == |m1| == MEM_SIZE && n < |heads| && heads[n] < SIZE
    requires Confined(m, m0, heads[..n]) && OnlyBuffer(m0, m1, heads[n])
    ensures Confined(m, m1, heads[..n + 1])
  {
    forall a | 0 <= a < MEM_SIZE && m1[a] != m[a]
      ensures USED + 2 <= a < USED_END || InSomeBuffer(heads[..n + 1], a)
    {
      if m1[a] != m0[a] {
        assert InBuffer(heads[..n + 1][n], a);
      } else if !(USED + 2 <= a < USED_END) {
        var k :| 0 <= k < n && heads[..n][k] < SIZE && InBuffer(heads[..n][k], a);
        assert InBuffer(heads[..n + 1][k], a);
      }
    }
  }

  lemma CompletionConfined(m: seq<byte>, m1: seq<byte>, m2: seq<byte>, heads: seq<nat>, h: nat)
    requires |m| == |m1| == |m2| == MEM_SIZE
    requires Confined(m, m1, heads) && Completion(m1, m2, h)
    ensures Confined(m, m2, heads)
  {
    hide Le16, Le32, Le64, Slot, Wrap;
  }

  datatype Readout = Unreadable | Readable(value: T.Word)

  predicate FeatureBit(word: nat, bit: nat) {
    word / Pow2(bit) % 2 == 1
  }

  /** Why a call that found work stopped short of serving all of it. */
  datatype Ending = AllServed | BadRequest | OutOfEntropy

  /** Stores one used element behind the published ones, then publishes it. */
  method StoreUsed(mem: array<byte>, used: nat, head: nat, len: nat)
    requires mem.Length == MEM_SIZE && used == USED && head < SIZE && len == REQUEST_LEN
    modifies mem
    ensures Completion(old(mem[..]), mem[..], head)
  {
    hide Le16, Le32, Le64, Slot, Wrap;
    ghost var m := mem[..];
    var usedIdx := Load16(mem, used + 2);
    var slot := Slot(usedIdx);
    var at := used + 4 + 8 * slot;
    Store32(mem, at, head);
    ghost var m1 := mem[..];
    Store32(mem, at + 4, len);
    ghost var m2 := mem[..];
    SameFields(m1, m2, 0, at + 4, at);
    Store16(mem, used + 2, Wrap(usedIdx + 1));
    SameFields(m2, mem[..], used + 4, MEM_SIZE, at);
    SameFields(m2, mem[..], used + 4, MEM_SIZE, at + 4);
  }

  /** What a register write other than a notification may do to the register file, and what it must do. */
  predicate Lawful(r: T.Regs, r': T.Regs, offset: nat, value: T.Word, result: int) {
    && (result == 0 || (result == -1 && r' == r))
    && (result == 0 <==> T.Admissible(r, offset, value))
    && (result == 0 ==> T.TookEffect(r, r', offset, value) && T.OthersKept(r, r', offset, value))
    && (offset == T.INTERRUPT_ACK ==> T.Acknowledged(r, r', value, result == 0))
  }

  class Device {
    var deviceFeaturesSel: T.Word
    var driverFeaturesSel: T.Word
    var driverFeatures0: T.Word
    var driverFeatures1: T.Word
    var status: T.Word
    var interruptStatus: T.Word
    var queueSel: T.Word
    var size: T.Word
    var ready: T.Word
    var lastAvail: nat
    var descAddr: nat
    var driverAddr: nat
    var deviceAddr: nat

    constructor ()
      ensures Regs() == T.RESET && Valid()
    {
      deviceFeaturesSel, driverFeaturesSel, driverFeatures0, driverFeatures1 := 0, 0, 0, 0;
      status, interruptStatus, queueSel, size, ready := 0, 0, 0, 0, 0;
      lastAvail, descAddr, driverAddr, deviceAddr := 0, 0, 0, 0;
    }

    /** The registers as one value. */
    function Regs(): T.Regs
      reads this
    {
      T.Regs(deviceFeaturesSel, driverFeaturesSel, driverFeatures0, driverFeatures1, status, interruptStatus,
             queueSel, size, ready, lastAvail, descAddr, driverAddr, deviceAddr)
    }

    ghost predicate Valid()
      reads this
    {
      T.Handshake(Regs())
    }

    /** Serves every request published since the last call, in order.  On failure the
        requests already answered stay answered and the index stops behind them. */
    method ProcessQueue(mem: array<byte>, source: EntropySource)
      returns (result: int, ghost done: nat, ghost ending: Ending)
      requires Valid() && mem.Length == MEM_SIZE && EventuallyAnswers(source.replies)
      modifies this`lastAvail, mem, source`calls
      ensures Valid()
      ensures lastAvail == Wrap(old(lastAvail) + done)
      ensures old(ready) == 0 || Pending(old(mem[..]), old(lastAvail)) > SIZE ==>
                result == -1 && done == 0 && mem[..] == old(mem[..])
      ensures old(ready) != 0 && Pending(old(mem[..]), old(lastAvail)) <= SIZE ==>
                var m, c := old(mem[..]), old(source.calls);
                var heads := Heads(m, old(lastAvail), Pending(m, old(lastAvail)));
                && done <= |heads|
                && (!ending.AllServed? ==> done < |heads|)
                && var looked := if ending.OutOfEntropy? then done + 1 else done;
                && Served(m, mem[..], heads, done, looked, source.replies, c) && Confined(m, mem[..], heads[..looked])
                && (result == 0 || result == -1) && (result == 0 <==> ending.AllServed?)
                && (ending.AllServed? <==> done == |heads|)
                && (ending.BadRequest? ==> !Acceptable(m, heads[done]))
                && (ending.OutOfEntropy? ==> Acceptable(m, heads[done]) && !Delivered(source.replies, c, done).ok)
      ensures Agree(old(mem[..]), mem[..], 0, USED + 2)
      ensures Wrap(UsedIdx(mem[..]) - lastAvail) == Wrap(UsedIdx(old(mem[..])) - old(lastAvail))
    {
      hide Le16, Le32, Le64, Slot, Wrap, Deliver, Delivered, CallAt, Acceptable, Served, Confined;
      done, ending := 0, BadRequest;
      WrapSmall(lastAvail);
      if ready == 0 || size != SIZE {
        return -1, 0, BadRequest;
      }
      var availIdx := Load16(mem, driverAddr + 2);
      var pending := Wrap(availIdx - lastAvail);
      if pending == 0 {
        NothingServed(mem[..], [], source.replies, source.calls);
        return 0, 0, AllServed;
      }
      if pending > SIZE {
        return -1, 0, BadRequest;
      }
      ghost var m, c, last := mem[..], source.calls, lastAvail;
      ghost var heads := Heads(m, last, pending);
      NothingServed(m, heads, source.replies, c);
      PendingReaches(m, last);
      while lastAvail != availIdx
        invariant done <= pending && lastAvail == Wrap(last + done)
        invariant source.calls == CallAt(source.replies, c, done)
        invariant Agree(m, mem[..], 0, USED + 2)
        invariant Served(m, mem[..], heads, done, done, source.replies, c)
        invariant Confined(m, mem[..], heads[..done])
        invariant Wrap(UsedIdx(mem[..]) - lastAvail) == Wrap(UsedIdx(m) - last)
        decreases pending - done
      {
        var outcome := Answer(mem, source, m, heads, last, done, c);
        InLockStep(m, mem[..], heads, if outcome.AllServed? then done + 1 else done,
                   if outcome.BadRequest? then done else done + 1, source.replies, c, last);
        if outcome != AllServed {
          return -1, done, outcome;
        }
        done := done + 1;
      }
      WrapAgrees(last + done, last + pending);
      return 0, done, AllServed;
    }

    /** The body of the loop: one request is checked, filled and completed. */
    method Answer(mem: array<byte>, source: EntropySource,
                  ghost m: seq<byte>, ghost heads: seq<nat>, ghost last: nat, ghost done: nat, ghost c: nat)
      returns (ending: Ending)
      requires mem.Length == MEM_SIZE && EventuallyAnswers(source.replies) && T.FixedLayout(Regs())
      requires |m| == MEM_SIZE && done < |heads| <= SIZE && heads == Heads(m, last, |heads|)
      requires lastAvail == Wrap(last + done) && source.calls == CallAt(source.replies, c, done)
      requires Agree(m, mem[..], 0, USED + 2)
      requires Served(m, mem[..], heads, done, done, source.replies, c) && Confined(m, mem[..], heads[..done])
      modifies this`lastAvail, mem, source`calls
      ensures Agree(m, mem[..], 0, USED + 2)
      ensures ending.AllServed? ==>
                lastAvail == Wrap(last + done + 1) && source.calls == CallAt(source.replies, c, done + 1)
                && Served(m, mem[..], heads, done + 1, done + 1, source.replies, c)
                && Confined(m, mem[..], heads[..done + 1])
      ensures !ending.AllServed? ==> lastAvail == old(lastAvail)
      ensures ending.BadRequest? ==>
                !Acceptable(m, heads[done]) && Confined(m, mem[..], heads[..done])
                && Served(m, mem[..], heads, done, done, source.replies, c)
      ensures ending.OutOfEntropy? ==>
                Acceptable(m, heads[done]) && !Delivered(source.replies, c, done).ok
                && Confined(m, mem[..], heads[..done + 1])
                && Served(m, mem[..], heads, done, done + 1, source.replies, c)
    {
      hide Le16, Le32, Le64, Slot, Wrap, Deliver, Delivered, CallAt, Acceptable, Served, Confined;
      ghost var m0 := mem[..];
      SameRequests(m, m0, last + done);
      SlotOfIndex(last + done);
      var head := Load16(mem, driverAddr + 4 + 2 * Slot(lastAvail));
      assert head == heads[done];
      AcceptableFields(m0, head);
      AcceptableFields(m, head);
      if head >= SIZE {
        return BadRequest;
      }
      var at := descAddr + 16 * head;
      var addr, len := Load64(mem, at), Load32(mem, at + 8);
      var flags, next := Load16(mem, at + 12), Load16(mem, at + 14);
      if addr != BufferAt(head) || len != REQUEST_LEN || flags != DESC_F_WRITE || next != 0 {
        return BadRequest;
      }
      BufferInRam(head);
      if addr > MEM_SIZE || len > MEM_SIZE - addr {
        assert false;
        return BadRequest;
      }
      NextCall(source.replies, c, done);
      var filled := FillEntropy(mem, addr, len, source);
      ghost var m1 := mem[..];
      StaysConfined(m, m0, m1, heads, done);
      if !filled {
        FailedServes(m, m0, m1, heads, done, source.replies, c);
        return OutOfEntropy;
      }
      StoreUsed(mem, deviceAddr, head, len);
      CompletionConfined(m, m1, mem[..], heads[..done + 1], head);
      ServeOneMore(m, m0, m1, mem[..], heads, done, source.replies, c);
      WrapSucc(last + done);
      lastAvail := Wrap(lastAvail + 1);
      return AllServed;
    }

    /** A notification that is taken: the queue is served, and only what it asks for is written. */
    method Notify(mem: array<byte>, source: EntropySource) returns (result: int)
      requires Valid() && mem.Length == MEM_SIZE && EventuallyAnswers(source.replies) && ready != 0
      modifies this`lastAvail, mem, source`calls
      ensures Valid() && T.DeviceStep(old(Regs()), Regs())
      ensures Agree(old(mem[..]), mem[..], 0, USED + 2) && NotificationWrites(old(mem[..]), mem[..], old(lastAvail))
      ensures (result == 0 || result == -1) && (result == 0 ==> lastAvail == AvailIdx(old(mem[..])))
    {
      hide T.Handshake, Served, Confined;
      LastAvailFits();
      ghost var done, ending;
      PendingReaches(mem[..], lastAvail);
      ghost var m, last := mem[..], lastAvail;
      ghost var heads := Heads(m, last, Pending(m, last));
      result, done, ending := ProcessQueue(mem, source);
      if Pending(m, last) <= SIZE {
        ConfinedMore(m, mem[..], heads, if ending.OutOfEntropy? then done + 1 else done);
      }
      LastAvailFits();
    }

    /** The writable side of the transport: the registers follow the register table, and
        only an open doorbell reaches the queue. */
    method WriteRegister(mem: array<byte>, source: EntropySource, offset: nat, value: T.Word) returns (result: int)
      requires Valid() && mem.Length == MEM_SIZE && EventuallyAnswers(source.replies)
      modifies this, mem, source`calls
      ensures Valid()
      ensures match T.Write(old(Regs()), offset, value)
              case Rejected => result == -1 && Regs() == old(Regs()) && mem[..] == old(mem[..])
              case Accepted(r) => result == 0 && Regs() == r && mem[..] == old(mem[..])
              case Doorbell => T.DeviceStep(old(Regs()), Regs()) && Agree(old(mem[..]), mem[..], 0, USED + 2)
                               && NotificationWrites(old(mem[..]), mem[..], old(lastAvail))
                               && interruptStatus == old(interruptStatus) && (result == 0 || result == -1)
                               && (result == 0 ==> lastAvail == AvailIdx(old(mem[..])))
      ensures offset != T.QUEUE_NOTIFY ==> Lawful(old(Regs()), Regs(), offset, value, result)
    {
      hide T.Admissible, T.TookEffect, T.OthersKept, T.Acknowledged, NotificationWrites;
      hide T.Handshake, T.WriteLayout, T.StatusAllowed, T.AcceptedStatus, T.Includes, T.Has, Served, Confined;
      ghost var before := Regs();
      if T.Write(before, offset, value).Accepted? {
        T.WriteKeepsHandshake(before, offset, value);
      }
      if offset != T.QUEUE_NOTIFY {
        T.WriteIsLawful(before, offset, value);
      }
      result := -1;
      if offset == T.DEVICE_FEATURES_SEL {
        deviceFeaturesSel := value;
        result := 0;
      } else if offset == T.DRIVER_FEATURES_SEL {
        if !T.Has(status, T.FEATURES_OK) {
          driverFeaturesSel := value;
          result := 0;
        }
      } else if offset == T.DRIVER_FEATURES {
        if !T.Has(status, T.FEATURES_OK) && driverFeaturesSel < 2 {
          if driverFeaturesSel == 0 {
            driverFeatures0 := value;
          } else {
            driverFeatures1 := value;
          }
          result := 0;
        }
      } else if offset == T.QUEUE_SEL {
        queueSel := value;
        result := 0;
      } else if offset in {T.QUEUE_SIZE, T.QUEUE_DESC_LOW, T.QUEUE_DESC_HIGH, T.QUEUE_DRIVER_LOW, T.QUEUE_DRIVER_HIGH,
                          T.QUEUE_DEVICE_LOW, T.QUEUE_DEVICE_HIGH} {
        result := WriteLayout(offset, value);
      } else if offset == T.QUEUE_READY {
        if queueSel == 0 && value == 0 {
          ready := 0;
          result := 0;
        } else if queueSel == 0 && value == 1 && T.FixedLayout(Regs()) {
          ready := 1;
          result := 0;
        }
      } else if offset == T.QUEUE_NOTIFY {
        if value == 0 && status == T.OPERATIONAL && ready != 0 {
          result := Notify(mem, source);
        }
      } else if offset == T.INTERRUPT_ACK {
        if value <= T.INT_VRING {
          interruptStatus := if value == 1 then interruptStatus / 2 * 2 else interruptStatus;
          result := 0;
        }
      } else if offset == T.STATUS {
        if value == 0 {
          Reset();
          result := 0;
        } else {
          result := WriteStatus(value);
        }
      }
    }

    /** The size and address registers, frozen while the queue is live. */
    method WriteLayout(offset: nat, value: T.Word) returns (result: int)
      requires offset in {T.QUEUE_SIZE, T.QUEUE_DESC_LOW, T.QUEUE_DESC_HIGH, T.QUEUE_DRIVER_LOW, T.QUEUE_DRIVER_HIGH,
                          T.QUEUE_DEVICE_LOW, T.QUEUE_DEVICE_HIGH}
      modifies this`size, this`descAddr, this`driverAddr, this`deviceAddr
      ensures T.WriteLayout(old(Regs()), offset, value) == if result == 0 then T.Accepted(Regs()) else T.Rejected
      ensures result == 0 || (result == -1 && Regs() == old(Regs()))
    {
      hide T.WithLow, T.WithHigh;
      if queueSel != 0 || ready != 0 || (offset == T.QUEUE_SIZE && value != SIZE) {
        return -1;
      }
      if offset == T.QUEUE_SIZE {
        size := value;
      } else if offset == T.QUEUE_DESC_LOW {
        descAddr := T.WithLow(descAddr, value);
      } else if offset == T.QUEUE_DESC_HIGH {
        descAddr := T.WithHigh(descAddr, value);
      } else if offset == T.QUEUE_DRIVER_LOW {
        driverAddr := T.WithLow(driverAddr, value);
      } else if offset == T.QUEUE_DRIVER_HIGH {
        driverAddr := T.WithHigh(driverAddr, value);
      } else if offset == T.QUEUE_DEVICE_LOW {
        deviceAddr := T.WithLow(deviceAddr, value);
      } else {
        deviceAddr := T.WithHigh(deviceAddr, value);
      }
      result := 0;
    }

    lemma LastAvailFits()
      requires Valid()
      ensures lastAvail < 0x1_0000
    {
    }

    method Reset()
      modifies this
      ensures Regs() == T.RESET
    {
      status, deviceFeaturesSel, driverFeaturesSel, driverFeatures0, driverFeatures1 := 0, 0, 0, 0, 0;
      interruptStatus, queueSel, size, ready := 0, 0, 0, 0;
      lastAvail, descAddr, driverAddr, deviceAddr := 0, 0, 0, 0;
    }

    /** A nonzero Status write: only supported bits, none dropped, and each gate in order. */
    method WriteStatus(value: T.Word) returns (result: int)
      requires value != 0 && Valid()
      modifies this`status
      ensures T.WriteStatus(old(Regs()), value) == if result == 0 then T.Accepted(Regs()) else T.Rejected
      ensures result == 0 || (result == -1 && status == old(status))
    {
      var before := status;
      var accepted := value;
      if value > T.SUPPORTED || !T.Includes(value, before) {
        return -1;
      }
      if T.Has(value, T.FEATURES_OK) && !T.Has(before, T.FEATURES_OK) {
        if !T.Has(value, T.ACKNOWLEDGE) || !T.Has(value, T.DRIVER)
           || driverFeatures0 != 0 || driverFeatures1 != T.VERSION_1_MASK {
          accepted := accepted - 8;
        }
      }
      if T.Has(value, T.DRIVER_OK) && !T.Has(before, T.DRIVER_OK) {
        if !T.Has(before, T.FEATURES_OK) || ready == 0 || !T.FixedLayout(Regs()) {
          return -1;
        }
      }
      status := accepted;
      result := 0;
    }

    /** The readable side: identification, feature words, and the state a driver may see. */
    function ReadRegister(offset: nat): (r: Readout)
      reads this
      ensures r.Readable? <==> offset in {T.MAGIC_VALUE, T.VERSION, T.DEVICE_ID, T.VENDOR_ID, T.DEVICE_FEATURES,
                                      T.STATUS, T.QUEUE_SIZE_MAX, T.QUEUE_READY, T.INTERRUPT_STATUS}
    {
      if offset == T.MAGIC_VALUE then Readable(0x74726976)
      else if offset == T.VERSION then Readable(2)
      else if offset == T.DEVICE_ID then Readable(4)
      else if offset == T.VENDOR_ID then Readable(0x4f4f5053)
      else if offset == T.DEVICE_FEATURES then
        Readable(if deviceFeaturesSel == T.VERSION_1_WORD then T.VERSION_1_MASK else 0)
      else if offset == T.STATUS then Readable(status)
      else if offset == T.QUEUE_SIZE_MAX then Readable(if queueSel == 0 then SIZE else 0)
      else if offset == T.QUEUE_READY then Readable(if queueSel == 0 then ready else 0)
      else if offset == T.INTERRUPT_STATUS then Readable(interruptStatus)
      else Unreadable
    }

    /** Identification spells what the standard and the experiment assign; state registers show their state. */
    lemma ReadsShowState()
      ensures ReadRegister(T.MAGIC_VALUE)
           == Readable('v' as int + 'i' as int * 0x100 + 'r' as int * 0x1_0000 + 't' as int * 0x100_0000)
      ensures ReadRegister(T.VERSION) == Readable(2) && ReadRegister(T.DEVICE_ID) == Readable(4)
      ensures ReadRegister(T.VENDOR_ID)
           == Readable('S' as int + 'P' as int * 0x100 + 'O' as int * 0x1_0000 + 'O' as int * 0x100_0000)
      ensures ReadRegister(T.STATUS) == Readable(status)
      ensures ReadRegister(T.INTERRUPT_STATUS) == Readable(interruptStatus)
      ensures queueSel == 0 ==>
                ReadRegister(T.QUEUE_READY) == Readable(ready) && ReadRegister(T.QUEUE_SIZE_MAX) == Readable(SIZE)
      ensures queueSel != 0 ==>
                ReadRegister(T.QUEUE_READY) == Readable(0) && ReadRegister(T.QUEUE_SIZE_MAX) == Readable(0)
    {
    }

    /** The feature words offer exactly feature 32, VERSION_1. */
    lemma OffersOneFeature(feature: nat)
      requires deviceFeaturesSel == feature / 32
      ensures var r := ReadRegister(T.DEVICE_FEATURES);
              r.Readable? && (FeatureBit(r.value, feature % 32) <==> feature == 32)
    {
    }

    /** One access the guest makes: aligned, four bytes wide and inside the window, or refused. */
    method DoMmio(mem: array<byte>, source: EntropySource, address: nat, len: nat, isWrite: bool, data: T.Word)
      returns (result: int, value: T.Word)
      requires Valid() && mem.Length == MEM_SIZE && EventuallyAnswers(source.replies)
      modifies this, mem, source`calls
      ensures Valid()
      ensures !T.InWindow(address, len) ==> result == -1 && Regs() == old(Regs()) && mem[..] == old(mem[..])
      ensures !isWrite ==> Regs() == old(Regs()) && mem[..] == old(mem[..])
      ensures T.InWindow(address, len) && !isWrite ==>
                var r := old(ReadRegister(address - T.MMIO_BASE));
                if r.Readable? then result == 0 && value == r.value else result == -1
      ensures T.InWindow(address, len) && isWrite ==>
                match T.Write(old(Regs()), address - T.MMIO_BASE, data)
                case Rejected => result == -1 && Regs() == old(Regs()) && mem[..] == old(mem[..])
                case Accepted(r) => result == 0 && Regs() == r && mem[..] == old(mem[..])
                case Doorbell => T.DeviceStep(old(Regs()), Regs()) && Agree(old(mem[..]), mem[..], 0, USED + 2)
                                 && NotificationWrites(old(mem[..]), mem[..], old(lastAvail))
                                 && (result == 0 ==> lastAvail == AvailIdx(old(mem[..])))
      ensures T.InWindow(address, len) && isWrite && address != T.MMIO_BASE + T.QUEUE_NOTIFY ==>
                Lawful(old(Regs()), Regs(), address - T.MMIO_BASE, data, result)
    {
      hide T.Handshake, T.Write, T.DeviceStep, Agree, NotificationWrites, Lawful;
      result, value := -1, data;
      if address < T.MMIO_BASE || address > T.MMIO_BASE + T.MMIO_SIZE - 4 || len != 4 || address % 4 != 0 {
        return;
      }
      var offset := address - T.MMIO_BASE;
      if isWrite {
        result := WriteRegister(mem, source, offset, data);
        return;
      }
      var r := ReadRegister(offset);
      if r.Readable? {
        result, value := 0, r.value;
      }
    }
  }
}
