/**
 The register side of the virtio-mmio transport: what one 32-bit write does to the
 device's registers, and what every sequence of writes therefore maintains
 (Virtio 1.2 sections 2.1, 3.1 and 4.2.2).
 */
module Transport {
  import opened GuestLayout

  const MMIO_BASE: nat := 0x1000_0000
  const MMIO_SIZE: nat := 0x1000

  const MAGIC_VALUE: nat := 0x000
  const VERSION: nat := 0x004
  const DEVICE_ID: nat := 0x008
  const VENDOR_ID: nat := 0x00c
  const DEVICE_FEATURES: nat := 0x010
  const DEVICE_FEATURES_SEL: nat := 0x014
  const DRIVER_FEATURES: nat := 0x020
  const DRIVER_FEATURES_SEL: nat := 0x024
  const QUEUE_SEL: nat := 0x030
  const QUEUE_SIZE_MAX: nat := 0x034
  const QUEUE_SIZE: nat := 0x038
  const QUEUE_READY: nat := 0x044
  const QUEUE_NOTIFY: nat := 0x050
  const INTERRUPT_STATUS: nat := 0x060
  const INTERRUPT_ACK: nat := 0x064
  const STATUS: nat := 0x070
  const QUEUE_DESC_LOW: nat := 0x080
  const QUEUE_DESC_HIGH: nat := 0x084
  const QUEUE_DRIVER_LOW: nat := 0x090
  const QUEUE_DRIVER_HIGH: nat := 0x094
  const QUEUE_DEVICE_LOW: nat := 0x0a0
  const QUEUE_DEVICE_HIGH: nat := 0x0a4

  /** A 32-bit register value. */
  type Word = x: nat | x < 0x1_0000_0000

  // Bit numbers of the device status register, and the two combinations that matter.
  const ACKNOWLEDGE: nat := 0
  const DRIVER: nat := 1
  const DRIVER_OK: nat := 2
  const FEATURES_OK: nat := 3
  const SUPPORTED: nat := 0x0f
  const OPERATIONAL: nat := 0x0f
  const INT_VRING: nat := 0x01
  const VERSION_1_MASK: nat := 0x01
  const VERSION_1_WORD: nat := 1

  const WORD: nat := 0x1_0000_0000

  /** Bit number bit (0 to 3) of a status value. */
  predicate Has(value: nat, bit: nat) {
    match bit
    case 0 => value % 2 == 1
    case 1 => value / 2 % 2 == 1
    case 2 => value / 4 % 2 == 1
    case _ => value / 8 % 2 == 1
  }

  /** value & old == old, for values within the supported bits. */
  predicate Includes(value: nat, before: nat) {
    && (Has(before, ACKNOWLEDGE) ==> Has(value, ACKNOWLEDGE)) && (Has(before, DRIVER) ==> Has(value, DRIVER))
    && (Has(before, DRIVER_OK) ==> Has(value, DRIVER_OK)) && (Has(before, FEATURES_OK) ==> Has(value, FEATURES_OK))
  }

  datatype Regs = Regs(
    deviceFeaturesSel: Word,
    driverFeaturesSel: Word,
    driverFeatures0: Word,
    driverFeatures1: Word,
    status: Word,
    interruptStatus: Word,
    queueSel: Word,
    size: Word,
    ready: Word,
    lastAvail: nat,
    descAddr: nat,
    driverAddr: nat,
    deviceAddr: nat)

  const RESET := Regs(0, 0, 0, 0, 0, 0, 0, 0, 0, 0, 0, 0, 0)

  /** Replace the low, or the high, 32 bits of a 64-bit address. */
  function WithLow(address: nat, value: Word): nat {
    address / WORD * WORD + value
  }

  function WithHigh(address: nat, value: Word): nat {
    address % WORD + value * WORD
  }

  predicate FixedLayout(r: Regs) {
    r.size == SIZE && r.descAddr == DESC && r.driverAddr == AVAIL && r.deviceAddr == USED
  }

  /** Queue zero is selected and not yet live, so its layout may still change. */
  predicate Configurable(r: Regs) {
    r.queueSel == 0 && r.ready == 0
  }

  /** The status a nonzero Status write leaves behind: FEATURES_OK only sticks for
      exactly VERSION_1 on an acknowledged device. */
  function AcceptedStatus(r: Regs, value: Word): Word {
    if Has(value, FEATURES_OK) && !Has(r.status, FEATURES_OK)
       && !(Has(value, ACKNOWLEDGE) && Has(value, DRIVER)
            && r.driverFeatures0 == 0 && r.driverFeatures1 == VERSION_1_MASK)
    then value - 8 else value
  }

  predicate StatusAllowed(r: Regs, value: Word) {
    && value <= SUPPORTED && r.status <= SUPPORTED && Includes(value, r.status)
    && (Has(value, DRIVER_OK) && !Has(r.status, DRIVER_OK) ==>
          Has(r.status, FEATURES_OK) && r.ready != 0 && FixedLayout(r))
  }

  datatype Effect = Rejected | Accepted(regs: Regs) | Doorbell

  function Guarded(ok: bool, regs: Regs): Effect {
    if ok then Accepted(regs) else Rejected
  }

  function WriteFeatures(r: Regs, offset: nat, value: Word): Effect {
    if offset == DEVICE_FEATURES_SEL then Accepted(r.(deviceFeaturesSel := value))
    else if offset == DRIVER_FEATURES_SEL then
      Guarded(!Has(r.status, FEATURES_OK), r.(driverFeaturesSel := value))
    else if offset == DRIVER_FEATURES && r.driverFeaturesSel == 0 then
      Guarded(!Has(r.status, FEATURES_OK), r.(driverFeatures0 := value))
    else if offset == DRIVER_FEATURES && r.driverFeaturesSel == 1 then
      Guarded(!Has(r.status, FEATURES_OK), r.(driverFeatures1 := value))
    else Rejected
  }

  function WriteLayout(r: Regs, offset: nat, value: Word): Effect {
    if !Configurable(r) then Rejected
    else if offset == QUEUE_SIZE then Guarded(value == SIZE, r.(size := value))
    else if offset == QUEUE_DESC_LOW then Accepted(r.(descAddr := WithLow(r.descAddr, value)))
    else if offset == QUEUE_DESC_HIGH then Accepted(r.(descAddr := WithHigh(r.descAddr, value)))
    else if offset == QUEUE_DRIVER_LOW then Accepted(r.(driverAddr := WithLow(r.driverAddr, value)))
    else if offset == QUEUE_DRIVER_HIGH then Accepted(r.(driverAddr := WithHigh(r.driverAddr, value)))
    else if offset == QUEUE_DEVICE_LOW then Accepted(r.(deviceAddr := WithLow(r.deviceAddr, value)))
    else if offset == QUEUE_DEVICE_HIGH then Accepted(r.(deviceAddr := WithHigh(r.deviceAddr, value)))
    else Rejected
  }

  function WriteReady(r: Regs, value: Word): Effect {
    Guarded(r.queueSel == 0 && (value == 0 || (value == 1 && FixedLayout(r))), r.(ready := value))
  }

  function WriteStatus(r: Regs, value: Word): Effect {
    if value == 0 then Accepted(RESET)
    else Guarded(StatusAllowed(r, value), r.(status := AcceptedStatus(r, value)))
  }

  /** The register table: the effect of writing value at offset. */
  function Write(r: Regs, offset: nat, value: Word): Effect {
    if offset in {DEVICE_FEATURES_SEL, DRIVER_FEATURES_SEL, DRIVER_FEATURES} then WriteFeatures(r, offset, value)
    else if offset == QUEUE_SEL then Accepted(r.(queueSel := value))
    else if offset in {QUEUE_SIZE, QUEUE_DESC_LOW, QUEUE_DESC_HIGH, QUEUE_DRIVER_LOW, QUEUE_DRIVER_HIGH,
                       QUEUE_DEVICE_LOW, QUEUE_DEVICE_HIGH} then WriteLayout(r, offset, value)
    else if offset == QUEUE_READY then WriteReady(r, value)
    else if offset == QUEUE_NOTIFY then
      if value == 0 && r.status == OPERATIONAL && r.ready != 0 then Doorbell else Rejected
    else if offset == INTERRUPT_ACK then
      Guarded(value <= INT_VRING,
              r.(interruptStatus := if value == 1 then r.interruptStatus / 2 * 2 else r.interruptStatus))
    else if offset == STATUS then WriteStatus(r, value)
    else Rejected
  }

  // ---- what the table promises, register by register ---------------------------------

  function LowHalf(address: nat): nat { address % WORD }

  function HighHalf(address: nat): nat { address / WORD }

  /** One half of an address was written: it reads back, and the other half is kept. */
  predicate LowWritten(before: nat, after: nat, value: Word) {
    LowHalf(after) == value && HighHalf(after) == HighHalf(before)
  }

  predicate HighWritten(before: nat, after: nat, value: Word) {
    HighHalf(after) == value && LowHalf(after) == LowHalf(before)
  }

  /** An acknowledgement names no bit but the first, clears the bits it names, and nothing else. */
  predicate Acknowledged(r: Regs, r': Regs, value: Word, ok: bool) {
    && (ok <==> value == 0 || value == 1)
    && r' == r.(interruptStatus := r'.interruptStatus)
    && r'.interruptStatus / 2 == r.interruptStatus / 2
    && (if ok && value == 1 then r'.interruptStatus % 2 == 0 else r'.interruptStatus == r.interruptStatus)
  }

  /** The device is acknowledged by a driver that asks for VERSION_1 and nothing else. */
  predicate Negotiable(r: Regs, value: Word) {
    Has(value, ACKNOWLEDGE) && Has(value, DRIVER) && r.driverFeatures0 == 0 && r.driverFeatures1 == 1
  }

  /** When a register other than the doorbell takes a value. */
  predicate Admissible(r: Regs, offset: nat, value: Word) {
    || offset == DEVICE_FEATURES_SEL || offset == QUEUE_SEL
    || (offset == DRIVER_FEATURES_SEL && !Has(r.status, FEATURES_OK))
    || (offset == DRIVER_FEATURES && !Has(r.status, FEATURES_OK) && r.driverFeaturesSel < 2)
    || (r.queueSel == 0 && r.ready == 0
        && (offset in {QUEUE_DESC_LOW, QUEUE_DESC_HIGH, QUEUE_DRIVER_LOW, QUEUE_DRIVER_HIGH,
                       QUEUE_DEVICE_LOW, QUEUE_DEVICE_HIGH}
            || (offset == QUEUE_SIZE && value == 8)))
    || (offset == QUEUE_READY && r.queueSel == 0 && (value == 0 || (value == 1 && FixedLayout(r))))
    || (offset == INTERRUPT_ACK && value <= 1)
    || (offset == STATUS && value == 0)
    || (offset == STATUS && value < 16 && (forall bit :: 0 <= bit < 4 && Has(r.status, bit) ==> Has(value, bit))
        && (Has(value, DRIVER_OK) && !Has(r.status, DRIVER_OK) ==>
              Has(r.status, FEATURES_OK) && r.ready != 0 && FixedLayout(r)))
  }

  /** What an accepted value does to the register it is written to. */
  predicate TookEffect(r: Regs, r': Regs, offset: nat, value: Word) {
    && (offset == DEVICE_FEATURES_SEL ==> r'.deviceFeaturesSel == value)
    && (offset == DRIVER_FEATURES_SEL ==> r'.driverFeaturesSel == value)
    && (offset == DRIVER_FEATURES ==>
          if r.driverFeaturesSel == 0 then r'.driverFeatures0 == value && r'.driverFeatures1 == r.driverFeatures1
          else r'.driverFeatures1 == value && r'.driverFeatures0 == r.driverFeatures0)
    && (offset == QUEUE_SEL ==> r'.queueSel == value)
    && (offset == QUEUE_SIZE ==> r'.size == value)
    && (offset == QUEUE_READY ==> r'.ready == value)
    && (offset == QUEUE_DESC_LOW ==> LowWritten(r.descAddr, r'.descAddr, value))
    && (offset == QUEUE_DESC_HIGH ==> HighWritten(r.descAddr, r'.descAddr, value))
    && (offset == QUEUE_DRIVER_LOW ==> LowWritten(r.driverAddr, r'.driverAddr, value))
    && (offset == QUEUE_DRIVER_HIGH ==> HighWritten(r.driverAddr, r'.driverAddr, value))
    && (offset == QUEUE_DEVICE_LOW ==> LowWritten(r.deviceAddr, r'.deviceAddr, value))
    && (offset == QUEUE_DEVICE_HIGH ==> HighWritten(r.deviceAddr, r'.deviceAddr, value))
    && (offset == STATUS && value == 0 ==> r' == Regs(0, 0, 0, 0, 0, 0, 0, 0, 0, 0, 0, 0, 0))
    && (offset == STATUS && value != 0 ==>
          && r'.status < 16
          && (forall bit :: 0 <= bit < 4 && bit != FEATURES_OK ==> (Has(r'.status, bit) <==> Has(value, bit)))
          && (Has(r'.status, FEATURES_OK) <==>
                Has(value, FEATURES_OK) && (Has(r.status, FEATURES_OK) || Negotiable(r, value))))
  }

  /** Every register a write does not name stays as it is; a reset names them all. */
  predicate OthersKept(r: Regs, r': Regs, offset: nat, value: Word) {
    (offset == STATUS && value == 0) ||
    (&& (offset == DEVICE_FEATURES_SEL || r'.deviceFeaturesSel == r.deviceFeaturesSel)
     && (offset == DRIVER_FEATURES_SEL || r'.driverFeaturesSel == r.driverFeaturesSel)
     && (offset == DRIVER_FEATURES
         || (r'.driverFeatures0 == r.driverFeatures0 && r'.driverFeatures1 == r.driverFeatures1))
     && (offset == STATUS || r'.status == r.status)
     && (offset == INTERRUPT_ACK || r'.interruptStatus == r.interruptStatus)
     && (offset == QUEUE_SEL || r'.queueSel == r.queueSel)
     && (offset == QUEUE_SIZE || r'.size == r.size)
     && (offset == QUEUE_READY || r'.ready == r.ready)
     && (offset in {QUEUE_DESC_LOW, QUEUE_DESC_HIGH} || r'.descAddr == r.descAddr)
     && (offset in {QUEUE_DRIVER_LOW, QUEUE_DRIVER_HIGH} || r'.driverAddr == r.driverAddr)
     && (offset in {QUEUE_DEVICE_LOW, QUEUE_DEVICE_HIGH} || r'.deviceAddr == r.deviceAddr)
     && r'.lastAvail == r.lastAvail)
  }

  lemma HalvesReadBack(address: nat, value: Word)
    ensures LowWritten(address, WithLow(address, value), value)
    ensures HighWritten(address, WithHigh(address, value), value)
  {
  }

  lemma BitByBit(r: Regs, value: Word)
    requires r.status < 16 && value < 16
    ensures Includes(value, r.status) <==> forall bit :: 0 <= bit < 4 && Has(r.status, bit) ==> Has(value, bit)
  {
    if Includes(value, r.status) {
      forall bit | 0 <= bit < 4 && Has(r.status, bit) ensures Has(value, bit) {
        assert bit == 0 || bit == 1 || bit == 2 || bit == 3;
      }
    }
  }

  lemma StatusIsLawful(r: Regs, value: Word)
    requires Handshake(r) && value != 0 && StatusAllowed(r, value)
    ensures TookEffect(r, r.(status := AcceptedStatus(r, value)), STATUS, value)
  {
    hide LowWritten, HighWritten;
  }

  /** The register table does what each register promises, and refuses what it does not take. */
  lemma WriteIsLawful(r: Regs, offset: nat, value: Word)
    requires Handshake(r) && offset != QUEUE_NOTIFY
    ensures var w := Write(r, offset, value);
            && !w.Doorbell?
            && (w.Accepted? <==> Admissible(r, offset, value))
            && (w.Accepted? ==> TookEffect(r, w.regs, offset, value) && OthersKept(r, w.regs, offset, value))
            && (offset == INTERRUPT_ACK ==>
                  Acknowledged(r, if w.Accepted? then w.regs else r, value, w.Accepted?))
  {
    hide WithLow, WithHigh, LowWritten, HighWritten, Has, AcceptedStatus, Includes;
    HalvesReadBack(r.descAddr, value);
    HalvesReadBack(r.driverAddr, value);
    HalvesReadBack(r.deviceAddr, value);
    if offset == STATUS && value != 0 {
      if value < 16 {
        BitByBit(r, value);
      }
      if StatusAllowed(r, value) {
        StatusIsLawful(r, value);
      }
    }
  }

  /** A notification of queue zero is taken exactly from an operational driver with a live queue. */
  lemma DoorbellOpensWhen(r: Regs, value: Word)
    requires Handshake(r)
    ensures var w := Write(r, QUEUE_NOTIFY, value);
            if value == 0 && r.ready == 1 && (forall bit :: 0 <= bit < 4 ==> Has(r.status, bit)) then w == Doorbell
            else w == Rejected
  {
    hide Handshake;
    OperationalBits(r);
    ReadyIsOne(r);
  }

  lemma OperationalBits(r: Regs)
    requires Handshake(r)
    ensures r.status == OPERATIONAL <==> forall bit :: 0 <= bit < 4 ==> Has(r.status, bit)
  {
    if forall bit :: 0 <= bit < 4 ==> Has(r.status, bit) {
      assert Has(r.status, 0) && Has(r.status, 1) && Has(r.status, 2) && Has(r.status, 3);
    }
  }

  lemma ReadyIsOne(r: Regs)
    requires Handshake(r)
    ensures r.ready != 0 <==> r.ready == 1
  {
  }

  /** A four-byte aligned access that stays inside the device's page. */
  predicate InWindow(address: nat, len: nat) {
    MMIO_BASE <= address && address + len <= MMIO_BASE + MMIO_SIZE && len == 4 && address % 4 == 0
  }

  /** What the initialization sequence guarantees at all times. */
  predicate Handshake(r: Regs) {
    && r.status <= SUPPORTED
    && (Has(r.status, DRIVER_OK) ==> Has(r.status, FEATURES_OK))
    && (Has(r.status, FEATURES_OK) ==>
          Has(r.status, ACKNOWLEDGE) && Has(r.status, DRIVER)
          && r.driverFeatures0 == 0 && r.driverFeatures1 == VERSION_1_MASK)
    && (r.ready == 0 || (r.ready == 1 && FixedLayout(r)))
    && r.lastAvail < 0x1_0000
  }

  lemma StatusWriteKeeps(r: Regs, value: Word)
    requires Handshake(r) && value != 0 && StatusAllowed(r, value)
    ensures Handshake(r.(status := AcceptedStatus(r, value)))
    ensures Includes(AcceptedStatus(r, value), r.status)
  {
  }

  lemma ResetHandshake()
    ensures Handshake(RESET)
  {
  }

  lemma WriteKeepsHandshake(r: Regs, offset: nat, value: Word)
    requires Handshake(r) && Write(r, offset, value).Accepted?
    ensures Handshake(Write(r, offset, value).regs)
    ensures Includes(Write(r, offset, value).regs.status, r.status) || Write(r, offset, value).regs == RESET
  {
    hide WithLow, WithHigh, AcceptedStatus;
    if offset == STATUS && value != 0 {
      StatusWriteKeeps(r, value);
    }
  }

  /** A doorbell leaves every register alone but the backend's own progress index, and
      the backend thread may raise the interrupt bit; both are steps of the device. */
  predicate DeviceStep(r: Regs, r': Regs) {
    && r'.lastAvail < 0x1_0000
    && (r'.interruptStatus == r.interruptStatus || r'.interruptStatus == r.interruptStatus / 2 * 2 + INT_VRING)
    && r' == r.(lastAvail := r'.lastAvail, interruptStatus := r'.interruptStatus)
  }

  ghost predicate Linked(trace: seq<Regs>, i: nat)
    requires i + 1 < |trace|
  {
    || (exists offset, value :: Write(trace[i], offset, value) == Accepted(trace[i + 1]))
    || DeviceStep(trace[i], trace[i + 1])
  }

  /** The register states a sequence of accesses passes through, starting zeroed. */
  ghost predicate Behaviour(trace: seq<Regs>)
  {
    trace != [] && trace[0] == RESET && forall i: nat :: i + 1 < |trace| ==> Linked(trace, i)
  }

  lemma StepKeeps(r: Regs, r': Regs, trace: seq<Regs>, i: nat)
    requires i + 1 < |trace| && Linked(trace, i) && r == trace[i] && r' == trace[i + 1]
    requires Handshake(r)
    ensures Handshake(r')
    ensures Includes(r'.status, r.status) || r' == RESET
  {
    if !DeviceStep(r, r') {
      var offset, value :| Write(r, offset, value) == Accepted(r');
      WriteKeepsHandshake(r, offset, value);
    }
  }

  lemma {:induction false} HandshakeAt(trace: seq<Regs>, i: nat)
    requires Behaviour(trace) && i < |trace|
    ensures Handshake(trace[i])
  {
    hide Write, Handshake;
    if i == 0 {
      ResetHandshake();
    } else {
      HandshakeAt(trace, i - 1);
      StepKeeps(trace[i - 1], trace[i], trace, i - 1);
    }
  }

  /** In every state of every access sequence: DRIVER_OK needs FEATURES_OK, which needs an
      acknowledged device with exactly VERSION_1 negotiated, and a ready queue has eight
      entries at the three fixed ring addresses. */
  lemma HandshakeAlways(trace: seq<Regs>, r: Regs)
    requires Behaviour(trace) && r in trace
    ensures Has(r.status, DRIVER_OK) ==> Has(r.status, FEATURES_OK)
    ensures Has(r.status, FEATURES_OK) ==>
              Has(r.status, ACKNOWLEDGE) && Has(r.status, DRIVER)
              && r.driverFeatures0 == 0 && r.driverFeatures1 == VERSION_1_MASK
    ensures r.ready != 0 ==> FixedLayout(r)
  {
    hide Behaviour;
    var i :| 0 <= i < |trace| && trace[i] == r;
    HandshakeAt(trace, i);
  }

  /** Between two resets the status register only gains bits. */
  lemma {:induction false} StatusOnlyGrows(trace: seq<Regs>, i: nat, j: nat)
    requires Behaviour(trace) && i <= j < |trace|
    requires forall k :: i < k <= j ==> trace[k] != RESET
    ensures Includes(trace[j].status, trace[i].status)
    decreases j
  {
    hide Write, Handshake;
    if i < j {
      StatusOnlyGrows(trace, i, j - 1);
      HandshakeAt(trace, j - 1);
      StepKeeps(trace[j - 1], trace[j], trace, j - 1);
    }
  }

  /** A doorbell only ever rings on a queue whose rings and buffers lie in guest RAM. */
  lemma DoorbellStaysInGuestRam(trace: seq<Regs>, r: Regs, offset: nat, value: Word)
    requires Behaviour(trace) && r in trace && Write(r, offset, value) == Doorbell
    ensures r.size == SIZE
    ensures r.descAddr + 16 * 8 <= r.driverAddr
    ensures r.driverAddr + 4 + 2 * 8 <= r.deviceAddr
    ensures r.deviceAddr + 4 + 8 * 8 <= MEM_SIZE
    ensures Has(r.status, FEATURES_OK)
  {
    hide Behaviour;
    HandshakeAlways(trace, r);
  }

  function Then(sofar: Effect, offset: nat, value: Word): Effect {
    if sofar.Accepted? then Write(sofar.regs, offset, value) else sofar
  }

  /** The driver's side of section 3.1: reset, acknowledge, negotiate VERSION_1 ... */
  function Negotiate(r: Regs): Effect {
    var reset := Write(r, STATUS, 0);
    var found := Then(Then(reset, STATUS, 1), STATUS, 3);
    Then(Then(Then(found, DRIVER_FEATURES_SEL, 1), DRIVER_FEATURES, VERSION_1_MASK), STATUS, 11)
  }

  /** ... then lay out queue zero and go live. */
  function GoLive(negotiated: Effect): Effect {
    var sized := Then(Then(negotiated, QUEUE_SEL, 0), QUEUE_SIZE, SIZE);
    var placed := Then(Then(Then(sized, QUEUE_DESC_LOW, DESC), QUEUE_DRIVER_LOW, AVAIL),
                       QUEUE_DEVICE_LOW, USED);
    Then(Then(placed, QUEUE_READY, 1), STATUS, OPERATIONAL)
  }

  lemma NegotiateWorks(r: Regs)
    ensures Negotiate(r) == Accepted(RESET.(status := 11, driverFeaturesSel := 1, driverFeatures1 := 1))
  {
    assert Write(RESET, STATUS, 1) == Accepted(RESET.(status := 1));
    assert Write(RESET.(status := 1), STATUS, 3) == Accepted(RESET.(status := 3));
    var chosen := RESET.(status := 3, driverFeaturesSel := 1);
    assert Write(chosen.(driverFeatures1 := 1), STATUS, 11) == Accepted(chosen.(status := 11, driverFeatures1 := 1));
  }

  lemma GoLiveWorks(n: Regs)
    requires n == RESET.(status := 11, driverFeaturesSel := 1, driverFeatures1 := 1)
    ensures GoLive(Accepted(n)).Accepted? && GoLive(Accepted(n)).regs.ready == 1
    ensures GoLive(Accepted(n)).regs.status == OPERATIONAL
  {
    var sized := n.(size := SIZE);
    assert Write(n.(queueSel := 0), QUEUE_SIZE, SIZE) == Accepted(sized);
    var a := sized.(descAddr := DESC);
    assert Write(sized, QUEUE_DESC_LOW, DESC) == Accepted(a);
    var b := a.(driverAddr := AVAIL);
    assert Write(a, QUEUE_DRIVER_LOW, AVAIL) == Accepted(b);
    var c := b.(deviceAddr := USED);
    assert Write(b, QUEUE_DEVICE_LOW, USED) == Accepted(c);
    assert Write(c, QUEUE_READY, 1) == Accepted(c.(ready := 1));
    assert Write(c.(ready := 1), STATUS, OPERATIONAL) == Accepted(c.(ready := 1, status := OPERATIONAL));
  }

  /** From any register state that sequence is accepted write by write and opens the doorbell. */
  lemma InitSequenceOpensDoorbell(r: Regs)
    ensures GoLive(Negotiate(r)).Accepted?
    ensures Then(GoLive(Negotiate(r)), QUEUE_NOTIFY, 0) == Doorbell
  {
    hide Negotiate, GoLive;
    NegotiateWorks(r);
    GoLiveWorks(Negotiate(r).regs);
  }
}
