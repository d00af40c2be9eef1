/** Counting the folios of a page cache. */
module CacheCount {
  import opened XArray

  /** What is read of a folio: its flag bits, and the order byte of a large one. */
  datatype Folio = Folio(dirty: bool, writeback: bool, lru: bool, active: bool, referenced: bool,
                         workingset: bool, unevictable: bool, large: bool, orderByte: nat)

  /** The bucket a folio's order falls in; the last one takes all larger orders. */
  function Bucket(f: Folio): (r: nat)
    ensures r < ORDERS
    ensures !f.large ==> r == 0
    ensures f.large && f.orderByte < 9 ==> r == f.orderByte
    ensures f.large && 9 <= f.orderByte < 256 ==> r == 9
  {
    var order := if f.large then f.orderByte % 256 else 0;
    if order > ORDERS - 1 then ORDERS - 1 else order
  }

  predicate Clean(f: Folio) { !f.dirty && !f.writeback }

  // ---- how many folios have a property -----------------------------------------------------

  function Number(fs: seq<Folio>, p: Folio -> bool): nat {
    if fs == [] then 0 else Number(fs[..|fs| - 1], p) + (if p(fs[|fs| - 1]) then 1 else 0)
  }

  lemma NumberMore(fs: seq<Folio>, f: Folio, p: Folio -> bool)
    ensures Number(fs + [f], p) == Number(fs, p) + (if p(f) then 1 else 0)
  {
    assert (fs + [f])[..|fs|] == fs;
  }

  // The properties that are counted, one name each.
  function Dirty(): Folio -> bool { (f: Folio) => f.dirty }
  function Writeback(): Folio -> bool { (f: Folio) => f.writeback }
  function IsClean(): Folio -> bool { (f: Folio) => Clean(f) }
  function NotClean(): Folio -> bool { (f: Folio) => f.dirty || f.writeback }
  function Lru(): Folio -> bool { (f: Folio) => f.lru }
  function Active(): Folio -> bool { (f: Folio) => f.active }
  function Referenced(): Folio -> bool { (f: Folio) => f.referenced }
  function Workingset(): Folio -> bool { (f: Folio) => f.workingset }
  function Unevictable(): Folio -> bool { (f: Folio) => f.unevictable }
  function InBucket(k: nat): Folio -> bool { (f: Folio) => Bucket(f) == k }
  function DirtyInBucket(k: nat): Folio -> bool { (f: Folio) => f.dirty && Bucket(f) == k }

  // ---- the record --------------------------------------------------------------------------

  /** The order buckets of fs. */
  ghost predicate OrderTallies(orders: array<nat>, orderDirty: array<nat>, fs: seq<Folio>)
    reads orders, orderDirty
    requires orders.Length == ORDERS && orderDirty.Length == ORDERS
  {
    forall k :: 0 <= k < ORDERS ==>
      orders[k] == Number(fs, InBucket(k)) && orderDirty[k] == Number(fs, DirtyInBucket(k))
  }

  class CacheRecord {
    var folios: nat
    var clean: nat
    var dirty: nat
    var writeback: nat
    var lru: nat
    var active: nat
    var referenced: nat
    var workingset: nat
    var unevictable: nat
    const orders: array<nat>
    const orderDirty: array<nat>

    constructor ()
      ensures Tallies([]) && fresh(orders) && fresh(orderDirty)
    {
      folios, clean, dirty, writeback, lru, active, referenced, workingset, unevictable := 0, 0, 0, 0, 0, 0, 0, 0, 0;
      orders := new nat[ORDERS](_ => 0);
      orderDirty := new nat[ORDERS](_ => 0);
    }

    ghost predicate Shaped()
      reads this
    {
      orders.Length == ORDERS && orderDirty.Length == ORDERS && orders != orderDirty
    }

    /** Every counter is the number of folios of fs with its property. */
    ghost predicate Tallies(fs: seq<Folio>)
      reads this, orders, orderDirty
    {
      Shaped() && FlagTallies(fs) && OrderTallies(orders, orderDirty, fs)
    }

    ghost predicate FlagTallies(fs: seq<Folio>)
      reads this
    {
      && folios == |fs|
      && clean == Number(fs, IsClean()) && dirty == Number(fs, Dirty()) && writeback == Number(fs, Writeback())
      && lru == Number(fs, Lru()) && active == Number(fs, Active()) && referenced == Number(fs, Referenced())
      && workingset == Number(fs, Workingset()) && unevictable == Number(fs, Unevictable())
    }

    method Count(f: Folio, ghost fs: seq<Folio>)
      requires Tallies(fs)
      modifies this, orders, orderDirty
      ensures Tallies(fs + [f])
    {
      hide Number, OrderTallies;
      CountOrder(f, fs);
      folios := folios + 1;
      if f.dirty {
        dirty := dirty + 1;
      }
      if f.writeback {
        writeback := writeback + 1;
      }
      if !f.dirty && !f.writeback {
        clean := clean + 1;
      }
      NumberMore(fs, f, IsClean());
      NumberMore(fs, f, Dirty());
      NumberMore(fs, f, Writeback());
      CountAge(f, fs);
    }

    /** The order buckets. */
    method CountOrder(f: Folio, ghost fs: seq<Folio>)
      requires Shaped() && OrderTallies(orders, orderDirty, fs)
      modifies orders, orderDirty
      ensures OrderTallies(orders, orderDirty, fs + [f])
    {
      hide Number, Bucket;
      var order := Bucket(f);
      orders[order] := orders[order] + 1;
      if f.dirty {
        orderDirty[order] := orderDirty[order] + 1;
      }
      forall k | 0 <= k < ORDERS
        ensures orders[k] == Number(fs + [f], InBucket(k)) && orderDirty[k] == Number(fs + [f], DirtyInBucket(k))
      {
        NumberMore(fs, f, InBucket(k));
        NumberMore(fs, f, DirtyInBucket(k));
      }
    }

    /** The flags reclaim keeps. */
    method CountAge(f: Folio, ghost fs: seq<Folio>)
      requires lru == Number(fs, Lru()) && active == Number(fs, Active()) && referenced == Number(fs, Referenced())
      requires workingset == Number(fs, Workingset()) && unevictable == Number(fs, Unevictable())
      modifies this`lru, this`active, this`referenced, this`workingset, this`unevictable
      ensures lru == Number(fs + [f], Lru()) && active == Number(fs + [f], Active())
      ensures referenced == Number(fs + [f], Referenced())
      ensures workingset == Number(fs + [f], Workingset()) && unevictable == Number(fs + [f], Unevictable())
    {
      hide Number;
      NumberMore(fs, f, Lru());
      NumberMore(fs, f, Active());
      NumberMore(fs, f, Referenced());
      NumberMore(fs, f, Workingset());
      NumberMore(fs, f, Unevictable());
      if f.lru {
        lru := lru + 1;
      }
      if f.active {
        active := active + 1;
      }
      if f.referenced {
        referenced := referenced + 1;
      }
      if f.workingset {
        workingset := workingset + 1;
      }
      if f.unevictable {
        unevictable := unevictable + 1;
      }
    }
  }

  // ---- the scan ----------------------------------------------------------------------------

  /** The folios taken from the first n slots, in order. */
  ghost function Visited(h: Heap, head: nat, n: nat): seq<nat>
  {
    if n == 0 then []
    else
      var e := Taken(h, head, n - 1);
      Visited(h, head, n - 1) + (if e == 0 then [] else [e])
  }

  function Look(flags: map<nat, Folio>, e: nat): Folio {
    if e in flags then flags[e] else Folio(false, false, false, false, false, false, false, false, 0)
  }

  ghost function LookAll(flags: map<nat, Folio>, es: seq<nat>): seq<Folio> {
    seq(|es|, i requires 0 <= i < |es| => Look(flags, es[i]))
  }

  method ScanCache(h: Heap, head: nat, flags: map<nat, Folio>, record: CacheRecord)
    requires record.Tallies([])
    modifies record, record.orders, record.orderDirty
    ensures record.Tallies(LookAll(flags, Visited(h, head, SLOTS)))
  {
    hide Taken, Look, Number;
    assert LookAll(flags, Visited(h, head, 0)) == [];
    for slot := 0 to SLOTS
      invariant record.Tallies(LookAll(flags, Visited(h, head, slot)))
    {
      var e := Taken(h, head, slot);
      ghost var before := Visited(h, head, slot);
      if e != 0 {
        record.Count(Look(flags, e), LookAll(flags, before));
        assert LookAll(flags, before + [e]) == LookAll(flags, before) + [Look(flags, e)];
      } else {
        assert before + [] == before;
      }
    }
  }

  // ---- what the counts mean ------------------------------------------------------------------

  lemma {:induction false} VisitedTaken(h: Heap, head: nat, n: nat, e: nat)
    ensures e in Visited(h, head, n) <==> e != 0 && exists s: nat :: s < n && Taken(h, head, s) == e
  {
    hide Taken;
    if n > 0 {
      VisitedTaken(h, head, n - 1, e);
    }
  }

  predicate NoRepeats(s: seq<nat>) {
    forall i, j :: 0 <= i < j < |s| ==> s[i] != s[j]
  }

  lemma {:induction false} VisitedNoRepeats(h: Heap, head: nat, n: nat)
    requires Sound(h, head) && n <= SLOTS
    ensures NoRepeats(Visited(h, head, n))
  {
    hide Taken, Sound, Load, Home;
    if n > 0 {
      VisitedNoRepeats(h, head, n - 1);
      var e := Taken(h, head, n - 1);
      if e != 0 && e in Visited(h, head, n - 1) {
        VisitedTaken(h, head, n - 1, e);
        var s: nat :| s < n - 1 && Taken(h, head, s) == e;
        TakenTwice(h, head, s, n - 1);
        assert false;
      }
    }
  }

  lemma TakenTwice(h: Heap, head: nat, s: nat, s': nat)
    requires Sound(h, head) && s < SLOTS && s' < SLOTS
    requires Taken(h, head, s) == Taken(h, head, s') != 0
    ensures s == s'
  {
    hide Taken, Load, Home;
    TakenAtHome(h, head, s);
    TakenAtHome(h, head, s');
  }

  /** The scan visits every folio the page cache holds, each exactly once. */
  lemma EachFolioOnce(h: Heap, head: nat)
    requires Sound(h, head)
    ensures NoRepeats(Visited(h, head, SLOTS))
    ensures forall e :: e in Visited(h, head, SLOTS) <==> e in Stored(h, head)
    ensures |Visited(h, head, SLOTS)| == |Stored(h, head)|
  {
    hide Taken, Load, Home, Slot, Shift, Visited;
    VisitedNoRepeats(h, head, SLOTS);
    forall e ensures e in Visited(h, head, SLOTS) <==> e in Stored(h, head) {
      VisitedTaken(h, head, SLOTS, e);
      if e != 0 && exists s: nat :: s < SLOTS && Taken(h, head, s) == e {
        var s: nat :| s < SLOTS && Taken(h, head, s) == e;
        TakenAtHome(h, head, s);
      }
      if e in Stored(h, head) {
        var i: nat :| i < SLOTS && IsFolio(Load(h, head, i)) && Load(h, head, i) == e;
        StoredIsTaken(h, head, i);
      }
    }
    SizeOfList(Visited(h, head, SLOTS), Stored(h, head));
  }

  lemma {:induction false} SizeOfList(s: seq<nat>, all: set<nat>)
    requires NoRepeats(s) && forall e :: e in s <==> e in all
    ensures |s| == |all|
  {
    if s != [] {
      var n := |s| - 1;
      SizeOfList(s[..n], all - {s[n]});
    }
  }

  function Sum(s: seq<nat>): nat {
    if s == [] then 0 else Sum(s[..|s| - 1]) + s[|s| - 1]
  }

  /** The sizes of the buckets below k. */
  ghost function Buckets(fs: seq<Folio>, k: nat): seq<nat> {
    seq(k, i requires 0 <= i < k => Number(fs, InBucket(i)))
  }

  lemma {:induction false} BucketsBelow(fs: seq<Folio>, k: nat)
    ensures Sum(Buckets(fs, k)) == Number(fs, (f: Folio) => Bucket(f) < k)
  {
    if k == 0 {
      NumberNone(fs, (f: Folio) => Bucket(f) < 0);
    } else {
      BucketsBelow(fs, k - 1);
      assert Buckets(fs, k)[..k - 1] == Buckets(fs, k - 1);
      NumberSplit(fs, (f: Folio) => Bucket(f) < k - 1, InBucket(k - 1), (f: Folio) => Bucket(f) < k);
    }
  }

  lemma {:induction false} NumberNone(fs: seq<Folio>, p: Folio -> bool)
    requires forall f :: !p(f)
    ensures Number(fs, p) == 0
  {
    if fs != [] {
      NumberNone(fs[..|fs| - 1], p);
    }
  }

  lemma {:induction false} NumberAll(fs: seq<Folio>, p: Folio -> bool)
    requires forall f :: p(f)
    ensures Number(fs, p) == |fs|
  {
    if fs != [] {
      NumberAll(fs[..|fs| - 1], p);
    }
  }

  lemma {:induction false} NumberSplit(fs: seq<Folio>, p: Folio -> bool, q: Folio -> bool, r: Folio -> bool)
    requires forall f :: !(p(f) && q(f)) && (r(f) <==> p(f) || q(f))
    ensures Number(fs, r) == Number(fs, p) + Number(fs, q)
  {
    if fs != [] {
      NumberSplit(fs[..|fs| - 1], p, q, r);
    }
  }

  /** The order buckets add up to the folios, and clean is all but those dirty or under writeback. */
  lemma CountsAddUp(fs: seq<Folio>)
    ensures Sum(Buckets(fs, ORDERS)) == |fs|
    ensures Number(fs, IsClean()) + Number(fs, NotClean()) == |fs|
  {
    BucketsBelow(fs, ORDERS);
    NumberAll(fs, (f: Folio) => Bucket(f) < ORDERS);
    NumberSplit(fs, IsClean(), NotClean(), (f: Folio) => true);
    NumberAll(fs, (f: Folio) => true);
  }

  // ---- end to end ------------------------------------------------------------------------------

  ghost function Picked(all: set<nat>, flags: map<nat, Folio>, p: Folio -> bool): set<nat> {
    set e | e in all && p(Look(flags, e))
  }

  /** The stored folios with a property. */
  ghost function Having(h: Heap, head: nat, flags: map<nat, Folio>, p: Folio -> bool): set<nat> {
    Picked(Stored(h, head), flags, p)
  }

  lemma {:induction false} NumberOfSet(es: seq<nat>, all: set<nat>, flags: map<nat, Folio>, p: Folio -> bool)
    requires NoRepeats(es) && forall e :: e in es <==> e in all
    ensures Number(LookAll(flags, es), p) == |Picked(all, flags, p)|
  {
    hide Look, Number, LookAll, NoRepeats, Picked;
    LookNothing(flags, p);
    if es == [] {
      assert all == {};
    } else {
      var n := |es| - 1;
      LastOfList(es);
      NumberOfSet(es[..n], all - {es[n]}, flags, p);
      LookMore(flags, es[..n], es[n]);
      NumberMore(LookAll(flags, es[..n]), Look(flags, es[n]), p);
      PickLast(all, es[n], flags, p);
    }
  }

  lemma LookNothing(flags: map<nat, Folio>, p: Folio -> bool)
    ensures Number(LookAll(flags, []), p) == 0 && Picked({}, flags, p) == {}
  {
  }

  lemma LastOfList(es: seq<nat>)
    requires es != [] && NoRepeats(es)
    ensures var n := |es| - 1;
            && es == es[..n] + [es[n]] && NoRepeats(es[..n])
            && forall e :: e in es[..n] <==> e in es && e != es[n]
  {
    var n := |es| - 1;
    forall e ensures e in es[..n] <==> e in es && e != es[n] {
      if e in es && e != es[n] {
        var i :| 0 <= i < |es| && es[i] == e;
        assert es[..n][i] == e;
      }
    }
  }

  lemma LookMore(flags: map<nat, Folio>, es: seq<nat>, e: nat)
    ensures LookAll(flags, es + [e]) == LookAll(flags, es) + [Look(flags, e)]
  {
    hide Look;
  }

  lemma PickLast(all: set<nat>, e: nat, flags: map<nat, Folio>, p: Folio -> bool)
    requires e in all
    ensures |Picked(all, flags, p)| == |Picked(all - {e}, flags, p)| + (if p(Look(flags, e)) then 1 else 0)
  {
    hide Look;
    assert Picked(all, flags, p) == Picked(all - {e}, flags, p) + (if p(Look(flags, e)) then {e} else {});
  }

  lemma NumberIsHaving(h: Heap, head: nat, flags: map<nat, Folio>, p: Folio -> bool)
    requires Sound(h, head)
    ensures Number(LookAll(flags, Visited(h, head, SLOTS)), p) == |Having(h, head, flags, p)|
  {
    hide Visited, Stored, Sound, Look, Number, LookAll, Picked, NoRepeats;
    EachFolioOnce(h, head);
    NumberOfSet(Visited(h, head, SLOTS), Stored(h, head), flags, p);
  }

  /** The record's counters, as they are reported. */
  datatype Totals = Totals(folios: nat, clean: nat, dirty: nat, writeback: nat, lru: nat, active: nat,
                           referenced: nat, workingset: nat, unevictable: nat,
                           orders: seq<nat>, orderDirty: seq<nat>)

  /** Every total is the number of stored folios it is about. */
  ghost predicate Reports(h: Heap, head: nat, flags: map<nat, Folio>, t: Totals) {
    && t.folios == |Stored(h, head)|
    && t.clean == |Having(h, head, flags, IsClean())| && t.dirty == |Having(h, head, flags, Dirty())|
    && t.writeback == |Having(h, head, flags, Writeback())| && t.lru == |Having(h, head, flags, Lru())|
    && t.active == |Having(h, head, flags, Active())| && t.referenced == |Having(h, head, flags, Referenced())|
    && t.workingset == |Having(h, head, flags, Workingset())|
    && t.unevictable == |Having(h, head, flags, Unevictable())|
    && |t.orders| == |t.orderDirty| == ORDERS
    && forall k :: 0 <= k < ORDERS ==>
         t.orders[k] == |Having(h, head, flags, InBucket(k))|
         && t.orderDirty[k] == |Having(h, head, flags, DirtyInBucket(k))|
  }

  /**
   The whole scan of a page cache: the totals count its stored folios, the order buckets add up to them, and
   the clean ones are all but those dirty or under writeback.
   */
  method CountPageCache(h: Heap, head: nat, flags: map<nat, Folio>) returns (t: Totals)
    ensures Sound(h, head) ==> Reports(h, head, flags, t)
    ensures Sum(t.orders) == t.folios
    ensures Sound(h, head) ==> t.clean + |Having(h, head, flags, NotClean())| == t.folios
  {
    hide Visited, Stored, Sound, Look, Number, LookAll, Having;
    var r := new CacheRecord();
    ScanCache(h, head, flags, r);
    t := Totals(r.folios, r.clean, r.dirty, r.writeback, r.lru, r.active, r.referenced, r.workingset, r.unevictable,
                r.orders[..], r.orderDirty[..]);
    ghost var fs := LookAll(flags, Visited(h, head, SLOTS));
    CountsAddUp(fs);
    assert t.orders == Buckets(fs, ORDERS);
    if Sound(h, head) {
      forall p ensures Number(fs, p) == |Having(h, head, flags, p)| { NumberIsHaving(h, head, flags, p); }
      VisitedSize(h, head, flags);
    }
  }

  lemma VisitedSize(h: Heap, head: nat, flags: map<nat, Folio>)
    requires Sound(h, head)
    ensures |LookAll(flags, Visited(h, head, SLOTS))| == |Stored(h, head)|
  {
    hide Visited, Stored, Sound;
    EachFolioOnce(h, head);
  }
}
