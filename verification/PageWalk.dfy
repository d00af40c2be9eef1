/** The page-table sampler of a virtual memory area, and the summary of what it sampled. */
module PageWalk {
  import opened Numbers
  import opened Paging

  const MAX_PAGES: nat := 512

  // ---- translation -----------------------------------------------------------------------

  predicate Present(e: Word) { e % 2 == 1 }

  predicate Dirty(e: Word) { Bit6(e) }

  /** Large pages exist at levels 2 and 3; bit 7 means something else elsewhere. */
  predicate LeafEntry(e: Word, level: nat) {
    level == 1 || ((level == 2 || level == 3) && Bit7(e))
  }

  /** Where a translation ends: at a leaf entry (its level, address and value), or without one. */
  datatype Mapping = Unmapped | Swapped | Leaf(level: nat, at: nat, entry: Word)

  function Translate(m: Mem, directMap: Word, table: Word, va: nat, level: nat): (r: Mapping)
    requires 1 <= level <= 4
    ensures r.Leaf? ==> 1 <= r.level <= 3 && r.level <= level && r.entry == Read(m, r.at) && Present(r.entry)
    decreases level
  {
    var at := EntryAt(table, va, level);
    var e := Read(m, at);
    if !Present(e) then (if level == 1 && e != 0 then Swapped else Unmapped)
    else if LeafEntry(e, level) then Leaf(level, at, e)
    else Translate(m, directMap, TableAt(e, directMap), va, level - 1)
  }

  // ---- the sampler -----------------------------------------------------------------------

  datatype PageState = PageNone | PagePte | PageSwap | PageHugePmd | PageHugePud

  function StateOf(x: Mapping): PageState {
    match x
    case Unmapped => PageNone
    case Swapped => PageSwap
    case Leaf(level, _, _) => if level == 1 then PagePte else if level == 2 then PageHugePmd else PageHugePud
  }

  predicate DirtyLeaf(x: Mapping) {
    x.Leaf? && Dirty(x.entry)
  }

  function TargetOf(x: Mapping, va: nat): nat {
    if x.Leaf? && 1 <= x.level <= 3 then LeafFrame(x.entry, va, x.level) else 0
  }

  /** What the walk of one page-table tree is given. */
  datatype Roots = Roots(m: Mem, pgd: Word, directMap: Word)

  function PageAt(w: Roots, va: nat): Mapping {
    Translate(w.m, w.directMap, w.pgd, va, 4)
  }

  /** The pages of an area, in 32 bits, and at most 512 of them. */
  function PagesToScan(start: Word, end: Word): (r: nat)
    requires start <= end
    ensures r <= MAX_PAGES
  {
    var pages := (end - start) / PAGE % 0x1_0000_0000;
    if pages > MAX_PAGES then MAX_PAGES else pages
  }

  /** The bytes after which a page count held in 32 bits starts again. */
  const TURN: nat := 0x1000_0000_0000

  /** Page i of an area lies in it whole. */
  predicate WholePage(start: nat, end: nat, i: nat) {
    start + (i + 1) * PAGE <= end
  }

  /** n pages are the whole pages among the first 512 of an area. */
  ghost predicate FirstPages(start: nat, end: nat, n: nat) {
    forall i: nat :: i < n <==> i < MAX_PAGES && WholePage(start, end, i)
  }

  /**
   What is scanned of an area: its first 512 whole pages; of an area of 2^44 bytes or more, those of what is
   left after dropping that many bytes as often as possible.
   */
  ghost predicate Scans(start: nat, end: nat, n: nat) {
    && (start <= end < start + TURN ==> FirstPages(start, end, n))
    && exists turns: nat :: start <= end - turns * TURN < start + TURN && FirstPages(start, end - turns * TURN, n)
  }

  lemma ScansFirstPages(start: Word, end: Word)
    requires start <= end
    ensures Scans(start, end, PagesToScan(start, end))
  {
    var bytes := end - start;
    var turns, left := bytes / TURN, bytes % TURN;
    Remainder(bytes / PAGE, turns, left / PAGE, 0x1_0000_0000);
    assert left == end - start - turns * TURN;
    assert FirstPages(start, end - turns * TURN, PagesToScan(start, end));
  }

  /** A page's target is the frame the processor uses exactly when the leaf is aligned; base pages always are. */
  lemma TargetIsTrue(x: Mapping, va: nat)
    requires x.Leaf? && 1 <= x.level <= 3
    ensures TargetOf(x, va) == TrueFrame(x.entry, va, x.level) <==> FrameOf(x.entry) % PagesIn(x.level) == 0
    ensures x.level == 1 ==> TargetOf(x, va) == TrueFrame(x.entry, va, 1)
  {
    LeafFrameIsTrueIffAligned(x.entry, va, x.level);
    FourKilobyteLeaf(x.entry, va);
  }

  lemma PageInside(start: Word, end: Word, i: nat)
    requires start <= end && i < PagesToScan(start, end)
    ensures start + i * PAGE < end
  {
    var pages := (end - start) / PAGE;
    assert i < pages;
  }

  /** One sampled area: its bounds, and per page a state, a dirty bit and a target frame. */
  class Vma {
    const start: Word
    const end: Word
    var scanned: nat
    const states: array<PageState>
    const dirty: array<bool>
    const targets: array<nat>

    constructor (start: Word, end: Word)
      ensures Valid() && fresh(states) && fresh(dirty) && fresh(targets)
      ensures this.start == start && this.end == end
    {
      this.start, this.end, scanned := start, end, 0;
      states := new PageState[MAX_PAGES](_ => PageNone);
      dirty := new bool[MAX_PAGES](_ => false);
      targets := new nat[MAX_PAGES](_ => 0);
    }

    ghost predicate Valid()
      reads this
    {
      && states.Length == MAX_PAGES && dirty.Length == MAX_PAGES && targets.Length == MAX_PAGES
      && scanned <= MAX_PAGES
    }

    /** Page i of the area is recorded as x. */
    ghost predicate Recorded(i: nat, x: Mapping)
      reads this, states, dirty, targets
      requires Valid() && i < MAX_PAGES
    {
      states[i] == StateOf(x) && dirty[i] == DirtyLeaf(x) && targets[i] == TargetOf(x, start + i * PAGE)
    }

    method SetPage(index: nat, state: PageState, target: nat, isDirty: bool)
      requires Valid() && index < scanned
      modifies states, dirty, targets
      ensures states[..] == old(states[..])[index := state]
      ensures dirty[..] == old(dirty[..])[index := old(dirty[index]) || isDirty]
      ensures targets[..] == old(targets[..])[index := target]
    {
      states[index] := state;
      if isDirty {
        dirty[index] := true;
      }
      targets[index] := target;
    }

    /** The unrolled walk of one page: it records what the translation finds. */
    method WalkPage(w: Roots, index: nat)
      requires Valid() && index < scanned && !dirty[index]
      modifies states, dirty, targets
      ensures Recorded(index, PageAt(w, start + index * PAGE))
      ensures forall i :: 0 <= i < MAX_PAGES && i != index ==>
                states[i] == old(states[i]) && dirty[i] == old(dirty[i]) && targets[i] == old(targets[i])
    {
      hide EntryAt, TableAt, Read, Translate, LeafFrame;
      var va := start + index * PAGE;
      var table := w.pgd;
      Descend(w.m, w.directMap, table, va, 4);
      var entry := Read(w.m, EntryAt(table, va, 4));
      if !Present(entry) {
        SetPage(index, PageNone, 0, false);
        return;
      }
      table := TableAt(entry, w.directMap);
      Descend(w.m, w.directMap, table, va, 3);
      entry := Read(w.m, EntryAt(table, va, 3));
      if !Present(entry) {
        SetPage(index, PageNone, 0, false);
        return;
      }
      if Bit7(entry) {
        SetPage(index, PageHugePud, LeafFrame(entry, va, 3), Dirty(entry));
        return;
      }
      table := TableAt(entry, w.directMap);
      Descend(w.m, w.directMap, table, va, 2);
      entry := Read(w.m, EntryAt(table, va, 2));
      if !Present(entry) {
        SetPage(index, PageNone, 0, false);
        return;
      }
      if Bit7(entry) {
        SetPage(index, PageHugePmd, LeafFrame(entry, va, 2), Dirty(entry));
        return;
      }
      table := TableAt(entry, w.directMap);
      Descend(w.m, w.directMap, table, va, 1);
      entry := Read(w.m, EntryAt(table, va, 1));
      if Present(entry) {
        SmallLeaf(entry, va);
        SetPage(index, PagePte, FrameOf(entry), Dirty(entry));
        return;
      }
      if entry != 0 {
        SetPage(index, PageSwap, 0, false);
        return;
      }
      SetPage(index, PageNone, 0, false);
    }

    /** Sample every page of the area, at most 512 of them, over whatever an earlier event left. */
    method Sample(w: Roots)
      requires Valid() && start <= end
      modifies this`scanned, states, dirty, targets
      ensures Valid()
      ensures Scans(start, end, scanned) && scanned == PagesToScan(start, end)
      ensures forall i :: 0 <= i < scanned ==> Recorded(i, PageAt(w, start + i * PAGE))
    {
      hide Translate, LeafFrame, PagesToScan, Scans;
      var pages := PagesToScan(start, end);
      ScansFirstPages(start, end);
      scanned := pages;
      for k := 0 to MAX_PAGES
        invariant scanned == pages
        invariant forall i :: 0 <= i < k ==> !dirty[i]
      {
        dirty[k] := false;
      }
      for index := 0 to pages
        invariant scanned == pages && Valid()
        invariant forall i :: 0 <= i < index ==> Recorded(i, PageAt(w, start + i * PAGE))
        invariant forall i :: index <= i < MAX_PAGES ==> !dirty[i]
      {
        PageInside(start, end, index);
        if start + index * PAGE >= end {
          break;
        }
        WalkPage(w, index);
      }
    }
  }

  /** One level of the translation. */
  lemma Descend(m: Mem, directMap: Word, table: Word, va: nat, level: nat)
    requires 1 <= level <= 4
    ensures var at := EntryAt(table, va, level);
            var e := Read(m, at);
            Translate(m, directMap, table, va, level) ==
              if !Present(e) then (if level == 1 && e != 0 then Swapped else Unmapped)
              else if LeafEntry(e, level) then Leaf(level, at, e)
              else Translate(m, directMap, TableAt(e, directMap), va, level - 1)
  {
    hide EntryAt, TableAt, Read;
  }

  lemma SmallLeaf(e: Word, va: nat)
    ensures LeafFrame(e, va, 1) == FrameOf(e)
  {
    FourKilobyteLeaf(e, va);
  }

  /** Where an entry keeps what: present in bit 0, dirty in bit 6, the page-size bit 7, the frame from bit 12. */
  lemma EntryFields(present: bool, dirty: bool, large: bool, frame: nat, level: nat)
    requires frame < 0x100_0000_0000 && 1 <= level <= 4
    ensures var e := One(present) + 64 * One(dirty) + 128 * One(large) + PAGE * frame;
            && e < WORD && Present(e) == present && Dirty(e) == dirty && FrameOf(e) == frame
            && (LeafEntry(e, level) <==> level == 1 || (large && level != 4))
  {
    hide FrameOf, Bit6, Bit7;
    FieldsOf(One(present) + 64 * One(dirty) + 128 * One(large), frame, 0);
  }
}
