/** The counts of entries are the numbers of distinct page-table entries the sample touched. */
module PageEntries {
  import opened Paging
  import opened PageWalk
  import opened PageSummary

  function Va(start: nat, i: nat): nat {
    start + i * PAGE
  }

  function Page(w: Roots, start: nat, i: nat): Mapping {
    PageAt(w, Va(start, i))
  }

  /** The arrays hold the sample of a page-aligned area, through a page-aligned direct map. */
  ghost predicate Sampled(w: Roots, v: View) {
    && Shaped(v) && |v.states| <= MAX_PAGES && v.start % PAGE == 0 && w.directMap % PAGE == 0
    && forall i :: 0 <= i < |v.states| ==>
         v.states[i] == StateOf(Page(w, v.start, i)) && v.dirty[i] == DirtyLeaf(Page(w, v.start, i))
  }

  /** The addresses of the distinct leaf entries of a level behind the first n pages. */
  ghost function Entries(w: Roots, start: nat, n: nat, level: nat): set<nat> {
    set i: nat | i < n && Page(w, start, i).Leaf? && Page(w, start, i).level == level :: Page(w, start, i).at
  }

  /** The distinct leaf entries, of any level, whose dirty bit is set. */
  ghost function DirtyEntries(w: Roots, start: nat, n: nat): set<(nat, nat)> {
    set i: nat | i < n && DirtyLeaf(Page(w, start, i)) :: (Page(w, start, i).level, Page(w, start, i).at)
  }

  // ---- addresses and entries -------------------------------------------------------------

  lemma {:induction false} SameAbove(va: nat, va': nat, low: nat, level: nat)
    requires 1 <= low <= level <= 4 && Region(va, low) == Region(va', low)
    ensures Region(va, level) == Region(va', level)
  {
    if level > low {
      SameAbove(va, va', low, level - 1);
    }
  }

  /** Addresses under the same entry of a level share that entry, if it is a leaf. */
  lemma {:induction false} SameLeaf(m: Mem, directMap: Word, table: Word, va: nat, va': nat, level: nat, low: nat)
    requires 1 <= low <= level <= 4 && Region(va, low) == Region(va', low)
    requires var x := Translate(m, directMap, table, va, level); x.Leaf? && x.level == low
    ensures Translate(m, directMap, table, va', level) == Translate(m, directMap, table, va, level)
    decreases level
  {
    hide Region, Read, TableAt, Translate;
    Descend(m, directMap, table, va, level);
    Descend(m, directMap, table, va', level);
    SameAbove(va, va', low, level);
    var at := EntryAt(table, va, level);
    assert at == EntryAt(table, va', level);
    var e := Read(m, at);
    if !LeafEntry(e, level) {
      SameLeaf(m, directMap, TableAt(e, directMap), va, va', level - 1, low);
    }
  }

  /** The address of a leaf entry tells the index it was reached by. */
  lemma {:induction false} LeafTellsIndex(m: Mem, directMap: Word, e: Word, va: nat, level: nat)
    requires 1 <= level <= 3 && directMap % PAGE == 0
    ensures var x := Translate(m, directMap, TableAt(e, directMap), va, level);
            x.Leaf? ==> x.at % PAGE == Index(va, x.level) * 8
    decreases level
  {
    hide Region, Read, TableAt, Translate, EntryAt, Index;
    var table := TableAt(e, directMap);
    Descend(m, directMap, table, va, level);
    EntryTellsIndex(e, directMap, va, level);
    var entry := Read(m, EntryAt(table, va, level));
    if Present(entry) && !LeafEntry(entry, level) {
      LeafTellsIndex(m, directMap, entry, va, level - 1);
    }
  }

  lemma PageTellsIndex(w: Roots, va: nat)
    requires w.directMap % PAGE == 0
    ensures var x := PageAt(w, va); x.Leaf? ==> x.at % PAGE == Index(va, x.level) * 8
  {
    hide Region, Read, TableAt, Translate, EntryAt, Index;
    Descend(w.m, w.directMap, w.pgd, va, 4);
    var entry := Read(w.m, EntryAt(w.pgd, va, 4));
    LeafTellsIndex(w.m, w.directMap, entry, va, 3);
  }

  // ---- which pages share an entry ---------------------------------------------------------

  /** Two sampled pages with the same index at a level lie under the same entry of it. */
  lemma SameIndex(p: nat, k: nat, level: nat)
    requires 0 < k < MAX_PAGES && k <= p && 1 <= level <= 3
    requires Index(p * PAGE, level) == Index((p - k) * PAGE, level)
    ensures level > 1 && Region(p * PAGE, level) == Region((p - 1) * PAGE, level)
  {
    hide Region;
    RegionsNear(p, k, level);
    if level > 1 {
      Squeezed(Region(p * PAGE, level), Region((p - k) * PAGE, level), Region((p - 1) * PAGE, level));
    }
  }

  lemma RegionsNear(p: nat, k: nat, level: nat)
    requires 0 < k < MAX_PAGES && k <= p && 1 <= level <= 3
    ensures var a, b, c := Region(p * PAGE, level), Region((p - k) * PAGE, level), Region((p - 1) * PAGE, level);
            if level == 1 then a % ENTRIES != b % ENTRIES else (b == a || b == a - 1) && b <= c <= a
  {
    hide Region;
    RegionOfPage(p);
    RegionOfPage(p - k);
    RegionOfPage(p - 1);
    match level
    case 1 => NotSameSlot(p, k);
    case 2 => NearPages(p, k);
    case _ => NearTables(p, k);
  }

  lemma NotSameSlot(p: nat, k: nat)
    requires 0 < k < 512 && k <= p
    ensures (p - k) % 512 != p % 512
  {
  }

  lemma Squeezed(a: nat, b: nat, c: nat)
    requires (b == a || b == a - 1) && b <= c <= a && a % ENTRIES == b % ENTRIES
    ensures a == c
  {
  }

  lemma RegionOfPage(p: nat)
    ensures Region(p * PAGE, 1) == p
    ensures Region(p * PAGE, 2) == p / 512
    ensures Region(p * PAGE, 3) == p / 512 / 512
  {
    assert p * PAGE / PAGE == p;
    assert Region(p * PAGE, 2) == Region(p * PAGE, 1) / 512;
    assert Region(p * PAGE, 3) == Region(p * PAGE, 2) / 512;
  }

  lemma NearPages(p: nat, k: nat)
    requires 0 < k < 512 && k <= p
    ensures (p - k) / 512 == p / 512 || (p - k) / 512 == p / 512 - 1
    ensures (p - k) / 512 <= (p - 1) / 512 <= p / 512
  {
  }

  lemma NearTables(p: nat, k: nat)
    requires 0 < k < 512 && k <= p
    ensures (p - k) / 512 / 512 == p / 512 / 512 || (p - k) / 512 / 512 == p / 512 / 512 - 1
    ensures (p - k) / 512 / 512 <= (p - 1) / 512 / 512 <= p / 512 / 512
  {
    NearPages(p, k);
  }

  /** Inside a large leaf, the page before lies under the same entry. */
  lemma PageBefore(p: nat, level: nat)
    requires 0 < p && 1 <= level <= 3
    ensures Region(p * PAGE, level) == Region((p - 1) * PAGE, level) <==> p * PAGE % Span(level) != 0
  {
    hide Region, Span;
    RegionOfPage(p);
    RegionOfPage(p - 1);
    PageBoundary(p);
    OffsetZero(p);
  }

  lemma OffsetZero(p: nat)
    ensures p * PAGE % Span(1) == 0
    ensures p * PAGE % Span(2) == 0 <==> p % 512 == 0
    ensures p * PAGE % Span(3) == 0 <==> p % 0x4_0000 == 0
  {
    Remainder(p * PAGE, p, 0, 0x1000);
    Remainder(p * PAGE, p / 512, p % 512 * PAGE, 0x20_0000);
    Remainder(p * PAGE, p / 0x4_0000, p % 0x4_0000 * PAGE, 0x4000_0000);
  }

  lemma PageBoundary(p: nat)
    requires 0 < p
    ensures p / 512 == (p - 1) / 512 <==> p % 512 != 0
    ensures p / 512 / 512 == (p - 1) / 512 / 512 <==> p % 0x4_0000 != 0
  {
    OneBack(p);
    if p >= 512 {
      OneBack(p / 512);
    }
    TwoLevels(p);
  }

  lemma OneBack(p: nat)
    requires 0 < p
    ensures (p - 1) / 512 == if p % 512 == 0 then p / 512 - 1 else p / 512
  {
  }

  lemma TwoLevels(p: nat)
    ensures p % 0x4_0000 == 0 <==> p % 512 == 0 && p / 512 % 512 == 0
  {
    var q, r := p / 512, p % 512;
    Remainder(p, q / 512, q % 512 * 512 + r, 0x4_0000);
  }

  // ---- counting ---------------------------------------------------------------------------

  /** An earlier page has the same leaf entry. */
  ghost predicate SeenBefore(w: Roots, v: View, i: nat)
    requires Page(w, v.start, i).Leaf?
  {
    exists j: nat :: j < i && SameEntry(Page(w, v.start, j), Page(w, v.start, i))
  }

  predicate SameEntry(x: Mapping, y: Mapping) {
    x.Leaf? && y.Leaf? && x.level == y.level && x.at == y.at
  }

  /** A page's leaf entry was seen before exactly when the page continues a large leaf. */
  lemma SeenIffContinued(w: Roots, v: View, i: nat)
    requires Sampled(w, v) && i < |v.states| && Page(w, v.start, i).Leaf?
    ensures var level := Page(w, v.start, i).level;
            SeenBefore(w, v, i) <==> level > 1 && i > 0 && Va(v.start, i) % Span(level) != 0
    ensures SeenBefore(w, v, i) ==> Page(w, v.start, i - 1) == Page(w, v.start, i)
  {
    hide PageAt, Region, Span;
    var x := Page(w, v.start, i);
    LeafLevel(w, Va(v.start, i));
    var p := v.start / PAGE + i;
    assert Va(v.start, i) == p * PAGE;
    if i > 0 {
      assert Va(v.start, i - 1) == (p - 1) * PAGE;
      PageBefore(p, x.level);
      if Va(v.start, i) % Span(x.level) != 0 {
        SamePage(w, Va(v.start, i), Va(v.start, i - 1));
        assert SameEntry(Page(w, v.start, i - 1), x);
        SmallPages(p);
      }
    }
    if j: nat :| j < i && SameEntry(Page(w, v.start, j), x) {
      assert Va(v.start, j) == (p - (i - j)) * PAGE;
      PageTellsIndex(w, Va(v.start, i));
      PageTellsIndex(w, Va(v.start, j));
      SameIndex(p, i - j, x.level);
    }
  }

  lemma LeafLevel(w: Roots, va: nat)
    ensures PageAt(w, va).Leaf? ==> 1 <= PageAt(w, va).level <= 3
  {
  }

  lemma SmallPages(p: nat)
    ensures p * PAGE % Span(1) == 0
  {
    OffsetZero(p);
  }

  lemma SamePage(w: Roots, va: nat, va': nat)
    requires var x := PageAt(w, va); x.Leaf? && 1 <= x.level <= 3 && Region(va, x.level) == Region(va', x.level)
    ensures PageAt(w, va') == PageAt(w, va)
  {
    SameLeaf(w.m, w.directMap, w.pgd, va, va', 4, PageAt(w, va).level);
  }

  /** So the summary's first slots are exactly the pages whose entry is new. */
  lemma FirstIsNew(w: Roots, v: View, i: nat)
    requires Sampled(w, v) && i < |v.states| && Page(w, v.start, i).Leaf?
    ensures CountedLeaf(v, i) <==> !SeenBefore(w, v, i)
    ensures v.states[i] == PageHugePmd ==> (FirstSlot(v, i, 2) <==> !SeenBefore(w, v, i))
    ensures v.states[i] == PageHugePud ==> (FirstSlot(v, i, 3) <==> !SeenBefore(w, v, i))
  {
    hide PageAt, Span;
    SeenIffContinued(w, v, i);
    LeafLevel(w, Va(v.start, i));
  }

  lemma {:induction false} EntriesCounted(w: Roots, v: View, n: nat, level: nat, state: PageState)
    requires Sampled(w, v) && n <= |v.states|
    requires (level == 2 && state == PageHugePmd) || (level == 3 && state == PageHugePud)
    ensures |Slots(n, First(v, state, level))| == |Entries(w, v.start, n, level)|
  {
    hide Slots, Page, Span, Entries, SeenBefore, FirstSlot, CountedLeaf;
    if n == 0 {
      EntriesStep(w, v.start, 0, level);
      SlotsNone(First(v, state, level));
    } else {
      var i := n - 1;
      EntriesStep(w, v.start, i, level);
      EntriesCounted(w, v, i, level, state);
      SlotsStep(i, First(v, state, level));
      var x := Page(w, v.start, i);
      StateTells(w, v, i);
      if x.Leaf? && x.level == level {
        FirstIsNew(w, v, i);
        SeenIsListed(w, v, i);
        var before := Entries(w, v.start, i, level);
        assert x.at in before ==> before + {x.at} == before;
      }
    }
  }

  lemma EntriesStep(w: Roots, start: nat, i: nat, level: nat)
    ensures Entries(w, start, 0, level) == {}
    ensures var x := Page(w, start, i);
            var more := if x.Leaf? && x.level == level then {x.at} else {};
            Entries(w, start, i + 1, level) == Entries(w, start, i, level) + more
  {
    hide Page;
  }

  lemma SlotsNone(p: nat -> bool)
    ensures |Slots(0, p)| == 0
  {
  }

  lemma StateTells(w: Roots, v: View, i: nat)
    requires Sampled(w, v) && i < |v.states|
    ensures var x := Page(w, v.start, i);
            && (v.states[i] == PageHugePmd <==> x.Leaf? && x.level == 2)
            && (v.states[i] == PageHugePud <==> x.Leaf? && x.level == 3)
            && (v.states[i] == PagePte <==> x.Leaf? && x.level == 1)
            && (v.dirty[i] <==> DirtyLeaf(x))
  {
    hide Translate;
    LeafLevel(w, Va(v.start, i));
  }

  lemma SeenIsListed(w: Roots, v: View, i: nat)
    requires Page(w, v.start, i).Leaf?
    ensures SeenBefore(w, v, i) <==> Page(w, v.start, i).at in Entries(w, v.start, i, Page(w, v.start, i).level)
  {
    hide Page;
    var x := Page(w, v.start, i);
    if x.at in Entries(w, v.start, i, x.level) {
      var j: nat :| j < i && Page(w, v.start, j).Leaf?
                    && Page(w, v.start, j).level == x.level && Page(w, v.start, j).at == x.at;
      assert SameEntry(Page(w, v.start, j), x);
    }
  }

  lemma SameEntrySameDirt(w: Roots, v: View, i: nat, j: nat)
    requires SameEntry(Page(w, v.start, j), Page(w, v.start, i))
    ensures DirtyLeaf(Page(w, v.start, j)) == DirtyLeaf(Page(w, v.start, i))
  {
  }

  lemma SeenDirty(w: Roots, v: View, i: nat)
    requires DirtyLeaf(Page(w, v.start, i))
    ensures SeenBefore(w, v, i) <==> (Page(w, v.start, i).level, Page(w, v.start, i).at) in DirtyEntries(w, v.start, i)
  {
    hide Page;
    LeafOfDirty(w, v, i);
    var x := Page(w, v.start, i);
    if SeenBefore(w, v, i) {
      var j: nat :| j < i && SameEntry(Page(w, v.start, j), x);
      SameEntrySameDirt(w, v, i, j);
    }
    if (x.level, x.at) in DirtyEntries(w, v.start, i) {
      var j: nat :| j < i && DirtyLeaf(Page(w, v.start, j))
                    && (Page(w, v.start, j).level, Page(w, v.start, j).at) == (x.level, x.at);
      LeafOfDirty(w, v, j);
      assert SameEntry(Page(w, v.start, j), x);
    }
  }

  lemma LeafOfDirty(w: Roots, v: View, i: nat)
    ensures DirtyLeaf(Page(w, v.start, i)) ==> Page(w, v.start, i).Leaf?
  {
  }

  lemma DirtyStep(w: Roots, start: nat, i: nat)
    ensures DirtyEntries(w, start, 0) == {}
    ensures var x := Page(w, start, i);
            var more := if DirtyLeaf(x) then {(x.level, x.at)} else {};
            DirtyEntries(w, start, i + 1) == DirtyEntries(w, start, i) + more
  {
    hide Page;
  }

  lemma {:induction false} DirtyCounted(w: Roots, v: View, n: nat)
    requires Sampled(w, v) && n <= |v.states|
    ensures |Slots(n, DirtyFirst(v))| == |DirtyEntries(w, v.start, n)|
  {
    hide Slots, Page, Span, DirtyLeaf, DirtyEntries, SeenBefore, FirstSlot, CountedLeaf;
    if n == 0 {
      DirtyStep(w, v.start, 0);
      SlotsNone(DirtyFirst(v));
    } else {
      var i := n - 1;
      DirtyStep(w, v.start, i);
      DirtyCounted(w, v, i);
      SlotsStep(i, DirtyFirst(v));
      var x := Page(w, v.start, i);
      StateTells(w, v, i);
      LeafOfDirty(w, v, i);
      if DirtyLeaf(x) {
        FirstIsNew(w, v, i);
        SeenDirty(w, v, i);
        var before, key := DirtyEntries(w, v.start, i), (x.level, x.at);
        assert key in before ==> before + {key} == before;
      }
    }
  }

  /**
   Whatever page-table memory holds, the summary of a sample counts every page once, and its entry
   counts are the numbers of distinct large leaves and of distinct dirty leaf entries.
   */
  lemma SummaryOfSample(w: Roots, v: View, s: Summary)
    requires Sampled(w, v) && Counts(v, |v.states|, s)
    ensures s.pmdEntries == |Entries(w, v.start, |v.states|, 2)|
    ensures s.pudEntries == |Entries(w, v.start, |v.states|, 3)|
    ensures s.dirtyEntries == |DirtyEntries(w, v.start, |v.states|)|
  {
    hide Slots, Entries, DirtyEntries, Sampled;
    EntriesCounted(w, v, |v.states|, 2, PageHugePmd);
    EntriesCounted(w, v, |v.states|, 3, PageHugePud);
    DirtyCounted(w, v, |v.states|);
  }

  /** The pages of an area that the translation leaves in a state. */
  function PageIs(w: Roots, start: nat, state: PageState): nat -> bool {
    (i: nat) => StateOf(Page(w, start, i)) == state
  }

  lemma SlotsArePages(w: Roots, v: View, state: PageState)
    requires Sampled(w, v)
    ensures Slots(|v.states|, Is(v, state)) == Slots(|v.states|, PageIs(w, v.start, state))
  {
    hide Page, StateOf;
  }

  /** The page counts of a summary: how many of the first n pages are mapped, absent, swapped or large. */
  ghost predicate PageCounts(w: Roots, start: nat, n: nat, s: Summary) {
    && s.none == |Slots(n, PageIs(w, start, PageNone))| && s.swap == |Slots(n, PageIs(w, start, PageSwap))|
    && s.pmdPages == |Slots(n, PageIs(w, start, PageHugePmd))|
    && s.pudPages == |Slots(n, PageIs(w, start, PageHugePud))|
    && s.present == |Slots(n, PageIs(w, start, PagePte))| + s.pmdPages + s.pudPages
    && s.present + s.none + s.swap == n
  }

  /** The entry counts of a summary: distinct large leaves, and distinct dirty leaf entries. */
  ghost predicate EntryCounts(w: Roots, start: nat, n: nat, s: Summary) {
    && s.pmdEntries == |Entries(w, start, n, 2)| && s.pudEntries == |Entries(w, start, n, 3)|
    && s.dirtyEntries == |DirtyEntries(w, start, n)|
  }

  /** Sampling an area and summarising the sample, end to end. */
  method SampleAndSummarise(start: Word, end: Word, w: Roots) returns (s: Summary)
    requires start <= end && start % PAGE == 0 && w.directMap % PAGE == 0
    ensures var n := s.present + s.none + s.swap;
            Scans(start, end, n) && PageCounts(w, start, n, s) && EntryCounts(w, start, n, s)
  {
    hide Slots, Entries, DirtyEntries, PagesToScan, PageAt, Scans;
    var vma := new Vma(start, end);
    vma.Sample(w);
    var v := View(start, vma.states[..vma.scanned], vma.dirty[..vma.scanned]);
    s := Summarise(v);
    assert forall i :: 0 <= i < |v.states| ==> vma.Recorded(i, PageAt(w, vma.start + i * PAGE));
    assert Sampled(w, v);
    SummaryOfSample(w, v, s);
    forall state ensures Slots(|v.states|, Is(v, state)) == Slots(|v.states|, PageIs(w, v.start, state)) {
      SlotsArePages(w, v, state);
    }
  }
}
