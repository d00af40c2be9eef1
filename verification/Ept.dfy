/** The observer's walk of KVM's extended page tables for one guest frame. */
module Ept {
  import opened Numbers
  import opened Paging

  const LEVELS: nat := 4

  // ---- translation -----------------------------------------------------------------------

  /** KVM marks emulated MMIO by an entry no processor accepts: writable, executable, not readable. */
  predicate IsMmio(e: Word) {
    e % 8 == 6 && e < 0x8000_0000_0000_0000
  }

  predicate IsPresent(e: Word) {
    !IsMmio(e) && e % 8 != 0
  }

  predicate IsLeaf(e: Word, level: nat) {
    level == 1 || Bit7(e)
  }

  /** An entry of a table; a table that is not there has only empty ones. */
  function Entry(m: Mem, table: Word, gpa: nat, level: nat): Word
    requires 1 <= level <= 4
  {
    if table != 0 then Read(m, EntryAt(table, gpa, level)) else 0
  }

  lemma NoTable(m: Mem, gpa: nat, level: nat)
    requires 1 <= level <= 4
    ensures Entry(m, 0, gpa, level) == 0
  {
  }

  /** Where a translation ends, and the entry it ends at. */
  datatype Ending = Absent(level: nat, entry: Word) | Mmio(level: nat, entry: Word) | Leaf(level: nat, entry: Word)

  function Translate(m: Mem, directMap: Word, table: Word, gpa: nat, level: nat): (r: Ending)
    requires 1 <= level <= 4
    ensures 1 <= r.level <= level
    decreases level
  {
    var e := Entry(m, table, gpa, level);
    if IsMmio(e) then Mmio(level, e)
    else if !IsPresent(e) then Absent(level, e)
    else if IsLeaf(e, level) then Leaf(level, e)
    else Translate(m, directMap, TableAt(e, directMap), gpa, level - 1)
  }

  function RootTable(rootHpa: Word, directMap: Word): Word {
    if rootHpa != 0 && rootHpa != WORD - 1 then TableAt(rootHpa, directMap) else 0
  }

  /** The frame the processor reaches; a leaf exists at levels 1, 2 and 3 only. */
  datatype Frame = NoFrame | Pfn(pfn: nat)

  function HardwareFrame(x: Ending, gpa: nat): Frame {
    if x.Leaf? && 1 <= x.level <= 3 then Pfn(TrueFrame(x.entry, gpa, x.level)) else NoFrame
  }

  // ---- the record ------------------------------------------------------------------------

  datatype EntryRecord = EntryRecord(spte: Word, tableHpa: Word, index: nat, level: nat,
                                     mmio: bool, present: bool, readable: bool, writable: bool, executable: bool,
                                     accessed: bool, dirty: bool, leaf: bool)

  predicate Terminal(e: EntryRecord) {
    e.leaf || e.mmio
  }

  /** Nothing was looked up. */
  predicate Empty(e: EntryRecord) {
    e.spte == 0 && e.tableHpa == 0 && !e.present && !e.readable && !e.writable && !e.executable && !Terminal(e)
  }

  /** The flags are the entry's bits: read 0, write 1, execute 2, accessed 8, dirty 9. */
  predicate FlagsSay(e: EntryRecord) {
    && e.spte % 8 == One(e.readable) + 2 * One(e.writable) + 4 * One(e.executable)
    && e.spte / 256 % 4 == One(e.accessed) + 2 * One(e.dirty)
  }

  /** Entry i was read from the table the entry above it points at, or from the root's. */
  predicate OnPath(entries: seq<EntryRecord>, i: nat, m: Mem, directMap: Word, rootHpa: Word, gpa: nat)
    requires i < |entries| <= LEVELS
  {
    var e := entries[i];
    if i == 0 then
      e.tableHpa == FrameOf(rootHpa) * PAGE && e.spte == Entry(m, RootTable(rootHpa, directMap), gpa, LEVELS)
    else
      && e.tableHpa == FrameOf(entries[i - 1].spte) * PAGE
      && e.spte == Entry(m, (e.tableHpa + directMap) % WORD, gpa, LEVELS - i)
  }

  /** The entries down to the end of the walk are those the translation passes through. */
  predicate FollowsPath(s: Sample, x: Ending, m: Mem, directMap: Word, rootHpa: Word) {
    |s.entries| == LEVELS
    && forall i :: 0 <= i < LEVELS && LEVELS - i >= x.level ==> OnPath(s.entries, i, m, directMap, rootHpa, s.gpa)
  }

  lemma FrameOfFrame(e: Word)
    ensures FrameOf(FrameOf(e) * PAGE) == FrameOf(e)
  {
  }

  /** What the record of a level says when the translation ends at x. */
  predicate EntryOf(e: EntryRecord, x: Ending, gpa: nat, level: nat)
    requires 1 <= level <= 4
  {
    && e.level == level && e.index == Index(gpa, level) && FlagsSay(e)
    && (level > x.level ==> e.present && !Terminal(e))
    && (level == x.level ==> e.spte == x.entry && e.leaf == x.Leaf? && e.mmio == x.Mmio? && e.present == x.Leaf?)
    && (level < x.level ==> Empty(e))
  }

  /** What is recorded of one entry. */
  function Describe(spte: Word, tableHpa: Word, gpa: nat, level: nat): EntryRecord
    requires 1 <= level <= 4
  {
    var isMmio := spte != 0 && IsMmio(spte);
    var isPresent := !isMmio && spte % 8 != 0;
    EntryRecord(spte, FrameOf(tableHpa) * PAGE, Index(gpa, level), level, isMmio, isPresent,
                spte % 2 == 1, spte / 2 % 2 == 1, spte / 4 % 2 == 1, spte / 256 % 2 == 1, spte / 512 % 2 == 1,
                isPresent && (level == 1 || Bit7(spte)))
  }

  /** The sample of one guest frame. */
  datatype Sample = Sample(gpa: nat, mapped: bool, mmio: bool, leafLevel: nat, leafPfn: nat, entries: seq<EntryRecord>)

  /** The sample says that the translation of the frame ends at x. */
  predicate Says(s: Sample, x: Ending) {
    && |s.entries| == LEVELS && 1 <= x.level <= 4
    && s.mapped == x.Leaf? && s.mmio == x.Mmio?
    && s.leafLevel == (if x.Leaf? then x.level else 0)
    && s.leafPfn == (if x.Leaf? then LeafFrame(x.entry, s.gpa, x.level) else 0)
    && forall i :: 0 <= i < LEVELS ==> EntryOf(s.entries[i], x, s.gpa, LEVELS - i)
  }

  class GfnRecord {
    var gfn: nat
    var gpa: nat
    var mapped: bool
    var mmio: bool
    var leafLevel: nat
    var leafPfn: nat
    const entries: array<EntryRecord>

    constructor ()
      ensures entries.Length == LEVELS && fresh(entries)
    {
      entries := new EntryRecord[LEVELS](
        _ => EntryRecord(0, 0, 0, 0, false, false, false, false, false, false, false, false));
    }

    ghost function Contents(): Sample
      reads this, entries
    {
      Sample(gpa, mapped, mmio, leafLevel, leafPfn, entries[..])
    }

    /** The unrolled loop over the four levels records how the translation ends. */
    method WalkGfn(m: Mem, directMap: Word, gfn: nat, rootHpa: Word)
      requires entries.Length == LEVELS
      modifies this, entries
      ensures this.gfn == gfn && gpa == gfn * PAGE
      ensures var x := Translate(m, directMap, RootTable(rootHpa, directMap), gfn * PAGE, 4);
              Says(Contents(), x) && FollowsPath(Contents(), x, m, directMap, rootHpa)
    {
      hide Read, EntryAt, Entry, TableAt, Translate, LeafFrame, FrameOf, EntryOf, Describe, OnPath, RootTable, Here;
      this.gfn, gpa := gfn, gfn * PAGE;
      var tableHpa: Word := rootHpa;
      var table: Word := RootTable(rootHpa, directMap);
      ghost var x := Translate(m, directMap, table, gpa, 4);
      mapped, mmio, leafLevel, leafPfn := false, false, 0, 0;
      HereAtRoot(directMap, rootHpa);
      for i := 0 to LEVELS
        invariant gpa == gfn * PAGE && this.gfn == gfn
        invariant i < LEVELS && x.level <= LEVELS - i ==> x == Translate(m, directMap, table, gpa, LEVELS - i)
        invariant x.level <= LEVELS - i ==> !mapped && !mmio && leafLevel == 0 && leafPfn == 0
        invariant x.level > LEVELS - i ==> table == 0 && tableHpa == 0
        invariant x.level > LEVELS - i ==>
          && mapped == x.Leaf? && mmio == x.Mmio? && leafLevel == (if x.Leaf? then x.level else 0)
          && leafPfn == (if x.Leaf? then LeafFrame(x.entry, gpa, x.level) else 0)
        invariant forall j :: 0 <= j < i ==> EntryOf(entries[j], x, gpa, LEVELS - j)
        invariant x.level <= LEVELS - i ==> Here(entries[..i], tableHpa, table, directMap, rootHpa)
        invariant forall j :: 0 <= j < i && LEVELS - j >= x.level ==>
          OnPath(entries[..i], j, m, directMap, rootHpa, gpa)
      {
        ghost var above := entries[..i];
        var level := LEVELS - i;
        NoTable(m, gpa, level);
        var spte := Entry(m, table, gpa, level);
        var entry := Describe(spte, tableHpa, gpa, level);
        DescribeFits(m, directMap, table, spte, tableHpa, gpa, level, x);
        entries[i] := entry;
        assert entries[..i + 1] == above + [entry];
        if x.level <= level {
          PathGoesOn(above, tableHpa, table, m, directMap, rootHpa, gpa);
        }
        PathKept(above, entry, m, directMap, rootHpa, gpa);
        HereAfter(above, entry, directMap, rootHpa);
        DescribesEntry(spte, tableHpa, gpa, level);
        if entry.mmio {
          mmio := true;
          tableHpa, table := 0, 0;
        } else if !entry.present {
          tableHpa, table := 0, 0;
        } else if entry.leaf {
          mapped, leafLevel, leafPfn := true, level, LeafFrame(spte, gpa, level);
          tableHpa, table := 0, 0;
        } else {
          tableHpa := FrameOf(spte) * PAGE;
          table := TableAt(spte, directMap);
        }
      }
      assert entries[..LEVELS] == entries[..];
    }
  }

  /** Where the walk stands below the entries above: the table it is about to read. */
  predicate Here(above: seq<EntryRecord>, tableHpa: Word, table: Word, directMap: Word, rootHpa: Word) {
    if above == [] then tableHpa == rootHpa && table == RootTable(rootHpa, directMap)
    else
      var e := above[|above| - 1].spte;
      tableHpa == FrameOf(e) * PAGE && table == TableAt(e, directMap)
  }

  lemma PathGoesOn(above: seq<EntryRecord>, tableHpa: Word, table: Word,
                   m: Mem, directMap: Word, rootHpa: Word, gpa: nat)
    requires |above| < LEVELS && Here(above, tableHpa, table, directMap, rootHpa)
    ensures var level := LEVELS - |above|;
            var e := Describe(Entry(m, table, gpa, level), tableHpa, gpa, level);
            OnPath(above + [e], |above|, m, directMap, rootHpa, gpa)
  {
    hide Entry, FrameOf, RootTable, Index;
    if above != [] {
      FrameOfFrame(above[|above| - 1].spte);
    }
  }

  lemma PathKept(above: seq<EntryRecord>, e: EntryRecord, m: Mem, directMap: Word, rootHpa: Word, gpa: nat)
    requires |above| < LEVELS
    ensures forall j :: 0 <= j < |above| && OnPath(above, j, m, directMap, rootHpa, gpa) ==>
              OnPath(above + [e], j, m, directMap, rootHpa, gpa)
  {
    hide Entry, FrameOf, RootTable;
  }

  lemma HereAtRoot(directMap: Word, rootHpa: Word)
    ensures Here([], rootHpa, RootTable(rootHpa, directMap), directMap, rootHpa)
  {
  }

  lemma DescribesEntry(spte: Word, tableHpa: Word, gpa: nat, level: nat)
    requires 1 <= level <= 4
    ensures Describe(spte, tableHpa, gpa, level).spte == spte
  {
  }

  lemma HereAfter(above: seq<EntryRecord>, e: EntryRecord, directMap: Word, rootHpa: Word)
    ensures Here(above + [e], FrameOf(e.spte) * PAGE, TableAt(e.spte, directMap), directMap, rootHpa)
  {
    hide FrameOf;
  }

  /** The entry of a level that the walk reaches, or of one below the end of it. */
  lemma DescribeFits(m: Mem, directMap: Word, table: Word, spte: Word, tableHpa: Word, gpa: nat, level: nat, x: Ending)
    requires 1 <= level <= 4 && 1 <= x.level <= 4
    requires level < x.level ==> spte == 0 && tableHpa == 0
    requires level >= x.level ==> spte == Entry(m, table, gpa, level)
    requires level >= x.level ==> x == Translate(m, directMap, table, gpa, level)
    ensures var e := Describe(spte, tableHpa, gpa, level);
            && EntryOf(e, x, gpa, level)
            && (level < x.level ==> !e.mmio && !e.present && !e.leaf)
            && (level == x.level ==> e.mmio == x.Mmio? && e.leaf == x.Leaf? && e.present == x.Leaf? && spte == x.entry)
            && (level > x.level ==> !e.mmio && e.present && !e.leaf && level > 1
                                    && x == Translate(m, directMap, TableAt(spte, directMap), gpa, level - 1))
  {
    hide Entry, TableAt, Translate, Index, FlagsSay;
    Descend(m, directMap, table, gpa, level);
    FlagsAreBits(spte, tableHpa, gpa, level);
  }

  lemma FlagsAreBits(spte: Word, tableHpa: Word, gpa: nat, level: nat)
    requires 1 <= level <= 4
    ensures FlagsSay(Describe(spte, tableHpa, gpa, level))
  {
    hide Index, FrameOf;
    ThreeBits(spte);
    TwoBits(spte);
  }

  lemma ThreeBits(e: nat)
    ensures e % 8 == e % 2 + 2 * (e / 2 % 2) + 4 * (e / 4 % 2)
  {
    assert e % 8 == e % 2 + 2 * (e / 2 % 4);
    LowTwo(e / 2);
    assert e / 4 == e / 2 / 2;
  }

  lemma LowTwo(e: nat)
    ensures e % 4 == e % 2 + 2 * (e / 2 % 2)
  {
    var q, r := e / 4, e % 4;
    Remainder(e, 2 * q + r / 2, r % 2, 2);
    Remainder(2 * q + r / 2, q, r / 2, 2);
  }

  lemma TwoBits(e: nat)
    ensures e / 256 % 4 == e / 256 % 2 + 2 * (e / 512 % 2)
  {
    LowTwo(e / 256);
    assert e / 512 == e / 256 / 2;
  }

  lemma Descend(m: Mem, directMap: Word, table: Word, gpa: nat, level: nat)
    requires 1 <= level <= 4
    ensures var e := Entry(m, table, gpa, level);
            Translate(m, directMap, table, gpa, level) ==
              if IsMmio(e) then Mmio(level, e)
              else if !IsPresent(e) then Absent(level, e)
              else if IsLeaf(e, level) then Leaf(level, e)
              else Translate(m, directMap, TableAt(e, directMap), gpa, level - 1)
  {
    hide Entry, TableAt;
  }

  // ---- what a sample shows -----------------------------------------------------------------

  /** At most one entry ends the walk, mapped and MMIO exclude each other, and below the end all is empty. */
  lemma OneEnding(s: Sample, x: Ending)
    requires Says(s, x)
    ensures !(s.mapped && s.mmio)
    ensures s.mapped <==> exists i :: 0 <= i < LEVELS && s.entries[i].leaf
    ensures s.mmio <==> exists i :: 0 <= i < LEVELS && s.entries[i].mmio
    ensures forall i, j :: 0 <= i < j < LEVELS && (Terminal(s.entries[i]) || !s.entries[i].present) ==>
              Empty(s.entries[j])
    ensures forall i, j :: 0 <= i < j < LEVELS ==> !(Terminal(s.entries[i]) && Terminal(s.entries[j]))
  {
    hide LeafFrame, Index;
    var end := s.entries[LEVELS - x.level];
    assert EntryOf(end, x, s.gpa, x.level);
    forall i, j | 0 <= i < j < LEVELS && (Terminal(s.entries[i]) || !s.entries[i].present)
      ensures Empty(s.entries[j])
    {
      assert EntryOf(s.entries[i], x, s.gpa, LEVELS - i);
      assert EntryOf(s.entries[j], x, s.gpa, LEVELS - j);
    }
  }

  /**
   The frame shown is the frame the processor reaches, exactly when the leaf is one the architecture
   has (level 1, 2 or 3) and its base is aligned to its size.
   */
  lemma ShownFrameIsReal(s: Sample, x: Ending)
    requires Says(s, x) && s.mapped
    ensures HardwareFrame(x, s.gpa) == Pfn(s.leafPfn) <==> x.level <= 3 && FrameOf(x.entry) % PagesIn(x.level) == 0
    ensures x.level == 1 ==> HardwareFrame(x, s.gpa) == Pfn(s.leafPfn)
  {
    hide LeafFrame, TrueFrame, FrameOf;
    LeafFrameIsTrueIffAligned(x.entry, s.gpa, x.level);
    FourKilobyteLeaf(x.entry, s.gpa);
  }

  /** A top-level entry with bit 7 set is shown as a mapping, although no processor maps 512 GiB pages. */
  lemma TopLevelLeafIsNotReal()
    ensures Translate(map[0x1000 := 0x87], 0, 0x1000, 0, 4) == Leaf(4, 0x87)
    ensures HardwareFrame(Leaf(4, 0x87), 0) == NoFrame
  {
    assert Region(0, 4) == 0;
    assert EntryAt(0x1000, 0, 4) == 0x1000;
  }

  /** Where an entry keeps what: permissions in the low three bits, the page-size bit 7, the frame from bit 12, and
      the bit that tells a suppressed exit from the MMIO marker at the top. */
  lemma EntryFields(perms: nat, large: bool, frame: nat, suppress: bool)
    requires perms < 8 && frame < 0x100_0000_0000
    ensures var e := perms + 128 * One(large) + PAGE * frame + 0x8000_0000_0000_0000 * One(suppress);
            && e < WORD
            && FrameOf(e) == frame && Bit7(e) == large
            && (IsMmio(e) <==> perms == 2 + 4 && !suppress)
            && (IsPresent(e) <==> perms != 0 && !(perms == 2 + 4 && !suppress))
  {
    hide FrameOf, Bit7;
    FieldsOf(perms + 128 * One(large), frame, 0x800 * One(suppress));
  }
}
