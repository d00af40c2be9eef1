/**
 Radix page tables as the processor reads them: four levels of 512 eight-byte entries
 (Intel SDM volume 3A section 4.5; the same shape serves EPT, volume 3C section 28.3.2).
 */
module Paging {

  const WORD: nat := 0x1_0000_0000_0000_0000
  const PAGE: nat := 4096
  const ENTRIES: nat := 512

  type Word = x: nat | x < WORD

  /** Readable memory; a read of address 0 or of anything else yields 0. */
  type Mem = map<nat, Word>

  function Read(m: Mem, a: nat): Word {
    if a != 0 && a in m then m[a] else 0
  }

  /** The bytes one entry at a level covers. */
  function Span(level: nat): (r: nat)
    requires 1 <= level <= 4
    ensures r > 0
  {
    match level
    case 1 => 0x1000
    case 2 => 0x20_0000
    case 3 => 0x4000_0000
    case _ => 0x80_0000_0000
  }

  /** Which entry's span an address lies in, counting from address 0: each level drops nine more bits. */
  function Region(va: nat, level: nat): nat
    requires 1 <= level <= 4
  {
    if level == 1 then va / PAGE else Region(va, level - 1) / ENTRIES
  }

  lemma RegionIsShift(va: nat, level: nat)
    requires 1 <= level <= 4
    ensures Region(va, level) == va / Span(level)
  {
    var p := va / 0x1000;
    match level
    case 1 =>
    case 2 => assert Region(va, 2) == p / 512;
    case 3 =>
      assert Region(va, 2) == p / 512;
      assert Region(va, 3) == p / 512 / 512;
    case _ =>
      assert Region(va, 2) == p / 512;
      assert Region(va, 3) == p / 512 / 512;
      assert Region(va, 4) == p / 512 / 512 / 512;
  }

  /** The entry that serves an address in the table of a level. */
  function Index(va: nat, level: nat): (r: nat)
    requires 1 <= level <= 4
    ensures r < ENTRIES
  {
    Region(va, level) % ENTRIES
  }

  /** Bits 12 to 51 of an entry: a physical page number. */
  function FrameOf(e: Word): (r: nat)
    ensures r < 0x100_0000_0000
  {
    e / PAGE % 0x100_0000_0000
  }

  predicate Bit6(e: Word) { e / 64 % 2 == 1 }

  predicate Bit7(e: Word) { e / 128 % 2 == 1 }

  /** Where the table an entry points at is found through the direct map. */
  function TableAt(e: Word, directMap: Word): Word {
    (FrameOf(e) * PAGE + directMap) % WORD
  }

  function EntryAt(table: Word, va: nat, level: nat): Word
    requires 1 <= level <= 4
  {
    (table + Index(va, level) * 8) % WORD
  }

  // ---- frames of large leaves ------------------------------------------------------------

  function PagesIn(level: nat): (r: nat)
    requires 1 <= level <= 4
    ensures r > 0
  {
    match level
    case 1 => 1
    case 2 => 0x200
    case 3 => 0x4_0000
    case _ => 0x800_0000
  }

  lemma SpanInPages(level: nat)
    requires 1 <= level <= 4
    ensures Span(level) == PagesIn(level) * PAGE
  {
  }

  function AlignDown(x: nat, n: nat): (r: nat)
    requires n > 0
  {
    Multiple(x / n, n);
    x / n * n
  }

  /** The frame the observers compute: the base frame plus the page offset inside the leaf. */
  function LeafFrame(e: Word, va: nat, level: nat): nat
    requires 1 <= level <= 4
  {
    FrameOf(e) + va % Span(level) / PAGE
  }

  /** The frame the processor uses: the page number's low bits come from the address alone. */
  function TrueFrame(e: Word, va: nat, level: nat): nat
    requires 1 <= level <= 4
  {
    AlignDown(FrameOf(e), PagesIn(level)) + va / PAGE % PagesIn(level)
  }

  lemma OffsetPages(va: nat, level: nat)
    requires 1 <= level <= 4
    ensures va % Span(level) / PAGE == va / PAGE % PagesIn(level)
  {
    var p, o := va / PAGE, va % PAGE;
    match level
    case 1 =>
    case 2 => Remainder(va, p / 512, p % 512 * PAGE + o, 0x20_0000);
    case 3 => Remainder(va, p / 0x4_0000, p % 0x4_0000 * PAGE + o, 0x4000_0000);
    case _ => Remainder(va, p / 0x800_0000, p % 0x800_0000 * PAGE + o, 0x80_0000_0000);
  }

  lemma Remainder(x: nat, q: nat, r: nat, n: nat)
    requires x == q * n + r && r < n
    ensures x % n == r && x / n == q
  {
    var d := x / n - q;
    assert d * n == r - x % n;
    Multiple(d, n);
  }

  lemma Multiple(d: int, n: nat)
    ensures d >= 1 ==> d * n >= n
    ensures d <= -1 ==> d * n + n <= 0
  {
  }

  /** The two agree exactly when the leaf's base is aligned to its size. */
  lemma LeafFrameIsTrueIffAligned(e: Word, va: nat, level: nat)
    requires 1 <= level <= 4
    ensures LeafFrame(e, va, level) == TrueFrame(e, va, level) <==> FrameOf(e) % PagesIn(level) == 0
  {
    OffsetPages(va, level);
    var f, n := FrameOf(e), PagesIn(level);
    assert f == f / n * n + f % n;
  }

  lemma FourKilobyteLeaf(e: Word, va: nat)
    ensures LeafFrame(e, va, 1) == TrueFrame(e, va, 1) == FrameOf(e)
  {
  }

  /** A bit that selects the memory type of a large page (PAT, bit 12) reads as a misaligned base. */
  lemma PatBitMisplaces()
    ensures LeafFrame(0x1083, 0, 2) == 1 && TrueFrame(0x1083, 0, 2) == 0
  {
  }

  // ---- fields of an entry ------------------------------------------------------------------

  /** The low twelve bits of an entry are flags, the next forty the frame, the rest flags again. */
  lemma FieldsOf(low: nat, frame: nat, high: nat)
    requires low < PAGE && frame < 0x100_0000_0000 && high < PAGE
    ensures var e := low + PAGE * frame + 0x10_0000_0000_0000 * high;
            && e < WORD && FrameOf(e) == frame && (e < WORD / 2 <==> high < PAGE / 2)
            && e % 8 == low % 8 && e % 2 == low % 2
            && Bit6(e) == (low / 64 % 2 == 1) && Bit7(e) == (low / 128 % 2 == 1)
  {
    var r := frame + 0x100_0000_0000 * high;
    LowPart(low, r);
    Remainder(r, high, frame, 0x100_0000_0000);
  }

  lemma LowPart(low: nat, r: nat)
    requires low < PAGE
    ensures var e := low + PAGE * r;
            e / PAGE == r && e % 8 == low % 8 && e % 2 == low % 2
            && e / 64 % 2 == low / 64 % 2 && e / 128 % 2 == low / 128 % 2
  {
    var e := low + PAGE * r;
    Remainder(e, r, low, PAGE);
    Remainder(e, 512 * r + low / 8, low % 8, 8);
    Remainder(e, 2048 * r + low / 2, low % 2, 2);
    Remainder(e, 64 * r + low / 64, low % 64, 64);
    Remainder(e, 32 * r + low / 128, low % 128, 128);
    Remainder(64 * r + low / 64, 32 * r + low / 64 / 2, low / 64 % 2, 2);
    Remainder(32 * r + low / 128, 16 * r + low / 128 / 2, low / 128 % 2, 2);
  }

  // ---- entry addresses -------------------------------------------------------------------

  /** A table reached through an entry is page-aligned, so an entry's address tells its index. */
  lemma EntryTellsIndex(e: Word, directMap: Word, va: nat, level: nat)
    requires 1 <= level <= 4 && directMap % PAGE == 0
    ensures EntryAt(TableAt(e, directMap), va, level) % PAGE == Index(va, level) * 8
  {
    hide TableAt, Index;
    var t, i := TableAt(e, directMap), Index(va, level);
    TableAligned(e, directMap);
    assert t == t / PAGE * PAGE && t / PAGE < 0x10_0000_0000_0000;
    assert t + i * 8 < WORD;
    assert (t + i * 8) % PAGE == i * 8;
  }

  lemma TableAligned(e: Word, directMap: Word)
    requires directMap % PAGE == 0
    ensures TableAt(e, directMap) % PAGE == 0
  {
    hide FrameOf;
    var x := FrameOf(e) + directMap / PAGE;
    assert FrameOf(e) * PAGE + directMap == x * PAGE;
    Remainder(x * PAGE, x / 0x10_0000_0000_0000, x % 0x10_0000_0000_0000 * PAGE, WORD);
  }
}
