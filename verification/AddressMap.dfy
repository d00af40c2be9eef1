/** The kernel address map: regions in a fixed order, and the reserved gaps printed between them. */
module AddressMap {

  const ULONG_MAX: nat := 0xffff_ffff_ffff_ffff

  datatype Range = Range(start: nat, end: nat)

  predicate Has(r: Range, a: nat) {
    r.start <= a < r.end
  }

  /** Some range of the list holds the address. */
  predicate Covers(rs: seq<Range>, a: nat) {
    exists i :: 0 <= i < |rs| && Has(rs[i], a)
  }

  predicate Sorted(rs: seq<Range>) {
    forall i, j :: 0 <= i < j < |rs| ==> rs[i].start <= rs[j].start
  }

  /** No region ends before it starts. */
  predicate Upright(rs: seq<Range>) {
    forall i :: 0 <= i < |rs| ==> rs[i].start <= rs[i].end
  }

  predicate Disjoint(rs: seq<Range>) {
    forall i, j :: 0 <= i < j < |rs| ==> rs[i].end <= rs[j].start
  }

  /** The gaps that follow once everything below the cursor is accounted for. */
  function GapsFrom(regions: seq<Range>, cursor: nat): seq<Range> {
    if regions == [] then (if cursor < ULONG_MAX then [Range(cursor, ULONG_MAX)] else [])
    else
      var r := regions[0];
      (if r.start > cursor then [Range(cursor, r.start)] else [])
      + GapsFrom(regions[1..], Advance(r, cursor))
  }

  method PrintLayout(regions: seq<Range>) returns (printed: seq<Range>, gaps: seq<Range>)
    ensures printed == regions && gaps == GapsFrom(regions, 0)
  {
    hide GapsFrom;
    printed, gaps := [], [];
    var cursor: nat := 0;
    assert regions[0..] == regions;
    for i := 0 to |regions|
      invariant printed == regions[..i]
      invariant gaps + GapsFrom(regions[i..], cursor) == GapsFrom(regions, 0)
    {
      GapsUnfold(regions[i..], cursor);
      assert regions[i..][1..] == regions[i + 1..];
      var r := regions[i];
      ghost var before, more := gaps, GapsFrom(regions[i + 1..], Advance(r, cursor));
      if r.start > cursor {
        gaps := gaps + [Range(cursor, r.start)];
        assert before + ([Range(cursor, r.start)] + more) == gaps + more;
      } else {
        assert [] + more == more;
      }
      printed := printed + [r];
      if r.end > cursor {
        cursor := r.end;
      }
    }
    GapsUnfold(regions[|regions|..], cursor);
    if cursor < ULONG_MAX {
      gaps := gaps + [Range(cursor, ULONG_MAX)];
    }
  }

  function Advance(r: Range, cursor: nat): nat {
    if r.end > cursor then r.end else cursor
  }

  lemma GapsUnfold(regions: seq<Range>, cursor: nat)
    ensures regions == [] ==> GapsFrom(regions, cursor) == if cursor < ULONG_MAX then [Range(cursor, ULONG_MAX)] else []
    ensures regions != [] ==>
              GapsFrom(regions, cursor) == (if regions[0].start > cursor then [Range(cursor, regions[0].start)] else [])
                                           + GapsFrom(regions[1..], Advance(regions[0], cursor))
  {
  }

  lemma CoversFirst(r: Range, rs: seq<Range>, a: nat)
    ensures Covers([r] + rs, a) <==> Has(r, a) || Covers(rs, a)
  {
    var all := [r] + rs;
    if Has(r, a) {
      assert Has(all[0], a);
    }
    if Covers(rs, a) {
      var i :| 0 <= i < |rs| && Has(rs[i], a);
      assert Has(all[i + 1], a);
    }
    if Covers(all, a) {
      var i :| 0 <= i < |all| && Has(all[i], a);
      assert i > 0 ==> Has(rs[i - 1], a);
    }
  }

  /** One region: the gap before it, if any, and the rest from where it ends. */
  lemma GapsStep(regions: seq<Range>, cursor: nat, a: nat)
    requires regions != []
    ensures var r, rest := regions[0], regions[1..];
            && (Covers(regions, a) <==> Has(r, a) || Covers(rest, a))
            && (Covers(GapsFrom(regions, cursor), a) <==>
                  cursor <= a < r.start || Covers(GapsFrom(rest, Advance(r, cursor)), a))
  {
    hide Covers;
    var r, rest := regions[0], regions[1..];
    assert regions == [r] + rest;
    CoversFirst(r, rest, a);
    var more := GapsFrom(rest, Advance(r, cursor));
    CoversFirst(Range(cursor, r.start), more, a);
    assert [] + more == more;
  }

  /** Regions and gaps together leave no address out, whatever the regions are. */
  lemma {:induction false} NothingLeftOut(regions: seq<Range>, cursor: nat, a: nat)
    requires cursor <= a < ULONG_MAX
    ensures Covers(regions, a) || Covers(GapsFrom(regions, cursor), a)
  {
    if regions == [] {
      assert Has(GapsFrom(regions, cursor)[0], a);
    } else {
      hide Covers;
      GapsStep(regions, cursor, a);
      if a >= Advance(regions[0], cursor) {
        NothingLeftOut(regions[1..], Advance(regions[0], cursor), a);
      }
    }
  }

  /** With sorted starts, the gaps are exactly the addresses outside every region. */
  lemma {:induction false} GapsAreComplement(regions: seq<Range>, cursor: nat, a: nat)
    requires Sorted(regions) && cursor <= a < ULONG_MAX
    ensures Covers(GapsFrom(regions, cursor), a) <==> !Covers(regions, a)
  {
    NothingLeftOut(regions, cursor, a);
    if Covers(GapsFrom(regions, cursor), a) {
      GapsFree(regions, cursor, a);
    }
  }

  lemma {:induction false} GapsFree(regions: seq<Range>, cursor: nat, a: nat)
    requires Sorted(regions) && Covers(GapsFrom(regions, cursor), a)
    ensures cursor <= a && !Covers(regions, a)
  {
    if regions != [] {
      hide GapsFrom;
      GapsStep(regions, cursor, a);
      var r, rest := regions[0], regions[1..];
      if Covers(GapsFrom(rest, Advance(r, cursor)), a) {
        GapsFree(rest, Advance(r, cursor), a);
      }
    }
  }

  /** If moreover no region ends before it starts, the gaps come in order and do not overlap. */
  lemma {:induction false} GapsAreDisjoint(regions: seq<Range>, cursor: nat)
    requires Sorted(regions) && Upright(regions)
    ensures Disjoint(GapsFrom(regions, cursor))
  {
    UprightOpenings(regions, cursor);
    OpeningsInOrder(regions, cursor);
  }

  /** Every region that has a gap printed in front of it ends no earlier than it starts. */
  predicate OpeningsUpright(regions: seq<Range>, cursor: nat) {
    regions == []
    || ((regions[0].start > cursor ==> regions[0].start <= regions[0].end)
        && OpeningsUpright(regions[1..], Advance(regions[0], cursor)))
  }

  lemma {:induction false} UprightOpenings(regions: seq<Range>, cursor: nat)
    requires Upright(regions)
    ensures OpeningsUpright(regions, cursor)
  {
    if regions != [] {
      UprightOpenings(regions[1..], Advance(regions[0], cursor));
    }
  }

  lemma {:induction false} OpeningsInOrder(regions: seq<Range>, cursor: nat)
    requires OpeningsUpright(regions, cursor)
    ensures Disjoint(GapsFrom(regions, cursor))
    ensures forall i :: 0 <= i < |GapsFrom(regions, cursor)| ==> cursor <= GapsFrom(regions, cursor)[i].start
  {
    if regions != [] {
      OpeningsInOrder(regions[1..], Advance(regions[0], cursor));
    }
  }

  /** What no region has covered yet starts the next gap. */
  lemma GapStartsHere(regions: seq<Range>, cursor: nat)
    requires if regions == [] then cursor < ULONG_MAX else cursor < regions[0].start
    ensures GapsFrom(regions, cursor) != [] && GapsFrom(regions, cursor)[0].start == cursor
  {
  }

  lemma DisjointTail(r: Range, rs: seq<Range>)
    requires Disjoint([r] + rs)
    ensures Disjoint(rs)
    ensures rs != [] ==> r.end <= rs[0].start
  {
    var all := [r] + rs;
    assert all[0] == r && forall i :: 0 <= i < |rs| ==> rs[i] == all[i + 1];
    if rs != [] {
      assert all[0].end <= all[1].start;
    }
  }

  /**
   The exact condition: with sorted starts, the gaps do not overlap if and only if no region that
   has a gap printed in front of it is inverted.
   */
  lemma {:induction false} DisjointIffOpeningsUpright(regions: seq<Range>, cursor: nat)
    requires Sorted(regions) && forall i :: 0 <= i < |regions| ==> regions[i].start <= ULONG_MAX
    ensures Disjoint(GapsFrom(regions, cursor)) <==> OpeningsUpright(regions, cursor)
  {
    if OpeningsUpright(regions, cursor) {
      OpeningsInOrder(regions, cursor);
    } else {
      hide GapsFrom, Disjoint;
      var r, rest := regions[0], regions[1..];
      var more := GapsFrom(rest, Advance(r, cursor));
      DisjointIffOpeningsUpright(rest, Advance(r, cursor));
      GapsUnfold(regions, cursor);
      if r.start > cursor {
        if r.start > r.end {
          GapStartsHere(rest, Advance(r, cursor));
        }
        if Disjoint([Range(cursor, r.start)] + more) {
          DisjointTail(Range(cursor, r.start), more);
        }
      } else {
        assert [] + more == more;
      }
    }
  }

  /** An inverted region behind a gap makes two gaps overlap ... */
  lemma InvertedRegionOverlaps()
    ensures Sorted([Range(10, 5), Range(20, 30)])
    ensures var gaps := GapsFrom([Range(10, 5), Range(20, 30)], 0);
            |gaps| == 3 && gaps[0] == Range(0, 10) && gaps[1] == Range(5, 20) && !Disjoint(gaps)
  {
    var rest := [Range(20, 30)];
    assert [Range(10, 5), Range(20, 30)][1..] == rest && rest[1..] == [];
    assert GapsFrom([], 30) == [Range(30, ULONG_MAX)];
    assert GapsFrom(rest, 5) == [Range(5, 20)] + GapsFrom([], 30);
    var gaps := GapsFrom([Range(10, 5), Range(20, 30)], 0);
    assert gaps == [Range(0, 10)] + GapsFrom(rest, 5);
    assert gaps[0].end > gaps[1].start;
  }

  /** ... and one inside what is already covered does not. */
  lemma InvertedRegionInside()
    ensures var regions := [Range(0, 100), Range(50, 20)];
            Sorted(regions) && !Upright(regions) && Disjoint(GapsFrom(regions, 0))
  {
    var regions := [Range(0, 100), Range(50, 20)];
    assert regions[1..] == [Range(50, 20)] && regions[1..][1..] == [];
    assert regions[1].start > regions[1].end;
    assert OpeningsUpright([Range(50, 20)], 100);
    DisjointIffOpeningsUpright(regions, 0);
  }
}
