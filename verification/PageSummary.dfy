/** The counts a capture shows for a sampled area, and what they count. */
module PageSummary {
  import opened Numbers
  import opened Paging
  import opened PageWalk

  // ---- the summary loop ------------------------------------------------------------------

  /** The sampled arrays as the summary reads them. */
  datatype View = View(start: nat, states: seq<PageState>, dirty: seq<bool>)

  predicate Shaped(v: View) {
    |v.states| == |v.dirty|
  }

  datatype Summary = Summary(present: nat, none: nat, swap: nat, pmdPages: nat, pmdEntries: nat,
                             pudPages: nat, pudEntries: nat, dirtyEntries: nat)

  datatype Previous = Nothing | Was(state: PageState)

  /** The first slot of a large leaf, as far as the summary can tell. */
  predicate FirstSlot(v: View, i: nat, level: nat)
    requires i < |v.states| && 1 <= level <= 4
  {
    i == 0 || v.states[i - 1] != v.states[i] || (v.start + i * PAGE) % Span(level) == 0
  }

  predicate CountedLeaf(v: View, i: nat)
    requires i < |v.states|
  {
    || v.states[i] == PagePte
    || (v.states[i] == PageHugePmd && FirstSlot(v, i, 2))
    || (v.states[i] == PageHugePud && FirstSlot(v, i, 3))
  }

  // The slots each count is about.

  function Is(v: View, s: PageState): nat -> bool {
    (i: nat) => i < |v.states| && v.states[i] == s
  }

  function First(v: View, s: PageState, level: nat): nat -> bool
    requires 1 <= level <= 4
  {
    (i: nat) => i < |v.states| && v.states[i] == s && FirstSlot(v, i, level)
  }

  function DirtyFirst(v: View): nat -> bool
    requires Shaped(v)
  {
    (i: nat) => i < |v.states| && v.dirty[i] && CountedLeaf(v, i)
  }

  function Slots(n: nat, p: nat -> bool): set<nat> {
    set i: nat | i < n && p(i)
  }

  lemma SlotsStep(n: nat, p: nat -> bool)
    ensures |Slots(n + 1, p)| == |Slots(n, p)| + (if p(n) then 1 else 0)
  {
    assert Slots(n + 1, p) == Slots(n, p) + (if p(n) then {n} else {});
  }

  /** Each count is the number of slots it is about. */
  ghost predicate Counts(v: View, n: nat, s: Summary)
    requires Shaped(v)
  {
    && s.none == |Slots(n, Is(v, PageNone))|
    && s.swap == |Slots(n, Is(v, PageSwap))|
    && s.pmdPages == |Slots(n, Is(v, PageHugePmd))|
    && s.pudPages == |Slots(n, Is(v, PageHugePud))|
    && s.present == |Slots(n, Is(v, PagePte))| + s.pmdPages + s.pudPages
    && s.pmdEntries == |Slots(n, First(v, PageHugePmd, 2))|
    && s.pudEntries == |Slots(n, First(v, PageHugePud, 3))|
    && s.dirtyEntries == |Slots(n, DirtyFirst(v))|
  }

  /** What slot n adds. */
  function Bump(v: View, n: nat, s: Summary): Summary
    requires Shaped(v) && n < |v.states|
  {
    var x := v.states[n];
    var pmd, pud := x == PageHugePmd, x == PageHugePud;
    Summary(s.present + One(x == PagePte || pmd || pud), s.none + One(x == PageNone), s.swap + One(x == PageSwap),
            s.pmdPages + One(pmd), s.pmdEntries + One(pmd && FirstSlot(v, n, 2)),
            s.pudPages + One(pud), s.pudEntries + One(pud && FirstSlot(v, n, 3)),
            s.dirtyEntries + One(v.dirty[n] && CountedLeaf(v, n)))
  }

  method Summarise(v: View) returns (s: Summary)
    requires Shaped(v)
    ensures Counts(v, |v.states|, s)
    ensures s.present + s.none + s.swap == |v.states|
  {
    hide Counts, Span;
    s := Summary(0, 0, 0, 0, 0, 0, 0, 0);
    var previous := Nothing;
    NoSlots(v);
    for page := 0 to |v.states|
      invariant Counts(v, page, s)
      invariant s.present + s.none + s.swap == page
      invariant previous == if page == 0 then Nothing else Was(v.states[page - 1])
    {
      ghost var before := s;
      var state, isDirty := v.states[page], v.dirty[page];
      var va := v.start + page * PAGE;
      match state {
        case PagePte =>
          s := s.(present := s.present + 1, dirtyEntries := s.dirtyEntries + One(isDirty));
        case PageSwap =>
          s := s.(swap := s.swap + 1);
        case PageHugePmd =>
          var first := previous != Was(PageHugePmd) || page == 0 || va % Span(2) == 0;
          s := s.(present := s.present + 1, pmdPages := s.pmdPages + 1);
          if first {
            s := s.(pmdEntries := s.pmdEntries + 1, dirtyEntries := s.dirtyEntries + One(isDirty));
          }
        case PageHugePud =>
          var first := previous != Was(PageHugePud) || page == 0 || va % Span(3) == 0;
          s := s.(present := s.present + 1, pudPages := s.pudPages + 1);
          if first {
            s := s.(pudEntries := s.pudEntries + 1, dirtyEntries := s.dirtyEntries + One(isDirty));
          }
        case PageNone =>
          s := s.(none := s.none + 1);
      }
      previous := Was(state);
      assert s == Bump(v, page, before);
      CountsNext(v, page, before);
    }
  }

  lemma CountsNext(v: View, n: nat, s: Summary)
    requires Shaped(v) && n < |v.states| && Counts(v, n, s)
    ensures Counts(v, n + 1, Bump(v, n, s))
  {
    hide Slots, Span;
    StepAll(v, n);
  }

  lemma NoSlots(v: View)
    requires Shaped(v)
    ensures Counts(v, 0, Summary(0, 0, 0, 0, 0, 0, 0, 0))
  {
  }

  lemma StepAll(v: View, n: nat)
    requires Shaped(v) && n < |v.states|
    ensures forall s :: |Slots(n + 1, Is(v, s))| == |Slots(n, Is(v, s))| + One(v.states[n] == s)
    ensures |Slots(n + 1, First(v, PageHugePmd, 2))|
         == |Slots(n, First(v, PageHugePmd, 2))| + One(v.states[n] == PageHugePmd && FirstSlot(v, n, 2))
    ensures |Slots(n + 1, First(v, PageHugePud, 3))|
         == |Slots(n, First(v, PageHugePud, 3))| + One(v.states[n] == PageHugePud && FirstSlot(v, n, 3))
    ensures |Slots(n + 1, DirtyFirst(v))| == |Slots(n, DirtyFirst(v))| + One(v.dirty[n] && CountedLeaf(v, n))
  {
    hide Slots, Span;
    forall s ensures |Slots(n + 1, Is(v, s))| == |Slots(n, Is(v, s))| + One(v.states[n] == s) {
      SlotsStep(n, Is(v, s));
    }
    SlotsStep(n, First(v, PageHugePmd, 2));
    SlotsStep(n, First(v, PageHugePud, 3));
    SlotsStep(n, DirtyFirst(v));
  }
}
