/** The page-cache scan: which XArray slots hold a folio's own entry, and what is counted about them. */
module XArray {
  import opened Numbers

  const CHUNK: nat := 64
  const SLOTS: nat := 4096
  const ORDERS: nat := 10

  // ---- entries and nodes -----------------------------------------------------------------

  predicate IsValue(e: nat) { e % 2 == 1 }

  predicate IsInternal(e: nat) { e % 4 == 2 }

  predicate IsNode(e: nat) { IsInternal(e) && e > 4096 }

  predicate IsSibling(e: nat) { IsInternal(e) && e < 63 * 4 + 2 }

  /** A folio pointer: neither empty, nor a value, nor internal. */
  predicate IsFolio(e: nat) { e != 0 && !IsValue(e) && !IsInternal(e) }

  datatype Node = Node(shift: nat, slots: seq<nat>)

  type Heap = map<nat, Node>

  /** A node's slot; what cannot be read is zero. */
  function Slot(h: Heap, entry: nat, k: nat): nat {
    var a := entry - 2;
    if a in h && k < |h[a].slots| then h[a].slots[k] else 0
  }

  function Shift(h: Heap, entry: nat): nat {
    var a := entry - 2;
    if a in h then h[a].shift else 0
  }

  // ---- the array as the kernel reads it ----------------------------------------------------

  /** The slot that holds a slot's entry: a sibling entry names another slot of the same node. */
  function Owner(h: Heap, node: nat, k: nat): nat {
    var e := Slot(h, node, k);
    if IsSibling(e) then e / 4 else k
  }

  /** The slot number at which the entry serving an index is stored. */
  function Home(h: Heap, head: nat, index: nat): nat {
    if !IsNode(head) then 0
    else if Shift(h, head) == 0 then Owner(h, head, index)
    else
      var k := Owner(h, head, index / CHUNK);
      var e := Slot(h, head, k);
      if IsNode(e) then k * CHUNK + Owner(h, e, index % CHUNK) else k * CHUNK
  }

  /** The entry that serves an index, siblings resolved. */
  function Load(h: Heap, head: nat, index: nat): nat {
    if !IsNode(head) then (if index == 0 then head else 0)
    else if Shift(h, head) == 0 then (if index < CHUNK then Slot(h, head, Owner(h, head, index)) else 0)
    else
      var e := Slot(h, head, Owner(h, head, index / CHUNK));
      if IsNode(e) then Slot(h, e, Owner(h, e, index % CHUNK)) else e
  }

  /** Sibling entries of a node name a slot with an entry of its own, and not a further node. */
  predicate GoodSiblings(h: Heap, node: nat) {
    forall k :: 0 <= k < CHUNK && IsSibling(Slot(h, node, k)) ==>
      var e := Slot(h, node, Owner(h, node, k));
      !IsInternal(e)
  }

  /**
   An XArray with a single entry or a root of shift 0 or 6, as the kernel builds it: good siblings, and
   each folio stored once.
   */
  ghost predicate Sound(h: Heap, head: nat) {
    && (IsNode(head) ==> (Shift(h, head) == 0 || Shift(h, head) == 6) && GoodSiblings(h, head))
    && (IsNode(head) && Shift(h, head) == 6 ==>
          forall k :: 0 <= k < CHUNK && IsNode(Slot(h, head, k)) ==> GoodSiblings(h, Slot(h, head, k)))
    && (forall i, j :: 0 <= i < SLOTS && 0 <= j < SLOTS && IsFolio(Load(h, head, i))
                       && Load(h, head, i) == Load(h, head, j) ==>
          Home(h, head, i) == Home(h, head, j))
  }

  /** The folios the page cache holds. */
  ghost function Stored(h: Heap, head: nat): set<nat> {
    set i: nat | i < SLOTS && IsFolio(Load(h, head, i)) :: Load(h, head, i)
  }

  // ---- the scan ----------------------------------------------------------------------------

  const MAX_DEPTH: nat := 4

  /** The bounded lookup of one slot number in a deeper tree; a sibling on the way ends it. */
  function PointLookup(h: Heap, e: nat, slot: nat, depth: nat): nat
    decreases depth
  {
    if depth == 0 || !IsNode(e) then e
    else
      var next := Slot(h, e, slot / Pow2(Shift(h, e)) % CHUNK);
      if IsSibling(next) then 0 else PointLookup(h, next, slot, depth - 1)
  }

  /** The entry the scan takes from a slot number; 0 for none. */
  function Taken(h: Heap, head: nat, slot: nat): (r: nat)
    ensures r != 0 ==> IsFolio(r)
  {
    var e :=
      if head == 0 || IsValue(head) then 0
      else if !IsNode(head) then (if slot != 0 then 0 else head)
      else if Shift(h, head) == 0 then (if slot >= CHUNK then 0 else Slot(h, head, slot))
      else if Shift(h, head) != 6 then PointLookup(h, head, slot, MAX_DEPTH)
      else
        var root := Slot(h, head, slot / CHUNK);
        if root == 0 || IsValue(root) || IsSibling(root) then 0
        else if IsNode(root) then Slot(h, root, slot % CHUNK)
        else if slot % CHUNK != 0 then 0
        else root;
    if IsFolio(e) then e else 0
  }

  /** The scan takes an index's entry exactly at the slot where that entry is stored. */
  lemma TakenAtHome(h: Heap, head: nat, slot: nat)
    requires Sound(h, head) && slot < SLOTS
    ensures Taken(h, head, slot) ==
            if IsFolio(Load(h, head, slot)) && Home(h, head, slot) == slot then Load(h, head, slot) else 0
  {
    hide Slot, Shift;
    if IsNode(head) && Shift(h, head) == 6 {
      var k, j := slot / CHUNK, slot % CHUNK;
      var root := Slot(h, head, k);
      assert k * CHUNK + j == slot;
      if IsNode(root) {
        assert GoodSiblings(h, root);
      }
    }
  }

  /** Every stored folio is taken at its home. */
  lemma StoredIsTaken(h: Heap, head: nat, index: nat)
    requires Sound(h, head) && index < SLOTS && IsFolio(Load(h, head, index))
    ensures Home(h, head, index) < SLOTS && Taken(h, head, Home(h, head, index)) == Load(h, head, index)
  {
    hide Slot, Shift;
    if IsNode(head) && Shift(h, head) == 6 {
      var k := Owner(h, head, index / CHUNK);
      var e := Slot(h, head, k);
      if IsNode(e) {
        var home := k * CHUNK + Owner(h, e, index % CHUNK);
        assert home / CHUNK == k && home % CHUNK == Owner(h, e, index % CHUNK);
      }
    }
  }

  /** Above shift 6 the count-once claim ends: a folio in the first slot of a shift-12 root is taken at every slot. */
  lemma DeepFolioTakenOften(slot: nat)
    requires slot < SLOTS
    ensures Taken(map[0x10000 := Node(12, [0x20000])], 0x10002, slot) == 0x20000
  {
    var h: Heap := map[0x10000 := Node(12, [0x20000])];
    assert Pow2(2) == 4 && Pow2(4) == 16 && Pow2(8) == 256 && Pow2(12) == 4096;
    assert slot / 4096 % CHUNK == 0;
    assert Slot(h, 0x10002, 0) == 0x20000;
    assert PointLookup(h, 0x20000, slot, 3) == 0x20000;
  }
}
