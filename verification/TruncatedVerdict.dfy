/** What the check says about frames that were cut off at 31 nodes. */
module TruncatedVerdict {
  import opened Numbers
  import opened RbTree
  import opened Snapshot
  import opened TreeSnapshot
  import opened RbWalk
  import opened FrameVerdict
  import opened RunqueueVerdict

  /** The tree without what hangs below nodes that were not captured. */
  function Prune(t: Tree, kept: set<nat>): Tree {
    if t.Nil? || t.addr !in kept then Nil else Node(t.addr, t.red, Prune(t.left, kept), Prune(t.right, kept))
  }

  /** The first node down the left side that was not captured, or the last one. */
  function LeftEnd(t: Tree, kept: set<nat>): nat
    requires t.Node?
  {
    if t.addr !in kept || t.left.Nil? then t.addr else LeftEnd(t.left, kept)
  }

  /** The addresses a snapshot of the tree has room for. */
  function Kept(t: Tree): set<nat> {
    set u | u in LevelOrder(t)[..Min(MAX_NODES, |LevelOrder(t)|)] && u.Node? :: u.addr
  }

  /** The nodes of the frame say what memory says. */
  predicate Mirrors(m: Memory, g: Memory) {
    0 !in g && forall a <- g :: a in m && g[a] == m[a]
  }

  lemma {:induction false} PrunedUnfolds(m: Memory, g: Memory, a: nat, t: Tree)
    requires Holds(m, a, t) && Mirrors(m, g)
    ensures Unfolds(g, a, Prune(t, g.Keys))
    decreases t
  {
    if t.Node? && a in g {
      PrunedUnfolds(m, g, m[a].left, t.left);
      PrunedUnfolds(m, g, m[a].right, t.right);
    }
  }

  lemma {:induction false} PrunedSpine(m: Memory, g: Memory, a: nat, t: Tree) returns (k: nat)
    requires Holds(m, a, t) && Mirrors(m, g) && t.Node?
    ensures EndsAt(g, a, k) && Spine(g, a, k) == LeftEnd(t, g.Keys)
    decreases t
  {
    if a !in g || t.left.Nil? {
      k := 0;
    } else {
      var b := g[a].left;
      var j := PrunedSpine(m, g, b, t.left);
      k := j + 1;
      forall i: nat ensures Spine(g, a, i + 1) == Spine(g, b, i) { SpineDown(g, a, i); }
      forall i: nat | i < k ensures !AtEnd(g, Spine(g, a, i)) {
        if i > 0 {
          assert Spine(g, a, (i - 1) + 1) == Spine(g, b, i - 1);
        }
      }
    }
  }

  /** A snapshot of a tree, cut off or not, mirrors memory on the addresses there was room for. */
  lemma FrameKeeps(m: Memory, t: Tree, nodes: seq<Record>, truncated: bool)
    requires t.Node? && Holds(m, t.addr, t) && Captures(m, t.addr, nodes, truncated)
    ensures Mirrors(m, NodesOf(nodes)) && NodesOf(nodes).Keys == Kept(t)
  {
    hide Holds, NodesOf, Discovered, Explored, LevelOrder, Size;
    var g, o := NodesOf(nodes), LevelOrder(t);
    SnapshotIsLevelOrder(m, t, nodes, truncated);
    LevelOrderExplored(m, t);
    NodesFaithful(m, nodes);
    var n := |nodes|;
    assert n == Min(MAX_NODES, |o|);
    forall i | 0 <= i < n ensures Addresses(nodes)[i] == o[i].addr && o[i].addr != 0 && o[i].addr in m {
      assert nodes[i] == RecordOf(o[i]);
      HeldInMemory(m, o[i]);
    }
    forall a ensures a in g <==> a in Kept(t) {
      if a in g {
        var i :| 0 <= i < n && Addresses(nodes)[i] == a;
        assert o[..n][i].addr == a;
      }
      if a in Kept(t) {
        var u :| u in o[..n] && u.Node? && u.addr == a;
        var i :| 0 <= i < n && o[..n][i] == u;
        assert Addresses(nodes)[i] == a;
      }
    }
    forall a <- g ensures a in m && g[a] == m[a] {
      var i :| 0 <= i < n && Addresses(nodes)[i] == a;
    }
  }

  lemma HeldInMemory(m: Memory, t: Tree)
    requires t.Node? && Holds(m, t.addr, t)
    ensures t.addr != 0 && t.addr in m
  {
  }

  /**
   For a runqueue tree of any size, the check on its snapshot always returns, and accepts exactly when the
   tree as far as it was captured is red-black and the cached leftmost is where the captured left side ends.
   */
  lemma VerdictOnAnyRunqueue(m: Memory, t: Tree, leftmost: nat, nodes: seq<Record>, truncated: bool)
    requires t.Node? && Holds(m, t.addr, t) && Captures(m, t.addr, nodes, truncated)
    ensures Returns(Frame(NodesOf(nodes), t.addr, leftmost))
    ensures Accepted(Frame(NodesOf(nodes), t.addr, leftmost)) <==>
              GoodTree(Prune(t, Kept(t))) && (leftmost == 0 || leftmost == LeftEnd(t, Kept(t)))
  {
    hide Holds, NodesOf, Captures, Kept, GoodTree, Prune, LeftEnd, Mirrors, Accepted;
    FrameKeeps(m, t, nodes, truncated);
    var f := Frame(NodesOf(nodes), t.addr, leftmost);
    var cut := Prune(t, Kept(t));
    PrunedUnfolds(m, f.nodes, t.addr, t);
    var k := PrunedSpine(m, f.nodes, t.addr, t);
    assert f.nodes.Keys == Kept(t);
    var min := LeftEnd(t, Kept(t));
    assert IsMinimum(f.nodes, f.root, min);
    AcceptedWhen(f, cut, min);
  }

  // ---- a sound tree that is refused ------------------------------------------------------

  /** A full tree of n levels, all black, with addresses a, 2a, 2a + 1 and so on downwards. */
  function Full(n: nat, a: nat): Tree {
    if n == 0 then Nil else Node(a, false, Full(n - 1, 2 * a), Full(n - 1, 2 * a + 1))
  }

  /** Memory that holds the full tree of seven levels at address 1. */
  function FullMemory(): Memory {
    map a: nat | 1 <= a < 128 :: if a < 64 then Cell(2 * a, 2 * a + 1, false) else Cell(0, 0, false)
  }

  lemma {:induction false} FullHeld(n: nat, a: nat)
    requires 0 < n <= 7 && Pow2(7 - n) <= a < Pow2(8 - n)
    ensures Holds(FullMemory(), a, Full(n, a))
  {
    hide Pow2;
    RangeBelow(n, a);
    if n > 1 {
      FullHeld(n - 1, 2 * a);
      FullHeld(n - 1, 2 * a + 1);
    } else {
      assert Full(0, 2 * a) == Nil && Full(0, 2 * a + 1) == Nil;
    }
  }

  lemma RangeBelow(n: nat, a: nat)
    requires 0 < n <= 7 && Pow2(7 - n) <= a < Pow2(8 - n)
    ensures 1 <= a < 128 && (n == 1 <==> a >= 64)
    ensures n > 1 ==> Pow2(7 - (n - 1)) <= 2 * a && 2 * a + 1 < Pow2(8 - (n - 1))
  {
    PowersOfTwo();
  }

  lemma PowersOfTwo()
    ensures Pow2(0) == 1 && Pow2(1) == 2 && Pow2(2) == 4 && Pow2(3) == 8 && Pow2(4) == 16 && Pow2(5) == 32
    ensures Pow2(6) == 64 && Pow2(7) == 128
  {
  }

  lemma {:induction false} FullBlackHeight(n: nat, a: nat)
    ensures BlackHeight(Full(n, a), n) && NoRedRed(Full(n, a)) && !IsRed(Full(n, a)) && Depth(Full(n, a)) == n
  {
    if n > 0 {
      FullBlackHeight(n - 1, 2 * a);
      FullBlackHeight(n - 1, 2 * a + 1);
      var t := Full(n, a);
      assert BlackCounts(t.left) + BlackCounts(t.right) == {n - 1};
      assert n - 1 + Blacks(t) in BlackCounts(t);
    }
  }

  lemma {:induction false} FullFirst(n: nat, a: nat)
    requires n > 0
    ensures Inorder(Full(n, a)) != [] && Inorder(Full(n, a))[0] == a * Pow2(n - 1)
  {
    if n > 1 {
      FullFirst(n - 1, 2 * a);
      assert 2 * a * Pow2(n - 2) == a * Pow2(n - 1);
    }
  }

  /** Level k of a full tree has 2^k nodes, starting with a * 2^k and below (a + 1) * 2^k. */
  predicate LevelOf(s: seq<Tree>, a: nat, k: nat) {
    && |s| == Pow2(k) && |s| > 0 && s[0].Node? && s[0].addr == a * Pow2(k)
    && forall i :: 0 <= i < |s| && s[i].Node? ==> s[i].addr < (a + 1) * Pow2(k)
  }

  lemma {:induction false} FullLevel(n: nat, a: nat, k: nat)
    requires k < n
    ensures LevelOf(Level(Full(n, a), k), a, k)
  {
    hide Level, LevelOf;
    LevelTop(Full(n, a));
    if k == 0 {
      OneLevel(Full(n, a), a);
    } else {
      FullLevel(n - 1, 2 * a, k - 1);
      FullLevel(n - 1, 2 * a + 1, k - 1);
      LevelStep(Full(n, a), k);
      TwoHalves(Level(Full(n - 1, 2 * a), k - 1), Level(Full(n - 1, 2 * a + 1), k - 1), a, k);
    }
  }

  lemma OneLevel(t: Tree, a: nat)
    requires t.Node? && t.addr == a
    ensures LevelOf([t], a, 0)
  {
  }

  lemma TwoHalves(l: seq<Tree>, r: seq<Tree>, a: nat, k: nat)
    requires k > 0 && LevelOf(l, 2 * a, k - 1) && LevelOf(r, 2 * a + 1, k - 1)
    ensures LevelOf(l + r, a, k)
  {
    var p := Pow2(k - 1);
    Doubles(a, k);
    forall i | 0 <= i < |l + r| && (l + r)[i].Node?
      ensures (l + r)[i].addr < (a + 1) * Pow2(k)
    {
      assert (l + r)[i] == if i < |l| then l[i] else r[i - |l|];
    }
  }

  lemma Doubles(a: nat, k: nat)
    requires k > 0
    ensures Pow2(k) == 2 * Pow2(k - 1) && 2 * a * Pow2(k - 1) == a * Pow2(k)
    ensures (2 * a + 1) * Pow2(k - 1) <= (2 * a + 1 + 1) * Pow2(k - 1) == (a + 1) * Pow2(k)
  {
    var p := Pow2(k - 1);
    assert 2 * a * p == a * (2 * p);
    assert (2 * a + 2) * p == (a + 1) * (2 * p);
    assert (2 * a + 2) * p == (2 * a + 1) * p + p;
  }

  /** The first h levels of a full tree: 2^h - 1 nodes, all addresses below 2^h, the left side among them. */
  lemma {:induction false} FullLevels(n: nat, h: nat)
    requires h <= n
    ensures |Levels(Full(n, 1), h)| == Pow2(h) - 1
    ensures forall u :: u in Levels(Full(n, 1), h) && u.Node? ==> u.addr < Pow2(h)
    ensures forall k :: 0 <= k < h ==> exists u :: u in Levels(Full(n, 1), h) && u.Node? && u.addr == Pow2(k)
  {
    hide Level, Full;
    if h > 0 {
      FullLevels(n, h - 1);
      FullLevel(n, 1, h - 1);
      assert 1 * Pow2(h - 1) == Pow2(h - 1) && (1 + 1) * Pow2(h - 1) == Pow2(h);
      LevelsNext(Full(n, 1), h - 1);
      forall k | 0 <= k < h
        ensures exists u :: u in Levels(Full(n, 1), h) && u.Node? && u.addr == Pow2(k)
      {
        if k == h - 1 {
          var u := Level(Full(n, 1), h - 1)[0];
          assert u in Levels(Full(n, 1), h) && u.addr == Pow2(k);
        } else {
          var u :| u in Levels(Full(n, 1), h - 1) && u.Node? && u.addr == Pow2(k);
          assert u in Levels(Full(n, 1), h);
        }
      }
    }
  }

  lemma {:induction false} LevelsPrefix(t: Tree, h: nat, h': nat)
    requires h <= h'
    ensures Levels(t, h) <= Levels(t, h')
  {
    hide Level;
    if h < h' {
      LevelsPrefix(t, h, h' - 1);
    }
  }

  /** The snapshot of the full tree of seven levels is its first five levels. */
  lemma FullKept()
    ensures forall k :: 0 <= k < 5 ==> Pow2(k) in Kept(Full(7, 1))
    ensures 32 !in Kept(Full(7, 1))
  {
    hide Level, Levels, Full;
    var t := Full(7, 1);
    PowersOfTwo();
    FullBlackHeight(7, 1);
    FullLevels(7, 5);
    FullLevels(7, 7);
    LevelsPrefix(t, 5, 7);
    assert LevelOrder(t)[..31] == Levels(t, 5);
    forall k | 0 <= k < 5 ensures Pow2(k) in Kept(t) {
      var u :| u in Levels(t, 5) && u.Node? && u.addr == Pow2(k);
    }
  }

  lemma {:induction false} FullLeftEnd(n: nat, k: nat, kept: set<nat>)
    requires k + n == 7 && 1 < n && k <= 5 && 32 !in kept && forall i :: 0 <= i < 5 ==> Pow2(i) in kept
    ensures LeftEnd(Full(n, Pow2(k)), kept) == 32
    decreases n
  {
    PowersOfTwo();
    var t := Full(n, Pow2(k));
    if k < 5 {
      assert t.left == Full(n - 1, Pow2(k + 1));
      FullLeftEnd(n - 1, k + 1, kept);
    }
  }

  /**
   A red-black tree with the right cached leftmost that is refused: it has seven levels, five fit, and the
   captured left side ends one level above the leftmost node.
   */
  lemma SoundTreeRefused(nodes: seq<Record>, truncated: bool)
    requires Captures(FullMemory(), 1, nodes, truncated)
    ensures Holds(FullMemory(), 1, Full(7, 1)) && RedBlack(Full(7, 1), 7) && Inorder(Full(7, 1))[0] == 64
    ensures !Accepted(Frame(NodesOf(nodes), 1, 64)) && Returns(Frame(NodesOf(nodes), 1, 64))
  {
    hide Captures, FullMemory, NodesOf, Kept, Full, NoRedRed, Prune, LeftEnd,
          Accepted, Returns, BlackHeight, Holds, Inorder;
    PowersOfTwo();
    FullHeld(7, 1);
    FullBlackHeight(7, 1);
    FullFirst(7, 1);
    FullKept();
    FullLeftEnd(7, 0, Kept(Full(7, 1)));
    FullTop(7, 1);
    VerdictOnAnyRunqueue(FullMemory(), Full(7, 1), 64, nodes, truncated);
  }

  lemma FullTop(n: nat, a: nat)
    requires n > 0
    ensures Full(n, a).Node? && Full(n, a).addr == a
  {
  }

  // ---- a capture on which the check does not return ----------------------------------------

  const LOOP: Memory := map[1 := Cell(1, 0, false)]

  function Copies(n: nat): seq<Record> {
    seq(n, _ => Record(1, 1, 0, false))
  }

  lemma {:induction false} LoopDiscovered(n: nat)
    ensures Discovered(LOOP, 1, Addresses(Copies(n))) == Addresses(Copies(n + 1))
  {
    if n > 0 {
      LoopDiscovered(n - 1);
      assert Addresses(Copies(n))[..n - 1] == Addresses(Copies(n - 1));
      assert Children(LOOP, 1) == [1];
      assert Addresses(Copies(n)) + [1] == Addresses(Copies(n + 1));
    } else {
      assert Addresses(Copies(0)) == [] && Addresses(Copies(1)) == [1];
    }
  }

  lemma {:induction false} LoopNodes(n: nat)
    ensures NodesOf(Copies(n)) == if n == 0 then map[] else LOOP
  {
    if n > 0 {
      LoopNodes(n - 1);
      assert Copies(n)[..n - 1] == Copies(n - 1);
    }
  }

  /**
   A node that is its own left child is captured 31 times over and marked truncated, and with any cached
   leftmost the check on that frame never returns.
   */
  lemma CapturedLoopDiverges(leftmost: nat)
    requires leftmost != 0
    ensures Captures(LOOP, 1, Copies(MAX_NODES), true)
    ensures !Returns(Frame(NodesOf(Copies(MAX_NODES)), 1, leftmost))
  {
    hide Discovered, NodesOf, SpineEnds;
    var s := Addresses(Copies(MAX_NODES));
    LoopDiscovered(MAX_NODES);
    forall k | 0 <= k < |s| ensures NextVisited(LOOP, 1, s[..k], s[k]) {
      LoopDiscovered(k);
      assert s[..k] == Addresses(Copies(k));
    }
    LoopNodes(MAX_NODES);
    SelfLoopDiverges(0);
  }
}
