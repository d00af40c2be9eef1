/** The verdict on a frame, and the verdict on a runqueue from its snapshot. */
module FrameVerdict {
  import opened Numbers
  import opened RbTree
  import opened RbWalk

  // ---- the structural minimum ------------------------------------------------------------

  /** The node k steps down the left side. */
  function Spine(g: Memory, a: nat, k: nat): nat {
    if k == 0 then a
    else
      var p := Spine(g, a, k - 1);
      if Off(g, p) then 0 else g[p].left
  }

  predicate AtEnd(g: Memory, p: nat) {
    Off(g, p) || g[p].left == 0
  }

  /** The descent to the left stops. */
  ghost predicate SpineEnds(g: Memory, a: nat) {
    exists k: nat :: AtEnd(g, Spine(g, a, k))
  }

  ghost predicate EndsAt(g: Memory, a: nat, k: nat) {
    AtEnd(g, Spine(g, a, k)) && forall j: nat :: j < k ==> !AtEnd(g, Spine(g, a, j))
  }

  /** The node the descent to the left stops at. */
  ghost predicate IsMinimum(g: Memory, a: nat, p: nat) {
    exists k: nat :: EndsAt(g, a, k) && p == Spine(g, a, k)
  }

  lemma {:induction false} FirstEnd(g: Memory, a: nat, n: nat) returns (k: nat)
    requires AtEnd(g, Spine(g, a, n))
    ensures EndsAt(g, a, k) && k <= n
  {
    if j: nat :| j < n && AtEnd(g, Spine(g, a, j)) {
      k := FirstEnd(g, a, j);
    } else {
      k := n;
    }
  }

  lemma OneMinimum(g: Memory, a: nat, p: nat, p': nat)
    requires IsMinimum(g, a, p) && IsMinimum(g, a, p')
    ensures p == p'
  {
    hide Spine, AtEnd;
    var k: nat :| EndsAt(g, a, k) && p == Spine(g, a, k);
    var k': nat :| EndsAt(g, a, k') && p' == Spine(g, a, k');
    assert k == k';
  }

  method StructuralMinimum(g: Memory, root: nat) returns (min: nat)
    requires SpineEnds(g, root)
    ensures IsMinimum(g, root, min)
  {
    ghost var n: nat :| AtEnd(g, Spine(g, root, n));
    ghost var k: nat := 0;
    min := root;
    while min != 0 && min in g && g[min].left != 0
      invariant k <= n && min == Spine(g, root, k)
      invariant forall j: nat :: j < k ==> !AtEnd(g, Spine(g, root, j))
      decreases n - k
    {
      assert k != n;
      min := g[min].left;
      k := k + 1;
    }
    assert EndsAt(g, root, k);
  }

  lemma {:induction false} SpineShift(g: Memory, a: nat, i: nat, j: nat, d: nat)
    requires Spine(g, a, i) == Spine(g, a, j)
    ensures Spine(g, a, i + d) == Spine(g, a, j + d)
  {
    if d > 0 {
      SpineShift(g, a, i, j, d - 1);
      SpineNext(g, a, i + d - 1);
      SpineNext(g, a, j + d - 1);
    }
  }

  lemma SpineNext(g: Memory, a: nat, k: nat)
    ensures var p := Spine(g, a, k); Spine(g, a, k + 1) == if Off(g, p) then 0 else g[p].left
  {
  }

  /** More indices than values: two of them share a value. */
  lemma {:induction false} Pigeonhole(s: seq<nat>, values: set<nat>)
    requires |s| > |values| && forall i :: 0 <= i < |s| ==> s[i] in values
    ensures exists i, j :: 0 <= i < j < |s| && s[i] == s[j]
    decreases |s|
  {
    var n := |s| - 1;
    if i :| 0 <= i < n && s[i] == s[n] {
    } else {
      var rest := s[..n];
      Pigeonhole(rest, values - {s[n]});
      var i, j :| 0 <= i < j < |rest| && rest[i] == rest[j];
      assert s[i] == s[j];
    }
  }

  /** The descent has stopped after at most n steps. */
  ghost predicate EndsWithin(g: Memory, a: nat, n: nat) {
    exists k: nat :: k <= n && AtEnd(g, Spine(g, a, k))
  }

  lemma {:induction false} FirstEndIsSoon(g: Memory, a: nat, k: nat)
    requires EndsAt(g, a, k)
    ensures k <= |g|
  {
    hide Spine;
    if k > |g| {
      var s := seq(k, i requires 0 <= i < k => Spine(g, a, i));
      forall i | 0 <= i < |s| ensures s[i] in g.Keys {
        assert !AtEnd(g, Spine(g, a, i));
      }
      assert |g.Keys| == |g|;
      Pigeonhole(s, g.Keys);
      var i: nat, j: nat :| 0 <= i < j < |s| && s[i] == s[j];
      SpineShift(g, a, i, j, k - j);
    }
  }

  /** The descent stops if and only if it stops within as many steps as there are nodes. */
  lemma SpineEndsSoon(g: Memory, a: nat)
    ensures SpineEnds(g, a) <==> EndsWithin(g, a, |g|)
  {
    hide Spine, AtEnd;
    if SpineEnds(g, a) {
      var n: nat :| AtEnd(g, Spine(g, a, n));
      var k := FirstEnd(g, a, n);
      FirstEndIsSoon(g, a, k);
      assert AtEnd(g, Spine(g, a, k));
    }
  }

  /** One node that is its own left child: the descent never stops. */
  lemma SelfLoopDiverges(k: nat)
    ensures Spine(map[1 := Cell(1, 0, false)], 1, k) == 1
    ensures !SpineEnds(map[1 := Cell(1, 0, false)], 1)
  {
    var g := map[1 := Cell(1, 0, false)];
    LoopSpine(k);
    forall j: nat ensures !AtEnd(g, Spine(g, 1, j)) { LoopSpine(j); }
  }

  lemma {:induction false} LoopSpine(k: nat)
    ensures Spine(map[1 := Cell(1, 0, false)], 1, k) == 1
  {
    if k > 0 {
      LoopSpine(k - 1);
    }
  }

  // ---- minimum of a tree -----------------------------------------------------------------

  function Inorder(t: Tree): seq<nat> {
    if t.Nil? then [] else Inorder(t.left) + [t.addr] + Inorder(t.right)
  }

  /** Every child pointer leads to a captured node. */
  predicate NoDangling(g: Memory) {
    forall a <- g :: (g[a].left != 0 ==> g[a].left in g) && (g[a].right != 0 ==> g[a].right in g)
  }

  lemma {:induction false} TreeSpine(g: Memory, a: nat, t: Tree) returns (k: nat)
    requires Unfolds(g, a, t)
    ensures EndsAt(g, a, k)
    ensures NoDangling(g) && t.Node? && 0 !in g ==> Spine(g, a, k) == Inorder(t)[0]
    decreases t
  {
    if t.Nil? || g[a].left == 0 {
      k := 0;
    } else {
      var b := g[a].left;
      var j := TreeSpine(g, b, t.left);
      k := j + 1;
      forall i: nat ensures Spine(g, a, i + 1) == Spine(g, b, i) { SpineDown(g, a, i); }
      forall i: nat | i < k ensures !AtEnd(g, Spine(g, a, i)) {
        if i > 0 {
          assert Spine(g, a, (i - 1) + 1) == Spine(g, b, i - 1);
        }
      }
    }
  }

  lemma {:induction false} SpineDown(g: Memory, a: nat, k: nat)
    requires !Off(g, a)
    ensures Spine(g, a, k + 1) == Spine(g, g[a].left, k)
  {
    if k > 0 {
      SpineDown(g, a, k - 1);
    }
  }

  /** In a frame with every child captured, the minimum of a tree is the first node in order. */
  lemma MinimumIsFirst(g: Memory, a: nat, t: Tree, p: nat)
    requires NoDangling(g) && 0 !in g && Unfolds(g, a, t) && t.Node?
    ensures IsMinimum(g, a, p) <==> p == Inorder(t)[0]
  {
    var k := TreeSpine(g, a, t);
    assert IsMinimum(g, a, Spine(g, a, k));
    if IsMinimum(g, a, p) {
      OneMinimum(g, a, p, Spine(g, a, k));
    }
  }

  // ---- the verdict -----------------------------------------------------------------------

  datatype Report = Report(rootBlack: bool, red: bool, bh: bool, height: nat, leftmost: bool, ok: bool)

  datatype Outcome = Throws | Reported(report: Report)

  /** What the walk keeps while it runs. */
  class Walker {
    var seen: set<nat>
    var redOk: bool
    var bhOk: bool
    var cycle: bool

    constructor ()
      ensures K() == Marks({}, true, true, false)
    {
      seen, redOk, bhOk, cycle := {}, true, true, false;
    }

    function K(): Marks
      reads this
    {
      Marks(seen, redOk, bhOk, cycle)
    }

    method WalkFrom(g: Memory, a: nat, parentRed: bool) returns (height: nat)
      modifies this
      ensures Walked(height, K()) == Walk(g, a, parentRed, old(K()))
      decreases |g.Keys - seen|
    {
      hide Walk;
      ghost var k := K();
      WalkOff(g, a, parentRed, k);
      if a == 0 || a !in g {
        return 1;
      }
      if a in seen {
        cycle := true;
        return 0;
      }
      WalkStep(g, a, parentRed, k);
      EnterFewer(g, a, k, g[a].red, parentRed);
      seen := seen + {a};
      var node := g[a];
      if node.red && parentRed {
        redOk := false;
      }
      assert K() == Enter(k, a, g[a].red, parentRed);
      var left := WalkFrom(g, node.left, node.red);
      SeenGrows(g, node.left, node.red, Enter(k, a, g[a].red, parentRed));
      FewerOrSame(g.Keys - seen, g.Keys - (k.seen + {a}));
      var right := WalkFrom(g, node.right, node.red);
      if left != right {
        bhOk := false;
      }
      height := left + (if node.red then 0 else 1);
    }
  }

  lemma SeenGrows(g: Memory, a: nat, parentRed: bool, k: Marks)
    ensures k.seen <= Walk(g, a, parentRed, k).marks.seen
  {
  }

  ghost predicate LeftmostGood(f: Frame) {
    f.leftmost == 0 || IsMinimum(f.nodes, f.root, f.leftmost)
  }

  /** What verifyFrame needs to return at all: a descent to the left, if it makes one, that stops. */
  ghost predicate Returns(f: Frame) {
    f.leftmost == 0 || (f.root != 0 && f.root !in f.nodes) || SpineEnds(f.nodes, f.root)
  }

  /** What the clean walk from the root says. */
  lemma WalkVerdict(f: Frame, w: Walked)
    requires w == Walk(f.nodes, f.root, false, Marks({}, true, true, false))
    ensures !w.marks.cycle <==> exists t :: IsTree(f.nodes, f.root, t)
    ensures forall t :: IsTree(f.nodes, f.root, t) ==>
              && (w.marks.redOk <==> NoRedRed(t))
              && (forall h: nat :: BlackHeight(t, h) <==> w.marks.bhOk && w.height == h + 1)
    ensures !w.marks.cycle ==> w.height > 0
    ensures forall t :: IsTree(f.nodes, f.root, t) ==> w.height == LeftBlacks(t)
  {
    hide Walk, IsTree, NoRedRed, Even, BlackHeight, LeftBlacks;
    var k := Marks({}, true, true, false);
    if !w.marks.cycle {
      var t := WalkFinds(f.nodes, f.root, false, k);
    }
    forall t | IsTree(f.nodes, f.root, t)
      ensures !w.marks.cycle && w.height > 0 && w.height == LeftBlacks(t) && (w.marks.redOk <==> NoRedRed(t))
      ensures forall h: nat :: BlackHeight(t, h) <==> w.marks.bhOk && w.height == h + 1
    {
      WalkTree(f.nodes, f.root, false, k, t);
      SomeBlackCount(t);
      forall h: nat ensures BlackHeight(t, h) <==> w.marks.bhOk && w.height == h + 1 {
        EvenIsBlackHeight(t, h);
      }
    }
  }

  /**
   The check accepts exactly the frames whose reachable nodes form a red-black tree with the right
   cached leftmost; it throws exactly when the root was not captured.
   */
  method VerifyFrame(f: Frame) returns (o: Outcome)
    requires Returns(f)
    ensures o.Throws? <==> f.root != 0 && f.root !in f.nodes
    ensures o.Reported? ==> (o.report.rootBlack <==> f.root == 0 || !f.nodes[f.root].red)
    ensures o.Reported? ==> forall t :: IsTree(f.nodes, f.root, t) ==> (o.report.rootBlack <==> !IsRed(t))
    ensures o.Reported? ==> (o.report.red <==> exists t :: IsTree(f.nodes, f.root, t) && NoRedRed(t))
    ensures o.Reported? ==> (o.report.bh <==> exists t, h :: IsTree(f.nodes, f.root, t) && BlackHeight(t, h))
    ensures o.Reported? ==> (o.report.leftmost <==> LeftmostGood(f))
    ensures o.Reported? ==>
              (o.report.ok <==> (exists t, h :: IsTree(f.nodes, f.root, t) && RedBlack(t, h)) && LeftmostGood(f))
    ensures o.Reported? && o.report.bh ==>
              exists t :: IsTree(f.nodes, f.root, t) && BlackHeight(t, o.report.height)
    ensures o.Reported? && o.report.ok ==>
              exists t :: IsTree(f.nodes, f.root, t) && RedBlack(t, o.report.height) && Depth(t) <= 2 * o.report.height
    ensures o.Reported? ==> forall t :: IsTree(f.nodes, f.root, t) ==> o.report.height + 1 == LeftBlacks(t)
    ensures o.Reported? && o.report.ok ==> |f.nodes| >= Pow2(o.report.height) - 1
  {
    hide Walk, IsTree, NoRedRed, BlackHeight, SpineEnds, IsMinimum;
    var walker := new Walker();
    var height := walker.WalkFrom(f.nodes, f.root, false);
    ghost var w := Walked(height, walker.K());
    WalkVerdict(f, w);
    if f.root != 0 && f.root !in f.nodes {
      return Throws;
    }
    var rootBlack := f.root == 0 || !f.nodes[f.root].red;
    RootColour(f);
    var leftmost := f.leftmost == 0;
    if !leftmost {
      var min := StructuralMinimum(f.nodes, f.root);
      MinimumDecides(f.nodes, f.root, min, f.leftmost);
      leftmost := f.leftmost == min;
    }
    o := Reported(Report(rootBlack, walker.redOk && !walker.cycle, walker.bhOk && !walker.cycle,
                         if height == 0 then 0 else height - 1, leftmost,
                         rootBlack && walker.redOk && walker.bhOk && !walker.cycle && leftmost));
    if !w.marks.cycle {
      ghost var t :| IsTree(f.nodes, f.root, t);
      if w.marks.bhOk {
        assert BlackHeight(t, o.report.height);
        if rootBlack && w.marks.redOk {
          assert RedBlack(t, o.report.height);
          GoodFrameIsShallow(f, t, o.report.height);
        }
      }
    }
  }

  /** A frame that holds a red-black tree has the nodes its black height asks for, and few levels. */
  lemma GoodFrameIsShallow(f: Frame, t: Tree, h: nat)
    requires IsTree(f.nodes, f.root, t) && RedBlack(t, h)
    ensures |f.nodes| >= Pow2(h) - 1 && Depth(t) <= 2 * h
  {
    RedBlackIsShallow(t, h);
    SizeIsAddrs(t);
    AddrsCaptured(f.nodes, f.root, t);
    FewerOrSame(Addrs(t), f.nodes.Keys);
    assert |f.nodes.Keys| == |f.nodes|;
  }

  lemma {:induction false} AddrsCaptured(g: Memory, a: nat, t: Tree)
    requires Unfolds(g, a, t)
    ensures Addrs(t) <= g.Keys
    decreases t
  {
    if t.Node? {
      AddrsCaptured(g, g[a].left, t.left);
      AddrsCaptured(g, g[a].right, t.right);
    }
  }

  lemma RootColour(f: Frame)
    requires f.root == 0 || f.root in f.nodes
    ensures forall t :: IsTree(f.nodes, f.root, t) ==> (IsRed(t) <==> f.root != 0 && f.nodes[f.root].red)
  {
  }

  lemma MinimumDecides(g: Memory, a: nat, min: nat, p: nat)
    requires IsMinimum(g, a, min)
    ensures p == min <==> IsMinimum(g, a, p)
  {
    if IsMinimum(g, a, p) {
      OneMinimum(g, a, min, p);
    }
  }
}
