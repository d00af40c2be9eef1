/** From the tree in memory, through the snapshot, to the verdict on the frame. */
module RunqueueVerdict {
  import opened RbTree
  import opened Snapshot
  import opened TreeSnapshot
  import opened RbWalk
  import opened FrameVerdict

  /** The frame's nodes by address, as the capture lists them. */
  function NodesOf(nodes: seq<Record>): Memory {
    if nodes == [] then map[]
    else
      var r := nodes[|nodes| - 1];
      if r.addr == 0 then NodesOf(nodes[..|nodes| - 1])
      else NodesOf(nodes[..|nodes| - 1])[r.addr := Cell(r.left, r.right, r.red)]
  }

  lemma {:induction false} NodesFaithful(m: Memory, nodes: seq<Record>)
    requires forall i :: 0 <= i < |nodes| ==> nodes[i] == Describe(m, nodes[i].addr)
    ensures forall a :: a in NodesOf(nodes) <==> a != 0 && a in Addresses(nodes)
    ensures forall a <- NodesOf(nodes) :: NodesOf(nodes)[a] == Read(m, a)
  {
    if nodes != [] {
      var n := |nodes| - 1;
      NodesFaithful(m, nodes[..n]);
      assert Addresses(nodes) == Addresses(nodes[..n]) + [nodes[n].addr];
    }
  }

  // ---- an untruncated snapshot has no cycle ----------------------------------------------

  /** A child is discovered after its parent is visited, so it is listed later. */
  lemma ChildrenComeLater(m: Memory, root: nat, s: seq<nat>, k: nat, c: nat)
    requires Explored(m, root, s) && s == Discovered(m, root, s)
    requires k < |s| && c in Children(m, s[k])
    ensures exists j :: k < j < |s| && s[j] == c
  {
    hide Discovered, Children, Explored;
    var before := Discovered(m, root, s[..k]);
    NotFurther(m, root, s, k);
    assert s[..k + 1] == s[..k] + [s[k]];
    NextDiscovered(m, root, s[..k], s[k]);
    DiscoveredPrefix(m, root, s, k + 1);
    FoundAfter(before, Children(m, s[k]), s, c);
  }

  lemma FoundAfter(a: seq<nat>, b: seq<nat>, s: seq<nat>, c: nat)
    requires a + b <= s && c in b
    ensures exists j :: |a| <= j < |s| && s[j] == c
  {
    var i :| 0 <= i < |b| && b[i] == c;
    assert (a + b)[|a| + i] == c;
    assert s[|a| + i] == c;
  }

  lemma NextDiscovered(m: Memory, root: nat, s: seq<nat>, a: nat)
    ensures Discovered(m, root, s + [a]) == Discovered(m, root, s) + Children(m, a)
  {
    assert (s + [a])[..|s|] == s;
  }

  lemma {:induction false} FiniteBelow(m: Memory, root: nat, s: seq<nat>, g: Memory, k: nat) returns (t: Tree)
    requires Explored(m, root, s) && s == Discovered(m, root, s) && k < |s|
    requires forall a <- g :: g[a] == Read(m, a)
    ensures Unfolds(g, s[k], t)
    decreases |s| - k
  {
    hide Discovered, Explored;
    var a := s[k];
    if Off(g, a) {
      t := Nil;
    } else {
      var l, r := Nil, Nil;
      if g[a].left != 0 {
        assert g[a].left in Children(m, a);
        ChildrenComeLater(m, root, s, k, g[a].left);
        var j :| k < j < |s| && s[j] == g[a].left;
        l := FiniteBelow(m, root, s, g, j);
      }
      if g[a].right != 0 {
        assert g[a].right in Children(m, a);
        ChildrenComeLater(m, root, s, k, g[a].right);
        var j :| k < j < |s| && s[j] == g[a].right;
        r := FiniteBelow(m, root, s, g, j);
      }
      t := Node(a, g[a].red, l, r);
    }
  }

  /**
   Whatever memory holds, the check returns a report on an untruncated snapshot: every child was
   captured, the root was captured, and the nodes unfold to a finite tree.
   */
  lemma UntruncatedReturns(m: Memory, root: nat, nodes: seq<Record>, leftmost: nat)
    requires root != 0 && Captures(m, root, nodes, false)
    ensures root in NodesOf(nodes) && NoDangling(NodesOf(nodes)) && 0 !in NodesOf(nodes)
    ensures exists t :: Unfolds(NodesOf(nodes), root, t)
    ensures Returns(Frame(NodesOf(nodes), root, leftmost))
  {
    hide Discovered, Explored, NodesOf;
    var s, g := Addresses(nodes), NodesOf(nodes);
    UntruncatedIsClosed(m, root, nodes);
    NodesFaithful(m, nodes);
    RootFirst(m, root, s);
    assert s[0] == root && root in s;
    var t := FiniteBelow(m, root, s, g, 0);
    forall a <- g ensures (g[a].left != 0 ==> g[a].left in g) && (g[a].right != 0 ==> g[a].right in g) {
      var i :| 0 <= i < |s| && s[i] == a;
      assert nodes[i] == Describe(m, s[i]);
    }
    var k := TreeSpine(g, root, t);
  }

  // ---- a tree in memory ------------------------------------------------------------------

  lemma {:induction false} FrameUnfolds(m: Memory, g: Memory, a: nat, t: Tree)
    requires Holds(m, a, t)
    requires forall x <- Addrs(t) :: x != 0 && x in g && x in m && g[x] == m[x]
    ensures Unfolds(g, a, t)
    decreases t
  {
    if t.Node? {
      FrameUnfolds(m, g, m[a].left, t.left);
      FrameUnfolds(m, g, m[a].right, t.right);
    }
  }

  lemma {:induction false} AddrsHeld(m: Memory, a: nat, t: Tree, x: nat)
    requires Holds(m, a, t) && x in Addrs(t)
    ensures x != 0 && x in m
    decreases t
  {
    if x in Addrs(t.left) {
      AddrsHeld(m, m[a].left, t.left, x);
    } else if x in Addrs(t.right) {
      AddrsHeld(m, m[a].right, t.right, x);
    }
  }

  /** Every address is that of a subtree. */
  lemma {:induction false} AddrsListed(t: Tree, x: nat) returns (u: Tree)
    requires x in Addrs(t)
    ensures u in Contents(t) && u.Node? && u.addr == x
    decreases t
  {
    if x in Addrs(t.left) {
      u := AddrsListed(t.left, x);
    } else if x in Addrs(t.right) {
      u := AddrsListed(t.right, x);
    } else {
      u := t;
    }
  }

  lemma HeldNotNull(m: Memory, a: nat, t: Tree)
    requires Holds(m, a, t) && t.Node?
    ensures a != 0
  {
  }

  /** A tree of at most 31 nodes is captured whole. */
  lemma FrameOfTree(m: Memory, t: Tree, nodes: seq<Record>)
    requires t.Node? && Holds(m, t.addr, t) && Size(t) <= MAX_NODES
    requires Captures(m, t.addr, nodes, false)
    ensures Unfolds(NodesOf(nodes), t.addr, t)
  {
    hide Holds, NodesOf, Discovered, Explored, LevelOrder, Size, Contents;
    var g := NodesOf(nodes);
    SnapshotIsLevelOrder(m, t, nodes, false);
    LevelOrderContents(t);
    NodesFaithful(m, nodes);
    forall x <- Addrs(t) ensures x != 0 && x in g && x in m && g[x] == m[x] {
      AddrsHeld(m, t.addr, t, x);
      var u := AddrsListed(t, x);
      assert u in multiset(LevelOrder(t));
      var i :| 0 <= i < |LevelOrder(t)| && LevelOrder(t)[i] == u;
      assert Addresses(nodes)[i] == x;
    }
    FrameUnfolds(m, g, t.addr, t);
  }

  /** The check's acceptance condition. */
  ghost predicate Accepted(f: Frame) {
    (exists t, h :: IsTree(f.nodes, f.root, t) && RedBlack(t, h)) && LeftmostGood(f)
  }

  /** The acceptance of a frame whose unfolding and minimum are known. */
  lemma AcceptedWhen(f: Frame, t: Tree, min: nat)
    requires Unfolds(f.nodes, f.root, t) && IsMinimum(f.nodes, f.root, min)
    ensures Accepted(f) <==> GoodTree(t) && (f.leftmost == 0 || f.leftmost == min)
  {
    hide RedBlack, Distinct, IsMinimum, Unfolds;
    MinimumDecides(f.nodes, f.root, min, f.leftmost);
    forall t' | Unfolds(f.nodes, f.root, t') ensures t' == t {
      UnfoldsOnce(f.nodes, f.root, t, t');
    }
    if GoodTree(t) {
      var h :| RedBlack(t, h);
      assert IsTree(f.nodes, f.root, t) && RedBlack(t, h);
    }
  }

  /**
   End to end: for a runqueue tree of at most 31 nodes, capturing it and checking the frame accepts
   exactly when the tree in memory is a red-black tree and the cached leftmost is its first node.
   */
  lemma VerdictOnRunqueue(m: Memory, t: Tree, leftmost: nat, nodes: seq<Record>, truncated: bool)
    requires t.Node? && Holds(m, t.addr, t) && Size(t) <= MAX_NODES
    requires Captures(m, t.addr, nodes, truncated)
    ensures !truncated && Returns(Frame(NodesOf(nodes), t.addr, leftmost))
    ensures Accepted(Frame(NodesOf(nodes), t.addr, leftmost)) <==>
              GoodTree(t) && (leftmost == 0 || leftmost == Inorder(t)[0])
  {
    hide Holds, NodesOf, Captures, Size, GoodTree, Accepted;
    SnapshotIsLevelOrder(m, t, nodes, truncated);
    HeldNotNull(m, t.addr, t);
    UntruncatedReturns(m, t.addr, nodes, leftmost);
    FrameOfTree(m, t, nodes);
    var f := Frame(NodesOf(nodes), t.addr, leftmost);
    var min := Inorder(t)[0];
    MinimumIsFirst(f.nodes, f.root, t, min);
    AcceptedWhen(f, t, min);
  }
}
