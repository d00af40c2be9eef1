/** What a snapshot says about the tree it was taken from. */
module TreeSnapshot {
  import opened Numbers
  import opened RbTree
  import opened Snapshot

  /** Nodes that memory holds. */
  predicate Held(m: Memory, s: seq<Tree>) {
    forall i :: 0 <= i < |s| ==> s[i].Node? && Holds(m, s[i].addr, s[i])
  }

  function AddrsOf(s: seq<Tree>): (r: seq<nat>)
    requires forall i :: 0 <= i < |s| ==> s[i].Node?
    ensures |r| == |s|
  {
    seq(|s|, i requires 0 <= i < |s| => s[i].addr)
  }

  // ---- any memory ------------------------------------------------------------------------

  lemma {:induction false} DiscoveredPrefix(m: Memory, root: nat, s: seq<nat>, k: nat)
    requires k <= |s|
    ensures Discovered(m, root, s[..k]) <= Discovered(m, root, s)
  {
    if k == |s| {
      assert s[..k] == s;
    } else {
      var n := |s| - 1;
      DiscoveredPrefix(m, root, s[..n], k);
      assert s[..n][..k] == s[..k];
    }
  }

  lemma {:induction false} ChildrenDiscovered(m: Memory, root: nat, s: seq<nat>, k: nat, c: nat)
    requires k < |s| && c in Children(m, s[k])
    ensures c in Discovered(m, root, s)
  {
    hide Discovered, Children;
    DiscoveredPrefix(m, root, s, k + 1);
    assert s[..k + 1] == s[..k] + [s[k]];
    LastDiscovered(m, root, s[..k], s[k], c);
  }

  lemma LastDiscovered(m: Memory, root: nat, s: seq<nat>, a: nat, c: nat)
    requires c in Children(m, a)
    ensures c in Discovered(m, root, s + [a])
  {
    assert (s + [a])[..|s|] == s;
  }

  /** An untruncated snapshot is the list of everything that was discovered, so it has every child. */
  lemma UntruncatedIsClosed(m: Memory, root: nat, nodes: seq<Record>)
    requires Captures(m, root, nodes, false)
    ensures Addresses(nodes) == Discovered(m, root, Addresses(nodes))
    ensures forall i :: 0 <= i < |nodes| ==>
              && (nodes[i].left != 0 ==> nodes[i].left in Addresses(nodes))
              && (nodes[i].right != 0 ==> nodes[i].right in Addresses(nodes))
  {
    hide Discovered;
    var s := Addresses(nodes);
    forall k | 0 <= k < |s| ensures s[k] == Discovered(m, root, s)[k] {
      DiscoveredPrefix(m, root, s, k);
      assert NextVisited(m, root, s[..k], s[k]);
    }
    forall i, c | 0 <= i < |nodes| && c in Children(m, s[i]) ensures c in s {
      ChildrenDiscovered(m, root, s, i, c);
    }
    forall i | 0 <= i < |nodes|
      ensures nodes[i].left != 0 ==> nodes[i].left in s
      ensures nodes[i].right != 0 ==> nodes[i].right in s
    {
      assert nodes[i] == Describe(m, s[i]);
      assert nodes[i].left != 0 ==> nodes[i].left in Children(m, s[i]);
      assert nodes[i].right != 0 ==> nodes[i].right in Children(m, s[i]);
    }
  }

  /** At most one complete visit: any breadth-first visit is a prefix of it. */
  lemma {:induction false} VisitsAgree(m: Memory, root: nat, s: seq<nat>, all: seq<nat>, k: nat)
    requires Explored(m, root, s) && Explored(m, root, all)
    requires k <= |s| && k <= |all|
    ensures s[..k] == all[..k]
  {
    hide Discovered;
    if k > 0 {
      VisitsAgree(m, root, s, all, k - 1);
      assert NextVisited(m, root, s[..k - 1], s[k - 1]);
      assert NextVisited(m, root, all[..k - 1], all[k - 1]);
      assert s[..k] == s[..k - 1] + [s[k - 1]];
      assert all[..k] == all[..k - 1] + [all[k - 1]];
    }
  }

  /** If some visit exhausts what it discovers, the snapshot is its first 31 nodes. */
  lemma SnapshotOfVisit(m: Memory, root: nat, nodes: seq<Record>, truncated: bool, all: seq<nat>)
    requires Captures(m, root, nodes, truncated)
    requires Explored(m, root, all) && |Discovered(m, root, all)| == |all|
    ensures Addresses(nodes) == all[..Min(MAX_NODES, |all|)]
    ensures truncated <==> |all| > MAX_NODES
  {
    hide Discovered, Explored;
    var s := Addresses(nodes);
    if |s| > |all| {
      VisitsAgree(m, root, s, all, |all|);
      assert all[..|all|] == all;
      NotFurther(m, root, s, |all|);
      assert false;
    }
    VisitsAgree(m, root, s, all, |s|);
    assert s[..|s|] == s;
    if |s| < |all| {
      NotFurther(m, root, all, |s|);
    } else {
      assert all[..|s|] == all;
    }
  }

  lemma NotFurther(m: Memory, root: nat, s: seq<nat>, k: nat)
    requires Explored(m, root, s) && k < |s|
    ensures |Discovered(m, root, s[..k])| > k
  {
    hide Discovered;
    assert NextVisited(m, root, s[..k], s[k]);
  }

  // ---- memory that holds a tree ----------------------------------------------------------

  lemma {:induction false} LevelHeld(m: Memory, a: nat, t: Tree, k: nat)
    requires Holds(m, a, t)
    ensures Held(m, Level(t, k))
    decreases t
  {
    if t.Node? && k > 0 {
      LevelHeld(m, m[a].left, t.left, k - 1);
      LevelHeld(m, m[a].right, t.right, k - 1);
    }
  }

  lemma {:induction false} LevelsHeld(m: Memory, a: nat, t: Tree, h: nat)
    requires Holds(m, a, t)
    ensures Held(m, Levels(t, h))
  {
    hide Level, Holds;
    if h > 0 {
      LevelsHeld(m, a, t, h - 1);
      LevelHeld(m, a, t, h - 1);
    }
  }

  lemma KidsHeld(m: Memory, t: Tree)
    requires t.Node? && Holds(m, t.addr, t)
    ensures Held(m, Kids(t)) && AddrsOf(Kids(t)) == Children(m, t.addr)
  {
    assert Holds(m, m[t.addr].left, t.left) && Holds(m, m[t.addr].right, t.right);
  }

  /** What is discovered after visiting some subtrees is the root and their kids. */
  lemma {:induction false} DiscoveredTrees(m: Memory, t: Tree, s: seq<Tree>)
    requires t.Node? && Holds(m, t.addr, t) && Held(m, s)
    ensures Held(m, [t] + AllKids(s))
    ensures Discovered(m, t.addr, AddrsOf(s)) == AddrsOf([t] + AllKids(s))
  {
    hide Holds, Kids, Children;
    if s == [] {
      assert AddrsOf(s) == [];
      assert [t] + AllKids(s) == [t];
    } else {
      var n := |s| - 1;
      DiscoveredTrees(m, t, s[..n]);
      KidsHeld(m, s[n]);
      assert AddrsOf(s)[..n] == AddrsOf(s[..n]);
      assert [t] + AllKids(s) == [t] + AllKids(s[..n]) + Kids(s[n]);
    }
  }

  /** Before the end of level order there is always a node that is discovered and not visited. */
  lemma {:induction false} AlwaysAhead(t: Tree, k: nat)
    requires t.Node? && k < |LevelOrder(t)|
    requires forall i :: 0 <= i < |LevelOrder(t)| ==> LevelOrder(t)[i].Node?
    ensures |AllKids(LevelOrder(t)[..k])| >= k
  {
    hide LevelOrder, AllKids, Kids;
    var o := LevelOrder(t);
    LevelOrderFeeds(t);
    if k > 0 {
      AlwaysAhead(t, k - 1);
      AllKidsSnoc(o[..k - 1], o[k - 1]);
      assert o[..k] == o[..k - 1] + [o[k - 1]];
      AllKidsConcat(o[..k], o[k..]);
      assert o == o[..k] + o[k..];
      if |AllKids(o[..k])| == k - 1 {
        assert [t] + AllKids(o[..k]) + AllKids(o[k..]) == o;
        assert o[k..] == AllKids(o[k..]);
        KidsShrink(o[k..]);
        assert false;
      }
    }
  }

  lemma AllKidsSnoc(s: seq<Tree>, t: Tree)
    ensures AllKids(s + [t]) == AllKids(s) + Kids(t)
  {
    assert (s + [t])[..|s|] == s;
  }

  /** Level order is a breadth-first visit that exhausts what it discovers. */
  lemma LevelOrderExplored(m: Memory, t: Tree)
    requires t.Node? && Holds(m, t.addr, t)
    ensures Held(m, LevelOrder(t))
    ensures Explored(m, t.addr, AddrsOf(LevelOrder(t)))
    ensures |Discovered(m, t.addr, AddrsOf(LevelOrder(t)))| == |LevelOrder(t)|
  {
    hide Holds, AllKids, Discovered;
    var o := LevelOrder(t);
    LevelsHeld(m, t.addr, t, Depth(t));
    hide LevelOrder;
    LevelOrderFeeds(t);
    DiscoveredTrees(m, t, o);
    var all := AddrsOf(o);
    forall k | 0 <= k < |all| ensures NextVisited(m, t.addr, all[..k], all[k]) {
      AlwaysAhead(t, k);
      DiscoveredTrees(m, t, o[..k]);
      assert AddrsOf(o[..k]) == all[..k];
      AllKidsConcat(o[..k], o[k..]);
      assert o == o[..k] + o[k..];
      assert ([t] + AllKids(o[..k]))[k] == ([t] + AllKids(o))[k];
    }
  }

  /** What a node of a tree looks like in a snapshot. */
  function RecordOf(t: Tree): Record
    requires t.Node?
  {
    Record(t.addr, if t.left.Node? then t.left.addr else 0, if t.right.Node? then t.right.addr else 0, t.red)
  }

  /**
   The snapshot of a tree is exactly its first 31 nodes in level order, links and colours included, and
   it is marked truncated exactly when the tree has more.
   */
  lemma SnapshotIsLevelOrder(m: Memory, t: Tree, nodes: seq<Record>, truncated: bool)
    requires t.Node? && Holds(m, t.addr, t) && Captures(m, t.addr, nodes, truncated)
    ensures |nodes| == Min(MAX_NODES, Size(t)) && |LevelOrder(t)| == Size(t)
    ensures forall i :: 0 <= i < |nodes| ==> LevelOrder(t)[i].Node? && nodes[i] == RecordOf(LevelOrder(t)[i])
    ensures truncated <==> Size(t) > MAX_NODES
  {
    hide Holds, Discovered, Explored, LevelOrder, Size;
    LevelOrderContents(t);
    LevelOrderExplored(m, t);
    var o := LevelOrder(t);
    SnapshotOfVisit(m, t.addr, nodes, truncated, AddrsOf(o));
    forall i | 0 <= i < |nodes|
      ensures nodes[i] == RecordOf(o[i])
    {
      assert Addresses(nodes)[i] == o[i].addr;
      DescribeTree(m, o[i]);
    }
  }

  lemma DescribeTree(m: Memory, t: Tree)
    requires t.Node? && Holds(m, t.addr, t)
    ensures Describe(m, t.addr) == RecordOf(t)
  {
  }
}
