/** Trees of runqueue nodes, how memory holds them, and level order. */
module RbTree {
  import opened Numbers

  /** What one rb_node says: two child pointers (0 for none) and a colour. */
  datatype Cell = Cell(left: nat, right: nat, red: bool)

  type Memory = map<nat, Cell>

  datatype Tree = Nil | Node(addr: nat, red: bool, left: Tree, right: Tree)

  /** Memory holds the tree t at address a: null pointers are exactly the empty subtrees. */
  predicate Holds(m: Memory, a: nat, t: Tree)
    decreases t
  {
    match t
    case Nil => a == 0
    case Node(addr, red, left, right) =>
      && a != 0 && a == addr && a in m && m[a].red == red
      && Holds(m, m[a].left, left) && Holds(m, m[a].right, right)
  }

  function Addrs(t: Tree): set<nat> {
    if t.Nil? then {} else {t.addr} + Addrs(t.left) + Addrs(t.right)
  }

  /** No address occurs twice. */
  predicate Distinct(t: Tree) {
    t.Node? ==>
      && t.addr !in Addrs(t.left) && t.addr !in Addrs(t.right) && Addrs(t.left) !! Addrs(t.right)
      && Distinct(t.left) && Distinct(t.right)
  }

  function Size(t: Tree): nat {
    if t.Nil? then 0 else 1 + Size(t.left) + Size(t.right)
  }

  function Depth(t: Tree): nat {
    if t.Nil? then 0 else 1 + Max(Depth(t.left), Depth(t.right))
  }

  lemma {:induction false} SizeIsAddrs(t: Tree)
    requires Distinct(t)
    ensures |Addrs(t)| == Size(t)
  {
    if t.Node? {
      SizeIsAddrs(t.left);
      SizeIsAddrs(t.right);
      SizeOfParts(t.addr, Addrs(t.left), Addrs(t.right));
    }
  }

  lemma SizeOfParts(x: nat, a: set<nat>, b: set<nat>)
    requires x !in a && x !in b && a !! b
    ensures |{x} + a + b| == 1 + |a| + |b|
  {
    assert {x} + a + b == {x} + (a + b);
    assert |a + b| == |a| + |b|;
  }

  // ---- level order -----------------------------------------------------------------------

  /** The subtrees k levels down, left to right. */
  function Level(t: Tree, k: nat): seq<Tree> {
    if t.Nil? then [] else if k == 0 then [t] else Level(t.left, k - 1) + Level(t.right, k - 1)
  }

  /** The first h levels, top to bottom. */
  function Levels(t: Tree, h: nat): seq<Tree> {
    if h == 0 then [] else Levels(t, h - 1) + Level(t, h - 1)
  }

  function LevelOrder(t: Tree): seq<Tree> {
    Levels(t, Depth(t))
  }

  /** The subtrees that are there below a node, left first. */
  function Kids(t: Tree): seq<Tree> {
    if t.Nil? then []
    else (if t.left.Node? then [t.left] else []) + (if t.right.Node? then [t.right] else [])
  }

  function AllKids(s: seq<Tree>): seq<Tree> {
    if s == [] then [] else AllKids(s[..|s| - 1]) + Kids(s[|s| - 1])
  }

  function Contents(t: Tree): multiset<Tree> {
    if t.Nil? then multiset{} else multiset{t} + Contents(t.left) + Contents(t.right)
  }

  function TotalSize(s: seq<Tree>): nat {
    if s == [] then 0 else TotalSize(s[..|s| - 1]) + Size(s[|s| - 1])
  }

  lemma {:induction false} AllKidsConcat(s: seq<Tree>, s': seq<Tree>)
    ensures AllKids(s + s') == AllKids(s) + AllKids(s')
    decreases |s'|
  {
    hide Kids, AllKids;
    if s' == [] {
      AllKidsStep(s, []);
      assert s + s' == s;
    } else {
      var n := |s'| - 1;
      assert s' == s'[..n] + [s'[n]];
      assert s + s' == s + s'[..n] + [s'[n]];
      AllKidsStep(s'[..n], [s'[n]]);
      AllKidsStep(s + s'[..n], [s'[n]]);
      AllKidsConcat(s, s'[..n]);
    }
  }

  lemma AllKidsStep(s: seq<Tree>, last: seq<Tree>)
    requires |last| <= 1
    ensures AllKids([]) == []
    ensures last != [] ==> AllKids(s + last) == AllKids(s) + Kids(last[0])
  {
    hide Kids;
    if last != [] {
      assert (s + last)[..|s|] == s;
    }
  }

  lemma LevelStep(t: Tree, k: nat)
    requires t.Node? && k > 0
    ensures Level(t, k) == Level(t.left, k - 1) + Level(t.right, k - 1)
  {
  }

  lemma LevelOfNil(t: Tree, k: nat)
    ensures t.Nil? ==> Level(t, k) == []
  {
  }

  lemma LevelTop(t: Tree)
    requires t.Node?
    ensures Level(t, 0) == [t] && Level(t, 1) == Kids(t)
  {
  }

  /** The kids of one level are the next level. */
  lemma {:induction false} LevelKids(t: Tree, k: nat)
    ensures AllKids(Level(t, k)) == Level(t, k + 1)
  {
    hide Level, AllKids, Kids;
    AllKidsStep([], []);
    LevelOfNil(t, k);
    LevelOfNil(t, k + 1);
    if t.Node? {
      if k == 0 {
        LevelTop(t);
        AllKidsStep([], [t]);
        assert [] + [t] == [t];
      } else {
        LevelStep(t, k);
        LevelStep(t, k + 1);
        LevelKids(t.left, k - 1);
        LevelKids(t.right, k - 1);
        AllKidsConcat(Level(t.left, k - 1), Level(t.right, k - 1));
      }
    }
  }

  lemma {:induction false} LevelsKids(t: Tree, h: nat)
    requires t.Node?
    ensures [t] + AllKids(Levels(t, h)) == Levels(t, h + 1)
  {
    hide Level, AllKids, Kids, Levels;
    LevelsNext(t, h);
    if h > 0 {
      LevelsNext(t, h - 1);
      LevelsKids(t, h - 1);
      AllKidsConcat(Levels(t, h - 1), Level(t, h - 1));
      LevelKids(t, h - 1);
    } else {
      AllKidsStep([], []);
      LevelTop(t);
    }
  }

  lemma {:induction false} LevelBelow(t: Tree, k: nat)
    requires k >= Depth(t)
    ensures Level(t, k) == []
  {
    if t.Node? {
      LevelBelow(t.left, k - 1);
      LevelBelow(t.right, k - 1);
    }
  }

  /** Level order feeds itself: it is the root followed by everybody's kids. */
  lemma LevelOrderFeeds(t: Tree)
    requires t.Node?
    ensures LevelOrder(t) == [t] + AllKids(LevelOrder(t))
  {
    hide Level, Levels, AllKids;
    LevelsKids(t, Depth(t));
    LevelBelow(t, Depth(t));
    LevelsNext(t, Depth(t));
  }

  lemma LevelsNext(t: Tree, h: nat)
    ensures Levels(t, h + 1) == Levels(t, h) + Level(t, h) && Levels(t, 0) == []
  {
    hide Level;
  }

  lemma {:induction false} LevelsContents(t: Tree, h: nat)
    requires h >= Depth(t)
    ensures multiset(Levels(t, h)) == Contents(t)
    decreases t
  {
    hide Levels, Level, Depth, Contents;
    DepthStep(t);
    ContentsStep(t);
    if t.Nil? {
      LevelsOfNil(h);
    } else {
      LevelsSplit(t, h - 1);
      LevelsContents(t.left, h - 1);
      LevelsContents(t.right, h - 1);
    }
  }

  lemma ContentsStep(t: Tree)
    ensures Contents(t) ==
            if t.Nil? then multiset{} else multiset{t} + Contents(t.left) + Contents(t.right)
  {
  }

  lemma DepthStep(t: Tree)
    ensures t.Node? ==> Depth(t.left) < Depth(t) && Depth(t.right) < Depth(t)
  {
  }

  lemma {:induction false} LevelsOfNil(h: nat)
    ensures Levels(Nil, h) == []
  {
    if h > 0 {
      LevelsOfNil(h - 1);
    }
  }

  lemma {:induction false} LevelsSplit(t: Tree, h: nat)
    requires t.Node?
    ensures multiset(Levels(t, h + 1)) == multiset{t} + multiset(Levels(t.left, h)) + multiset(Levels(t.right, h))
  {
    hide Levels, Level;
    LevelsNext(t, h);
    LevelsNext(t.left, h);
    LevelsNext(t.right, h);
    LevelTop(t);
    if h > 0 {
      LevelsSplit(t, h - 1);
      LevelStep(t, h);
      LevelsNext(t.left, h - 1);
      LevelsNext(t.right, h - 1);
    }
  }

  lemma {:induction false} ContentsSize(t: Tree)
    ensures |Contents(t)| == Size(t)
  {
    if t.Node? {
      ContentsSize(t.left);
      ContentsSize(t.right);
    }
  }

  /** Level order lists every subtree, each as often as it occurs, so Size(t) of them. */
  lemma LevelOrderContents(t: Tree)
    ensures multiset(LevelOrder(t)) == Contents(t) && |LevelOrder(t)| == Size(t)
  {
    LevelsContents(t, Depth(t));
    ContentsSize(t);
    assert |multiset(LevelOrder(t))| == |LevelOrder(t)|;
  }

  lemma {:induction false} KidsShrink(s: seq<Tree>)
    requires forall i :: 0 <= i < |s| ==> s[i].Node?
    ensures TotalSize(AllKids(s)) + |s| == TotalSize(s)
  {
    if s != [] {
      var n := |s| - 1;
      KidsShrink(s[..n]);
      TotalSizeConcat(AllKids(s[..n]), Kids(s[n]));
      KidsSize(s[n]);
    }
  }

  lemma KidsSize(t: Tree)
    requires t.Node?
    ensures TotalSize(Kids(t)) + 1 == Size(t)
  {
    var a := if t.left.Node? then [t.left] else [];
    var b := if t.right.Node? then [t.right] else [];
    TotalSizeConcat(a, b);
    assert forall x: Tree :: [x][..0] == [];
  }

  lemma {:induction false} TotalSizeConcat(s: seq<Tree>, s': seq<Tree>)
    ensures TotalSize(s + s') == TotalSize(s) + TotalSize(s')
    decreases |s'|
  {
    if s' == [] {
      assert s + s' == s;
    } else {
      var n := |s'| - 1;
      assert (s + s')[..|s + s'| - 1] == s + s'[..n];
      TotalSizeConcat(s, s'[..n]);
    }
  }
}
