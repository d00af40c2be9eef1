/** The red-black check of a captured frame: a walk over any graph of nodes, cyclic ones included. */
module RbWalk {
  import opened Numbers
  import opened RbTree

  /** A captured frame: the nodes by address, the root and the cached leftmost (0 for none). */
  datatype Frame = Frame(nodes: Memory, root: nat, leftmost: nat)

  // ---- what the check is about -----------------------------------------------------------

  /** Where the walk turns back: a null pointer, or a node that was not captured. */
  predicate Off(g: Memory, a: nat) {
    a == 0 || a !in g
  }

  /** What is reachable from a, unfolded, is the finite tree t. */
  predicate Unfolds(g: Memory, a: nat, t: Tree)
    decreases t
  {
    match t
    case Nil => Off(g, a)
    case Node(addr, red, left, right) =>
      !Off(g, a) && addr == a && red == g[a].red && Unfolds(g, g[a].left, left) && Unfolds(g, g[a].right, right)
  }

  /** What is reachable from a is a tree: it unfolds to t and no node is reached twice. */
  predicate IsTree(g: Memory, a: nat, t: Tree) {
    Unfolds(g, a, t) && Distinct(t)
  }

  predicate IsRed(t: Tree) {
    t.Node? && t.red
  }

  predicate NoRedRed(t: Tree) {
    t.Node? ==> !(t.red && (IsRed(t.left) || IsRed(t.right))) && NoRedRed(t.left) && NoRedRed(t.right)
  }

  function Blacks(t: Tree): nat
    requires t.Node?
  {
    if t.red then 0 else 1
  }

  /** How many black nodes the paths from the top to an empty place can have. */
  function BlackCounts(t: Tree): set<nat> {
    if t.Nil? then {0}
    else set n | n in BlackCounts(t.left) + BlackCounts(t.right) :: n + Blacks(t)
  }

  /** Every path has h black nodes. */
  predicate BlackHeight(t: Tree, h: nat) {
    BlackCounts(t) == {h}
  }

  /** A red-black tree of black height h. */
  predicate RedBlack(t: Tree, h: nat) {
    !IsRed(t) && NoRedRed(t) && BlackHeight(t, h)
  }

  /** A tree without repeated nodes that is red-black for some black height. */
  ghost predicate GoodTree(t: Tree) {
    Distinct(t) && exists h :: RedBlack(t, h)
  }

  // ---- the walk --------------------------------------------------------------------------

  datatype Marks = Marks(seen: set<nat>, redOk: bool, bhOk: bool, cycle: bool)

  datatype Walked = Walked(height: nat, marks: Marks)

  function Enter(k: Marks, a: nat, red: bool, parentRed: bool): Marks {
    k.(seen := k.seen + {a}, redOk := k.redOk && !(red && parentRed))
  }

  function Leave(l: Walked, r: Walked, red: bool): Walked {
    Walked(l.height + (if red then 0 else 1), r.marks.(bhOk := r.marks.bhOk && l.height == r.height))
  }

  /** The walk as a function: each node is entered once, so it ends on every graph. */
  function Walk(g: Memory, a: nat, parentRed: bool, k: Marks): (r: Walked)
    ensures k.seen <= r.marks.seen
    ensures k.cycle ==> r.marks.cycle
    decreases |g.Keys - k.seen|
  {
    if Off(g, a) then Walked(1, k)
    else if a in k.seen then Walked(0, k.(cycle := true))
    else
      var k0 := Enter(k, a, g[a].red, parentRed);
      EnterFewer(g, a, k, g[a].red, parentRed);
      var l := Walk(g, g[a].left, g[a].red, k0);
      FewerOrSame(g.Keys - l.marks.seen, g.Keys - k0.seen);
      var r := Walk(g, g[a].right, g[a].red, l.marks);
      Leave(l, r, g[a].red)
  }

  lemma EnterFewer(g: Memory, a: nat, k: Marks, red: bool, parentRed: bool)
    requires a in g && a !in k.seen
    ensures |g.Keys - Enter(k, a, red, parentRed).seen| < |g.Keys - k.seen|
  {
    assert a in g.Keys - k.seen;
    Fewer(g.Keys - (k.seen + {a}), g.Keys - k.seen);
  }

  lemma WalkOff(g: Memory, a: nat, parentRed: bool, k: Marks)
    ensures Off(g, a) ==> Walk(g, a, parentRed, k) == Walked(1, k)
    ensures !Off(g, a) && a in k.seen ==> Walk(g, a, parentRed, k) == Walked(0, k.(cycle := true))
  {
  }

  lemma WalkStep(g: Memory, a: nat, parentRed: bool, k: Marks)
    requires !Off(g, a) && a !in k.seen
    ensures var l := Walk(g, g[a].left, g[a].red, Enter(k, a, g[a].red, parentRed));
            var r := Walk(g, g[a].right, g[a].red, l.marks);
            Walk(g, a, parentRed, k) == Leave(l, r, g[a].red)
  {
  }

  lemma CycleStays(g: Memory, a: nat, parentRed: bool, k: Marks)
    ensures k.cycle ==> Walk(g, a, parentRed, k).marks.cycle
  {
  }

  lemma Fewer(s: set<nat>, s': set<nat>)
    requires s < s'
    ensures |s| < |s'|
  {
    var x :| x in s' && x !in s;
    FewerOrSame(s, s' - {x});
  }

  lemma {:induction false} FewerOrSame(s: set<nat>, s': set<nat>)
    requires s <= s'
    ensures |s| <= |s'|
  {
    if s != {} {
      var x :| x in s;
      FewerOrSame(s - {x}, s' - {x});
    }
  }

  /** What the walk returns on a tree: the black nodes down the left side, plus one. */
  function LeftBlacks(t: Tree): nat {
    if t.Nil? then 1 else LeftBlacks(t.left) + Blacks(t)
  }

  predicate Even(t: Tree) {
    t.Node? ==> LeftBlacks(t.left) == LeftBlacks(t.right) && Even(t.left) && Even(t.right)
  }

  function AfterTree(k: Marks, parentRed: bool, t: Tree): Marks {
    Marks(k.seen + Addrs(t), k.redOk && !(parentRed && IsRed(t)) && NoRedRed(t), k.bhOk && Even(t), k.cycle)
  }

  /** On a tree the walk enters exactly its nodes and judges exactly its colours and heights. */
  lemma {:induction false} WalkTree(g: Memory, a: nat, parentRed: bool, k: Marks, t: Tree)
    requires IsTree(g, a, t) && Addrs(t) !! k.seen
    ensures Walk(g, a, parentRed, k) == Walked(LeftBlacks(t), AfterTree(k, parentRed, t))
    decreases t
  {
    hide Walk;
    WalkOff(g, a, parentRed, k);
    if t.Node? {
      var k0 := Enter(k, a, g[a].red, parentRed);
      WalkStep(g, a, parentRed, k);
      WalkTree(g, g[a].left, t.red, k0, t.left);
      WalkTree(g, g[a].right, t.red, AfterTree(k0, t.red, t.left), t.right);
      assert k.seen + Addrs(t) == k.seen + {a} + Addrs(t.left) + Addrs(t.right);
    } else {
      assert k.seen + Addrs(t) == k.seen;
    }
  }

  /** A walk that raises no alarm has found a tree, disjoint from what was seen before. */
  lemma {:induction false} WalkFinds(g: Memory, a: nat, parentRed: bool, k: Marks) returns (t: Tree)
    requires !Walk(g, a, parentRed, k).marks.cycle
    ensures IsTree(g, a, t) && Addrs(t) !! k.seen
    decreases |g.Keys - k.seen|
  {
    hide Walk, NoRedRed, Even, LeftBlacks, IsTree, Addrs;
    WalkOff(g, a, parentRed, k);
    if Off(g, a) {
      t := Nil;
      NilIsTree(g, a);
    } else {
      var red := g[a].red;
      var k0 := Enter(k, a, red, parentRed);
      WalkStep(g, a, parentRed, k);
      EnterFewer(g, a, k, red, parentRed);
      CycleStays(g, g[a].right, red, Walk(g, g[a].left, red, k0).marks);
      var l := WalkFinds(g, g[a].left, red, k0);
      WalkTree(g, g[a].left, red, k0, l);
      var k1 := AfterTree(k0, red, l);
      FewerOrSame(g.Keys - k1.seen, g.Keys - k0.seen);
      var r := WalkFinds(g, g[a].right, red, k1);
      t := Node(a, red, l, r);
      Joined(g, a, l, r, k.seen);
    }
  }

  lemma NilIsTree(g: Memory, a: nat)
    requires Off(g, a)
    ensures IsTree(g, a, Nil) && Addrs(Nil) == {}
  {
  }

  lemma Joined(g: Memory, a: nat, l: Tree, r: Tree, seen: set<nat>)
    requires !Off(g, a) && a !in seen
    requires IsTree(g, g[a].left, l) && Addrs(l) !! seen + {a}
    requires IsTree(g, g[a].right, r) && Addrs(r) !! seen + {a} + Addrs(l)
    ensures IsTree(g, a, Node(a, g[a].red, l, r)) && Addrs(Node(a, g[a].red, l, r)) !! seen
  {
  }

  // ---- black heights ---------------------------------------------------------------------

  lemma {:induction false} SomeBlackCount(t: Tree)
    ensures LeftBlacks(t) > 0 && LeftBlacks(t) - 1 in BlackCounts(t)
  {
    if t.Node? {
      SomeBlackCount(t.left);
      var n := LeftBlacks(t.left) - 1;
      assert n in BlackCounts(t.left) + BlackCounts(t.right);
    }
  }

  lemma {:induction false} BlackHeightSplit(t: Tree, h: nat)
    requires t.Node? && BlackHeight(t, h)
    ensures h >= Blacks(t) && BlackHeight(t.left, h - Blacks(t)) && BlackHeight(t.right, h - Blacks(t))
  {
    SomeBlackCount(t.left);
    SomeBlackCount(t.right);
    forall n | n in BlackCounts(t.left) + BlackCounts(t.right) ensures n + Blacks(t) == h {
      assert n + Blacks(t) in BlackCounts(t);
    }
  }

  /** All paths agree exactly when the heights returned agree at every node. */
  lemma {:induction false} EvenIsBlackHeight(t: Tree, h: nat)
    ensures BlackHeight(t, h) <==> Even(t) && LeftBlacks(t) == h + 1
  {
    SomeBlackCount(t);
    if t.Node? {
      if BlackHeight(t, h) {
        BlackHeightSplit(t, h);
        EvenIsBlackHeight(t.left, h - Blacks(t));
        EvenIsBlackHeight(t.right, h - Blacks(t));
      } else if Even(t) && LeftBlacks(t) == h + 1 {
        SomeBlackCount(t.left);
        EvenIsBlackHeight(t.left, h - Blacks(t));
        EvenIsBlackHeight(t.right, h - Blacks(t));
      }
    }
  }

  lemma {:induction false} ManyNodes(t: Tree, h: nat)
    requires BlackHeight(t, h)
    ensures Size(t) + 1 >= Pow2(h)
  {
    if t.Node? {
      BlackHeightSplit(t, h);
      ManyNodes(t.left, h - Blacks(t));
      ManyNodes(t.right, h - Blacks(t));
    } else {
      SomeBlackCount(t);
    }
  }

  lemma {:induction false} NotDeep(t: Tree, h: nat)
    requires BlackHeight(t, h) && NoRedRed(t)
    ensures Depth(t) <= 2 * h + (if IsRed(t) then 1 else 0)
  {
    if t.Node? {
      BlackHeightSplit(t, h);
      NotDeep(t.left, h - Blacks(t));
      NotDeep(t.right, h - Blacks(t));
    }
  }

  /** A red-black tree is shallow: at least 2^h - 1 nodes, and at most 2h levels. */
  lemma RedBlackIsShallow(t: Tree, h: nat)
    requires RedBlack(t, h)
    ensures Size(t) >= Pow2(h) - 1 && Depth(t) <= 2 * h
  {
    ManyNodes(t, h);
    NotDeep(t, h);
  }

  lemma {:induction false} UnfoldsOnce(g: Memory, a: nat, t: Tree, t': Tree)
    requires Unfolds(g, a, t) && Unfolds(g, a, t')
    ensures t == t'
    decreases t
  {
    if t.Node? {
      UnfoldsOnce(g, g[a].left, t.left, t'.left);
      UnfoldsOnce(g, g[a].right, t.right, t'.right);
    }
  }
}
