/** The bounded breadth-first snapshot of a runqueue's tree. */
module Snapshot {
  import opened Numbers
  import opened RbTree

  const MAX_NODES: nat := 31

  datatype Record = Record(addr: nat, left: nat, right: nat, red: bool)

  /** A read that faults yields zeros, and colour bit 0 is red. */
  function Read(m: Memory, a: nat): Cell {
    if a in m then m[a] else Cell(0, 0, true)
  }

  function Describe(m: Memory, a: nat): Record {
    var c := Read(m, a);
    Record(a, c.left, c.right, c.red)
  }

  /** A child pointer that is there. */
  function Present(a: nat): seq<nat> {
    if a == 0 then [] else [a]
  }

  function Children(m: Memory, a: nat): seq<nat> {
    Present(Read(m, a).left) + Present(Read(m, a).right)
  }

  /** What is known after visiting s: the root, and the children of everything visited, in order. */
  function Discovered(m: Memory, root: nat, s: seq<nat>): (r: seq<nat>)
    ensures r != []
  {
    if s == [] then [root] else Discovered(m, root, s[..|s| - 1]) + Children(m, s[|s| - 1])
  }

  /** A breadth-first visit: the k-th node visited is the k-th one discovered, and discovered before it. */
  predicate Explored(m: Memory, root: nat, s: seq<nat>) {
    forall k :: 0 <= k < |s| ==> NextVisited(m, root, s[..k], s[k])
  }

  predicate NextVisited(m: Memory, root: nat, s: seq<nat>, a: nat) {
    |s| < |Discovered(m, root, s)| && a == Discovered(m, root, s)[|s|]
  }

  function Addresses(nodes: seq<Record>): (r: seq<nat>)
    ensures |r| == |nodes|
  {
    seq(|nodes|, i requires 0 <= i < |nodes| => nodes[i].addr)
  }

  /** What a snapshot from a non-null root promises, whatever memory holds. */
  ghost predicate Captures(m: Memory, root: nat, nodes: seq<Record>, truncated: bool) {
    var s := Addresses(nodes);
    && (forall i :: 0 <= i < |nodes| ==> nodes[i] == Describe(m, s[i]))
    && Explored(m, root, s)
    && |s| == Min(MAX_NODES, |Discovered(m, root, s)|)
    && (truncated <==> |Discovered(m, root, s)| > MAX_NODES)
  }

  /** The per-CPU workspace; whatever an earlier snapshot left in it does not matter. */
  class Scratch {
    const worklist: array<nat>
    const nodes: array<Record>
    var head: nat
    var tail: nat
    var count: nat
    var truncated: bool

    constructor ()
      ensures Valid() && fresh(worklist) && fresh(nodes)
    {
      worklist := new nat[MAX_NODES](_ => 0);
      nodes := new Record[MAX_NODES](_ => Record(0, 0, 0, false));
      head, tail, count, truncated := 0, 0, 0, false;
    }

    ghost predicate Valid()
      reads this
    {
      worklist.Length == MAX_NODES && nodes.Length == MAX_NODES
    }

    /** The worklist holds as much of found as fits, and truncated says whether that is all of it. */
    ghost predicate Tracks(found: seq<nat>)
      reads this, worklist
    {
      && Valid() && head <= tail && tail == Min(MAX_NODES, |found|)
      && (forall i :: 0 <= i < tail ==> worklist[i] == found[i])
      && (truncated <==> |found| > MAX_NODES)
    }

    /** Add a child that was found, if there is one and room for it. */
    method Enqueue(child: nat, ghost found: seq<nat>)
      requires Tracks(found)
      modifies this`tail, this`truncated, worklist
      ensures Tracks(found + Present(child))
      ensures forall i :: 0 <= i < old(tail) ==> worklist[i] == old(worklist[i])
    {
      if child != 0 {
        if tail < MAX_NODES {
          worklist[tail] := child;
          tail := tail + 1;
        } else {
          truncated := true;
        }
      }
    }

    method EnqueueChildren(r: Record, ghost found: seq<nat>)
      requires Tracks(found)
      modifies this`tail, this`truncated, worklist
      ensures Tracks(found + Present(r.left) + Present(r.right))
      ensures forall i :: 0 <= i < old(tail) ==> worklist[i] == old(worklist[i])
    {
      Enqueue(r.left, found);
      Enqueue(r.right, found + Present(r.left));
    }

    /** The visit so far. */
    ghost predicate Visited(m: Memory, root: nat)
      reads this, worklist, nodes
    {
      && Tracks(Discovered(m, root, worklist[..Min(head, worklist.Length)]))
      && Explored(m, root, worklist[..Min(head, worklist.Length)])
      && (forall i :: 0 <= i < head <= nodes.Length ==> nodes[i] == Describe(m, worklist[i]))
      && (root == 0 ==> head == 0)
      && (root != 0 ==> 0 !in Discovered(m, root, worklist[..Min(head, worklist.Length)]))
    }

    /** One step of the bounded loop: visit the next node in the worklist, or stop. */
    method WalkOneNode(m: Memory, ghost root: nat, index: nat) returns (stop: bool)
      requires Visited(m, root) && index == head
      modifies this`head, this`tail, this`truncated, worklist, nodes
      ensures Visited(m, root)
      ensures if stop then head == index && (root != 0 ==> head == tail) else head == index + 1
    {
      hide Discovered, Explored, Read, Present;
      RootFirst(m, root, worklist[..head]);
      if index >= MAX_NODES || head >= MAX_NODES || tail > MAX_NODES || head >= tail || worklist[head] == 0 {
        return true;
      }
      ghost var s := worklist[..head];
      ghost var found := Discovered(m, root, s);
      var node := worklist[head];
      head := head + 1;
      nodes[index] := Describe(m, node);
      EnqueueChildren(nodes[index], found);
      PresentIsNotNull(nodes[index].left);
      PresentIsNotNull(nodes[index].right);
      OneFurther(m, root, s, node);
      assert worklist[..head] == s + [node];
      stop := false;
    }

    method EmitSnapshot(m: Memory, root: nat)
      requires Valid()
      modifies this, worklist, nodes
      ensures Valid() && count <= MAX_NODES
      ensures root != 0 ==> Captures(m, root, nodes[..count], truncated)
      ensures root == 0 ==> count == 0 && truncated
    {
      hide Discovered, Explored;
      count, truncated, head, tail := 0, false, 0, 1;
      worklist[0] := root;
      Start(m, root, worklist[..0]);
      var index, stop := 0, false;
      while index < MAX_NODES && !stop
        invariant index <= MAX_NODES && Visited(m, root)
        invariant if stop then (root != 0 ==> head == tail) else head == index
        decreases MAX_NODES - index, !stop
      {
        stop := WalkOneNode(m, root, index);
        index := if stop then index else index + 1;
      }
      count := head;
      if head < tail {
        truncated := true;
      }
      assert root != 0 ==> Addresses(nodes[..count]) == worklist[..head];
    }
  }

  lemma PresentIsNotNull(a: nat)
    ensures 0 !in Present(a)
  {
  }

  lemma Start(m: Memory, root: nat, none: seq<nat>)
    requires none == []
    ensures Discovered(m, root, none) == [root] && Explored(m, root, none)
  {
  }

  lemma {:induction false} RootFirst(m: Memory, root: nat, s: seq<nat>)
    ensures Discovered(m, root, s)[0] == root
  {
    if s != [] {
      RootFirst(m, root, s[..|s| - 1]);
    }
  }

  lemma OneFurther(m: Memory, root: nat, s: seq<nat>, node: nat)
    requires Explored(m, root, s) && NextVisited(m, root, s, node)
    ensures Explored(m, root, s + [node])
    ensures Discovered(m, root, s + [node])
         == Discovered(m, root, s) + Present(Read(m, node).left) + Present(Read(m, node).right)
  {
    Grows(m, root, s, node);
    hide Discovered, NextVisited;
    var s' := s + [node];
    forall k | 0 <= k < |s'| ensures NextVisited(m, root, s'[..k], s'[k]) {
      if k < |s| {
        assert s'[..k] == s[..k];
      } else {
        assert s'[..k] == s;
      }
    }
  }

  lemma Grows(m: Memory, root: nat, s: seq<nat>, node: nat)
    ensures Discovered(m, root, s + [node])
         == Discovered(m, root, s) + Present(Read(m, node).left) + Present(Read(m, node).right)
  {
    var s' := s + [node];
    assert s'[..|s|] == s;
  }
}
