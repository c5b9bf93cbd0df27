/**
 * Day 7, first attempt: a tree stored as an arena, a sequence of nodes that refer to
 * their parent and children by position. Nodes are looked up by value, created on
 * demand, and distances are measured by climbing parents and searching subtrees.
 */
module Day07b {
  import opened Wrappers

  datatype Node<T> = Node(idx: nat, val: T, parent: Option<nat>, children: seq<nat>)

  /** A node without parent or children, as `Node::new` builds it. */
  function NewNode<T>(idx: nat, val: T): Node<T>
  {
    Node(idx, val, None, [])
  }

  /** Every node stores its own position. */
  predicate Indexed<T>(arena: seq<Node<T>>)
  {
    forall i :: 0 <= i < |arena| ==> arena[i].idx == i
  }

  /**
   * An indexed arena whose parents come before and whose children come after the node
   * that refers to them. On such an arena the source's recursions all end.
   */
  predicate Ordered<T>(arena: seq<Node<T>>)
  {
    Indexed(arena) &&
    forall i :: 0 <= i < |arena| ==>
      (arena[i].parent.Some? ==> arena[i].parent.value < i) &&
      (forall k :: 0 <= k < |arena[i].children| ==> i < arena[i].children[k] < |arena|)
  }

  // ---------------------------------------------------------------------
  // Looking nodes up and adding them.

  /** The first position, from k on, whose node holds val. */
  function FindFrom<T(==)>(arena: seq<Node<T>>, val: T, k: nat): (r: Option<nat>)
    requires k <= |arena|
    ensures r.Some? ==> k <= r.value < |arena| && arena[r.value].val == val
    ensures r.Some? ==> forall l :: k <= l < r.value ==> arena[l].val != val
    ensures r.None? <==> forall l :: k <= l < |arena| ==> arena[l].val != val
    decreases |arena| - k
  {
    if k == |arena| then None
    else if arena[k].val == val then Some(k)
    else FindFrom(arena, val, k + 1)
  }

  /** Appending a fresh node keeps the arena ordered. */
  lemma AppendOrdered<T>(arena: seq<Node<T>>, val: T)
    requires Ordered(arena)
    ensures Ordered(arena + [NewNode(|arena|, val)])
  {
    var a := arena + [NewNode(|arena|, val)];
    forall i | 0 <= i < |a|
      ensures a[i].idx == i
      ensures a[i].parent.Some? ==> a[i].parent.value < i
      ensures forall k :: 0 <= k < |a[i].children| ==> i < a[i].children[k] < |a|
    {
      if i < |arena| {
        assert a[i] == arena[i];
      }
    }
  }

  // ---------------------------------------------------------------------
  // Counting edges.

  /** The number of parent-to-child links: the lengths of all children lists added up. */
  function Edges<T>(arena: seq<Node<T>>): nat
  {
    if arena == [] then 0 else |arena[0].children| + Edges(arena[1..])
  }

  lemma {:induction false} EdgesAppend<T>(arena: seq<Node<T>>, n: Node<T>)
    ensures Edges(arena + [n]) == Edges(arena) + |n.children|
  {
    if arena != [] {
      assert (arena + [n])[1..] == arena[1..] + [n];
      EdgesAppend(arena[1..], n);
    }
  }

  /** Adding a node never adds an edge. */
  lemma NewNodeNoEdges<T>(arena: seq<Node<T>>, val: T)
    ensures Edges(arena + [NewNode(|arena|, val)]) == Edges(arena)
  {
    EdgesAppend(arena, NewNode(|arena|, val));
  }

  // ---------------------------------------------------------------------
  // Depth: the number of parent links up to the root.

  function Depth<T>(arena: seq<Node<T>>, idx: nat): (d: nat)
    requires Ordered(arena) && idx < |arena|
    ensures d <= idx
    ensures d == 0 <==> arena[idx].parent.None?
    decreases idx
  {
    match arena[idx].parent
    case None => 0
    case Some(p) => 1 + Depth(arena, p)
  }

  /** Depths of existing nodes do not change when a node is added. */
  lemma {:induction false} DepthAppend<T>(arena: seq<Node<T>>, val: T, idx: nat)
    requires Ordered(arena) && idx < |arena|
    ensures Ordered(arena + [NewNode(|arena|, val)]) &&
            Depth(arena + [NewNode(|arena|, val)], idx) == Depth(arena, idx)
    decreases idx
  {
    AppendOrdered(arena, val);
    var a := arena + [NewNode(|arena|, val)];
    assert a[idx] == arena[idx];
    if arena[idx].parent.Some? {
      DepthAppend(arena, val, arena[idx].parent.value);
    }
  }

  // ---------------------------------------------------------------------
  // Searching a subtree for a value.

  /**
   * 0 at a node holding the target; otherwise one more than the answer of the first
   * child, in list order, that finds it; None when no child does.
   */
  function DepthToTarget<T(==)>(arena: seq<Node<T>>, idx: nat, target: T): (r: Option<nat>)
    requires Ordered(arena) && idx < |arena|
    ensures r == Some(0) <==> arena[idx].val == target
    decreases |arena| - idx, 1, 0
  {
    if target == arena[idx].val then Some(0) else FirstHit(arena, idx, target, 0)
  }

  /** The loop over the children of idx, from the k-th on. */
  function FirstHit<T(==)>(arena: seq<Node<T>>, idx: nat, target: T, k: nat): (r: Option<nat>)
    requires Ordered(arena) && idx < |arena| && k <= |arena[idx].children|
    ensures r.Some? ==> r.value >= 1
    decreases |arena| - idx, 0, |arena[idx].children| - k
  {
    if k == |arena[idx].children| then None
    else
      match DepthToTarget(arena, arena[idx].children[k], target)
      case Some(x) => Some(1 + x)
      case None => FirstHit(arena, idx, target, k + 1)
  }

  /** There is a downward path of d child links from idx to a node holding target. */
  ghost predicate PathDown<T>(arena: seq<Node<T>>, idx: nat, target: T, d: nat)
    requires Ordered(arena) && idx < |arena|
    decreases d
  {
    if d == 0 then arena[idx].val == target
    else exists k :: 0 <= k < |arena[idx].children| && PathDown(arena, arena[idx].children[k], target, d - 1)
  }

  /** A depth the search reports is the length of a real path down to the target. */
  lemma {:induction false} DepthToTargetSound<T>(arena: seq<Node<T>>, idx: nat, target: T)
    requires Ordered(arena) && idx < |arena|
    ensures DepthToTarget(arena, idx, target).Some? ==>
              PathDown(arena, idx, target, DepthToTarget(arena, idx, target).value)
    decreases |arena| - idx, 1, 0
  {
    if target != arena[idx].val {
      FirstHitSound(arena, idx, target, 0);
    }
  }

  lemma {:induction false} FirstHitSound<T>(arena: seq<Node<T>>, idx: nat, target: T, k: nat)
    requires Ordered(arena) && idx < |arena| && k <= |arena[idx].children|
    ensures FirstHit(arena, idx, target, k).Some? ==>
              PathDown(arena, idx, target, FirstHit(arena, idx, target, k).value)
    decreases |arena| - idx, 0, |arena[idx].children| - k
  {
    if k < |arena[idx].children| {
      var c := arena[idx].children[k];
      DepthToTargetSound(arena, c, target);
      match DepthToTarget(arena, c, target)
      case Some(x) =>
        assert PathDown(arena, c, target, x);
      case None =>
        FirstHitSound(arena, idx, target, k + 1);
    }
  }

  /** Whenever some path leads down to the target, the search finds one. */
  lemma {:induction false} DepthToTargetComplete<T>(arena: seq<Node<T>>, idx: nat, target: T, d: nat)
    requires Ordered(arena) && idx < |arena| && PathDown(arena, idx, target, d)
    ensures DepthToTarget(arena, idx, target).Some?
    decreases d, 1, 0
  {
    if target != arena[idx].val {
      var j :| 0 <= j < |arena[idx].children| && PathDown(arena, arena[idx].children[j], target, d - 1);
      FirstHitComplete(arena, idx, target, d, 0, j);
    }
  }

  lemma {:induction false} FirstHitComplete<T>(arena: seq<Node<T>>, idx: nat, target: T, d: nat, k: nat, j: nat)
    requires Ordered(arena) && idx < |arena| && d >= 1 && k <= j < |arena[idx].children|
    requires PathDown(arena, arena[idx].children[j], target, d - 1)
    ensures FirstHit(arena, idx, target, k).Some?
    decreases d, 0, j - k
  {
    var c := arena[idx].children[k];
    if k == j {
      DepthToTargetComplete(arena, c, target, d - 1);
    } else if DepthToTarget(arena, c, target).None? {
      FirstHitComplete(arena, idx, target, d, k + 1, j);
    }
  }

  // ---------------------------------------------------------------------
  // The distance between two nodes.

  /**
   * What the climbing loop accumulates from node i: one per ancestor whose subtree
   * misses the target, plus the search depth at the first ancestor that finds it.
   */
  function Climb<T(==)>(arena: seq<Node<T>>, i: nat, target: T): nat
    requires Ordered(arena) && i < |arena|
    decreases i
  {
    match arena[i].parent
    case None => 0
    case Some(p) =>
      match DepthToTarget(arena, p, target)
      case Some(x) => x
      case None => 1 + Climb(arena, p, target)
  }

  /** No proper ancestor of i has the target in its subtree. */
  ghost predicate NoHitAbove<T>(arena: seq<Node<T>>, i: nat, target: T)
    requires Ordered(arena) && i < |arena|
    decreases i
  {
    match arena[i].parent
    case None => true
    case Some(p) => DepthToTarget(arena, p, target).None? && NoHitAbove(arena, p, target)
  }

  /** When no ancestor finds the target, the loop climbs all the way: it counts the depth. */
  lemma {:induction false} ClimbWithoutHit<T>(arena: seq<Node<T>>, i: nat, target: T)
    requires Ordered(arena) && i < |arena| && NoHitAbove(arena, i, target)
    ensures Climb(arena, i, target) == Depth(arena, i)
    decreases i
  {
    if arena[i].parent.Some? {
      ClimbWithoutHit(arena, arena[i].parent.value, target);
    }
  }

  /** The answer: the climb minus one, but never below zero. */
  function Distance<T(==)>(arena: seq<Node<T>>, i: nat, target: T): nat
    requires Ordered(arena) && i < |arena|
  {
    var c := Climb(arena, i, target);
    if c > 0 then c - 1 else 0
  }

  /** A start node without parent is at distance 0, in particular a freshly added one. */
  lemma RootDistance<T>(arena: seq<Node<T>>, i: nat, target: T)
    requires Ordered(arena) && i < |arena| && arena[i].parent.None?
    ensures Distance(arena, i, target) == 0
  {
  }

  lemma FreshNodeDistance<T>(arena: seq<Node<T>>, val: T, target: T)
    requires Ordered(arena)
    ensures Ordered(arena + [NewNode(|arena|, val)]) &&
            Distance(arena + [NewNode(|arena|, val)], |arena|, target) == 0
  {
    AppendOrdered(arena, val);
    RootDistance(arena + [NewNode(|arena|, val)], |arena|, target);
  }

  // ---------------------------------------------------------------------
  // The arena as the source mutates it.

  class ArenaTree<T(==)> {
    var arena: seq<Node<T>>

    constructor ()
      ensures arena == []
    {
      arena := [];
    }

    function Size(): nat
      reads this
    {
      |arena|
    }

    /**
     * `node(val)`: the index stored in the first node holding val, arena unchanged; or, when
     * no node holds it, a new parentless, childless node at the end whose index is the
     * old size.
     */
    method NodeFor(val: T) returns (idx: nat)
      modifies this
      ensures match FindFrom(old(arena), val, 0)
              case Some(j) => arena == old(arena) && idx == old(arena)[j].idx
              case None => arena == old(arena) + [NewNode(|old(arena)|, val)] && idx == |old(arena)|
                           && Size() == old(Size()) + 1
    {
      for k := 0 to |arena|
        invariant arena == old(arena)
        invariant forall l :: 0 <= l < k ==> arena[l].val != val
      {
        if arena[k].val == val {
          return arena[k].idx;
        }
      }
      idx := |arena|;
      arena := arena + [NewNode(idx, val)];
    }

    /**
     * `distance_between(from, target)`: the start node is looked up or added, then the
     * loop climbs parents until an ancestor's subtree holds the target or the root is
     * passed.
     */
    method DistanceBetween(from: T, target: T) returns (d: nat)
      requires Ordered(arena)
      modifies this
      ensures Ordered(arena)
      ensures arena == old(arena) || arena == old(arena) + [NewNode(|old(arena)|, from)]
      ensures var start := FindFrom(arena, from, 0);
              start.Some? && d == Distance(arena, start.value, target)
    {
      ghost var before := arena;
      var start := NodeFor(from);
      if FindFrom(before, from, 0).None? {
        AppendOrdered(before, from);
      }
      assert start < |arena| && arena[start].val == from;
      assert FindFrom(arena, from, 0) == Some(start);
      var ret: nat := 0;
      var trav: nat := start;
      ghost var fixed := arena;
      while arena[trav].parent.Some?
        invariant arena == fixed && Ordered(arena) && trav < |arena|
        invariant ret + Climb(arena, trav, target) == Climb(arena, start, target)
        decreases trav
      {
        var inner := arena[trav].parent.value;
        var hit := DepthToTarget(arena, inner, target);
        if hit.Some? {
          ret := ret + hit.value;
          break;
        }
        trav := inner;
        ret := ret + 1;
      }
      d := if ret > 0 then ret - 1 else ret;
    }
  }
}
