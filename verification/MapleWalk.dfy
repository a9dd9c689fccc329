// Walking up the maple tree recovers the bounds that walking down had: a node stores neither its
// own minimum nor its maximum, so the pivots of several ancestors may have to be read.
module MapleWalk {
  import opened MapleLeaf

  // A node with its pivots, one slot more than it has pivots, and the way back: its parent and the
  // slot there. In a leaf the slots are entries, elsewhere nodes by number; 0 is NULL.
  datatype TNode = TNode(leaf: bool, pivots: seq<Word>, slots: seq<nat>, parent: nat, parentSlot: nat)

  predicate HasChild(t: seq<TNode>, n: nat, j: nat) {
    n < |t| && !t[n].leaf && j < |t[n].slots| && 0 < t[n].slots[j] < |t|
  }

  // Node 0 is the root, and parents come before their children. A child's parent pointer and
  // parent slot name the slot it is in.
  ghost predicate TreeOk(t: seq<TNode>) {
    && 0 < |t|
    && (forall n :: 0 <= n < |t| ==> |t[n].slots| == |t[n].pivots| + 1)
    && (forall i :: 0 < i < |t| ==>
          t[i].parent < i && HasChild(t, t[i].parent, t[i].parentSlot) && t[t[i].parent].slots[t[i].parentSlot] == i)
    && (forall n: nat, j: nat :: HasChild(t, n, j) ==> t[t[n].slots[j]].parent == n && t[t[n].slots[j]].parentSlot == j)
  }

  // The pivot that bounds node i in its parent is stored: not left zero to mean the parent's
  // maximum.
  ghost predicate Explicit(t: seq<TNode>, i: nat)
    requires TreeOk(t) && 0 < i < |t|
  {
    var s, p := t[i].parentSlot, t[t[i].parent].pivots;
    s < |p| ==> p[s] != 0 || s == 0
  }

  // The true bounds of node i (mas_logical_pivot for the maximum).
  ghost function MinOf(t: seq<TNode>, i: nat): nat
    requires TreeOk(t) && i < |t|
  {
    if i == 0 then 0
    else if t[i].parentSlot > 0 then t[t[i].parent].pivots[t[i].parentSlot - 1] + 1
    else MinOf(t, t[i].parent)
  }

  ghost function MaxOf(t: seq<TNode>, i: nat): Word
    requires TreeOk(t) && i < |t|
  {
    if i == 0 then ULONG_MAX
    else if t[i].parentSlot < |t[t[i].parent].pivots| && Explicit(t, i) then t[t[i].parent].pivots[t[i].parentSlot]
    else MaxOf(t, t[i].parent)
  }

  // Children lie within their parents.
  ghost predicate BoundsOk(t: seq<TNode>)
    requires TreeOk(t)
  {
    forall i :: 0 < i < |t| ==> MinOf(t, t[i].parent) <= MinOf(t, i) <= MaxOf(t, i) <= MaxOf(t, t[i].parent)
  }

  ghost predicate AllExplicit(t: seq<TNode>)
    requires TreeOk(t)
  {
    forall i :: 0 < i < |t| ==> Explicit(t, i)
  }

  // Walking up from node i, the first pivot that bounds it from above is stored.
  ghost predicate BoundStored(t: seq<TNode>, i: nat)
    requires TreeOk(t) && i < |t|
  {
    i == 0 || if t[i].parentSlot < |t[t[i].parent].pivots| then Explicit(t, i) else BoundStored(t, t[i].parent)
  }

  lemma {:induction false} ExplicitBounds(t: seq<TNode>, i: nat)
    requires TreeOk(t) && i < |t| && AllExplicit(t)
    ensures BoundStored(t, i)
  {
    if i > 0 {
      ExplicitBounds(t, t[i].parent);
    }
  }

  class MaState {
    const nodes: seq<TNode>
    var node: nat
    var offset: nat
    var min: Word
    var max: Word

    constructor (nodes: seq<TNode>, node: nat, offset: nat, min: Word, max: Word)
      ensures this.nodes == nodes && this.node == node && this.offset == offset && this.min == min && this.max == max
    {
      this.nodes, this.node, this.offset, this.min, this.max := nodes, node, offset, min, max;
    }

    // The state is at a node of the tree and has its true bounds.
    ghost predicate Exact()
      reads this
    {
      TreeOk(nodes) && BoundsOk(nodes) && node < |nodes| && min == MinOf(nodes, node) && max == MaxOf(nodes, node)
    }

    // mas_descend. The maximum comes out right iff the child's pivot is stored.
    method Descend()
      requires Exact() && HasChild(nodes, node, offset)
      modifies this
      ensures node == nodes[old(node)].slots[old(offset)] && node < |nodes| && offset == old(offset)
      ensures 0 < node && min == MinOf(nodes, node)
      ensures max == MaxOf(nodes, node) <==> Explicit(nodes, node)
    {
      hide BoundsOk;
      var pivots := nodes[node].pivots;
      ChildBounds(nodes, nodes[node].slots[offset]);
      if offset > 0 {
        min := pivots[offset - 1] + 1;
      }
      max := if offset >= |pivots| then max else pivots[offset];
      node := nodes[node].slots[offset];
    }

    // mas_ascend, with no dead node on the way. The minimum always comes out right; the maximum
    // does iff the pivot that bounds the parent is stored, or none is needed.
    method Ascend()
      requires Exact()
      modifies this
      ensures old(node) == 0 ==> node == 0 && offset == 0 && min == old(min) && max == old(max)
      ensures old(node) > 0 ==> node == nodes[old(node)].parent && offset == nodes[old(node)].parentSlot
      ensures node < |nodes| && min == MinOf(nodes, node)
      ensures old(node) > 0 ==>
              (max == MaxOf(nodes, node) <==> node == 0 || old(max) == ULONG_MAX || BoundStored(nodes, node))
    {
      hide BoundsOk;
      if node == 0 {
        offset := 0;
        return;
      }
      ChildBounds(nodes, node);
      offset := nodes[node].parentSlot;
      node := nodes[node].parent;
      if node == 0 {
        max, min := ULONG_MAX, 0;
        return;
      }
      var lo, hi := ScanUp(node, min == 0, max == ULONG_MAX);
      max, min := hi, lo;
    }

    // The loop over the ancestors of node n; minKnown and maxKnown say which bound is that of the
    // whole tree.
    method ScanUp(n: nat, minKnown: bool, maxKnown: bool) returns (lo: Word, hi: Word)
      requires TreeOk(nodes) && BoundsOk(nodes) && 0 < n < |nodes|
      ensures lo == if minKnown then 0 else MinOf(nodes, n)
      ensures maxKnown ==> hi == ULONG_MAX
      ensures !maxKnown ==> (hi == MaxOf(nodes, n) <==> BoundStored(nodes, n))
    {
      hide BoundsOk;
      var setMin, setMax := minKnown, maxKnown;
      lo, hi := 0, ULONG_MAX;
      var a, first := n, true;
      while first || (a != 0 && (!setMin || !setMax))
        invariant 0 <= a <= n && (first ==> a == n)
        invariant if minKnown then setMin && lo == 0
                  else if setMin then lo == MinOf(nodes, n)
                  else lo == 0 && MinOf(nodes, n) == MinOf(nodes, a)
        invariant maxKnown ==> setMax && hi == ULONG_MAX
        invariant !maxKnown && !setMax ==>
                  hi == ULONG_MAX && MaxOf(nodes, n) == MaxOf(nodes, a)
                  && (BoundStored(nodes, n) <==> BoundStored(nodes, a))
        invariant !maxKnown && setMax ==> (hi == MaxOf(nodes, n) <==> BoundStored(nodes, n))
        decreases a
      {
        ChildBounds(nodes, a);
        var slot := nodes[a].parentSlot;
        a, first := nodes[a].parent, false;
        var pivots := nodes[a].pivots;
        if !setMin && slot > 0 {
          setMin := true;
          lo := pivots[slot - 1] + 1;
        }
        if !setMax && slot < |pivots| {
          setMax := true;
          hi := pivots[slot];
        }
      }
    }

    // Down and up again: with stored pivots the state is what it was.
    method DownAndUp()
      requires Exact() && HasChild(nodes, node, offset) && AllExplicit(nodes)
      modifies this
      ensures node == old(node) && offset == old(offset) && min == old(min) && max == old(max)
    {
      Descend();
      Ascend();
      ExplicitBounds(nodes, node);
    }
  }

  // A child lies within its parent, and a slot with an implied pivot is not the first one, so the
  // child cannot end at 0.
  lemma ChildBounds(t: seq<TNode>, i: nat)
    requires TreeOk(t) && BoundsOk(t) && 0 < i < |t|
    ensures MinOf(t, t[i].parent) <= MinOf(t, i) <= MaxOf(t, i) <= MaxOf(t, t[i].parent)
    ensures MinOf(t, i) <= ULONG_MAX
    ensures t[i].parentSlot < |t[t[i].parent].pivots| && !Explicit(t, i) ==> MaxOf(t, i) > 0
  {
  }

  // A tree whose root leaves its last pivot implied: two children below the root, a leaf and an
  // inner node, and one leaf below that.
  function ImpliedTree(): (t: seq<TNode>)
    ensures |t| == 4
  {
    [TNode(false, [10, 0], [3, 1, 0], 0, 0), TNode(false, [20, 30], [2, 0, 0], 0, 1),
     TNode(true, [15, 0], [7, 8, 0], 1, 0), TNode(true, [5, 0], [7, 8, 0], 0, 0)]
  }

  lemma ImpliedTreeOk()
    ensures TreeOk(ImpliedTree())
  {
    var t := ImpliedTree();
    ChildOfImplied();
    forall i | 0 < i < |t| ensures t[i].parent < i && HasChild(t, t[i].parent, t[i].parentSlot) {
      assert i == 1 || i == 2 || i == 3;
    }
    forall i | 0 < i < |t| ensures t[t[i].parent].slots[t[i].parentSlot] == i {
      assert i == 1 || i == 2 || i == 3;
    }
    forall n: nat, j: nat | HasChild(t, n, j) ensures t[t[n].slots[j]].parent == n && t[t[n].slots[j]].parentSlot == j {
    }
  }

  lemma ChildOfImplied()
    ensures forall n: nat, j: nat ::
              HasChild(ImpliedTree(), n, j) ==> (n == 0 && (j == 0 || j == 1)) || (n == 1 && j == 0)
  {
    var t := ImpliedTree();
    forall n: nat, j: nat | HasChild(t, n, j) ensures (n == 0 && (j == 0 || j == 1)) || (n == 1 && j == 0) {
      assert n == 0 || n == 1;
      assert j == 0 || j == 1 || j == 2;
    }
  }

  lemma ImpliedBounds()
    ensures var t := ImpliedTree();
            && TreeOk(t) && BoundsOk(t) && MinOf(t, 2) == 11 && MaxOf(t, 2) == 20 && MaxOf(t, 1) == ULONG_MAX
            && !BoundStored(t, 1)
  {
    ImpliedTreeOk();
    var t := ImpliedTree();
    hide TreeOk, MinOf, MaxOf, BoundStored;
    RootBounds(t);
    BoundsStep(t, 1);
    BoundsStep(t, 2);
    BoundsStep(t, 3);
  }

  lemma RootBounds(t: seq<TNode>)
    requires TreeOk(t)
    ensures 0 < |t| && MinOf(t, 0) == 0 && MaxOf(t, 0) == ULONG_MAX
  {
  }

  // The bounds of a node from those of its parent.
  lemma BoundsStep(t: seq<TNode>, i: nat)
    requires TreeOk(t) && 0 < i < |t|
    ensures t[i].parent < i && t[i].parentSlot <= |t[t[i].parent].pivots|
    ensures var p, s := t[t[i].parent].pivots, t[i].parentSlot;
            && MinOf(t, i) == (if s > 0 then p[s - 1] + 1 else MinOf(t, t[i].parent))
            && MaxOf(t, i) == (if s < |p| && (p[s] != 0 || s == 0) then p[s] else MaxOf(t, t[i].parent))
            && (s < |p| && p[s] == 0 && s > 0 ==> !BoundStored(t, i))
  {
  }

  // The walk up from below its implied pivot loses the maximum.
  method ImpliedPivotLosesMax() returns (wrong: Word, ghost right: Word)
    ensures wrong != ULONG_MAX && right == ULONG_MAX
  {
    hide TreeOk, BoundsOk, ImpliedTree;
    ImpliedBounds();
    var s := new MaState(ImpliedTree(), 2, 0, 11, 20);
    right := MaxOf(ImpliedTree(), 1);
    ParentOfLow();
    s.Ascend();
    wrong := s.max;
  }

  lemma ParentOfLow()
    ensures ImpliedTree()[2].parent == 1
  {
  }
}
