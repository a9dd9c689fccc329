// Runs of NULL indices in a whole maple tree: the longest run below an inner node is the longest
// below one of its children, because no leaf but the rightmost ends with NULL.
module MapleRuns {
  import opened MapleLeaf

  // The tree below a node: a leaf, or pivots and one child more than there are pivots.
  datatype Tree = Leaf(v: LeafMap) | Inner(p: seq<nat>, kids: seq<Tree>)

  // The range of child i of a node with these pivots.
  function From(p: seq<nat>, i: nat, min: nat): nat
    requires i <= |p|
  {
    if i == 0 then min else p[i - 1] + 1
  }

  function To(p: seq<nat>, i: nat, max: nat): nat
    requires i <= |p|
  {
    if i < |p| then p[i] else max
  }

  // t maps the indices min..max, and obeys the rules for NULL entries.
  ghost predicate TreeOk(t: Tree, min: nat, max: nat) {
    match t
    case Leaf(v) => LeafOk(v, min, max) && NoTwoNulls(v.s) && EndOk(v, max)
    case Inner(p, kids) =>
      && |kids| == |p| + 1 && min <= max && Increasing(p)
      && (forall i :: 0 <= i < |p| ==> min <= p[i] < max)
      && forall i :: 0 <= i < |kids| ==> TreeOk(kids[i], From(p, i, min), To(p, i, max))
  }

  // The entry of index k.
  function TreeValue(t: Tree, k: nat): nat {
    match t
    case Leaf(v) => if |v.s| == |v.p| + 1 then Value(v, k) else NULL
    case Inner(p, kids) => if |kids| == |p| + 1 then TreeValue(kids[Find(p, k)], k) else NULL
  }

  // From a to b every index maps to NULL.
  ghost predicate NullRun(t: Tree, a: nat, b: nat) {
    forall k :: a <= k <= b ==> TreeValue(t, k) == NULL
  }

  // g is the length of the longest run of NULL indices within min..max.
  ghost predicate IsLargestRun(t: Tree, min: nat, max: nat, g: nat) {
    && (forall a, b :: min <= a <= b <= max && NullRun(t, a, b) ==> b - a + 1 <= g)
    && (g > 0 ==> exists a, b :: min <= a <= b <= max && NullRun(t, a, b) && b - a + 1 == g)
  }

  lemma LargestIsUnique(t: Tree, min: nat, max: nat, g: nat, h: nat)
    requires IsLargestRun(t, min, max, g) && IsLargestRun(t, min, max, h)
    ensures g == h
  {
    hide NullRun;
  }

  lemma InChild(t: Tree, min: nat, max: nat, k: nat, i: nat)
    requires t.Inner? && TreeOk(t, min, max) && i <= |t.p| && From(t.p, i, min) <= k <= To(t.p, i, max)
    ensures TreeValue(t, k) == TreeValue(t.kids[i], k)
  {
    FindIs(t.p, k, i);
  }

  // Only the largest index of all may end a subtree with NULL.
  lemma {:induction false} EndIsNotNull(t: Tree, min: nat, max: nat)
    requires TreeOk(t, min, max) && max != ULONG_MAX
    ensures TreeValue(t, max) != NULL
  {
    match t
    case Leaf(v) =>
      FindIs(v.p, max, |v.p|);
    case Inner(p, kids) =>
      InChild(t, min, max, max, |p|);
      EndIsNotNull(kids[|p|], From(p, |p|, min), max);
  }

  // So a run of NULL indices stays within one child.
  lemma RunInChild(t: Tree, min: nat, max: nat, a: nat, b: nat) returns (i: nat)
    requires t.Inner? && TreeOk(t, min, max) && min <= a <= b <= max <= ULONG_MAX && NullRun(t, a, b)
    ensures i <= |t.p| && From(t.p, i, min) <= a && b <= To(t.p, i, max) && NullRun(t.kids[i], a, b)
  {
    hide Find, Increasing;
    var p := t.p;
    i := Find(p, a);
    if i < |p| && p[i] < b {
      InChild(t, min, max, p[i], i);
      EndIsNotNull(t.kids[i], From(p, i, min), p[i]);
      assert false;
    }
    forall k | a <= k <= b ensures TreeValue(t.kids[i], k) == NULL {
      InChild(t, min, max, k, i);
    }
  }

  lemma RunOfChild(t: Tree, min: nat, max: nat, i: nat, a: nat, b: nat)
    requires t.Inner? && TreeOk(t, min, max) && i <= |t.p| && NullRun(t.kids[i], a, b)
    requires From(t.p, i, min) <= a <= b <= To(t.p, i, max)
    ensures NullRun(t, a, b) && min <= a && b <= max
  {
    hide Find, Increasing;
    forall k | a <= k <= b ensures TreeValue(t, k) == NULL {
      InChild(t, min, max, k, i);
    }
  }

  // The longest run of a node is the longest of its children's.
  lemma LargestOfChildren(t: Tree, min: nat, max: nat, gaps: seq<nat>, g: nat)
    requires t.Inner? && TreeOk(t, min, max) && max <= ULONG_MAX && |t.kids| <= |gaps|
    requires forall i :: 0 <= i < |t.kids| ==>
             IsLargestRun(t.kids[i], From(t.p, i, min), To(t.p, i, max), gaps[i]) && gaps[i] <= g
    requires g == 0 || exists i :: 0 <= i < |t.kids| && gaps[i] == g
    ensures IsLargestRun(t, min, max, g)
  {
    hide NullRun, TreeOk;
    TreeSize(t, min, max);
    forall a, b | min <= a <= b <= max && NullRun(t, a, b) ensures b - a + 1 <= g {
      var i := RunInChild(t, min, max, a, b);
      assert IsLargestRun(t.kids[i], From(t.p, i, min), To(t.p, i, max), gaps[i]);
    }
    if g > 0 {
      var i :| 0 <= i < |t.kids| && gaps[i] == g;
      assert IsLargestRun(t.kids[i], From(t.p, i, min), To(t.p, i, max), gaps[i]);
      var a, b :| From(t.p, i, min) <= a <= b <= To(t.p, i, max) && NullRun(t.kids[i], a, b) && b - a + 1 == g;
      RunOfChild(t, min, max, i, a, b);
    }
  }

  lemma TreeSize(t: Tree, min: nat, max: nat)
    requires t.Inner? && TreeOk(t, min, max)
    ensures |t.kids| == |t.p| + 1
  {
  }
}
