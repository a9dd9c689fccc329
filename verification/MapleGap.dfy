// The largest run of NULL indices below every node of the maple tree: how a leaf computes its
// own and how a change travels up to the root and stops early.
module MapleGap {
  import opened MapleLeaf
  import opened MapleStore
  import opened MapleRuns

  // ---------- the gap of a leaf ----------

  // How many indices slot i has if it is NULL.
  function SlotGap(v: LeafMap, min: nat, max: nat, i: nat): int
    requires |v.s| == |v.p| + 1 && i <= |v.p|
  {
    if v.s[i] == NULL then Hi(v, i, max) - Lo(v, i, min) + 1 else 0
  }

  // Without neighbouring NULL slots a run of NULL indices stays within one slot.
  lemma RunInSlot(v: LeafMap, min: nat, max: nat, a: nat, b: nat) returns (i: nat)
    requires LeafOk(v, min, max) && NoTwoNulls(v.s) && min <= a <= b <= max && NullRun(Leaf(v), a, b)
    ensures i <= |v.p| && v.s[i] == NULL && Lo(v, i, min) <= a && b <= Hi(v, i, max)
  {
    hide Find, Increasing, NullRun, NoTwoNulls;
    i := Find(v.p, a);
    NullAt(v, a, b, a);
    InSlotOf(v, min, max, a);
    if Hi(v, i, max) < b {
      SlotEnds(v, min, max, i);
      SlotEnds(v, min, max, i + 1);
      NullAt(v, a, b, Hi(v, i, max) + 1);
      NeverTwo(v, i);
      assert false;
    }
  }

  lemma NullAt(v: LeafMap, a: nat, b: nat, k: nat)
    requires |v.s| == |v.p| + 1 && NullRun(Leaf(v), a, b) && a <= k <= b
    ensures v.s[Find(v.p, k)] == NULL
  {
    hide Find;
    assert TreeValue(Leaf(v), k) == NULL;
  }

  lemma InSlotOf(v: LeafMap, min: nat, max: nat, k: nat)
    requires LeafOk(v, min, max) && min <= k <= max
    ensures Lo(v, Find(v.p, k), min) <= k <= Hi(v, Find(v.p, k), max)
  {
    hide Find, Increasing;
  }

  lemma NeverTwo(v: LeafMap, i: nat)
    requires NoTwoNulls(v.s) && i + 1 < |v.s|
    ensures v.s[i] != NULL || v.s[i + 1] != NULL
  {
  }

  // The largest slot gap is the largest run.
  lemma LargestSlot(v: LeafMap, min: nat, max: nat, g: nat)
    requires LeafOk(v, min, max) && NoTwoNulls(v.s)
    requires forall i :: 0 <= i <= |v.p| ==> SlotGap(v, min, max, i) <= g
    requires g == 0 || exists i :: 0 <= i <= |v.p| && v.s[i] == NULL && SlotGap(v, min, max, i) == g
    ensures IsLargestRun(Leaf(v), min, max, g)
  {
    hide Find, Increasing, NullRun, NoTwoNulls;
    forall a, b | min <= a <= b <= max && NullRun(Leaf(v), a, b) ensures b - a + 1 <= g {
      var i := RunInSlot(v, min, max, a, b);
      assert SlotGap(v, min, max, i) <= g;
    }
    if g > 0 {
      var i :| 0 <= i <= |v.p| && v.s[i] == NULL && SlotGap(v, min, max, i) == g;
      SlotIsRun(v, min, max, i);
    }
  }

  lemma SlotIsRun(v: LeafMap, min: nat, max: nat, i: nat)
    requires LeafOk(v, min, max) && i <= |v.p| && v.s[i] == NULL
    ensures NullRun(Leaf(v), Lo(v, i, min), Hi(v, i, max)) && min <= Lo(v, i, min) <= Hi(v, i, max) <= max
  {
    hide Find, Increasing, Value;
    SlotEnds(v, min, max, i);
    forall k | Lo(v, i, min) <= k <= Hi(v, i, max) ensures Value(v, k) == NULL {
      InSlot(v, min, max, i, k);
    }
  }

  // mas_leaf_max_gap, for a leaf with at least two slots.
  method LeafMaxGap(node: LeafNode, min: Word, max: Word, ghost v: LeafMap) returns (maxGap: nat)
    requires node.Sized() && LeafOk(v, min, max) && Encodes(node.pivots[..], node.slots[..], max, v)
    requires |v.p| >= 1 && NoTwoNulls(v.s) && EndOk(v, max)
    ensures IsLargestRun(Leaf(v), min, max, maxGap)
  {
    hide Find, LeafOk, IsLargestRun, NoTwoNulls, SlotGap, Encodes;
    maxGap := 0;
    var i := 1;
    ghost var best := 0;
    DataEndIsExact(node.pivots[..], node.slots[..], min, max, v);
    SlotGaps(node, min, max, v, 0);
    if node.slots[0] == NULL {
      maxGap := node.pivots[0] - min + 1;
      i := 2;
      NeverTwo(v, 0);
    }
    SlotGaps(node, min, max, v, 1);
    var maxPiv := DataEnd(node.pivots[..], node.slots[..], max) - 1;
    SlotGaps(node, min, max, v, maxPiv + 1);
    if max == ULONG_MAX && node.slots[maxPiv + 1] == NULL {
      var gap := ULONG_MAX - node.pivots[maxPiv];
      if gap > maxGap {
        maxGap := gap;
        best := maxPiv + 1;
      }
    }
    while i <= maxPiv
      invariant 1 <= i <= maxPiv + 2
      invariant forall j :: 0 <= j < i && j <= |v.p| ==> SlotGap(v, min, max, j) <= maxGap
      invariant SlotGap(v, min, max, |v.p|) <= maxGap
      invariant best <= |v.p| && (maxGap == 0 || (v.s[best] == NULL && SlotGap(v, min, max, best) == maxGap))
    {
      SlotGaps(node, min, max, v, i);
      if node.slots[i] == NULL {
        var pstart := node.pivots[i - 1];
        var gap := node.pivots[i] - pstart;
        if gap > maxGap {
          maxGap := gap;
          best := i;
        }
        NeverTwo(v, i);
        SlotGaps(node, min, max, v, i + 1);
        i := i + 1;
      }
      i := i + 1;
    }
    LargestSlot(v, min, max, maxGap);
  }

  // The gap of slot i, read from the pivots around it.
  lemma SlotGaps(node: LeafNode, min: Word, max: Word, v: LeafMap, i: nat)
    requires node.Sized() && LeafOk(v, min, max) && Encodes(node.pivots[..], node.slots[..], max, v) && EndOk(v, max)
    requires 1 <= |v.p| && i <= |v.p|
    ensures |v.s| == |v.p| + 1 && |v.p| <= PIVOTS && node.slots[i] == v.s[i]
    ensures i > 0 ==> min <= node.pivots[i - 1] < max
    ensures 0 < i < |v.p| ==> node.pivots[i - 1] < node.pivots[i]
    ensures i < |v.p| ==> min <= node.pivots[i]
    ensures v.s[i] != NULL ==> SlotGap(v, min, max, i) == 0
    ensures v.s[i] == NULL ==> SlotGap(v, min, max, i) == if i == 0 then node.pivots[0] - min + 1
                                                          else if i < |v.p| then node.pivots[i] - node.pivots[i - 1]
                                                          else max - node.pivots[i - 1]
    ensures i == |v.p| && v.s[i] == NULL ==> max == ULONG_MAX
  {
    hide Increasing;
    if 0 < i < |v.p| {
      Ordered(v.p, i - 1, i);
    }
  }

  // ---------- the way up ----------

  const META_MAX := 15

  // Gap entries 0..end of an inner node, and the entry its metadata points at (META_MAX if there
  // is no gap at all).
  function MetaGap(gaps: seq<nat>, meta: nat): nat
    requires meta == META_MAX || meta < |gaps|
  {
    if meta == META_MAX then 0 else gaps[meta]
  }

  // The metadata points at a largest entry.
  ghost predicate MetaOk(gaps: seq<nat>, end: nat, meta: nat) {
    end < |gaps| && (meta == META_MAX || meta <= end) && |gaps| <= 10
    && forall j :: 0 <= j <= end ==> gaps[j] <= MetaGap(gaps, meta)
  }

  // ma_max_gap: the largest entry and where it is, from the end backwards.
  method MaxGap(gaps: seq<nat>, end: nat) returns (maxGap: nat, offset: nat)
    requires end < |gaps|
    ensures offset <= end && gaps[offset] == maxGap && forall j :: 0 <= j <= end ==> gaps[j] <= maxGap
  {
    maxGap, offset := 0, end;
    var i: int := end;
    while i >= 0
      invariant -1 <= i <= end && offset <= end
      invariant (maxGap == 0 && offset == end) || maxGap == gaps[offset]
      invariant forall j :: i < j <= end ==> gaps[j] <= maxGap
    {
      if gaps[i] > maxGap {
        maxGap := gaps[i];
        offset := i;
      }
      i := i - 1;
    }
  }

  // Nodes lo to hi - 1 of a path have metadata that points at a largest entry.
  ghost predicate NodesOk(gs: seq<seq<nat>>, ms: seq<nat>, end: seq<nat>, lo: int, hi: int)
    requires |gs| == |ms| == |end|
  {
    forall k :: 0 <= k < |gs| && lo <= k < hi ==> MetaOk(gs[k], end[k], ms[k])
  }

  // Node k's entry in its parent is its own largest entry.
  ghost predicate LinkOk(gs: seq<seq<nat>>, ms: seq<nat>, slot: seq<nat>, k: int)
    requires |gs| == |ms| == |slot| && 0 <= k < |gs| - 1
  {
    slot[k] < |gs[k + 1]| && (ms[k] == META_MAX || ms[k] < |gs[k]|) && gs[k + 1][slot[k]] == MetaGap(gs[k], ms[k])
  }

  ghost predicate LinksOk(gs: seq<seq<nat>>, ms: seq<nat>, slot: seq<nat>, lo: int, hi: int)
    requires |gs| == |ms| == |slot|
  {
    forall k :: 0 <= k < |gs| - 1 && lo <= k < hi ==> LinkOk(gs, ms, slot, k)
  }

  function WithGap(gs: seq<nat>, i: nat, g: nat): seq<nat>
    requires i < |gs|
  {
    gs[i := g]
  }

  // One entry of a node changes: what becomes of its metadata.
  lemma EntryChanged(old_: seq<nat>, end: nat, meta: nat, offset: nat, g: nat)
    requires MetaOk(old_, end, meta) && offset <= end
    ensures var new_ := WithGap(old_, offset, g); var m := MetaGap(old_, meta);
            && (m == g || (offset != meta && m > g) ==> MetaOk(new_, end, meta) && MetaGap(new_, meta) == m)
            && (offset != meta && m < g ==> MetaOk(new_, end, offset) && MetaGap(new_, offset) == g)
            && (offset == meta && m < g ==> MetaOk(new_, end, meta) && MetaGap(new_, meta) == g)
  {
  }

  // An inner node on the way from a leaf to the root: its pivots, its children (the one on the
  // way is whatever lies below) and its range.
  datatype Level = Level(p: seq<nat>, kids: seq<Tree>, min: nat, max: nat)

  // The inner nodes from the parent of a leaf (level 0) up to the root.
  class GapPath {
    // gaps[l] and meta[l]: the gap entries and the metadata of the node of level l
    var gaps: seq<seq<nat>>
    var meta: seq<nat>
    const end: seq<nat>
    // The slot of the node of level l in its parent, and of the leaf in its own.
    const slot: seq<nat>
    const leafSlot: nat
    // What the nodes of the path map, and the children off the path with all that is below them.
    ghost const levels: seq<Level>

    constructor (gaps: seq<seq<nat>>, meta: seq<nat>, end: seq<nat>, slot: seq<nat>, leafSlot: nat,
                 ghost levels: seq<Level>)
      ensures this.gaps == gaps && this.meta == meta && this.end == end && this.slot == slot
              && this.leafSlot == leafSlot
      ensures this.levels == levels
    {
      this.gaps, this.meta, this.end, this.slot, this.leafSlot, this.levels := gaps, meta, end, slot, leafSlot, levels;
    }

    ghost predicate Sized()
      reads this
    {
      && 0 < |gaps| == |meta| == |end| == |slot|
      && leafSlot <= end[0] && forall k :: 0 <= k < |gaps| - 1 ==> slot[k] <= end[k + 1]
    }

    // All gap entries and metadata on the path agree.
    ghost predicate Exact()
      reads this
    {
      Sized() && NodesOk(gaps, meta, end, 0, |gaps|) && LinksOk(gaps, meta, slot, 0, |gaps| - 1)
    }

    // The entry of node k that belongs to its child on the path.
    function ChildSlot(k: nat): nat
      requires k < |slot|
    {
      if k == 0 then leafSlot else slot[k - 1]
    }

    // ---------- the tree around the path ----------

    // What node k of the path maps when `leaf` is at its lower end; its child for k == 0.
    ghost function Below(leaf: Tree, k: nat): Tree
      requires k <= |levels| == |slot|
    {
      if k == 0 then leaf
      else
        var l := levels[k - 1];
        Inner(l.p, if ChildSlot(k - 1) < |l.kids| then l.kids[ChildSlot(k - 1) := Below(leaf, k - 1)] else l.kids)
    }

    // The path with `leaf` at its end, whose range is min..max, is part of a tree: every node has
    // the range that its parent's pivots give it, and the children off the path are trees too.
    ghost predicate IsPath(leaf: Tree, min: nat, max: nat)
      reads this
    {
      && Sized() && |levels| == |gaps| && TreeOk(leaf, min, max)
      && forall k :: 0 <= k < |levels| ==> LevelOk(k, min, max)
    }

    ghost predicate LevelOk(k: nat, min: nat, max: nat)
      requires k < |levels| == |end| == |slot|
    {
      var l, c := levels[k], ChildSlot(k);
      && |l.p| == end[k] && |l.kids| == end[k] + 1 && c <= end[k] && l.min <= l.max <= ULONG_MAX
      && Increasing(l.p) && (forall i :: 0 <= i < |l.p| ==> l.min <= l.p[i] < l.max)
      && (forall i :: 0 <= i < |l.kids| && i != c ==> TreeOk(l.kids[i], From(l.p, i, l.min), To(l.p, i, l.max)))
      && From(l.p, c, l.min) == (if k == 0 then min else levels[k - 1].min)
      && To(l.p, c, l.max) == (if k == 0 then max else levels[k - 1].max)
    }

    // Entry j of node k is the longest run of NULL indices below that child.
    ghost predicate EntryTrue(leaf: Tree, k: nat, j: nat)
      reads this
    {
      && k < |levels| == |slot| == |gaps| && j < |gaps[k]| && j <= |levels[k].p| && j < |levels[k].kids|
      && var l := levels[k];
         IsLargestRun(if j == ChildSlot(k) then Below(leaf, k) else l.kids[j], From(l.p, j, l.min), To(l.p, j, l.max),
                      gaps[k][j])
    }

    // All entries of the nodes lo to hi - 1 are; with offPath, of the children off the path only.
    ghost predicate EntriesTrue(leaf: Tree, lo: int, hi: int, offPath: bool)
      requires |levels| == |slot| == |gaps|
      reads this
    {
      forall k, j :: 0 <= k < |gaps| && lo <= k < hi && 0 <= j < |levels[k].kids|
                     && (j == ChildSlot(k) ==> !offPath) ==>
        EntryTrue(leaf, k, j)
    }

    // Every gap entry of every node up to the root is its child's longest run of NULL indices,
    // and the metadata points at a largest one.
    ghost predicate Truthful(leaf: Tree, min: nat, max: nat)
      reads this
    {
      IsPath(leaf, min, max) && NodesOk(gaps, meta, end, 0, |gaps|) && EntriesTrue(leaf, 0, |gaps|, false)
    }

    lemma {:induction false} BelowOk(leaf: Tree, min: nat, max: nat, k: nat)
      requires IsPath(leaf, min, max) && k <= |levels|
      ensures TreeOk(Below(leaf, k), if k == 0 then min else levels[k - 1].min,
                     if k == 0 then max else levels[k - 1].max)
    {
      hide Increasing, LevelOk, TreeOk, Below;
      if k == 0 {
        assert Below(leaf, 0) == leaf by { BelowStart(leaf); }
      } else {
        BelowOk(leaf, min, max, k - 1);
        assert LevelOk(k - 1, min, max);
        NodeTreeOk(leaf, min, max, k - 1);
      }
    }

    lemma BelowStart(leaf: Tree)
      requires |levels| == |slot|
      ensures Below(leaf, 0) == leaf
    {
    }

    lemma BelowStep(leaf: Tree, k: nat)
      requires |levels| == |slot| && k < |levels| && ChildSlot(k) < |levels[k].kids|
      ensures Below(leaf, k + 1) == Inner(levels[k].p, levels[k].kids[ChildSlot(k) := Below(leaf, k)])
    {
    }

    lemma NodeTreeOk(leaf: Tree, min: nat, max: nat, k: nat)
      requires |levels| == |end| == |slot| && k < |levels| && LevelOk(k, min, max)
      requires TreeOk(Below(leaf, k), if k == 0 then min else levels[k - 1].min,
                      if k == 0 then max else levels[k - 1].max)
      ensures TreeOk(Below(leaf, k + 1), levels[k].min, levels[k].max)
    {
      hide Increasing;
    }

    // When the entries of node k are true, its largest one is the longest run below it.
    lemma LargestEntry(leaf: Tree, min: nat, max: nat, k: nat)
      requires IsPath(leaf, min, max) && k < |gaps| && NodesOk(gaps, meta, end, 0, |gaps|)
      requires EntriesTrue(leaf, k, k + 1, false)
      ensures meta[k] == META_MAX || meta[k] < |gaps[k]|
      ensures IsLargestRun(Below(leaf, k + 1), levels[k].min, levels[k].max, MetaGap(gaps[k], meta[k]))
    {
      hide IsLargestRun, Increasing, TreeOk, Below, NodesOk;
      NodeFacts(gaps, meta, end, k);
      BelowOk(leaf, min, max, k + 1);
      assert LevelOk(k, min, max);
      BelowStep(leaf, k);
      var l, t, g := levels[k], Below(leaf, k + 1), MetaGap(gaps[k], meta[k]);
      forall i | 0 <= i < |t.kids|
        ensures IsLargestRun(t.kids[i], From(t.p, i, l.min), To(t.p, i, l.max), gaps[k][i]) && gaps[k][i] <= g
      {
        assert EntryTrue(leaf, k, i);
      }
      if g > 0 {
        assert 0 <= meta[k] < |t.kids| && gaps[k][meta[k]] == g;
      }
      LargestOfChildren(t, l.min, l.max, gaps[k], g);
    }

    // True entries agree on the way up.
    lemma TrueIsExact(leaf: Tree, min: nat, max: nat)
      requires Truthful(leaf, min, max)
      ensures Exact()
    {
      hide IsLargestRun, NodesOk;
      forall k | 0 <= k < |gaps| - 1 ensures LinkOk(gaps, meta, slot, k) {
        LargestEntry(leaf, min, max, k);
        assert LevelOk(k + 1, min, max);
        assert EntryTrue(leaf, k + 1, slot[k]);
        LargestIsUnique(Below(leaf, k + 1), levels[k].min, levels[k].max, gaps[k + 1][slot[k]],
                        MetaGap(gaps[k], meta[k]));
      }
    }

    // With true entries off the path and for the leaf, entries that agree on the way up are true.
    lemma {:induction false} ExactIsTrue(leaf: Tree, min: nat, max: nat, n: nat)
      requires Exact() && IsPath(leaf, min, max) && n <= |gaps| && EntriesTrue(leaf, 0, |gaps|, true)
      requires leafSlot < |gaps[0]| && IsLargestRun(leaf, min, max, gaps[0][leafSlot])
      ensures EntriesTrue(leaf, 0, n, false)
      decreases n
    {
      hide IsLargestRun, NodesOk, LinkOk;
      if n > 0 {
        var k := n - 1;
        ExactIsTrue(leaf, min, max, k);
        assert LevelOk(k, min, max);
        NodeFacts(gaps, meta, end, k);
        if k > 0 {
          LargestEntry(leaf, min, max, k - 1);
          LinkIs(k - 1);
        }
        assert EntryTrue(leaf, k, ChildSlot(k));
        forall j | 0 <= j < |levels[k].kids| ensures EntryTrue(leaf, k, j) {
        }
      }
    }

    lemma LinkIs(k: nat)
      requires Exact() && k < |gaps| - 1
      ensures slot[k] < |gaps[k + 1]| && (meta[k] == META_MAX || meta[k] < |gaps[k]|)
      ensures gaps[k + 1][slot[k]] == MetaGap(gaps[k], meta[k])
    {
      assert LinkOk(gaps, meta, slot, k);
    }

    // ---------- the walk ----------

    // mas_parent_gap: the entry for the leaf becomes gap, and so on upwards until a node's largest
    // entry stays what it was. If gap is the leaf's longest run and every entry off the path is
    // its child's, every entry of every node is afterwards.
    method ParentGap(gap: nat, ghost leaf: Tree, ghost min: nat, ghost max: nat)
      requires Exact() && IsPath(leaf, min, max) && EntriesTrue(leaf, 0, |gaps|, true)
               && IsLargestRun(leaf, min, max, gap)
      modifies this
      ensures |gaps| == |old(gaps)| && Truthful(leaf, min, max)
      ensures forall k :: 0 <= k < |gaps| ==> OnlyAt(old(gaps)[k], gaps[k], ChildSlot(k))
    {
      hide IsLargestRun, NodesOk, LinksOk, LevelOk, TreeOk, EntryTrue;
      SetEntries(gap);
      OffPathKept(leaf);
      ExactIsTrue(leaf, min, max, |gaps|);
    }

    method SetEntries(gap: nat)
      requires Exact()
      modifies this
      ensures Exact() && |gaps| == |old(gaps)|
      ensures leafSlot < |gaps[0]| && gaps[0][leafSlot] == gap
      ensures forall k :: 0 <= k < |gaps| ==> OnlyAt(old(gaps)[k], gaps[k], ChildSlot(k))
    {
      hide MetaOk, LinkOk, NodesOk, LinksOk;
      ghost var gs := gaps;
      var l, offset, g := 0, leafSlot, gap;
      NoLinks(gaps, meta, slot);
      while true
        invariant Sized() && l < |gaps| == |gs| && offset == ChildSlot(l) <= end[l]
        invariant NodesOk(gaps, meta, end, 0, |gaps|)
        invariant LinksOk(gaps, meta, slot, 0, l - 1) && LinksOk(gaps, meta, slot, l, |gaps| - 1)
        invariant l == 0 ==> g == gap
        invariant l > 0 ==>
                  (meta[l - 1] == META_MAX || meta[l - 1] < |gaps[l - 1]|) && g == MetaGap(gaps[l - 1], meta[l - 1])
        invariant l > 0 ==> leafSlot < |gaps[0]| && gaps[0][leafSlot] == gap
        invariant forall k :: 0 <= k < |gaps| ==> OnlyAt(gs[k], gaps[k], ChildSlot(k))
        decreases |gaps| - l
      {
        var stop, next := SetGap(l, offset, g);
        if stop || l == |gaps| - 1 {
          LinksJoin(gaps, meta, slot, l);
          return;
        }
        l, offset, g := l + 1, slot[l], next;
      }
    }

    // The entry at offset of node l becomes g. stop: its largest entry is the same as before;
    // otherwise next is the new one.
    method SetGap(l: nat, offset: nat, g: nat) returns (stop: bool, next: nat)
      requires Sized() && l < |gaps| && offset <= end[l] && NodesOk(gaps, meta, end, 0, |gaps|)
      requires LinksOk(gaps, meta, slot, 0, l - 1) && LinksOk(gaps, meta, slot, l, |gaps| - 1)
      requires l > 0 ==>
               offset == slot[l - 1] && (meta[l - 1] == META_MAX || meta[l - 1] < |gaps[l - 1]|)
               && g == MetaGap(gaps[l - 1], meta[l - 1])
      modifies this
      ensures Sized() && NodesOk(gaps, meta, end, 0, |gaps|)
      ensures offset < |old(gaps)[l]| && gaps == old(gaps)[l := WithGap(old(gaps)[l], offset, g)]
      ensures LinksOk(gaps, meta, slot, 0, l) && LinksOk(gaps, meta, slot, l + 1, |gaps| - 1)
      ensures stop ==> LinksOk(gaps, meta, slot, l, |gaps| - 1)
      ensures !stop ==> (meta[l] == META_MAX || meta[l] < |gaps[l]|) && next == MetaGap(gaps[l], meta[l])
    {
      hide MetaOk, LinksOk, NodesOk, LinkOk;
      ghost var gs, ms := gaps, meta;
      NodeFacts(gaps, meta, end, l);
      var metaOffset := meta[l];
      var metaGap := MetaGap(gaps[l], metaOffset);
      EntryChanged(gaps[l], end[l], metaOffset, offset, g);
      gaps := gaps[l := WithGap(gaps[l], offset, g)];
      stop, next := false, g;
      if metaGap == g || (offset != metaOffset && metaGap > g) {
        stop := true;
      } else if offset != metaOffset {
        meta := meta[l := offset];
      } else if g < metaGap {
        var m;
        next, m := MaxGap(gaps[l], end[l]);
        meta := meta[l := m];
        MaxIsOk(gs[l], end[l], metaOffset, gaps[l], next, m);
      }
      PathChanged(gs, gaps, ms, meta, end, slot, l, offset, g);
    }

    // mas_update_gap, after the leaf changed from `was` to v. If every entry up to the root was its
    // child's longest run before the leaf changed, every entry is afterwards.
    method UpdateGap(node: LeafNode, min: Word, max: Word, ghost was: Tree, ghost v: LeafMap)
      requires Truthful(was, min, max) && IsPath(Leaf(v), min, max)
      requires node.Sized() && Encodes(node.pivots[..], node.slots[..], max, v) && |v.p| >= 1
      modifies this
      ensures |gaps| == |old(gaps)| && Truthful(Leaf(v), min, max)
      ensures forall k :: 0 <= k < |gaps| ==> OnlyAt(old(gaps)[k], gaps[k], ChildSlot(k))
    {
      hide IsLargestRun, LinksOk, Encodes, NodesOk, LevelOk, EntryTrue, LeafOk;
      assert TreeOk(Leaf(v), min, max);
      var maxGap := LeafMaxGap(node, min, max, v);
      TrueIsExact(was, min, max);
      OffPathOf(was, Leaf(v));
      NodeFacts(gaps, meta, end, 0);
      if gaps[0][leafSlot] != maxGap {
        ParentGap(maxGap, Leaf(v), min, max);
      } else {
        ExactIsTrue(Leaf(v), min, max, |gaps|);
      }
    }

    // Entries off the path do not depend on the leaf.
    lemma OffPathOf(was: Tree, leaf: Tree)
      requires |levels| == |slot| == |gaps| && EntriesTrue(was, 0, |gaps|, false)
      ensures EntriesTrue(leaf, 0, |gaps|, true)
    {
      hide IsLargestRun;
      forall k, j | 0 <= k < |gaps| && 0 <= j < |levels[k].kids| && j != ChildSlot(k)
        ensures EntryTrue(leaf, k, j)
      {
        assert EntryTrue(was, k, j);
      }
    }

    // Nor on the entries of the path.
    twostate lemma OffPathKept(leaf: Tree)
      requires old(|levels| == |slot| == |gaps|) && |gaps| == |old(gaps)| && old(EntriesTrue(leaf, 0, |gaps|, true))
      requires forall k :: 0 <= k < |gaps| ==> OnlyAt(old(gaps)[k], gaps[k], ChildSlot(k))
      ensures EntriesTrue(leaf, 0, |gaps|, true)
    {
      hide IsLargestRun;
      forall k, j | 0 <= k < |gaps| && 0 <= j < |levels[k].kids| && j != ChildSlot(k)
        ensures EntryTrue(leaf, k, j)
      {
        assert old(EntryTrue(leaf, k, j));
        assert OnlyAt(old(gaps)[k], gaps[k], ChildSlot(k));
      }
    }
  }

  lemma NodeFacts(gs: seq<seq<nat>>, ms: seq<nat>, end: seq<nat>, l: nat)
    requires |gs| == |ms| == |end| && l < |gs| && NodesOk(gs, ms, end, 0, |gs|)
    ensures MetaOk(gs[l], end[l], ms[l]) && end[l] < |gs[l]| <= 10 && (ms[l] == META_MAX || ms[l] <= end[l])
  {
  }

  lemma MaxIsOk(old_: seq<nat>, end: nat, meta: nat, gaps: seq<nat>, g: nat, m: nat)
    requires MetaOk(old_, end, meta) && |gaps| == |old_| && m <= end && gaps[m] == g
    requires forall j :: 0 <= j <= end ==> gaps[j] <= g
    ensures MetaOk(gaps, end, m) && MetaGap(gaps, m) == g
  {
  }

  // What a change in node l means for the rest of the path.
  lemma PathChanged(gs: seq<seq<nat>>, ht: seq<seq<nat>>, ms: seq<nat>, mt: seq<nat>, end: seq<nat>, slot: seq<nat>,
                    l: nat, offset: nat, g: nat)
    requires 0 < |gs| == |ht| == |ms| == |mt| == |end| == |slot| && l < |gs|
    requires offset < |gs[l]| && ht == gs[l := WithGap(gs[l], offset, g)]
    requires (mt[l] == META_MAX || mt[l] < |ht[l]|) && mt == ms[l := mt[l]]
    requires NodesOk(gs, ms, end, 0, |gs|) && MetaOk(ht[l], end[l], mt[l])
    requires LinksOk(gs, ms, slot, 0, l - 1) && LinksOk(gs, ms, slot, l, |gs| - 1)
    requires l > 0 ==>
             offset == slot[l - 1] && (ms[l - 1] == META_MAX || ms[l - 1] < |gs[l - 1]|)
             && g == MetaGap(gs[l - 1], ms[l - 1])
    ensures NodesOk(ht, mt, end, 0, |ht|) && LinksOk(ht, mt, slot, 0, l) && LinksOk(ht, mt, slot, l + 1, |ht| - 1)
    ensures (ms[l] == META_MAX || ms[l] < |gs[l]|)
            && (MetaGap(ht[l], mt[l]) == MetaGap(gs[l], ms[l]) ==> LinksOk(ht, mt, slot, l, |ht| - 1))
  {
    forall k | 0 <= k < |ht| - 1 && 0 <= k < l ensures LinkOk(ht, mt, slot, k) {
      if k < l - 1 {
        assert LinkOk(gs, ms, slot, k);
      }
    }
    assert MetaOk(gs[l], end[l], ms[l]);
    forall k | 0 <= k < |ht| - 1 && l <= k && (k == l ==> MetaGap(ht[l], mt[l]) == MetaGap(gs[l], ms[l]))
      ensures LinkOk(ht, mt, slot, k)
    {
      assert LinkOk(gs, ms, slot, k);
    }
  }

  ghost predicate OnlyAt(a: seq<nat>, b: seq<nat>, i: nat) {
    |a| == |b| && forall j :: 0 <= j < |a| && j != i ==> a[j] == b[j]
  }

  lemma NoLinks(gs: seq<seq<nat>>, ms: seq<nat>, slot: seq<nat>)
    requires |gs| == |ms| == |slot|
    ensures LinksOk(gs, ms, slot, 0, -1)
  {
  }

  lemma LinksJoin(gs: seq<seq<nat>>, ms: seq<nat>, slot: seq<nat>, l: nat)
    requires |gs| == |ms| == |slot| && l < |gs| && LinksOk(gs, ms, slot, 0, l)
    requires LinksOk(gs, ms, slot, l, |gs| - 1) || l == |gs| - 1
    ensures LinksOk(gs, ms, slot, 0, |gs| - 1)
  {
  }
}
