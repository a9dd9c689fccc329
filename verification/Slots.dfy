// The slots of the cuckoo hash table, read as values: which slots are nodes, which hold
// another node's bitmap, and what survives when nodes and bitmaps move.
module Slots {
  import opened Bits
  import opened Keys
  import opened ChildMap

  // A 24-byte slot by its occupancy flag: unused, a trie node, or 192 bits of the bitmap of a
  // nearby node. A node is indexed by the first ilen bytes of minKey; all keys below it agree
  // with minKey on the first dlen bytes; fp is its 18-bit fingerprint.
  datatype Slot =
    | Empty
    | Node(ilen: nat, dlen: nat, fp: nat, minKey: Key, kids: Kids)
    | Bitmap(w0: Word, w1: Word, w2: Word)

  // Slots kept free for bitmaps before and after the part of the array that hashes reach.
  const GAP: nat := 6

  // The place of a node in the trie, and what the trie needs to know about it.
  datatype Index = Index(len: nat, prefix: nat)
  datatype Info = Info(dlen: nat, minKey: Key, children: set<nat>)

  ghost predicate NodeOk(x: Slot)
    requires x.Node?
  {
    && 1 <= x.ilen <= x.dlen <= 8
    && (x.dlen == 8 ==> x.kids.Inline?)
    && (x.dlen < 8 && x.kids.Inline? ==> InlineOk(x.kids.packed, x.kids.num))
    && (x.kids.Near? ==> -3 <= x.kids.offset <= 3)
  }

  predicate IsNode(s: seq<Slot>, i: int) {
    0 <= i < |s| && s[i].Node?
  }

  // Node j keeps its bitmap in slot i.
  predicate Owns(s: seq<Slot>, j: int, i: int) {
    IsNode(s, j) && s[j].kids.Near? && j + s[j].kids.offset == i
  }

  predicate Inside(s: seq<Slot>, i: int) {
    GAP <= i < |s| - GAP
  }

  // Nodes sit where hashes reach; bitmap slots and the nodes using them correspond one to one.
  ghost predicate Shape(s: seq<Slot>) {
    && 2 * GAP < |s|
    && (forall i :: IsNode(s, i) ==> Inside(s, i) && NodeOk(s[i]))
    && (forall i, j :: Owns(s, j, i) ==> 0 <= i < |s| && s[i].Bitmap?)
    && (forall i, j, k :: Owns(s, j, i) && Owns(s, k, i) ==> j == k)
    && (forall i :: 0 <= i < |s| && s[i].Bitmap? ==> FlagKept(s[i]) && exists j :: Owns(s, j, i))
  }

  // The occupancy flag of a bitmap slot, 0b11, is bits 30 and 31 of its first word, so these
  // two bits must stay set whatever is stored in the bitmap.
  ghost predicate FlagKept(x: Slot)
    requires x.Bitmap?
  {
    Bit(x.w0, 30) && Bit(x.w0, 31)
  }

  // The members of node i's child set, wherever its bitmap lies. Leaves have none.
  function Children(s: seq<Slot>, i: int): set<nat>
    requires IsNode(s, i)
  {
    var k := s[i].kids;
    if s[i].dlen == 8 then {}
    else if k.Near? && 0 <= i + k.offset < |s| && s[i + k.offset].Bitmap? then
      var b := s[i + k.offset];
      Members(k, b.w0, b.w1, b.w2)
    else Members(k, 0, 0, 0)
  }

  // Slot j of r is the node of slot i of s: same index, path, fingerprint and child set.
  ghost predicate SameNode(s: seq<Slot>, i: int, r: seq<Slot>, j: int)
    requires IsNode(s, i) && NodeOk(s[i])
  {
    && IsNode(r, j) && NodeOk(r[j])
    && r[j].ilen == s[i].ilen && r[j].dlen == s[i].dlen
    && r[j].fp == s[i].fp && r[j].minKey == s[i].minKey
    && Children(r, j) == Children(s, i)
  }

  // What a reader finds in a slot: no node (empty or a bitmap), or a node, word for word, with
  // the bitmap slot it points at (Empty if it points at none).
  datatype View = NoNode | ANode(node: Slot, bitmap: Slot)

  function NodeView(s: seq<Slot>, i: int): View {
    if IsNode(s, i) then ANode(s[i], BitmapOf(s, i)) else NoNode
  }

  function BitmapOf(s: seq<Slot>, i: int): Slot
    requires IsNode(s, i)
  {
    if s[i].kids.Near? && 0 <= i + s[i].kids.offset < |s| then s[i + s[i].kids.offset] else Empty
  }

  lemma ViewHasChildren(s: seq<Slot>, i: int, r: seq<Slot>, j: int)
    requires IsNode(s, i) && NodeView(r, j) == NodeView(s, i)
    ensures IsNode(r, j) && r[j] == s[i]
    ensures Shape(s) && Shape(r) ==> Children(r, j) == Children(s, i)
  {
    if Shape(s) && Shape(r) && s[i].kids.Near? {
      assert Owns(s, i, i + s[i].kids.offset) && Owns(r, j, j + r[j].kids.offset);
    }
  }

  // Outside `changed` a reader finds the same in every slot of r as of s.
  ghost predicate OthersKept(s: seq<Slot>, r: seq<Slot>, changed: set<int>) {
    |r| == |s| && forall i :: 0 <= i < |s| && i !in changed ==> NodeView(r, i) == NodeView(s, i)
  }

  // r is s after the node at `from` moved to `to`; every other node stays put.
  ghost predicate Moved(s: seq<Slot>, r: seq<Slot>, from: int, to: int)
    requires Shape(s) && IsNode(s, from)
  {
    && |r| == |s| && Shape(r) && from != to
    && 0 <= to < |r| && r[from] == Empty
    && SameNode(s, from, r, to)
    && (forall j :: IsNode(s, j) && j != from && j != to ==> SameNode(s, j, r, j))
    && (forall j :: IsNode(r, j) && j != to ==> IsNode(s, j))
    && OthersKept(s, r, {from, to})
  }

  // r is s with the bitmap of node i elsewhere.
  ghost predicate Rearranged(s: seq<Slot>, r: seq<Slot>, i: int)
    requires Shape(s)
  {
    && |r| == |s| && Shape(r) && OthersKept(s, r, {i})
    && (forall j :: IsNode(s, j) ==> SameNode(s, j, r, j))
    && (forall j :: IsNode(r, j) ==> IsNode(s, j))
  }

  // A bitmap slot belongs to a node at most three slots away.
  lemma OwnerIsNear(s: seq<Slot>, i: int, j: int)
    requires Shape(s) && Owns(s, j, i)
    ensures i - 3 <= j <= i + 3 && j != i && 3 <= i < |s| - 3
  {
  }

  // What FindNeighboringEmptySlot promises about the offset it returns (0: none is free).
  ghost predicate FreeNeighbour(s: seq<Slot>, i: int, off: int)
    requires 3 <= i < |s| - 3
  {
    && -3 <= off <= 3
    && (off != 0 ==> s[i + off] == Empty)
    && (off == 0 ==> forall j :: i - 3 <= j <= i + 3 && j != i ==> s[j] != Empty)
  }

  // Where FindNeighboringEmptySlot looks, in order; 0 if every one of the six is taken.
  function FreeOffset(s: seq<Slot>, i: int): (off: int)
    requires 3 <= i < |s| - 3
    ensures FreeNeighbour(s, i, off)
  {
    if s[i + 1] == Empty then 1 else if s[i - 1] == Empty then -1
    else if s[i + 2] == Empty then 2 else if s[i - 2] == Empty then -2
    else if s[i + 3] == Empty then 3 else if s[i - 3] == Empty then -3 else 0
  }

  // That is the nearest free slot, and of two at the same distance the one after i.
  lemma FreeOffsetIsNearest(s: seq<Slot>, i: int, j: int)
    requires 3 <= i < |s| - 3 && i - 3 <= j <= i + 3 && j != i && s[j] == Empty
    ensures var off := FreeOffset(s, i);
            off != 0 && if j > i then i - j < off <= j - i else j - i <= off <= i - j
  {
  }

  // r agrees with s outside the slots in `touched`.
  ghost predicate SameElsewhere(s: seq<Slot>, r: seq<Slot>, touched: set<int>) {
    |r| == |s| && forall i :: 0 <= i < |s| && i !in touched ==> r[i] == s[i]
  }

  lemma Untouched(s: seq<Slot>, r: seq<Slot>, j: int)
    requires Shape(s) && |r| == |s| && IsNode(s, j) && r[j] == s[j]
    requires s[j].kids.Near? ==> var b := j + s[j].kids.offset; 0 <= b < |s| && r[b] == s[b]
    ensures SameNode(s, j, r, j) && NodeView(r, j) == NodeView(s, j)
  {
  }

  // Shape survives when one bitmap leaves slot b (and, if it still lies in a slot, enters c)
  // because its owner at `from` is now the node at `to` (possibly the same slot).
  lemma ShapeAfterMove(s: seq<Slot>, r: seq<Slot>, from: int, to: int, b: int, c: int)
    requires Shape(s) && Owns(s, from, b) && Inside(s, to)
    requires to == from || s[to] == Empty
    requires SameElsewhere(s, r, {from, to, b, c})
    requires IsNode(r, to) && NodeOk(r[to]) && (from != to ==> r[from] == Empty) && r[b] == Empty
    requires r[to].kids.Near? ==> to + r[to].kids.offset == c && 0 <= c < |s| && c != b && c != from && c != to
                                  && s[c] == Empty && r[c] == s[b]
    requires !r[to].kids.Near? ==> c == b
    ensures Shape(r)
    ensures forall j :: IsNode(r, j) && j != to ==> IsNode(s, j) && j != from
  {
    forall j | 0 <= j < |s| && j != to
      ensures IsNode(r, j) <==> IsNode(s, j) && j != from
      ensures IsNode(r, j) ==> r[j] == s[j]
    {
    }
    assert forall i, j :: j != to ==> (Owns(r, j, i) <==> j != from && Owns(s, j, i));
    forall i, j | Owns(r, j, i) ensures 0 <= i < |r| && r[i].Bitmap? {
      if j != to {
        assert Owns(s, j, i);
      }
    }
    forall i, j, k | Owns(r, j, i) && Owns(r, k, i) ensures j == k {
      if j != to && k != to {
        assert Owns(s, j, i) && Owns(s, k, i);
      }
    }
    forall i | 0 <= i < |r| && r[i].Bitmap? ensures exists j :: Owns(r, j, i) {
      if r[to].kids.Near? && i == c {
        assert Owns(r, to, i);
      } else {
        var j :| Owns(s, j, i);
        assert Owns(r, j, i);
      }
    }
  }

  // ---------- MoveNode ----------

  // MoveNode of a node whose children are inline or external.
  lemma MovePlain(s: seq<Slot>, r: seq<Slot>, from: int, to: int)
    requires Shape(s) && IsNode(s, from) && !s[from].kids.Near?
    requires Inside(s, to) && s[to] == Empty
    requires SameElsewhere(s, r, {from, to}) && r[to] == s[from] && r[from] == Empty
    ensures Moved(s, r, from, to)
  {
    OthersUntouched(s, r, {from, to}, {});
    ShapeAfterPlainMove(s, r, from, to);
  }

  lemma ShapeAfterPlainMove(s: seq<Slot>, r: seq<Slot>, from: int, to: int)
    requires Shape(s) && IsNode(s, from) && !s[from].kids.Near?
    requires Inside(s, to) && s[to] == Empty
    requires SameElsewhere(s, r, {from, to}) && r[to] == s[from] && r[from] == Empty
    ensures Shape(r)
  {
    assert forall i, j :: Owns(r, j, i) <==> Owns(s, j, i);
  }

  // MoveNode of a node with a bitmap in slot b: the bitmap moves to a free neighbour of `to`
  // at offset off, or, when there is none (off == 0), to external memory.
  lemma MoveWithBitmap(s: seq<Slot>, r: seq<Slot>, from: int, to: int, b: int, off: int)
    requires Shape(s) && Owns(s, from, b) && Inside(s, to) && s[to] == Empty
    requires -3 <= off <= 3 && (off != 0 ==> s[to + off] == Empty)
    requires SameElsewhere(s, r, {from, to, b, if off != 0 then to + off else b})
    requires r[from] == Empty && r[b] == Empty
    requires off != 0 ==> r[to] == s[from].(kids := s[from].kids.(offset := off)) && r[to + off] == s[b]
    requires off == 0 ==> r[to] == s[from].(kids := ExternalCopy(s, from))
    ensures Moved(s, r, from, to)
  {
    hide Shape, SameNode;
    var c := if off != 0 then to + off else b;
    BitmapOwner(s, from, b);
    assert IsNode(r, to) && NodeOk(r[to]);
    ShapeAfterMove(s, r, from, to, b, c);
    OthersUntouched(s, r, {from, to}, {b, c});
    SameBitmap(s, r, from, to, b);
  }

  lemma BitmapOwner(s: seq<Slot>, i: int, b: int)
    requires Shape(s) && Owns(s, i, b)
    ensures NodeOk(s[i]) && Inside(s, i) && 0 <= b < |s| && s[b].Bitmap?
    ensures forall j, a :: Owns(s, j, a) ==> (a == b ==> j == i) && 0 <= a < |s| && s[a] != Empty
  {
  }

  // Nodes outside `moved` keep their children when the other changed slots held no node and
  // no bitmap of theirs.
  lemma OthersUntouched(s: seq<Slot>, r: seq<Slot>, moved: set<int>, bitmaps: set<int>)
    requires Shape(s) && SameElsewhere(s, r, moved + bitmaps)
    requires forall b :: b in moved ==> 0 <= b < |s| && !s[b].Bitmap?
    requires forall b :: b in bitmaps ==> 0 <= b < |s| && !s[b].Node?
    requires forall j, b :: b in bitmaps && Owns(s, j, b) ==> j in moved
    ensures forall j :: IsNode(s, j) && j !in moved ==> SameNode(s, j, r, j)
    ensures (forall b :: b in bitmaps && b !in moved ==> !IsNode(r, b)) ==> OthersKept(s, r, moved)
  {
    forall j | IsNode(s, j) && j !in moved
      ensures SameNode(s, j, r, j) && NodeView(r, j) == NodeView(s, j)
    {
      if s[j].kids.Near? {
        assert Owns(s, j, j + s[j].kids.offset);
      }
      Untouched(s, r, j);
    }
  }

  // The moved node reads the same bitmap at its new place.
  lemma SameBitmap(s: seq<Slot>, r: seq<Slot>, from: int, to: int, b: int)
    requires Shape(s) && Owns(s, from, b) && |r| == |s|
    requires IsNode(r, to) && NodeOk(r[to]) && r[to] == s[from].(kids := r[to].kids)
    requires var k := r[to].kids;
             || (k.Near? && k == s[from].kids.(offset := k.offset)
                 && 0 <= to + k.offset < |r| && r[to + k.offset] == s[b])
             || k == ExternalCopy(s, from)
    ensures SameNode(s, from, r, to)
  {
  }

  // The external bitmap CopyToExternalBitMap builds for node i.
  function ExternalCopy(s: seq<Slot>, i: int): (k: Kids)
    requires IsNode(s, i) && s[i].kids.Near?
    requires 0 <= i + s[i].kids.offset < |s| && s[i + s[i].kids.offset].Bitmap?
    ensures k.External?
  {
    var b := s[i + s[i].kids.offset];
    External([s[i].kids.low, Patched(b.w0, s[i].kids.b94, s[i].kids.b95), b.w1, b.w2])
  }

  // A node with its bitmap slot, if it has one.
  predicate HasBitmap(s: seq<Slot>, i: int) {
    IsNode(s, i) && (s[i].kids.Near? ==> 0 <= i + s[i].kids.offset < |s| && s[i + s[i].kids.offset].Bitmap?)
  }

  // The slots after MoveNode.
  function AfterMove(s: seq<Slot>, from: int, to: int): (r: seq<Slot>)
    requires 2 * GAP < |s|
    ensures |r| == |s|
    ensures (forall i :: IsNode(s, i) ==> s[i].ilen <= 8) ==> forall i :: IsNode(r, i) ==> r[i].ilen <= 8
  {
    if !HasBitmap(s, from) || !Inside(s, to) then s
    else if !s[from].kids.Near? then s[to := s[from]][from := Empty]
    else
      var b, off := from + s[from].kids.offset, FreeOffset(s, to);
      var t := if off != 0 then s[to := s[from].(kids := s[from].kids.(offset := off))][to + off := s[b]]
               else s[to := s[from].(kids := ExternalCopy(s, from))];
      t[from := Empty][b := Empty]
  }

  // ---------- RelocateBitMap ----------

  // The slots after RelocateBitMap.
  function AfterRelocation(s: seq<Slot>, i: int): (r: seq<Slot>)
    requires 2 * GAP < |s|
    ensures |r| == |s|
    ensures (forall j :: IsNode(s, j) ==> s[j].ilen <= 8) ==> forall j :: IsNode(r, j) ==> r[j].ilen <= 8
  {
    if !HasBitmap(s, i) || !s[i].kids.Near? || !Inside(s, i) then s
    else
      var b, off := i + s[i].kids.offset, FreeOffset(s, i);
      var t := if off != 0 then s[i := s[i].(kids := s[i].kids.(offset := off))][i + off := s[b]]
               else s[i := s[i].(kids := ExternalCopy(s, i))];
      t[b := Empty]
  }

  // A bitmap that moves, with its node or alone, lies in a slot next to the node afterwards exactly if
  // one of the six there was free.
  lemma BitmapStaysNear(s: seq<Slot>, from: int, to: int)
    requires 2 * GAP < |s| && HasBitmap(s, from) && s[from].kids.Near? && Inside(s, to)
    ensures from != to && s[to] == Empty ==>
              var r := AfterMove(s, from, to);
              IsNode(r, to) && (r[to].kids.Near? <==> exists j :: to - 3 <= j <= to + 3 && j != to && s[j] == Empty)
    ensures from == to ==>
              var r := AfterRelocation(s, to);
              IsNode(r, to) && (r[to].kids.Near? <==> exists j :: to - 3 <= j <= to + 3 && j != to && s[j] == Empty)
  {
    hide ExternalCopy;
    var off := FreeOffset(s, to);
    assert FreeNeighbour(s, to, off);
    assert off != 0 ==> s[to + off] == Empty;
  }

  // The owner of bitmap slot p.
  ghost function OwnerOf(s: seq<Slot>, p: int): int {
    if exists j :: Owns(s, j, p) then var j :| Owns(s, j, p); j else p
  }

  lemma TheOwner(s: seq<Slot>, j: int, p: int)
    requires Shape(s) && Owns(s, j, p)
    ensures OwnerOf(s, p) == j
  {
  }

  lemma RelocateBitmap(s: seq<Slot>, r: seq<Slot>, i: int, b: int, off: int)
    requires Shape(s) && Owns(s, i, b)
    requires -3 <= off <= 3 && (off != 0 ==> s[i + off] == Empty)
    requires SameElsewhere(s, r, {i, b, if off != 0 then i + off else b})
    requires r[b] == Empty
    requires off != 0 ==> r[i] == s[i].(kids := s[i].kids.(offset := off)) && r[i + off] == s[b]
    requires off == 0 ==> r[i] == s[i].(kids := ExternalCopy(s, i))
    ensures Rearranged(s, r, i)
  {
    var c := if off != 0 then i + off else b;
    ShapeAfterMove(s, r, i, i, b, c);
    OthersUntouched(s, r, {i}, {b, c});
    SameBitmap(s, r, i, i, b);
  }

  lemma MoveNodeMoves(s: seq<Slot>, from: int, to: int)
    requires Shape(s) && IsNode(s, from) && Inside(s, to) && s[to] == Empty
    ensures Moved(s, AfterMove(s, from, to), from, to)
  {
    hide Moved, Shape, FreeOffset, FreeNeighbour;
    var r := AfterMove(s, from, to);
    if !s[from].kids.Near? {
      MovePlain(s, r, from, to);
    } else {
      var b := from + s[from].kids.offset;
      BitmapOwner(s, from, b);
      AfterBitmapMove(s, from, to, b);
      MoveWithBitmap(s, r, from, to, b, FreeOffset(s, to));
    }
  }

  lemma AfterBitmapMove(s: seq<Slot>, from: int, to: int, b: int)
    requires 2 * GAP < |s| && Owns(s, from, b) && Inside(s, to) && s[to] == Empty && 0 <= b < |s| && s[b].Bitmap?
    ensures var r, off := AfterMove(s, from, to), FreeOffset(s, to);
            && -3 <= off <= 3 && (off != 0 ==> s[to + off] == Empty)
            && SameElsewhere(s, r, {from, to, b, if off != 0 then to + off else b})
            && r[from] == Empty && r[b] == Empty
            && (off != 0 ==> r[to] == s[from].(kids := s[from].kids.(offset := off)) && r[to + off] == s[b])
            && (off == 0 ==> r[to] == s[from].(kids := ExternalCopy(s, from)))
  {
    hide FreeOffset, Patched;
  }

  lemma RelocationRearranges(s: seq<Slot>, i: int)
    requires Shape(s) && IsNode(s, i) && s[i].kids.Near?
    ensures Rearranged(s, AfterRelocation(s, i), i)
    ensures 0 <= i + s[i].kids.offset < |s| && AfterRelocation(s, i)[i + s[i].kids.offset] == Empty
  {
    hide Rearranged, SameNode, OthersKept, Children;
    assert Owns(s, i, i + s[i].kids.offset);
    RelocateBitmap(s, AfterRelocation(s, i), i, i + s[i].kids.offset, FreeOffset(s, i));
  }

  // ---------- AddChild ----------

  // r is s except that the child set of node i may differ.
  ghost predicate OnlyChildrenOf(s: seq<Slot>, r: seq<Slot>, i: int)
    requires Shape(s) && IsNode(s, i)
  {
    && |r| == |s| && Shape(r) && OthersKept(s, r, {i})
    && (forall j :: IsNode(s, j) && j != i ==> SameNode(s, j, r, j))
    && (forall j :: IsNode(r, j) ==> IsNode(s, j))
    && IsNode(r, i)
    && r[i].ilen == s[i].ilen && r[i].dlen == s[i].dlen && r[i].fp == s[i].fp && r[i].minKey == s[i].minKey
  }

  ghost predicate ChildAdded(s: seq<Slot>, r: seq<Slot>, i: int, c: nat)
    requires Shape(s) && IsNode(s, i)
  {
    OnlyChildrenOf(s, r, i) && Children(r, i) == Children(s, i) + {c}
  }

  // A node whose inline or external children change, nothing else.
  lemma ReplaceKids(s: seq<Slot>, r: seq<Slot>, i: int, k: Kids)
    requires Shape(s) && IsNode(s, i) && !s[i].kids.Near? && !k.Near?
    requires SameElsewhere(s, r, {i}) && r[i] == s[i].(kids := k) && NodeOk(r[i])
    ensures OnlyChildrenOf(s, r, i)
  {
    OthersUntouched(s, r, {i}, {});
    assert forall a, j :: Owns(r, j, a) <==> Owns(s, j, a);
  }

  // ExtendToBitMap takes the free slot b for node i's bitmap.
  lemma TakeBitmapSlot(s: seq<Slot>, r: seq<Slot>, i: int, b: int)
    requires Shape(s) && IsNode(s, i) && s[i].kids.Inline? && s[i].dlen < 8
    requires 0 <= b < |s| && -3 <= b - i <= 3 && s[b] == Empty
    requires SameElsewhere(s, r, {i, b})
    requires r[i] == s[i].(kids := Near(b - i, 0, false, false)) && r[b].Bitmap? && FlagKept(r[b])
    ensures OnlyChildrenOf(s, r, i)
  {
    assert forall a, j :: Owns(r, j, a) <==> (j == i && a == b) || (j != i && Owns(s, j, a));
    forall a | 0 <= a < |r| && r[a].Bitmap? ensures FlagKept(r[a]) && exists j :: Owns(r, j, a) {
      if a == b {
        assert Owns(r, i, a);
      } else {
        var j :| Owns(s, j, a);
        assert Owns(r, j, a);
      }
    }
    OthersUntouched(s, r, {i}, {b});
  }

  // A change to the words of node i's own bitmap: in its slot i, or in the bitmap slot b.
  lemma ReplaceBitmapWords(s: seq<Slot>, r: seq<Slot>, i: int, b: int)
    requires Shape(s) && Owns(s, i, b) && SameElsewhere(s, r, {i, b})
    requires IsNode(r, i) && NodeOk(r[i]) && r[i] == s[i].(kids := r[i].kids)
    requires r[i].kids.Near? && r[i].kids.offset == s[i].kids.offset
    requires r[b].Bitmap? && FlagKept(r[b])
    ensures OnlyChildrenOf(s, r, i)
  {
    assert forall a, j :: Owns(r, j, a) <==> Owns(s, j, a);
    OthersUntouched(s, r, {i}, {b});
  }

  lemma OnlyChildrenSelf(s: seq<Slot>, i: int)
    requires Shape(s) && IsNode(s, i)
    ensures OnlyChildrenOf(s, s, i)
  {
  }

  lemma OnlyChildrenTrans(s: seq<Slot>, r: seq<Slot>, q: seq<Slot>, i: int)
    requires Shape(s) && IsNode(s, i) && OnlyChildrenOf(s, r, i) && OnlyChildrenOf(r, q, i)
    ensures OnlyChildrenOf(s, q, i)
  {
  }
}
