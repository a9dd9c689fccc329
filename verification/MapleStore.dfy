// Stores into one leaf of the maple tree: the in-place forms and the copying form, each proved
// to overwrite exactly the stored interval.
module MapleStore {
  import opened MapleLeaf

  const SLOTS := 16
  const PIVOTS := 15
  const MIN_SLOTS := 6

  // A leaf node. The metadata shares the memory of the last slot: its end byte is the lowest
  // byte of that word, the gap byte the next.
  class LeafNode {
    const pivots: array<Word>
    const slots: array<Word>

    constructor ()
      ensures fresh(pivots) && fresh(slots) && Sized()
      ensures forall i :: 0 <= i < PIVOTS ==> pivots[i] == 0
      ensures forall i :: 0 <= i < SLOTS ==> slots[i] == 0
    {
      pivots := new Word[PIVOTS](_ => 0);
      slots := new Word[SLOTS](_ => 0);
    }

    ghost predicate Sized() {
      pivots.Length == PIVOTS && slots.Length == SLOTS
    }

    // ma_set_meta with gap 0
    method SetMeta(end: nat)
      requires Sized() && end < 256
      modifies slots
      ensures slots[..] == old(slots[..])[15 := slots[15]] && slots[15] % 256 == end
    {
      hide MetaWord;
      MetaByte(slots[15], end);
      slots[15] := MetaWord(slots[15], end);
    }
  }

  function MetaWord(w: Word, end: nat): Word
    requires end < 256
  {
    w / 0x1_0000 * 0x1_0000 + end
  }

  lemma MetaByte(w: Word, end: nat)
    requires end < 256
    ensures MetaWord(w, end) % 256 == end
  {
    var q := w / 0x1_0000;
    assert q * 0x1_0000 + end == 256 * (256 * q) + end;
  }

  // The last slot of a node that has data, as the code finds it.
  function DataEnd(p: seq<Word>, s: seq<Word>, max: Word): nat
    requires |p| == PIVOTS && |s| == SLOTS
  {
    if p[14] == 0 then s[15] % 256 else if p[14] == max then 14 else 15
  }

  // The memory of a node encodes the map v: pivots and slots up to its end, an implied last
  // pivot (zero or the maximum of the node), zeroes after it, and the end in the metadata
  // unless the pivots tell it.
  ghost predicate Encodes(p: seq<Word>, s: seq<Word>, max: Word, v: LeafMap) {
    && |p| == PIVOTS && |s| == SLOTS && |v.s| == |v.p| + 1 && |v.p| <= PIVOTS
    && (forall i :: 0 <= i < |v.p| ==> p[i] == v.p[i])
    && (forall i :: 0 <= i < |v.s| ==> s[i] == v.s[i])
    && (forall i :: |v.p| < i < PIVOTS ==> p[i] == 0)
    && (|v.p| < PIVOTS ==> p[|v.p|] == 0 || p[|v.p|] == max)
    && (|v.p| < PIVOTS && p[14] == 0 ==> s[15] % 256 == |v.p|)
  }

  lemma DataEndIsExact(p: seq<Word>, s: seq<Word>, min: Word, max: Word, v: LeafMap)
    requires Encodes(p, s, max, v) && LeafOk(v, min, max)
    ensures DataEnd(p, s, max) == |v.p|
  {
    if |v.p| == PIVOTS {
      assert v.p[13] < v.p[14];
    }
  }

  // What a store of entry makes of the map.
  ghost predicate Stored(v: LeafMap, w: LeafMap, min: Word, max: Word, index: Word, last: Word, entry: Word)
    requires |v.s| == |v.p| + 1
  {
    IsSpliced(v, w, Find(v.p, index), NewSlot(v, min, index), Find(v.p, last + 1), max, index, last, entry)
  }

  // The slot a lookup (mtree_lookup_walk) reads in a leaf. It is the slot of index, unless the
  // leaf has a single slot whose implied pivot is not stored: then the loop runs past it.
  method LookupOffset(node: LeafNode, min: Word, max: Word, index: Word, ghost v: LeafMap) returns (offset: nat)
    requires node.Sized() && LeafOk(v, min, max) && Encodes(node.pivots[..], node.slots[..], max, v)
             && min <= index <= max
    ensures offset == Find(v.p, index) <==> |v.p| > 0 || node.pivots[0] >= index
    ensures offset == Find(v.p, index) ==> node.slots[offset] == Value(v, index)
    ensures offset != Find(v.p, index) ==> offset == 1
  {
    hide Find, Increasing;
    DataEndIsExact(node.pivots[..], node.slots[..], min, max, v);
    var end := DataEnd(node.pivots[..], node.slots[..], max);
    offset := 0;
    while node.pivots[offset] < index
      invariant offset < PIVOTS && (offset < end || offset == 0)
      invariant offset > 0 ==> v.p[offset - 1] < index
      decreases end - offset
    {
      offset := offset + 1;
      if offset >= end {
        break;
      }
    }
    if end > 0 {
      FindIs(v.p, index, offset);
    }
  }

  // The maple state and write state of a store that stays within one leaf.
  class WriteState {
    var node: LeafNode
    const min: Word
    const max: Word
    const isRoot: bool
    const entry: Word
    var index: Word
    var last: Word
    var offset: nat
    var rMin: Word
    var rMax: Word
    var offsetEnd: nat
    var nodeEnd: nat
    var endPiv: Word
    var content: Word

    constructor (leaf: LeafNode, min: Word, max: Word, isRoot: bool, index: Word, last: Word, entry: Word)
      ensures node == leaf && this.min == min && this.max == max && this.isRoot == isRoot
      ensures this.index == index && this.last == last && this.entry == entry && offset == 0
    {
      node, this.min, this.max, this.isRoot := leaf, min, max, isRoot;
      this.index, this.last, this.entry := index, last, entry;
      offset, rMin, rMax, offsetEnd, nodeEnd, endPiv, content := 0, 0, 0, 0, 0, 0, 0;
    }

    ghost predicate Holds(v: LeafMap)
      reads this`node, node.pivots, node.slots
    {
      node.Sized() && LeafOk(v, min, max) && Encodes(node.pivots[..], node.slots[..], max, v)
    }

    lemma Contents(v: LeafMap, i: nat)
      requires Holds(v) && i <= |v.p|
      ensures |v.s| == |v.p| + 1
      ensures LeafOk(v, min, max) && node.Sized() && |v.p| <= PIVOTS && node.slots[i] == v.s[i]
              && (i < |v.p| ==> node.pivots[i] == v.p[i])
    {
    }

    // The state is positioned on the slots of index and last.
    ghost predicate Placed(v: LeafMap)
      reads this
    {
      && LeafOk(v, min, max) && min <= index <= last <= max
      && offset == Find(v.p, index) && offsetEnd == Find(v.p, last) && nodeEnd == |v.p|
      && rMin == Lo(v, offset, min) && rMax == Hi(v, offset, max) && endPiv == Hi(v, offsetEnd, max)
      && (entry != NULL || rMin < index ==> content == v.s[offset])
    }

    // ---------- positioning ----------

    method NodeWalk(ghost v: LeafMap)
      requires Holds(v) && min <= index <= max && offset == 0
      modifies this`offset, this`rMin, this`rMax, this`offsetEnd, this`nodeEnd
      ensures Holds(v) && nodeEnd == |v.p| && offset == offsetEnd == Find(v.p, index)
      ensures rMin == Lo(v, offset, min) && rMax == Hi(v, offset, max) <= max
    {
      hide Find;
      DataEndIsExact(node.pivots[..], node.slots[..], min, max, v);
      nodeEnd := DataEnd(node.pivots[..], node.slots[..], max);
      while offset < nodeEnd && index > node.pivots[offset]
        invariant offset <= nodeEnd == |v.p| && Holds(v)
        invariant offset > 0 ==> v.p[offset - 1] < index
      {
        offset := offset + 1;
      }
      FindIs(v.p, index, offset);
      rMax := if offset < nodeEnd then node.pivots[offset] else max;
      rMin := if offset > 0 then node.pivots[offset - 1] + 1 else min;
      offsetEnd := offset;
    }

    method EndPiv(ghost v: LeafMap)
      requires Holds(v) && min <= index <= last <= max && nodeEnd == |v.p| && offset == offsetEnd == Find(v.p, index)
      modifies this`offsetEnd, this`endPiv
      ensures Holds(v) && offsetEnd == Find(v.p, last) && endPiv == Hi(v, offsetEnd, max)
    {
      hide Find;
      while offsetEnd < nodeEnd && last > node.pivots[offsetEnd]
        invariant offsetEnd <= nodeEnd == |v.p| && Holds(v)
        invariant offsetEnd > 0 ==> v.p[offsetEnd - 1] < last
      {
        offsetEnd := offsetEnd + 1;
      }
      FindIs(v.p, last, offsetEnd);
      endPiv := if offsetEnd < nodeEnd then node.pivots[offsetEnd] else max;
    }

    // A stored NULL takes in the NULL slots it touches.
    method ExtendNull(ghost v: LeafMap)
      requires Holds(v) && Placed(v) && entry == NULL && content == v.s[offset]
      modifies this`index, this`last, this`offset, this`rMin, this`rMax, this`offsetEnd, this`endPiv
      ensures Holds(v) && Placed(v) && index <= old(index) && old(last) <= last
      ensures forall k :: index <= k <= last && !(old(index) <= k <= old(last)) ==> Value(v, k) == NULL
      ensures NoTwoNulls(v.s) ==> Apart(v, min, max, index, last)
    {
      hide Find, Value, LeafOk, Holds, NoTwoNulls, Apart, Lo, Hi;
      ExtendRight(v);
      ExtendLeft(v);
    }

    method ExtendLeft(ghost v: LeafMap)
      requires Holds(v) && Placed(v) && entry == NULL && content == v.s[offset]
      requires NoTwoNulls(v.s) && last < max ==> v.s[Find(v.p, last + 1)] != 0
      modifies this`index, this`offset, this`rMin, this`rMax
      ensures Holds(v) && Placed(v) && index <= old(index)
      ensures forall k :: index <= k < old(index) ==> Value(v, k) == NULL
      ensures NoTwoNulls(v.s) ==> Apart(v, min, max, index, last)
    {
      hide Find, Value, LeafOk, Holds, NoTwoNulls, Apart, Lo, Hi;
      var first, i, lo, hi := LeftEnd(v);
      NullsBefore(v, min, max, first, index, i);
      LeftApart(v, min, max, first, last, i);
      index, offset, rMin, rMax := first, i, lo, hi;
    }

    method LeftEnd(ghost v: LeafMap) returns (first: Word, i: nat, lo: Word, hi: Word)
      requires Holds(v) && Placed(v) && content == v.s[offset]
      ensures LeafOk(v, min, max) && |v.s| == |v.p| + 1 && min <= first <= index && i <= |v.p| && Find(v.p, first) == i
      ensures lo == Lo(v, i, min) <= first && hi == Hi(v, i, max)
      ensures first < index ==> v.s[i] == NULL && first == lo && index <= hi + 1
      ensures lo < first ==> v.s[i] != NULL && i == offset
      ensures lo == first && i > 0 ==> v.s[i] == NULL || v.s[i - 1] != NULL
    {
      hide Find, Value, LeafOk, Holds, Lo, Hi;
      first, i, lo, hi := index, offset, rMin, rMax;
      SlotEnds(v, min, max, i);
      LastInSlot(v, min, max, index, i);
      Contents(v, i);
      if i > 0 {
        Contents(v, i - 1);
      }
      if content == NULL {
        first := lo;
      } else if index == lo && i > 0 && node.slots[i - 1] == NULL {
        PreviousSlot(v, i);
        i := i - 1;
        lo := if i > 0 then node.pivots[i - 1] + 1 else min;
        first := lo;
        hi := node.pivots[i];
      }
    }

    lemma PreviousSlot(v: LeafMap, o: nat)
      requires Holds(v) && 0 < o <= |v.p|
      ensures |v.s| == |v.p| + 1 && node.Sized() && |v.p| <= PIVOTS
      ensures node.slots[o - 1] == v.s[o - 1] && node.pivots[o - 1] == Hi(v, o - 1, max)
      ensures Lo(v, o - 1, min) == if o > 1 then node.pivots[o - 2] + 1 else min
      ensures Find(v.p, Lo(v, o - 1, min)) == o - 1 && Lo(v, o, min) == Hi(v, o - 1, max) + 1
              && min <= Lo(v, o - 1, min) <= Hi(v, o - 1, max)
    {
      hide Find;
      SlotEnds(v, min, max, o - 1);
    }

    method ExtendRight(ghost v: LeafMap)
      requires Holds(v) && Placed(v)
      modifies this`last, this`offsetEnd, this`endPiv
      ensures Holds(v) && Placed(v) && old(last) <= last
      ensures forall k :: old(last) < k <= last ==> Value(v, k) == NULL
      ensures NoTwoNulls(v.s) && last < max ==> v.s[Find(v.p, last + 1)] != 0
    {
      hide Find, Value, LeafOk, Holds, Lo, Hi, NoTwoNulls;
      ghost var i := offsetEnd;
      var l, oe, piv := last, offsetEnd, endPiv;
      Contents(v, i);
      SlotEnds(v, min, max, i);
      InEndSlot(v);
      if i < |v.p| {
        Contents(v, i + 1);
        SlotEnds(v, min, max, i + 1);
        NextHi(v, i + 1);
      }
      if l < piv && node.slots[oe] == NULL {
        l := piv;
      }
      if l == piv && nodeEnd != oe && node.slots[oe + 1] == NULL {
        oe := oe + 1;
        l := if oe == nodeEnd then max else node.pivots[oe];
        piv := l;
      }
      NullsAfter(v, min, max, i, oe, last, l);
      last, offsetEnd, endPiv := l, oe, piv;
    }

    // last lies in the slot it was found in.
    lemma InEndSlot(v: LeafMap)
      requires Holds(v) && Placed(v)
      ensures last <= endPiv && Lo(v, offsetEnd, min) <= last
    {
      hide Find;
    }

    lemma NextHi(v: LeafMap, i: nat)
      requires Holds(v) && i <= |v.p|
      ensures Hi(v, i, max) == if i == |v.p| then max else node.pivots[i]
    {
    }

    // ---------- the stores ----------

    method DirectReplace(ghost v: LeafMap) returns (ghost w: LeafMap)
      requires Holds(v) && Placed(v) && rMin == index && rMax == last
      modifies node.slots
      ensures Holds(w) && Stored(v, w, min, max, index, last, entry) && offset == Find(w.p, index)
      ensures node.pivots[..] == old(node.pivots[..])
    {
      hide Find, Encodes, Stored, LeafOk;
      ghost var p, t := node.pivots[..], node.slots[..];
      Contents(v, offset);
      w := LeafMap(v.p, v.s[offset := entry]);
      Replaced(v, w, min, max, index, last, entry, offset);
      node.slots[offset] := entry;
      SameSizeEncodes(p, t, node.pivots[..], node.slots[..], max, v, w);
      StoreOffset(v, w, min, max, index, last, entry);
    }

    // mas_wr_append, for the last slot of the node.
    method Append(ghost v: LeafMap) returns (done: bool, ghost w: LeafMap)
      requires Holds(v) && Placed(v) && !(rMin == index && rMax == last)
      requires entry != NULL && nodeEnd < SLOTS - 1 && offset == nodeEnd
      modifies this`offset, node.pivots, node.slots
      ensures done ==> Holds(w) && Stored(v, w, min, max, index, last, entry) && offset == Find(w.p, index)
      ensures !done ==>
              node.pivots[..] == old(node.pivots[..]) && node.slots[..] == old(node.slots[..]) && offset == old(offset)
              && Holds(v)
      ensures done <==> (index == rMin) != (last == rMax)
    {
      hide Find, LeafOk, Holds, Stored;
      LastAtEnd(v);
      if index != rMin && last == rMax {
        w := AppendEntry(v);
        return true, w;
      }
      if index == rMin && last < rMax {
        w := AppendContent(v);
        return true, w;
      }
      return false, v;
    }

    lemma LastAtEnd(v: LeafMap)
      requires Placed(v) && offset == nodeEnd
      ensures last <= rMax
    {
    }

    // The new interval runs to the end of the node.
    method AppendEntry(ghost v: LeafMap) returns (ghost w: LeafMap)
      requires Holds(v) && Placed(v) && entry != NULL && nodeEnd < SLOTS - 1 && offset == nodeEnd
      requires index != rMin && last == rMax
      modifies this`offset, node.pivots, node.slots
      ensures Holds(w) && Stored(v, w, min, max, index, last, entry) && offset == Find(w.p, index)
    {
      hide Find, Encodes, Stored, LeafOk, Lo;
      ghost var p, t := node.pivots[..], node.slots[..];
      var end, newEnd := nodeEnd, nodeEnd + 1;
      SlotOfLast(v);
      Contents(v, end);
      w := LeafMap(v.p + [index - 1], v.s + [entry]);
      EntryAppended(v, w, min, max, index, last, entry);
      if newEnd < PIVOTS {
        node.pivots[newEnd] := node.pivots[end];
        node.SetMeta(newEnd);
      }
      node.slots[newEnd] := entry;
      offset := newEnd;
      node.pivots[end] := index - 1;
      LongerEncodes(p, t, node.pivots[..], node.slots[..], max, v, w);
      StoreOffset(v, w, min, max, index, last, entry);
    }

    // The new interval starts the last slot and leaves the rest of it.
    method AppendContent(ghost v: LeafMap) returns (ghost w: LeafMap)
      requires Holds(v) && Placed(v) && entry != NULL && nodeEnd < SLOTS - 1 && offset == nodeEnd
      requires index == rMin && last < rMax
      modifies this`offset, node.pivots, node.slots
      ensures Holds(w) && Stored(v, w, min, max, index, last, entry) && offset == Find(w.p, index)
    {
      hide Find, Encodes, Stored, LeafOk, Lo;
      ghost var p, t := node.pivots[..], node.slots[..];
      var end, newEnd := nodeEnd, nodeEnd + 1;
      SlotOfLast(v);
      Contents(v, end);
      w := LeafMap(v.p + [last], v.s[end := entry] + [content]);
      ContentAppended(v, w, min, max, index, last, entry);
      if newEnd < PIVOTS {
        node.pivots[newEnd] := node.pivots[end];
      }
      node.slots[newEnd] := content;
      if newEnd < PIVOTS {
        node.SetMeta(newEnd);
      }
      node.pivots[end] := last;
      node.slots[end] := entry;
      LongerEncodes(p, t, node.pivots[..], node.slots[..], max, v, w);
      StoreOffset(v, w, min, max, index, last, entry);
    }

    // mas_wr_slot_store: one boundary moves.
    method SlotStore(ghost v: LeafMap) returns (done: bool, ghost w: LeafMap)
      requires Holds(v) && Placed(v) && !(rMin == index && rMax == last)
      requires nodeEnd - offsetEnd + offset + 2 < SLOTS
      requires offset == nodeEnd && entry != NULL ==> (index == rMin) == (last == rMax)
      modifies this`offset, node.pivots, node.slots
      ensures done ==> Holds(w) && Stored(v, w, min, max, index, last, entry) && offset == Find(w.p, index)
      ensures done <==> offsetEnd == old(offset) + 1 && ((index == rMin) != (last == endPiv))
      ensures !done ==>
              node.pivots[..] == old(node.pivots[..]) && node.slots[..] == old(node.slots[..]) && offset == old(offset)
              && Holds(v)
    {
      hide Find, Increasing;
      SlotOfLast(v);
      done, w := false, v;
      if rMax > last && (rMin != index || offset != nodeEnd) {
        return;
      }
      var lmax := if offset == nodeEnd - 1 then max else node.pivots[offset + 1];
      if lmax < last {
        return;
      }
      if rMin == index {
        if lmax == last {
          return;
        }
        w := MoveEnd(v, lmax);
        return true, w;
      }
      if lmax != last {
        return;
      }
      w := MoveStart(v, lmax);
      return true, w;
    }

    // All of slot offset and the first part of the next one.
    method MoveEnd(ghost v: LeafMap, lmax: Word) returns (ghost w: LeafMap)
      requires Holds(v) && Placed(v) && offset < nodeEnd && lmax == Hi(v, offset + 1, max)
      requires rMin == index && rMax < last < lmax
      modifies node.pivots, node.slots
      ensures Holds(w) && Stored(v, w, min, max, index, last, entry) && offset == Find(w.p, index)
    {
      hide Find, Encodes, Stored, LeafOk;
      ghost var p, t := node.pivots[..], node.slots[..];
      Contents(v, offset);
      w := LeafMap(v.p[offset := last], v.s[offset := entry]);
      EndMoved(v, w, min, max, index, last, entry, offset);
      node.slots[offset] := entry;
      node.pivots[offset] := last;
      SameSizeEncodes(p, t, node.pivots[..], node.slots[..], max, v, w);
      StoreOffset(v, w, min, max, index, last, entry);
    }

    // The last part of slot offset and all of the next one.
    method MoveStart(ghost v: LeafMap, lmax: Word) returns (ghost w: LeafMap)
      requires Holds(v) && Placed(v) && offset < nodeEnd && offset + 1 < SLOTS && lmax == Hi(v, offset + 1, max)
      requires rMin < index && rMax <= last == lmax
      modifies this`offset, node.pivots, node.slots
      ensures Holds(w) && Stored(v, w, min, max, index, last, entry) && offset == Find(w.p, index)
    {
      hide Find, Encodes, Stored, LeafOk, Lo;
      ghost var p, t := node.pivots[..], node.slots[..];
      Contents(v, offset);
      Contents(v, offset + 1);
      w := LeafMap(v.p[offset := index - 1], v.s[offset + 1 := entry]);
      StartMoved(v, w, min, max, index, last, entry, offset);
      if offset + 1 < PIVOTS && (entry != NULL || node.pivots[offset + 1] != 0) {
        node.pivots[offset + 1] := last;
      }
      node.slots[offset + 1] := entry;
      node.pivots[offset] := index - 1;
      offset := offset + 1;
      StartEncodes(p, t, node.pivots[..], node.slots[..], max, v, w, offset - 1, index, last, entry);
      StoreOffset(v, w, min, max, index, last, entry);
    }

    // mas_wr_node_store: the leaf is copied with the new interval in place and the copy takes
    // over. Too many or too few slots are left to the slow path.
    method NodeStore(ghost v: LeafMap) returns (done: bool, ghost w: LeafMap)
      requires Holds(v) && Placed(v) && !(rMin == index && rMax == last)
      requires nodeEnd - offsetEnd + offset + 2 < SLOTS
      modifies this`node, this`offset, this`offsetEnd
      ensures done ==> Holds(w) && Stored(v, w, min, max, index, last, entry) && offset == Find(w.p, index)
      ensures done ==> fresh(node)
      ensures !done ==> node == old(node)
      ensures done <==> var n := |Spliced(v, min, max, index, last, entry).p|; n < SLOTS && (isRoot || n > MIN_SLOTS)
    {
      hide Find, Encodes, LeafOk, Lo, Hi, IsSpliced, Spliced;
      w := SplicedMap(v, min, max, index, last, entry);
      var newEnd := CopySize(v, w);
      if newEnd >= SLOTS || (!isRoot && newEnd <= MIN_SLOTS) {
        return false, w;
      }
      var next := CopyOf(v, w, newEnd);
      node := next;
      offset := if rMin < index then offset + 1 else offset;
      StoreOffset(v, w, min, max, index, last, entry);
      done := true;
    }

    // The data end of the copy; offsetEnd becomes the slot of the index after last.
    method CopySize(ghost v: LeafMap, ghost w: LeafMap) returns (newEnd: nat)
      requires Holds(v) && Placed(v) && !(rMin == index && rMax == last) && nodeEnd - offsetEnd + offset + 2 < SLOTS
      requires |w.p| == NewSlot(v, min, index) + if last < max then 1 + |v.p| - Find(v.p, last + 1) else 0
      modifies this`offsetEnd
      ensures newEnd == |w.p| && offset <= 13 && last <= max && (last < max ==> offsetEnd == Find(v.p, last + 1))
    {
      hide Find, Encodes, LeafOk, Lo, Hi;
      SlotOfLast(v);
      newEnd := nodeEnd;
      if last == rMax {
        if last == max {
          newEnd := offset;
        }
        offsetEnd := offsetEnd + 1;
      } else if last < rMax {
        newEnd := newEnd + 1;
      } else {
        if endPiv == last {
          offsetEnd := offsetEnd + 1;
        }
        newEnd := newEnd - (offsetEnd - offset - 1);
      }
      if rMin < index {
        newEnd := newEnd + 1;
      }
    }

    // The new node: what precedes the interval, the interval, and what follows it.
    method CopyOf(ghost v: LeafMap, ghost w: LeafMap, newEnd: nat) returns (next: LeafNode)
      requires Holds(v) && newEnd == |w.p| <= PIVOTS && offset <= 13 && offset <= nodeEnd == |v.p|
               && rMin == Lo(v, offset, min)
      requires min <= index && (rMin < index ==> content == v.s[offset])
      requires last < max ==> offset < offsetEnd + 1 && offsetEnd <= |v.p|
      requires LeafOk(w, min, max) && last <= max
      requires IsSpliced(v, w, offset, NewOffset(), if last < max then offsetEnd else |v.p|, max, index, last, entry)
      ensures fresh(next) && fresh(next.pivots) && fresh(next.slots) && next.Sized()
      ensures Encodes(next.pivots[..], next.slots[..], max, w)
    {
      hide Find, LeafOk, Lo, Encodes, IsSpliced, Holds, NewOffset, Filled;
      ghost var d, q := NewOffset(), if last < max then offsetEnd else |v.p|;
      Contents(v, offset);
      SplicedLength(v, w, offset, d, q, max, index, last, entry);
      next := new LeafNode();
      FillCopy(next, v, newEnd, q);
      ghost var p, t := next.pivots[..], next.slots[..];
      LastPivotFilled(p, t, v, offset, d, q, newEnd, index, last, entry, max);
      SetLeafMeta(next, newEnd);
      MetaKeepsFilled(p, t, next.slots[..], v, offset, d, q, newEnd, index, last, entry, max);
      CopyEncodes(next.pivots[..], next.slots[..], max, v, w, offset, d, q, index, last, entry);
    }

    // Everything but the metadata. q is the slot of the index after last.
    method FillCopy(next: LeafNode, ghost v: LeafMap, newEnd: nat, ghost q: nat)
      requires Holds(v) && next.Sized() && offset <= 13 && offset <= nodeEnd == |v.p| && min <= index
      requires rMin < index ==> content == v.s[offset] && index > 0
      requires if last < max then q == offsetEnd <= |v.p| else last == max && q == |v.p|
      requires newEnd == NewOffset() + (if last < max then 1 + |v.p| - q else 0) <= PIVOTS
      requires next.pivots != node.pivots && next.slots != node.slots
      requires forall i :: 0 <= i < PIVOTS ==> next.pivots[i] == 0
      modifies next.pivots, next.slots
      ensures Filled(next.pivots[..], next.slots[..], v, offset, NewOffset(), q, newEnd, index, last, entry, max)
    {
      hide Find, Encodes, LeafOk, Started, Filled;
      Contents(v, offset);
      var dst := StartCopy(next, v);
      ghost var p, t := next.pivots[..], next.slots[..];
      if offsetEnd > nodeEnd || last >= max {
        StartedFilled(p, t, v, offset, dst, q, index, last, entry, max);
        return;
      }
      StartedRest(p, t, v, offset, dst, index, last, entry);
      FinishCopy(next, v, dst + 1, newEnd);
      FinishedFilled(p, t, next.pivots[..], next.slots[..], v, offset, dst, q, newEnd, index, last, entry, max);
    }

    ghost function NewOffset(): (d: nat)
      reads this
      ensures offset <= d <= offset + 1
    {
      if rMin < index then offset + 1 else offset
    }

    method StartCopy(next: LeafNode, ghost v: LeafMap) returns (dst: nat)
      requires Holds(v) && next.Sized() && offset <= 13 && offset <= |v.p| && min <= index
      requires rMin < index ==> content == v.s[offset] && index > 0
      requires next.pivots != node.pivots && next.slots != node.slots
      requires forall i :: 0 <= i < PIVOTS ==> next.pivots[i] == 0
      modifies next.pivots, next.slots
      ensures dst == NewOffset()
      ensures Started(next.pivots[..], next.slots[..], v, offset, dst, index, last, entry)
    {
      forall i | 0 <= i <= offset {
        next.pivots[i] := node.pivots[i];
      }
      forall i | 0 <= i <= offset {
        next.slots[i] := node.slots[i];
      }
      dst := offset;
      if rMin < index {
        next.slots[dst] := content;
        next.pivots[dst] := index - 1;
        dst := dst + 1;
      }
      next.pivots[dst] := last;
      next.slots[dst] := entry;
    }

    // The slots from offsetEnd on move to dst.
    method FinishCopy(next: LeafNode, ghost v: LeafMap, dst: nat, newEnd: nat)
      requires Holds(v) && next.Sized() && nodeEnd == |v.p| && offsetEnd <= nodeEnd && dst <= 15
      requires newEnd == dst + nodeEnd - offsetEnd <= PIVOTS
      requires next.pivots != node.pivots && next.slots != node.slots
      requires forall i :: dst <= i < PIVOTS ==> next.pivots[..][i] == 0
      modifies next.pivots, next.slots
      ensures Finished(old(next.pivots[..]), old(next.slots[..]), next.pivots[..], next.slots[..], v, dst, offsetEnd,
                       newEnd, max)
    {
      hide Find, LeafOk, Encodes;
      Contents(v, 0);
      CopySlots(next, v, dst);
      assert forall i :: dst <= i < PIVOTS ==> next.pivots[i] == next.pivots[..][i];
      CopyPivots(next, v, dst, newEnd);
    }

    method CopySlots(next: LeafNode, ghost v: LeafMap, dst: nat)
      requires Holds(v) && next.Sized() && nodeEnd == |v.p| && offsetEnd <= nodeEnd && dst + nodeEnd - offsetEnd < SLOTS
      requires next.slots != node.slots
      modifies next.slots
      ensures forall i :: 0 <= i < dst ==> next.slots[i] == old(next.slots[i])
      ensures forall i :: dst <= i <= dst + nodeEnd - offsetEnd ==> next.slots[i] == v.s[i - dst + offsetEnd]
    {
      var copySize := nodeEnd - offsetEnd + 1;
      forall i | dst <= i < dst + copySize {
        next.slots[i] := node.slots[i - dst + offsetEnd];
      }
    }

    // Copying the pivots of a full node can run one word past its pivots into its slots; that last
    // pivot is set right afterwards.
    method CopyPivots(next: LeafNode, ghost v: LeafMap, dst: nat, newEnd: nat)
      requires Holds(v) && next.Sized() && nodeEnd == |v.p| && offsetEnd <= nodeEnd && dst <= 15
      requires newEnd == dst + nodeEnd - offsetEnd <= PIVOTS && next.pivots != node.pivots
      requires forall i :: dst <= i < PIVOTS ==> next.pivots[i] == 0
      modifies next.pivots
      ensures forall i :: 0 <= i < dst && i < PIVOTS ==> next.pivots[i] == old(next.pivots[i])
      ensures forall i :: dst <= i < newEnd ==> next.pivots[i] == v.p[i - dst + offsetEnd]
      ensures newEnd < PIVOTS ==> next.pivots[newEnd] == 0 || next.pivots[newEnd] == max
      ensures forall i :: newEnd < i < PIVOTS ==> next.pivots[i] == 0
    {
      hide Find, LeafOk;
      var copySize := nodeEnd - offsetEnd + 1;
      if dst < PIVOTS {
        if copySize > PIVOTS - dst {
          copySize := PIVOTS - dst;
        }
        forall i | dst <= i < dst + copySize {
          next.pivots[i] := if i - dst + offsetEnd < PIVOTS then node.pivots[i - dst + offsetEnd] else node.slots[0];
        }
      }
      if nodeEnd == SLOTS - 1 && newEnd < SLOTS - 1 {
        next.pivots[newEnd] := max;
      }
    }

    // mas_leaf_set_meta
    method SetLeafMeta(next: LeafNode, end: nat)
      requires next.Sized() && end <= PIVOTS
      requires end < PIVOTS ==> next.pivots[..][end] == 0 || next.pivots[..][end] == max
      modifies next.slots
      ensures forall i :: 0 <= i <= end ==> next.slots[i] == old(next.slots[i])
      ensures end < PIVOTS ==> next.slots[15] % 256 == end
    {
      if PIVOTS <= end {
        return;
      }
      var e := if next.pivots[end] != 0 && next.pivots[end] < max then end + 1 else end;
      if e < SLOTS - 1 {
        next.SetMeta(e);
      }
    }

    // mas_wr_modify: the forms are tried in turn; false means the slow path.
    method Modify(ghost v: LeafMap) returns (done: bool, ghost w: LeafMap)
      requires Holds(v) && Placed(v)
      modifies this`node, this`offset, this`offsetEnd, node.pivots, node.slots
      ensures done ==> Holds(w) && Stored(v, w, min, max, index, last, entry) && offset == Find(w.p, index)
      ensures !done ==> node == old(node) && Holds(v)
      ensures done <==> Completes(v, min, max, index, last, entry, isRoot)
      ensures rMin == index && rMax == last ==> node == old(node) && node.pivots[..] == old(node.pivots[..])
    {
      hide Find, LeafOk, Encodes, Stored, Lo, Hi, Spliced, Completes, Holds;
      CompletesIs(v);
      if rMin == index && rMax == last {
        w := DirectReplace(v);
        return true, w;
      }
      SlotOfLast(v);
      var nodeSize := nodeEnd - offsetEnd + offset + 2;
      if max == ULONG_MAX {
        nodeSize := nodeSize + 1;
      }
      if nodeSize >= SLOTS {
        return false, v;
      }
      if entry != NULL && nodeEnd < SLOTS - 1 && offset == nodeEnd {
        done, w := Append(v);
        if done {
          return;
        }
      }
      if offsetEnd - offset <= 1 {
        done, w := SlotStore(v);
        if done {
          return;
        }
      }
      done, w := NodeStore(v);
    }

    // When a store completes, in terms of the write state.
    lemma CompletesIs(v: LeafMap)
      requires Holds(v) && Placed(v)
      ensures Completes(v, min, max, index, last, entry, isRoot) <==>
              || (rMin == index && rMax == last)
              || (&& nodeEnd - offsetEnd + offset + 2 + (if max == ULONG_MAX then 1 else 0) < SLOTS
                  && (|| (entry != NULL && offset == nodeEnd < SLOTS - 1 && (index == rMin) != (last == rMax))
                      || (offsetEnd == offset + 1 && (index == rMin) != (last == endPiv))
                      || var n := |Spliced(v, min, max, index, last, entry).p|; n < SLOTS && (isRoot || n > MIN_SLOTS)))
    {
      hide Find, Increasing, Spliced;
      SlotOfLast(v);
    }

    // mas_is_span_wr, for a leaf
    predicate IsSpanning()
      reads this
    {
      rMax <= last && !(last < max) && !(last == max && entry != NULL) && !(last == ULONG_MAX && last == max)
    }

    // mas_wr_store_entry once the leaf is found. If done, the leaf maps index..last to entry and
    // everything else as before, and it is as well formed as it was.
    method StoreEntry(ghost v: LeafMap) returns (done: bool, ghost w: LeafMap)
      requires Holds(v) && min <= index <= max && index <= last && offset == 0
      modifies this, node.pivots, node.slots
      ensures done ==> Holds(w) && DataEnd(node.pivots[..], node.slots[..], max) == |w.p|
      ensures done ==>
              forall k :: min <= k <= max ==> Value(w, k) == if old(index) <= k <= old(last) then entry else Value(v, k)
      ensures done && NoTwoNulls(v.s) ==> NoTwoNulls(w.s)
      ensures done && EndOk(v, max) ==> EndOk(w, max)
      // Only a leaf with a single slot is left with one, and its pivot as it was.
      ensures done && (isRoot ==> min == 0 && max == ULONG_MAX) && |w.p| == 0 ==>
              |v.p| == 0 && node == old(node) && node.pivots[..] == old(node.pivots[..])
      // The state ends on the slot of the stored interval.
      ensures done ==> offset == Find(w.p, index)
      ensures !done ==> node == old(node) && Holds(v)
      ensures !Spans(max, old(index), old(last), entry) ==>
              Grown(v, min, max, old(index), old(last), index, last, entry)
      ensures done <==>
              !Spans(max, old(index), old(last), entry) && !(index == 0 && last == ULONG_MAX)
              && Completes(v, min, max, index, last, entry, isRoot)
    {
      hide Find, LeafOk, Encodes, Lo, Hi, Value, NoTwoNulls, EndOk, Stored, Placed, Apart, Completes, Grown;
      ghost var index0, last0 := index, last;
      var spanning := Position(v);
      if spanning || (index == 0 && last == ULONG_MAX) {
        return false, v;
      }
      PlacedWhole(v);
      done, w := Modify(v);
      if done {
        StoreDone(v, w, min, max, index0, last0, index, last, entry);
        if |w.p| == 0 && (isRoot ==> min == 0 && max == ULONG_MAX) {
          Emptied(v, w, min, max, index, last, entry, isRoot);
        }
        DataEndIsExact(node.pivots[..], node.slots[..], min, max, w);
      }
    }

    lemma PlacedWhole(v: LeafMap)
      requires Holds(v) && Placed(v)
      ensures |v.p| == 0 ==> rMin == min && rMax == max
    {
    }

    // The walk and what follows it, up to mas_wr_modify.
    method Position(ghost v: LeafMap) returns (spanning: bool)
      requires Holds(v) && min <= index <= max && index <= last && offset == 0
      modifies this`index, this`last, this`offset, this`rMin, this`rMax, this`offsetEnd, this`nodeEnd, this`endPiv,
               this`content
      ensures Holds(v)
      ensures spanning <==> Spans(max, old(index), old(last), entry)
      ensures !spanning ==> Placed(v) && Grown(v, min, max, old(index), old(last), index, last, entry)
    {
      hide Find, LeafOk, Encodes, Lo, Hi, Value, NoTwoNulls, Apart;
      NodeWalk(v);
      spanning := IsSpanning();
      if spanning {
        return;
      }
      Contents(v, offset);
      content := node.slots[offset];
      EndPiv(v);
      if entry == NULL {
        ExtendNull(v);
      }
    }

    // Where last and its successor are, by the bounds already known.
    lemma SlotOfLast(v: LeafMap)
      requires Holds(v) && Placed(v)
      ensures offset <= offsetEnd && Lo(v, offset, min) <= index <= Hi(v, offset, max)
      ensures Lo(v, offsetEnd, min) <= last <= endPiv
      ensures offsetEnd == offset <==> last <= rMax
      ensures last < max ==> Find(v.p, last + 1) == if endPiv == last then offsetEnd + 1 else offsetEnd
      ensures last < max ==> Find(v.p, last + 1) <= |v.p|
      ensures rMax <= max && endPiv <= max && (rMax == max ==> offset == nodeEnd)
              && (endPiv == max ==> offsetEnd == nodeEnd)
    {
      hide Find;
      FindMonotone(v.p, index, last);
      if last < max {
        NextSlot(v, min, max, offsetEnd, last);
      }
    }
  }

  // A store that reaches past the leaf, or a NULL up to its end, is left to the spanning store.
  predicate Spans(max: Word, index: Word, last: Word, entry: Word) {
    max < last || (last == max && entry == NULL && max != ULONG_MAX)
  }

  // When a store over index..last is done without the slow path: it replaces a whole slot, or the
  // slots that remain leave room and it extends the last slot, moves one boundary, or leaves a
  // node that is neither too full nor, below the root, too empty.
  ghost predicate Completes(v: LeafMap, min: Word, max: Word, index: Word, last: Word, entry: Word, isRoot: bool) {
    && LeafOk(v, min, max) && min <= index <= last <= max
    && var o, e, n := Find(v.p, index), Find(v.p, last), |v.p|;
       var starts, ends := index == Lo(v, o, min), last == Hi(v, e, max);
       || (starts && ends && o == e)
       || (&& n - e + o + 2 + (if max == ULONG_MAX then 1 else 0) < SLOTS
           && (|| (entry != NULL && o == n < SLOTS - 1 && starts != ends)
               || (e == o + 1 && starts != ends)
               || var size := |Spliced(v, min, max, index, last, entry).p|;
                  size < SLOTS && (isRoot || size > MIN_SLOTS)))
  }

  // The slot of the stored interval.
  lemma StoreOffset(v: LeafMap, w: LeafMap, min: Word, max: Word, index: Word, last: Word, entry: Word)
    requires LeafOk(v, min, max) && LeafOk(w, min, max) && min <= index <= last <= max
    requires Stored(v, w, min, max, index, last, entry)
    ensures Find(w.p, index) == NewSlot(v, min, index) && w.s[NewSlot(v, min, index)] == entry
  {
    hide Find, Increasing, IsSpliced;
    NewSlotHoldsIndex(v, w, min, max, index, last, entry);
  }

  // In numbers of slots: a store that replaces no whole slot, extends no last slot and moves no
  // boundary completes when it leaves 16 slots at most, and below the root 8 at least, if the leaf
  // passed the size test before.
  lemma CompletesByCount(v: LeafMap, min: Word, max: Word, index: Word, last: Word, entry: Word, isRoot: bool)
    requires LeafOk(v, min, max) && min <= index <= last <= max
    requires var o, e, n := Find(v.p, index), Find(v.p, last), |v.p|;
             var starts, ends := index == Lo(v, o, min), last == Hi(v, e, max);
             && !(starts && ends && o == e) && !(entry != NULL && o == n < 15 && starts != ends)
             && !(e == o + 1 && starts != ends)
    ensures Completes(v, min, max, index, last, entry, isRoot) <==>
            && |v.p| - Find(v.p, last) + Find(v.p, index) < (if max == 0xFFFF_FFFF_FFFF_FFFF then 13 else 14)
            && (if isRoot then 1 else 8) <= |Spliced(v, min, max, index, last, entry).s| <= 16
  {
    hide Find, Increasing, Spliced;
    SplicedIs(v, min, max, index, last, entry);
  }

  // What leaves a single slot replaces the only one there was.
  lemma Emptied(v: LeafMap, w: LeafMap, min: Word, max: Word, index: Word, last: Word, entry: Word, isRoot: bool)
    requires Completes(v, min, max, index, last, entry, isRoot) && Stored(v, w, min, max, index, last, entry)
             && |w.p| == 0
    requires isRoot ==> !(index == min && last == max)
    ensures |v.p| == 0 && index == min && last == max
  {
    hide Find, Increasing;
    SplicedIs(v, min, max, index, last, entry);
    FindMonotone(v.p, index, last);
  }

  // index..last is index0..last0 with the NULLs it touches, if NULL is to be stored.
  ghost predicate Grown(v: LeafMap, min: Word, max: Word, index0: Word, last0: Word, index: Word, last: Word,
                        entry: Word) {
    && LeafOk(v, min, max) && min <= index <= index0 <= last0 <= last <= max
    && (entry != NULL ==> index == index0 && last == last0)
    && (entry == NULL && last0 == max ==> max == ULONG_MAX)
    && (forall k :: index <= k <= last && !(index0 <= k <= last0) ==> Value(v, k) == NULL)
    && (entry == NULL && NoTwoNulls(v.s) ==> Apart(v, min, max, index, last))
  }

  lemma StoreDone(v: LeafMap, w: LeafMap, min: Word, max: Word, index0: Word, last0: Word, index: Word, last: Word,
                  entry: Word)
    requires Grown(v, min, max, index0, last0, index, last, entry) && Stored(v, w, min, max, index, last, entry)
    ensures LeafOk(w, min, max)
    ensures forall k :: min <= k <= max ==> Value(w, k) == if index0 <= k <= last0 then entry else Value(v, k)
    ensures NoTwoNulls(v.s) ==> NoTwoNulls(w.s)
    ensures EndOk(v, max) ==> EndOk(w, max)
  {
    hide Find, Increasing, Value, NoTwoNulls, EndOk, IsSpliced, NewSlot, Apart;
    StoreMeaning(v, w, min, max, index, last, entry);
    if NoTwoNulls(v.s) {
      SplicedNulls(v, w, min, max, index, last, entry);
    }
    if EndOk(v, max) {
      NullAtEnd(v, min, max, last0, last);
      SplicedEnd(v, w, min, max, index, last, entry);
    }
  }

  // A NULL grows to the end of the node only where there was one.
  lemma NullAtEnd(v: LeafMap, min: nat, max: nat, last0: nat, last: nat)
    requires LeafOk(v, min, max) && EndOk(v, max) && last0 <= last <= max
    requires last0 < last ==> Value(v, last) == 0
    ensures last0 < last == max ==> max == ULONG_MAX
  {
    LastSlot(v, min, max);
  }

  lemma SplicedMap(v: LeafMap, min: Word, max: Word, index: Word, last: Word, entry: Word) returns (w: LeafMap)
    requires LeafOk(v, min, max) && min <= index <= last <= max
    ensures Stored(v, w, min, max, index, last, entry) && LeafOk(w, min, max)
    ensures w == Spliced(v, min, max, index, last, entry)
    ensures |w.p| == NewSlot(v, min, index) + (if last < max then 1 + |v.p| - Find(v.p, last + 1) else 0)
    ensures last == max ==> Find(v.p, last + 1) == |v.p|
  {
    hide Find, Increasing, Spliced;
    w := Spliced(v, min, max, index, last, entry);
    SplicedIs(v, min, max, index, last, entry);
    SplicedOk(v, w, min, max, index, last, entry);
    FindPastEnd(v, min, max);
  }

  // ---------- the in-place forms on maps ----------

  lemma Replaced(v: LeafMap, w: LeafMap, min: Word, max: Word, index: Word, last: Word, entry: Word, o: nat)
    requires LeafOk(v, min, max) && min <= index <= last <= max && o == Find(v.p, index) <= |v.p|
    requires index == Lo(v, o, min) && last == Hi(v, o, max) && w == LeafMap(v.p, v.s[o := entry])
    ensures Stored(v, w, min, max, index, last, entry) && LeafOk(w, min, max)
  {
    hide Find, Increasing, IsSpliced;
    SlotEnds(v, min, max, o);
    FindPastEnd(v, min, max);
    if last < max {
      NextSlot(v, min, max, o, last);
    }
    ReplacedIs(v, w, o, Find(v.p, last + 1), max, index, last, entry);
  }

  lemma ReplacedIs(v: LeafMap, w: LeafMap, o: nat, q: nat, max: nat, index: nat, last: nat, entry: nat)
    requires |v.s| == |v.p| + 1 && o <= |v.p| && q <= |v.p| && w == LeafMap(v.p, v.s[o := entry])
    requires if last < max then o < |v.p| && q == o + 1 && v.p[o] == last else o == |v.p|
    ensures IsSpliced(v, w, o, o, q, max, index, last, entry)
  {
  }

  lemma FindPastEnd(v: LeafMap, min: Word, max: Word)
    requires LeafOk(v, min, max)
    ensures Find(v.p, max + 1) == |v.p|
  {
    hide Find;
    FindIs(v.p, max + 1, |v.p|);
  }

  lemma EntryAppended(v: LeafMap, w: LeafMap, min: Word, max: Word, index: Word, last: Word, entry: Word)
    requires LeafOk(v, min, max) && min <= index <= last == max && |v.p| == Find(v.p, index)
    requires Lo(v, |v.p|, min) < index && w == LeafMap(v.p + [index - 1], v.s + [entry])
    ensures Stored(v, w, min, max, index, last, entry) && LeafOk(w, min, max)
  {
    hide Find, Increasing;
    FindPastEnd(v, min, max);
    SplicedOk(v, w, min, max, index, last, entry);
  }

  lemma ContentAppended(v: LeafMap, w: LeafMap, min: Word, max: Word, index: Word, last: Word, entry: Word)
    requires LeafOk(v, min, max) && min <= index <= last < max && |v.p| == Find(v.p, index)
    requires Lo(v, |v.p|, min) == index && w == LeafMap(v.p + [last], v.s[|v.p| := entry] + [v.s[|v.p|]])
    ensures Stored(v, w, min, max, index, last, entry) && LeafOk(w, min, max)
  {
    hide Find, Increasing;
    InSlot(v, min, max, |v.p|, last);
    NextSlot(v, min, max, |v.p|, last);
    SplicedOk(v, w, min, max, index, last, entry);
  }

  lemma EndMoved(v: LeafMap, w: LeafMap, min: Word, max: Word, index: Word, last: Word, entry: Word, o: nat)
    requires LeafOk(v, min, max) && min <= index <= last < max && o == Find(v.p, index) < |v.p|
    requires Lo(v, o, min) == index && v.p[o] < last < Hi(v, o + 1, max)
    requires w == LeafMap(v.p[o := last], v.s[o := entry])
    ensures Stored(v, w, min, max, index, last, entry) && LeafOk(w, min, max)
  {
    hide Find, Increasing;
    InSlot(v, min, max, o + 1, last);
    NextSlot(v, min, max, o + 1, last);
    SplicedOk(v, w, min, max, index, last, entry);
  }

  lemma StartMoved(v: LeafMap, w: LeafMap, min: Word, max: Word, index: Word, last: Word, entry: Word, o: nat)
    requires LeafOk(v, min, max) && min <= index <= last <= max && o == Find(v.p, index) < |v.p|
    requires Lo(v, o, min) < index && last == Hi(v, o + 1, max)
    requires w == LeafMap(v.p[o := index - 1], v.s[o + 1 := entry])
    ensures Stored(v, w, min, max, index, last, entry) && LeafOk(w, min, max)
  {
    hide Find, Increasing;
    SlotEnds(v, min, max, o + 1);
    if last < max {
      NextSlot(v, min, max, o + 1, last);
    }
    SplicedOk(v, w, min, max, index, last, entry);
  }

  lemma SplicedLength(v: LeafMap, w: LeafMap, o: nat, d: nat, q: nat, max: nat, index: nat, last: nat, entry: nat)
    requires |v.s| == |v.p| + 1 && o <= d <= o + 1 && o <= |v.p| && q <= |v.p|
    requires IsSpliced(v, w, o, d, q, max, index, last, entry)
    ensures |w.p| == d + (if last < max then 1 + |v.p| - q else 0) && |w.s| == |w.p| + 1
  {
  }

  // The copy, slot by slot, but for the metadata.
  ghost predicate Filled(p: seq<Word>, t: seq<Word>, v: LeafMap, o: nat, d: nat, q: nat, end: nat, index: Word,
                         last: Word, entry: Word, max: Word) {
    && |v.s| == |v.p| + 1 && o <= d <= o + 1 && o <= |v.p| && q <= |v.p| && |p| == PIVOTS && |t| == SLOTS && d < PIVOTS
    && d <= end <= PIVOTS && end - d - 1 + q <= |v.p|
    && (forall i :: 0 <= i < o ==> p[i] == v.p[i] && t[i] == v.s[i])
    && (d == o + 1 ==> p[o] == index - 1 && t[o] == v.s[o])
    && p[d] == last && t[d] == entry
    && (forall i :: d < i < end ==> p[i] == v.p[i - (d + 1) + q])
    && (forall i :: d < i <= end ==> t[i] == v.s[i - (d + 1) + q])
    && (end < PIVOTS ==> p[end] == 0 || p[end] == max)
    && (forall i :: end < i < PIVOTS ==> p[i] == 0)
  }

  // The first part of the copy, down to the new interval in slot d.
  ghost predicate Started(p: seq<Word>, t: seq<Word>, v: LeafMap, o: nat, d: nat, index: Word, last: Word,
                          entry: Word) {
    && |v.s| == |v.p| + 1 && o <= d <= o + 1 && o <= |v.p| && |p| == PIVOTS && |t| == SLOTS && d < PIVOTS
    && (forall i :: 0 <= i < o ==> p[i] == v.p[i] && t[i] == v.s[i])
    && (d == o + 1 ==> p[o] == index - 1 && t[o] == v.s[o])
    && p[d] == last && t[d] == entry
    && (forall i :: d < i < PIVOTS ==> p[i] == 0)
  }

  // The slots of v from slot from on were added at dst and after.
  ghost predicate Finished(p0: seq<Word>, t0: seq<Word>, p: seq<Word>, t: seq<Word>, v: LeafMap, dst: nat, from: nat,
                           end: nat, max: Word) {
    && |v.s| == |v.p| + 1 && |p0| == |p| == PIVOTS && |t0| == |t| == SLOTS && end <= PIVOTS && end - dst + from == |v.p|
    && (forall i :: 0 <= i < dst && i < PIVOTS ==> p[i] == p0[i])
    && (forall i :: 0 <= i < dst && i < SLOTS ==> t[i] == t0[i])
    && (forall i :: dst <= i <= end && i - dst + from >= 0 ==> t[i] == v.s[i - dst + from])
    && (forall i :: dst <= i < end && i - dst + from >= 0 ==> p[i] == v.p[i - dst + from])
    && (end < PIVOTS ==> p[end] == 0 || p[end] == max)
    && (forall i :: end < i < PIVOTS ==> p[i] == 0)
  }

  lemma StartedFilled(p: seq<Word>, t: seq<Word>, v: LeafMap, o: nat, d: nat, q: nat, index: Word, last: Word,
                      entry: Word, max: Word)
    requires Started(p, t, v, o, d, index, last, entry) && last == max && q == |v.p|
    ensures Filled(p, t, v, o, d, q, d, index, last, entry, max)
  {
  }

  lemma StartedRest(p: seq<Word>, t: seq<Word>, v: LeafMap, o: nat, d: nat, index: Word, last: Word, entry: Word)
    requires Started(p, t, v, o, d, index, last, entry)
    ensures |p| == PIVOTS && d < PIVOTS && forall i :: d + 1 <= i < PIVOTS ==> p[i] == 0
  {
  }

  lemma FinishedFilled(p0: seq<Word>, t0: seq<Word>, p: seq<Word>, t: seq<Word>, v: LeafMap, o: nat, d: nat, q: nat,
                       end: nat,
                       index: Word, last: Word, entry: Word, max: Word)
    requires Started(p0, t0, v, o, d, index, last, entry) && Finished(p0, t0, p, t, v, d + 1, q, end, max)
             && q <= |v.p| && d < end
    ensures Filled(p, t, v, o, d, q, end, index, last, entry, max)
  {
  }

  lemma MetaKeepsFilled(p: seq<Word>, t: seq<Word>, u: seq<Word>, v: LeafMap, o: nat, d: nat, q: nat, end: nat,
                        index: Word, last: Word, entry: Word, max: Word)
    requires Filled(p, t, v, o, d, q, end, index, last, entry, max) && |u| == |t|
    requires forall i :: 0 <= i <= end ==> u[i] == t[i]
    ensures Filled(p, u, v, o, d, q, end, index, last, entry, max)
  {
  }

  lemma CopyEncodes(p: seq<Word>, t: seq<Word>, max: Word, v: LeafMap, w: LeafMap, o: nat, d: nat, q: nat,
                    index: Word, last: Word, entry: Word)
    requires Filled(p, t, v, o, d, q, |w.p|, index, last, entry, max)
    requires IsSpliced(v, w, o, d, q, max, index, last, entry) && |w.p| <= PIVOTS
    requires |w.p| < PIVOTS ==> t[15] % 256 == |w.p|
    ensures Encodes(p, t, max, w)
  {
  }

  lemma LastPivotFilled(p: seq<Word>, t: seq<Word>, v: LeafMap, o: nat, d: nat, q: nat, end: nat, index: Word,
                        last: Word, entry: Word, max: Word)
    requires Filled(p, t, v, o, d, q, end, index, last, entry, max)
    ensures |p| == PIVOTS && (end < PIVOTS ==> p[end] == 0 || p[end] == max)
  {
  }

  // ---------- the in-place forms in memory ----------

  // No slot more or less.
  lemma SameSizeEncodes(p: seq<Word>, s: seq<Word>, q: seq<Word>, t: seq<Word>, max: Word, v: LeafMap, w: LeafMap)
    requires Encodes(p, s, max, v) && |q| == PIVOTS && |t| == SLOTS && |w.p| == |v.p| && |w.s| == |v.s|
    requires forall i :: 0 <= i < |w.p| ==> q[i] == w.p[i] || (q[i] == p[i] && w.p[i] == v.p[i])
    requires forall i :: 0 <= i < |w.s| ==> t[i] == w.s[i] || (t[i] == s[i] && w.s[i] == v.s[i])
    requires |w.p| < PIVOTS ==> (q[|w.p|] == p[|w.p|] || q[|w.p|] == max) && t[15] == s[15]
    requires forall i :: |w.p| < i < PIVOTS ==> q[i] == p[i]
    ensures Encodes(q, t, max, w)
  {
  }

  // The boundary after slot o moves to before index; the next slot still ends with last.
  lemma StartEncodes(p: seq<Word>, s: seq<Word>, q: seq<Word>, t: seq<Word>, max: Word, v: LeafMap, w: LeafMap,
                     o: nat, index: Word, last: Word, entry: Word)
    requires Encodes(p, s, max, v) && o < |v.p| && last == Hi(v, o + 1, max) && index > 0
    requires w == LeafMap(v.p[o := index - 1], v.s[o + 1 := entry]) && t == s[o + 1 := entry]
    requires q == p[o := index - 1]
             || (o + 1 < PIVOTS && q == p[o + 1 := last][o := index - 1])
    ensures Encodes(q, t, max, w)
  {
  }

  // One slot more at the end.
  lemma LongerEncodes(p: seq<Word>, s: seq<Word>, q: seq<Word>, t: seq<Word>, max: Word, v: LeafMap, w: LeafMap)
    requires Encodes(p, s, max, v) && |q| == PIVOTS && |t| == SLOTS && |w.p| == |v.p| + 1 <= PIVOTS
             && |w.s| == |v.s| + 1
    requires forall i :: 0 <= i < |w.p| ==> q[i] == w.p[i] || (i < |v.p| && q[i] == p[i] && w.p[i] == v.p[i])
    requires forall i :: 0 <= i < |w.s| ==> t[i] == w.s[i] || (i < |v.s| && t[i] == s[i] && w.s[i] == v.s[i])
    requires |w.p| < PIVOTS ==> q[|w.p|] == p[|v.p|] && t[15] % 256 == |w.p|
    requires forall i :: |w.p| < i < PIVOTS ==> q[i] == p[i]
    ensures Encodes(q, t, max, w)
  {
  }

  // The indices a NULL takes in on the left were NULL.
  lemma NullsBefore(v: LeafMap, min: nat, max: nat, index: nat, index0: nat, o: nat)
    requires LeafOk(v, min, max) && min <= index <= index0 <= max && Find(v.p, index) == o
    requires index < index0 ==> v.s[o] == 0 && index == Lo(v, o, min) && index0 <= Hi(v, o, max) + 1
    ensures forall k :: index <= k < index0 ==> Value(v, k) == 0
  {
    hide Find, Value, Increasing;
    forall k | index <= k < index0 ensures Value(v, k) == 0 {
      InSlot(v, min, max, o, k);
    }
  }

  // The indices a NULL takes in on the right were NULL, and what follows is not.
  lemma NullsAfter(v: LeafMap, min: nat, max: nat, i: nat, j: nat, last0: nat, last: nat)
    requires LeafOk(v, min, max) && min <= last0 <= last <= max && i <= j <= i + 1 && j <= |v.p|
    requires Find(v.p, last0) == i && Find(v.p, last) == j
    requires last != last0 ==> last == Hi(v, j, max)
    requires last != last0 && (j == i || last0 != Hi(v, i, max)) ==> v.s[i] == 0
    requires j == i + 1 ==> v.s[j] == 0 && last == Hi(v, j, max)
    requires j == i && last < Hi(v, j, max) ==> v.s[i] != 0
    requires j == i < |v.p| && last == Hi(v, i, max) ==> v.s[i + 1] != 0
    ensures forall k :: last0 < k <= last ==> Value(v, k) == 0
    ensures NoTwoNulls(v.s) && last < max ==> v.s[Find(v.p, last + 1)] != 0
  {
    hide Find, Value, Increasing;
    SlotEnds(v, min, max, i);
    SlotEnds(v, min, max, j);
    LastInSlot(v, min, max, last0, i);
    forall k | last0 < k <= last ensures Value(v, k) == 0 {
      InSlot(v, min, max, if k <= Hi(v, i, max) then i else j, k);
    }
    if last < max {
      NextSlot(v, min, max, j, last);
    }
  }

  lemma LastInSlot(v: LeafMap, min: nat, max: nat, k: nat, i: nat)
    requires LeafOk(v, min, max) && min <= k <= max && Find(v.p, k) == i
    ensures Lo(v, i, min) <= k <= Hi(v, i, max)
  {
    hide Find;
  }

  lemma LeftApart(v: LeafMap, min: nat, max: nat, index: nat, last: nat, o: nat)
    requires |v.s| == |v.p| + 1 && o == Find(v.p, index) <= |v.p|
    requires last < max && NoTwoNulls(v.s) ==> v.s[Find(v.p, last + 1)] != 0
    requires Lo(v, o, min) < index ==> v.s[o] != 0
    requires Lo(v, o, min) == index && o > 0 ==> v.s[o] == 0 || v.s[o - 1] != 0
    requires Lo(v, o, min) <= index
    ensures NoTwoNulls(v.s) ==> Apart(v, min, max, index, last)
  {
  }
}
