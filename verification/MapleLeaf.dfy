// A leaf of the maple tree read as a piecewise-constant map: strictly increasing pivots and one
// entry per interval.
module MapleLeaf {

  type Word = w: nat | w < 0x1_0000_0000_0000_0000
  const ULONG_MAX: Word := 0xffff_ffff_ffff_ffff

  // The NULL pointer is entry 0.
  const NULL: Word := 0

  // Slot i holds the entry of the indices above pivot i - 1 up to pivot i; the last slot ends at
  // the maximum of the node, which needs no pivot.
  datatype LeafMap = LeafMap(p: seq<nat>, s: seq<nat>)

  ghost predicate Increasing(p: seq<nat>) {
    forall i, j :: 0 <= i < j < |p| ==> p[i] < p[j]
  }

  // v is a map from the indices min..max.
  ghost predicate LeafOk(v: LeafMap, min: nat, max: nat) {
    && |v.s| == |v.p| + 1 && min <= max
    && Increasing(v.p)
    && forall i :: 0 <= i < |v.p| ==> min <= v.p[i] < max
  }

  // The slot of index k: the first whose pivot is not below k.
  function Find(p: seq<nat>, k: nat): (i: nat)
    ensures i <= |p|
    ensures forall j :: 0 <= j < i ==> p[j] < k
    ensures i < |p| ==> k <= p[i]
  {
    if p == [] || k <= p[0] then 0
    else
      assert forall j :: 1 <= j < |p| ==> p[j] == p[1..][j - 1];
      1 + Find(p[1..], k)
  }

  lemma FindIs(p: seq<nat>, k: nat, i: nat)
    requires Increasing(p) && i <= |p|
    requires (i > 0 ==> p[i - 1] < k) && (i < |p| ==> k <= p[i])
    ensures Find(p, k) == i
  {
  }

  function Value(v: LeafMap, k: nat): nat
    requires |v.s| == |v.p| + 1
  {
    v.s[Find(v.p, k)]
  }

  // Logical bounds of slot i.
  function Lo(v: LeafMap, i: nat, min: nat): nat
    requires i <= |v.p|
  {
    if i == 0 then min else v.p[i - 1] + 1
  }

  function Hi(v: LeafMap, i: nat, max: nat): nat
    requires i <= |v.p|
  {
    if i < |v.p| then v.p[i] else max
  }

  // ---------- overwriting an interval ----------

  // v with entry on index..last: the slots before, what is left of the slot of index, the new
  // slot, and whatever lies after last.
  function Spliced(v: LeafMap, min: nat, max: nat, index: nat, last: nat, entry: nat): LeafMap
    requires |v.s| == |v.p| + 1 && min <= index
  {
    var o, q := Find(v.p, index), Find(v.p, last + 1);
    var split := Lo(v, o, min) < index;
    LeafMap(v.p[..o] + (if split then [index - 1] else []) + (if last < max then [last] + v.p[q..] else []),
            v.s[..o] + (if split then [v.s[o]] else []) + [entry] + (if last < max then v.s[q..] else []))
  }

  // Where the new slot is.
  function NewSlot(v: LeafMap, min: nat, index: nat): nat
    requires |v.s| == |v.p| + 1
  {
    Find(v.p, index) + if Lo(v, Find(v.p, index), min) < index then 1 else 0
  }

  // w is the map v after the splice, slot by slot.
  ghost predicate IsSpliced(v: LeafMap, w: LeafMap, o: nat, d: nat, q: nat, max: nat, index: nat, last: nat, entry: nat)
    requires |v.s| == |v.p| + 1 && o <= d <= o + 1 && o <= |v.p| && q <= |v.p|
  {
    && |w.s| == |w.p| + 1 && |w.p| == d + (if last < max then 1 + |v.p| - q else 0)
    && (forall i :: 0 <= i < o ==> w.p[i] == v.p[i] && w.s[i] == v.s[i])
    && (d == o + 1 ==> w.p[o] == index - 1 && w.s[o] == v.s[o])
    && w.s[d] == entry
    && (last < max ==> w.p[d] == last)
    && (forall i :: d < i < |w.p| ==> w.p[i] == v.p[i - d - 1 + q])
    && (forall i :: d < i < |w.s| ==> w.s[i] == v.s[i - d - 1 + q])
  }

  lemma SplicedIs(v: LeafMap, min: nat, max: nat, index: nat, last: nat, entry: nat)
    requires LeafOk(v, min, max) && min <= index <= last <= max
    ensures IsSpliced(v, Spliced(v, min, max, index, last, entry), Find(v.p, index), NewSlot(v, min, index),
                      Find(v.p, last + 1), max, index, last, entry)
  {
    hide Find;
  }

  lemma SplicedOk(v: LeafMap, w: LeafMap, min: nat, max: nat, index: nat, last: nat, entry: nat)
    requires LeafOk(v, min, max) && min <= index <= last <= max
    requires IsSpliced(v, w, Find(v.p, index), NewSlot(v, min, index), Find(v.p, last + 1), max, index, last, entry)
    ensures LeafOk(w, min, max)
  {
    hide Find, Increasing, IsSpliced;
    forall i, j | 0 <= i < j < |w.p| ensures w.p[i] < w.p[j] {
      SplicedPair(v, w, min, max, index, last, entry, i, j);
    }
    IncreasingIs(w.p);
    forall i | 0 <= i < |w.p| ensures min <= w.p[i] < max {
      SplicedPair(v, w, min, max, index, last, entry, i, i);
    }
    assert |w.s| == |w.p| + 1 by {
      SplicedSize(v, w, min, max, index, last, entry);
    }
  }

  // The new interval starts a slot, the one index is found in.
  lemma NewSlotHoldsIndex(v: LeafMap, w: LeafMap, min: nat, max: nat, index: nat, last: nat, entry: nat)
    requires LeafOk(v, min, max) && LeafOk(w, min, max) && min <= index <= last <= max
    requires IsSpliced(v, w, Find(v.p, index), NewSlot(v, min, index), Find(v.p, last + 1), max, index, last, entry)
    ensures Find(w.p, index) == NewSlot(v, min, index) && w.s[NewSlot(v, min, index)] == entry
  {
    hide Find, Increasing;
    FindIs(w.p, index, NewSlot(v, min, index));
  }

  lemma SplicedSize(v: LeafMap, w: LeafMap, min: nat, max: nat, index: nat, last: nat, entry: nat)
    requires LeafOk(v, min, max)
             && IsSpliced(v, w, Find(v.p, index), NewSlot(v, min, index), Find(v.p, last + 1), max, index, last, entry)
    ensures |w.s| == |w.p| + 1
  {
    hide Find, Increasing;
  }

  lemma SplicedPair(v: LeafMap, w: LeafMap, min: nat, max: nat, index: nat, last: nat, entry: nat, i: nat, j: nat)
    requires LeafOk(v, min, max) && min <= index <= last <= max && i <= j < |w.p|
    requires IsSpliced(v, w, Find(v.p, index), NewSlot(v, min, index), Find(v.p, last + 1), max, index, last, entry)
    ensures min <= w.p[i] < max && (i < j ==> w.p[i] < w.p[j])
  {
    hide Find, Increasing, IsSpliced;
    var o, q, d := Find(v.p, index), Find(v.p, last + 1), NewSlot(v, min, index);
    SplicedPivot(v, w, o, d, q, max, index, last, entry, i);
    SplicedPivot(v, w, o, d, q, max, index, last, entry, j);
    if j < o {
      Ordered(v.p, i, j);
    } else {
      if i < o {
        Ordered(v.p, i, o - 1);
      }
      if d < j {
        Ordered(v.p, q, j - d - 1 + q);
        if d < i {
          Ordered(v.p, i - d - 1 + q, j - d - 1 + q);
        }
      }
    }
  }

  // A pivot of the new map.
  lemma SplicedPivot(v: LeafMap, w: LeafMap, o: nat, d: nat, q: nat, max: nat, index: nat, last: nat, entry: nat,
                     i: nat)
    requires |v.s| == |v.p| + 1 && o <= d <= o + 1 && o <= |v.p| && q <= |v.p|
    requires IsSpliced(v, w, o, d, q, max, index, last, entry) && i < |w.p|
    ensures d <= i ==> last < max
    ensures d < i ==> i - d - 1 + q < |v.p|
    ensures w.p[i] == if i < o then v.p[i] else if i < d then index - 1 else if i == d then last else v.p[i - d - 1 + q]
  {
  }

  lemma Ordered(p: seq<nat>, i: int, j: int)
    requires Increasing(p) && 0 <= i <= j < |p|
    ensures if i < j then p[i] < p[j] else p[i] == p[j]
  {
  }

  lemma IncreasingIs(p: seq<nat>)
    requires forall i, j :: 0 <= i < j < |p| ==> p[i] < p[j]
    ensures Increasing(p)
  {
  }

  // The new map: entry on index..last, unchanged elsewhere.
  lemma SplicedValue(v: LeafMap, min: nat, max: nat, index: nat, last: nat, entry: nat, k: nat)
    requires LeafOk(v, min, max) && min <= index <= last <= max && min <= k <= max
    ensures LeafOk(Spliced(v, min, max, index, last, entry), min, max)
    ensures Value(Spliced(v, min, max, index, last, entry), k) == if index <= k <= last then entry else Value(v, k)
  {
    hide Find, Spliced, Increasing, IsSpliced, NewSlot;
    SplicedIs(v, min, max, index, last, entry);
    var w := Spliced(v, min, max, index, last, entry);
    SplicedOk(v, w, min, max, index, last, entry);
    if k < index {
      ValueBefore(v, w, min, max, index, last, entry, k);
    } else if k <= last {
      ValueInside(v, w, min, max, index, last, entry, k);
    } else {
      ValueAfter(v, w, min, max, index, last, entry, k);
    }
  }

  lemma ValueBefore(v: LeafMap, w: LeafMap, min: nat, max: nat, index: nat, last: nat, entry: nat, k: nat)
    requires LeafOk(v, min, max) && LeafOk(w, min, max) && min <= k < index <= last <= max
    requires IsSpliced(v, w, Find(v.p, index), NewSlot(v, min, index), Find(v.p, last + 1), max, index, last, entry)
    ensures Value(w, k) == Value(v, k)
  {
    hide Find, Increasing;
    FindMonotone(v.p, index, k);
    FindIs(w.p, k, Find(v.p, k));
  }

  lemma ValueInside(v: LeafMap, w: LeafMap, min: nat, max: nat, index: nat, last: nat, entry: nat, k: nat)
    requires LeafOk(v, min, max) && LeafOk(w, min, max) && min <= index <= k <= last <= max
    requires IsSpliced(v, w, Find(v.p, index), NewSlot(v, min, index), Find(v.p, last + 1), max, index, last, entry)
    ensures Value(w, k) == entry
  {
    hide Find, Increasing;
    FindIs(w.p, k, NewSlot(v, min, index));
  }

  lemma ValueAfter(v: LeafMap, w: LeafMap, min: nat, max: nat, index: nat, last: nat, entry: nat, k: nat)
    requires LeafOk(v, min, max) && LeafOk(w, min, max) && min <= index <= last < k <= max
    requires IsSpliced(v, w, Find(v.p, index), NewSlot(v, min, index), Find(v.p, last + 1), max, index, last, entry)
    ensures Value(w, k) == Value(v, k)
  {
    hide Find, Increasing, LeafOk, NewSlot;
    AreIncreasing(v, w, min, max);
    var q, d, i := Find(v.p, last + 1), NewSlot(v, min, index), Find(v.p, k);
    FindMonotone(v.p, last + 1, k);
    FindIs(w.p, k, d + 1 + i - q);
  }

  lemma AreIncreasing(v: LeafMap, w: LeafMap, min: nat, max: nat)
    requires LeafOk(v, min, max) && LeafOk(w, min, max)
    ensures Increasing(v.p) && Increasing(w.p) && |v.s| == |v.p| + 1 && |w.s| == |w.p| + 1
  {
  }

  lemma FindMonotone(p: seq<nat>, a: nat, b: nat)
    requires Increasing(p)
    ensures a <= b ==> Find(p, a) <= Find(p, b)
    ensures b <= a ==> Find(p, b) <= Find(p, a)
  {
    hide Find;
  }

  // The indices of slot i.
  lemma InSlot(v: LeafMap, min: nat, max: nat, i: nat, k: nat)
    requires LeafOk(v, min, max) && i <= |v.p| && Lo(v, i, min) <= k <= Hi(v, i, max)
    ensures Find(v.p, k) == i && Value(v, k) == v.s[i]
  {
    hide Find;
    FindIs(v.p, k, i);
  }

  lemma SlotEnds(v: LeafMap, min: nat, max: nat, i: nat)
    requires LeafOk(v, min, max) && i <= |v.p|
    ensures min <= Lo(v, i, min) <= Hi(v, i, max) <= max
    ensures Find(v.p, Lo(v, i, min)) == i && Find(v.p, Hi(v, i, max)) == i
    ensures i < |v.p| ==> Lo(v, i + 1, min) == Hi(v, i, max) + 1
  {
    hide Find;
    FindIs(v.p, Lo(v, i, min), i);
    FindIs(v.p, Hi(v, i, max), i);
  }

  // The slot after an interval that ends in slot i.
  lemma NextSlot(v: LeafMap, min: nat, max: nat, i: nat, last: nat)
    requires LeafOk(v, min, max) && i <= |v.p| && Find(v.p, last) == i && last < max
    ensures Find(v.p, last + 1) == if Hi(v, i, max) == last then i + 1 else i
  {
    hide Find;
    FindIs(v.p, last + 1, if Hi(v, i, max) == last then i + 1 else i);
  }

  ghost predicate NoTwoNulls(s: seq<nat>) {
    forall i, j :: 0 <= i && j == i + 1 && j < |s| ==> s[i] != 0 || s[j] != 0
  }

  // Neighbouring slots stay non-NULL in pairs, if what surrounds a new NULL is not NULL.
  lemma SplicedNulls(v: LeafMap, w: LeafMap, min: nat, max: nat, index: nat, last: nat, entry: nat)
    requires LeafOk(v, min, max) && min <= index <= last <= max && NoTwoNulls(v.s)
    requires IsSpliced(v, w, Find(v.p, index), NewSlot(v, min, index), Find(v.p, last + 1), max, index, last, entry)
    requires entry == 0 ==> Apart(v, min, max, index, last)
    ensures NoTwoNulls(w.s)
  {
    hide Find;
    var o, q, d := Find(v.p, index), Find(v.p, last + 1), NewSlot(v, min, index);
    forall i, j | 0 <= i && j == i + 1 && j < |w.s| ensures w.s[i] != 0 || w.s[j] != 0 {
      if d < i {
        assert w.s[i] == v.s[i - d - 1 + q] && w.s[j] == v.s[j - d - 1 + q];
      } else if j == d == o + 1 && o > 0 {
        assert w.s[i] == v.s[o];
      }
    }
  }

  // index..last touches no NULL outside itself.
  ghost predicate Apart(v: LeafMap, min: nat, max: nat, index: nat, last: nat)
    requires |v.s| == |v.p| + 1
  {
    var o, q := Find(v.p, index), Find(v.p, last + 1);
    && (Lo(v, o, min) < index ==> v.s[o] != 0)
    && (Lo(v, o, min) >= index && o > 0 ==> v.s[o - 1] != 0)
    && (last < max ==> v.s[q] != 0)
  }

  // A leaf ends with NULL only if it is the rightmost one.
  ghost predicate EndOk(v: LeafMap, max: nat)
    requires |v.s| == |v.p| + 1
  {
    v.s[|v.p|] == 0 ==> max == ULONG_MAX
  }

  lemma SplicedEnd(v: LeafMap, w: LeafMap, min: nat, max: nat, index: nat, last: nat, entry: nat)
    requires LeafOk(v, min, max) && min <= index <= last <= max && EndOk(v, max)
    requires IsSpliced(v, w, Find(v.p, index), NewSlot(v, min, index), Find(v.p, last + 1), max, index, last, entry)
    requires last == max && entry == 0 ==> max == ULONG_MAX
    ensures EndOk(w, max)
  {
    hide Find, Increasing;
  }

  // The maximum of the node lies in its last slot.
  lemma LastSlot(v: LeafMap, min: nat, max: nat)
    requires LeafOk(v, min, max)
    ensures Value(v, max) == v.s[|v.p|]
  {
    InSlot(v, min, max, |v.p|, max);
  }

  // Everything a store promises, whatever form it took.
  lemma StoreMeaning(v: LeafMap, w: LeafMap, min: nat, max: nat, index: nat, last: nat, entry: nat)
    requires LeafOk(v, min, max) && min <= index <= last <= max
    requires IsSpliced(v, w, Find(v.p, index), NewSlot(v, min, index), Find(v.p, last + 1), max, index, last, entry)
    ensures LeafOk(w, min, max)
    ensures forall k :: min <= k <= max ==> Value(w, k) == if index <= k <= last then entry else Value(v, k)
  {
    SplicedIs(v, min, max, index, last, entry);
    hide Find, Increasing, Spliced, Value;
    var u := Spliced(v, min, max, index, last, entry);
    SplicedOk(v, w, min, max, index, last, entry);
    SplicedUnique(v, u, w, Find(v.p, index), NewSlot(v, min, index), Find(v.p, last + 1), max, index, last, entry);
    forall k | min <= k <= max ensures Value(w, k) == if index <= k <= last then entry else Value(v, k) {
      SplicedValue(v, min, max, index, last, entry, k);
    }
  }

  lemma SplicedUnique(v: LeafMap, u: LeafMap, w: LeafMap, o: nat, d: nat, q: nat, max: nat, index: nat, last: nat,
                      entry: nat)
    requires |v.s| == |v.p| + 1 && o <= d <= o + 1 && o <= |v.p| && q <= |v.p|
    requires IsSpliced(v, u, o, d, q, max, index, last, entry) && IsSpliced(v, w, o, d, q, max, index, last, entry)
    ensures u == w
  {
    forall i | 0 <= i < |u.p| ensures u.p[i] == w.p[i] {
      assert i < o || i == o || i == d || d < i;
    }
    forall i | 0 <= i < |u.s| ensures u.s[i] == w.s[i] {
      assert i < o || i == o || i == d || d < i;
    }
    assert u.p == w.p && u.s == w.s;
  }
}
