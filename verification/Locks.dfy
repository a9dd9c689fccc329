// What the locks of an insertion cover: the slots LOCK_PATH_FROM_LCP increments, and which of
// them end up with an odd version.
module Locks {
  import opened Keys
  import opened Slots
  import opened CuckooTable
  import opened Trie
  import opened TrieInsert
  import opened MlpSet
  import opened Snapshot
  import opened Versioned
  import opened Served

  // The slots LOCK_PATH_FROM_LCP increments, in order: both candidate positions of every prefix
  // length from j down to 3.
  function PathLocks(pos1: seq<int>, pos2: seq<int>, j: nat): seq<int>
    requires |pos1| == 8 && |pos2| == 8 && j <= 8
  {
    if j < 3 then [] else [pos1[j - 1], pos2[j - 1]] + PathLocks(pos1, pos2, j - 1)
  }

  ghost predicate AllEven(ver: seq<nat>) {
    forall p :: 0 <= p < |ver| ==> ver[p] % 2 == 0
  }

  ghost predicate OddOnlyAt(ver: seq<nat>, where: set<int>) {
    forall p :: 0 <= p < |ver| && ver[p] % 2 == 1 ==> p in where
  }

  ghost predicate InRange(ps: seq<int>, n: nat) {
    forall i :: 0 <= i < |ps| ==> 0 <= ps[i] < n
  }

  // b is a after every position in ps was incremented once per occurrence.
  ghost predicate Incremented(a: seq<nat>, b: seq<nat>, ps: seq<int>) {
    |b| == |a| && forall p :: 0 <= p < |a| ==> b[p] == (a[p] + multiset(ps)[p]) % 256
  }

  lemma IncrementedOnce(a: seq<nat>, b: seq<nat>, c: seq<nat>, ps: seq<int>, p: int)
    requires Incremented(a, b, ps) && 0 <= p < |a|
    requires c == b[p := Plus(b[p], 1)]
    ensures Incremented(a, c, ps + [p])
  {
    forall q | 0 <= q < |a| ensures c[q] == (a[q] + multiset(ps + [p])[q]) % 256 {
      NextModulo(a[q] + multiset(ps)[q]);
    }
  }

  lemma IncrementedPair(a: seq<nat>, b: seq<nat>, c: seq<nat>, ps: seq<int>, p: int, q: int)
    requires Incremented(a, b, ps) && 0 <= p < |a| && 0 <= q < |a|
    requires var v := b[p := Plus(b[p], 1)]; c == v[q := Plus(v[q], 1)]
    ensures Incremented(a, c, ps + [p, q])
  {
    hide Plus;
    var v := b[p := Plus(b[p], 1)];
    IncrementedOnce(a, b, v, ps, p);
    IncrementedOnce(a, v, c, ps + [p], q);
    assert ps + [p] + [q] == ps + [p, q];
  }

  lemma PathStep(pos1: seq<int>, pos2: seq<int>, j: nat, done: seq<int>, all: seq<int>, n: nat)
    requires |pos1| == 8 && |pos2| == 8 && 2 < j <= 8 && done + PathLocks(pos1, pos2, j) == all && InRange(all, n)
    ensures done + [pos1[j - 1], pos2[j - 1]] + PathLocks(pos1, pos2, j - 1) == all
    ensures 0 <= pos1[j - 1] < n && 0 <= pos2[j - 1] < n
  {
    var two, rest := [pos1[j - 1], pos2[j - 1]], PathLocks(pos1, pos2, j - 1);
    assert PathLocks(pos1, pos2, j) == two + rest;
    hide PathLocks;
    TwoInside(done, two, rest, n);
  }

  lemma TwoInside(a: seq<int>, two: seq<int>, c: seq<int>, n: nat)
    requires |two| == 2 && InRange(a + (two + c), n)
    ensures a + two + c == a + (two + c) && 0 <= two[0] < n && 0 <= two[1] < n
  {
    var all := a + (two + c);
    assert all[|a|] == two[0] && all[|a| + 1] == two[1];
  }

  lemma PathEnd(pos1: seq<int>, pos2: seq<int>, j: nat, done: seq<int>)
    requires |pos1| == 8 && |pos2| == 8 && j <= 2
    ensures done + PathLocks(pos1, pos2, j) == done
  {
  }

  lemma FirstTwo(p: int, q: int, rest: seq<int>, n: nat)
    requires InRange([p, q] + rest, n)
    ensures 0 <= p < n && 0 <= q < n && InRange(rest, n)
  {
    var all := [p, q] + rest;
    assert all[0] == p && all[1] == q;
    forall i | 0 <= i < |rest| ensures 0 <= rest[i] < n {
      assert all[i + 2] == rest[i];
    }
  }

  lemma UnlockedTwo(a: seq<nat>, b: seq<nat>, p: int, q: int, rest: seq<int>, others: set<int>)
    requires 0 <= p < |a| && 0 <= q < |a|
    requires OddOnlyAt(a, (set x | x in [p, q] + rest) + others)
    requires var c := a[p := Plus(a[p], a[p] % 2)]; b == c[q := Plus(c[q], c[q] % 2)]
    ensures OddOnlyAt(b, (set x | x in rest) + others)
  {
  }

  // b is a after some of its odd versions were counted on to the next even one, each once, and nothing
  // else was.
  ghost predicate OddUpdated(a: seq<nat>, b: seq<nat>) {
    |b| == |a| && forall p :: 0 <= p < |a| ==> b[p] == a[p] || (a[p] % 2 == 1 && b[p] == Plus(a[p], 1))
  }

  lemma NoneUpdated(a: seq<nat>)
    ensures OddUpdated(a, a)
  {
  }

  lemma UpdatedOn(a: seq<nat>, b: seq<nat>, c: seq<nat>, p: int)
    requires OddUpdated(a, b) && 0 <= p < |b| && c == b[p := Plus(b[p], b[p] % 2)] && b[p] < 256
    ensures OddUpdated(a, c)
  {
  }

  lemma ResetKept(a: seq<nat>, b: seq<nat>, leaf: int, i: int)
    requires 0 <= leaf < |a| && OddKept(a[leaf := 1], b) && 0 <= i < |a| && a[i] == 1
    ensures b[i] == 1
  {
  }

  // An odd version that is counted on is so once.
  lemma UpdatedFromOne(a: seq<nat>, b: seq<nat>, p: int)
    requires OddUpdated(a, b) && AllEven(b) && 0 <= p < |a| && a[p] == 1
    ensures b[p] == 2
  {
  }

  lemma NotIncremented(a: seq<nat>)
    requires forall p :: 0 <= p < |a| ==> a[p] < 256
    ensures Incremented(a, a, [])
  {
  }

  lemma SameIndicesSelf(s: seq<Slot>)
    ensures SameIndices(s, s)
  {
  }

  lemma SameIndicesTrans(s: seq<Slot>, r: seq<Slot>, q: seq<Slot>)
    requires SameIndices(s, r) && SameIndices(r, q)
    ensures SameIndices(s, q)
  {
  }

  // Ancestors longer than lo whose minimum value lowers sit in slots of s with odd versions.
  ghost predicate AncestorsOdd(s: seq<Slot>, m0: map<Index, Info>, ver: seq<nat>, value: Key, lo: nat, ilen: nat)
    requires ilen <= 8
  {
    forall j, i :: 3 <= j && lo < j < ilen && HoldsIndex(s, i, At(value, j)) && 0 <= i < |ver| ==>
      At(value, j) in m0 && value < m0[At(value, j)].minKey ==> ver[i] % 2 == 1
  }

  lemma NoAncestorsLeft(s: seq<Slot>, m0: map<Index, Info>, ver: seq<nat>, value: Key, ilen: nat)
    requires 3 <= ilen <= 8
    ensures AncestorsOdd(s, m0, ver, value, ilen - 1, ilen)
  {
  }

  lemma AbsentAncestor(s: seq<Slot>, m0: map<Index, Info>, ver: seq<nat>, value: Key, l: nat, ilen: nat)
    requires 3 <= l < ilen <= 8 && At(value, l) !in m0
    ensures AncestorsOdd(s, m0, ver, value, l - 1, ilen) <==> AncestorsOdd(s, m0, ver, value, l, ilen)
  {
    forall j | l - 1 < j < ilen && At(value, j) in m0 ensures l < j {
    }
  }

  // The ancestor of length l, in slot pos, adds its own condition if it is to be lowered.
  lemma AncestorSlot(s: seq<Slot>, r: seq<Slot>, m0: map<Index, Info>, m: map<Index, Info>, ver: seq<nat>,
                     value: Key, l: nat, ilen: nat, pos: int)
    requires 3 <= l < ilen <= 8 && At(value, l) in m0 && At(value, l) in m && m[At(value, l)] == m0[At(value, l)]
    requires SameIndices(s, r) && HoldsIndex(r, pos, At(value, l)) && |ver| == |s|
    requires exists i :: HoldsIndex(s, i, At(value, l))
    requires forall i, j ::
               (IsNode(r, i) && IsNode(r, j) && r[i].ilen <= 8 && r[j].ilen <= 8
                && IndexOf(r[i]) == IndexOf(r[j])) ==> i == j
    ensures AncestorsOdd(s, m0, ver, value, l - 1, ilen)
            <==> AncestorsOdd(s, m0, ver, value, l, ilen) && (value < m0[At(value, l)].minKey ==> ver[pos] % 2 == 1)
  {
    hide Top;
    var i0 :| HoldsIndex(s, i0, At(value, l));
    forall i | HoldsIndex(s, i, At(value, l)) ensures i == pos {
      assert HoldsIndex(r, i, At(value, l));
    }
    assert HoldsIndex(s, pos, At(value, l));
  }

  // Below an ancestor that is low enough nothing is lowered.
  lemma NoneLowered(s: seq<Slot>, m0: map<Index, Info>, keys: set<Key>, ver: seq<nat>, value: Key, l: nat, ilen: nat)
    requires TrieInv(m0, keys) && 3 <= l < ilen <= 8 && At(value, l) in m0 && m0[At(value, l)].minKey <= value
    ensures AncestorsOdd(s, m0, ver, value, 2, ilen) <==> AncestorsOdd(s, m0, ver, value, l, ilen)
  {
    hide TrieInv, Top;
    forall j | 3 <= j <= l && At(value, j) in m0 ensures m0[At(value, j)].minKey <= value {
      WalkMayStop(m0, keys, value, l, At(value, j));
    }
  }

  // A move of a node out of pos and into x shows in both slots.
  lemma MovedAway(s: seq<Slot>, r: seq<Slot>, pos: int, x: int)
    requires 0 <= pos < |s| == |r| && 0 <= x < |s| && s[x] == Empty && r[pos] == Empty && IsNode(s, pos) && IsNode(r, x)
    ensures NodeView(s, pos) != NodeView(r, pos) && NodeView(s, x) != NodeView(r, x)
  {
  }

  // A step that shows in one slot only, whose version is odd.
  lemma OneSlotStep(a: Snap, b: Snap, i: int)
    requires |a.ver| == |a.slots| == |b.slots| && b.ver == a.ver && 0 <= i < |a.ver| && a.ver[i] % 2 == 1
    requires OthersKept(a.slots, b.slots, {i})
    ensures StepOk(a, b)
  {
    hide NodeView;
  }

  lemma KeptTwice(s: seq<Slot>, r: seq<Slot>, q: seq<Slot>, pos: int, x: int)
    requires OthersKept(s, r, {pos, x}) && OthersKept(r, q, {pos})
    ensures OthersKept(s, q, {pos, x})
  {
  }

  lemma NoLocksLeft(a: seq<nat>, none: seq<int>, others: set<int>)
    requires none == [] && OddOnlyAt(a, (set x | x in none) + others)
    ensures OddOnlyAt(a, others)
  {
    assert (set x | x in none) + others == others;
  }

  lemma NoRoomNoLoss(s: seq<Slot>, h: Hashes, k: Index, coin: bool)
    requires 2 * GAP < |s| && (forall i :: IsNode(s, i) ==> s[i].ilen <= 8) && NoRoom(s, h, k, coin)
    ensures Vacated(s, h, k, coin) == None
  {
  }

  lemma RoomIsRoom(s: seq<Slot>, t: seq<Slot>, h: Hashes, k: Index, coin: bool)
    requires Shape(s) && RoomMade(s, t, h, k, coin)
    ensures Vacated(s, h, k, coin).Some? && !NoRoom(s, h, k, coin)
  {
  }

  lemma KeptOne(s: seq<Slot>, r: seq<Slot>, pos: int)
    requires OthersKept(s, r, {pos})
    ensures OthersKept(s, r, {pos, pos})
  {
  }

  // What the changes at the deepest node do to parities outside the two slots they touch.
  lemma AfterBranchParity(s: seq<Slot>, h: Hashes, m: map<Index, Info>, ver: seq<nat>, value: Key, l: nat, pos: int,
                          coin: bool)
    requires 2 * GAP < |s| == |ver| && 0 <= pos < |s|
    ensures forall p :: 0 <= p < |ver| && p != pos && p != BranchSlot(s, h, m, value, l, pos, coin) ==>
              AfterBranch(s, h, m, ver, value, l, pos, coin)[p] == ver[p]
    ensures 0 <= BranchSlot(s, h, m, value, l, pos, coin) < |s|
    ensures !SplitsAt(m, value, l) ==> BranchSlot(s, h, m, value, l, pos, coin) == pos
  {
    hide SplitsAt, SplitIndex;
  }

  lemma SameSlots(a: seq<Snap>)
    requires |a| > 0
    ensures OneOf(a, |a| - 1, a[|a| - 1].slots, a[|a| - 1].slots)
  {
  }

  lemma SelfDisciplined(a: seq<Snap>)
    requires |a| > 0
    ensures Disciplined(a, |a| - 1)
  {
  }

  // Slot i holds the node that inserting value cuts.
  ghost predicate CutSlot(s: seq<Slot>, m: map<Index, Info>, value: Key, i: int) {
    exists l :: SplitsAt(m, value, l) && HoldsIndex(s, i, At(value, l))
  }

  lemma CutSlotIs(s: seq<Slot>, h: Hashes, m: map<Index, Info>, value: Key, l: nat, pos: int)
    requires TableInv(s, h, m) && Deepest(m, value, l) && HoldsIndex(s, pos, At(value, l))
    ensures forall i :: CutSlot(s, m, value, i) <==> i == pos && SplitsAt(m, value, l)
    ensures CutSlots(s, m, value) == if SplitsAt(m, value, l) then {pos} else {}
  {
    hide TableInv, Top, Lcp;
    DeepestIsUnique(s, h, m, value, l, pos);
  }

  lemma NoCutSlot(s: seq<Slot>, m: map<Index, Info>, value: Key)
    requires NoneDeeper(m, value, 2)
    ensures forall i :: !CutSlot(s, m, value, i)
  {
    hide Top, Lcp;
  }

  // Slot i holds the leaf of value, which has index length l.
  ghost predicate IsLeafAt(s: seq<Slot>, m: map<Index, Info>, value: Key, l: nat, i: int) {
    l <= 8 && HoldsIndex(s, i, At(value, l)) && At(value, l) in m && m[At(value, l)] == Leaf(value)
  }

  ghost predicate LeafSlot(s: seq<Slot>, m: map<Index, Info>, value: Key, i: int) {
    exists l: nat :: 3 <= l <= 8 && IsLeafAt(s, m, value, l, i)
  }

  lemma LeafPut(s: seq<Slot>, r: seq<Slot>, h: Hashes, value: Key, l: nat, coin: bool, leaf: int)
    requires 2 * GAP < |s| == |r| && (forall i :: IsNode(s, i) ==> s[i].ilen <= 8) && l <= 8
    requires NodePut(s, r, h, At(value, l), coin) && leaf == ReservedAt(s, h, At(value, l), coin)
    ensures HoldsIndex(r, leaf, At(value, l))
  {
    hide ReservedAt, AfterReservation, Top;
  }

  // A key has one leaf at most.
  lemma LeafSlotIs(s: seq<Slot>, h: Hashes, m: map<Index, Info>, keys: set<Key>, value: Key, l: nat, leaf: int)
    requires TableInv(s, h, m) && TrieInv(m, keys) && 3 <= l <= 8 && IsLeafAt(s, m, value, l, leaf)
    ensures forall i :: LeafSlot(s, m, value, i) <==> i == leaf
  {
    hide TableInv, TrieInv, Top;
    IndexIsUnique(s, h, m);
    forall i | LeafSlot(s, m, value, i) ensures i == leaf {
      var j: nat :| 3 <= j <= 8 && IsLeafAt(s, m, value, j, i);
      if j < l {
        NoLeafOnPath(m, keys, value, l, At(value, j));
      } else if l < j {
        NoLeafOnPath(m, keys, value, j, At(value, l));
      }
    }
  }

  // A displacement from ver0 to ver1 and the reset of one slot.
  lemma ResetParities(ver0: seq<nat>, ver1: seq<nat>, ver2: seq<nat>, leaf: int, even: bool)
    requires SameParity(ver0, ver1) && 0 <= leaf < |ver1| && ver2 == ver1[leaf := 1] && (even ==> OddKept(ver0, ver1))
    ensures forall p :: 0 <= p < |ver2| && p != leaf ==> ver2[p] % 2 == ver0[p] % 2
    ensures even ==> OddKept(ver0[leaf := 1], ver2)
  {
  }

  ghost function CutSlots(s: seq<Slot>, m: map<Index, Info>, value: Key): set<int> {
    set i: int | 0 <= i < |s| && CutSlot(s, m, value, i)
  }

  ghost function LeafSlots(s: seq<Slot>, m: map<Index, Info>, value: Key): set<int> {
    set i: int | 0 <= i < |s| && LeafSlot(s, m, value, i)
  }

  // The resets b are a and others, made at moment t or later to slots of ps.
  ghost predicate ResetsAt(a: set<(nat, int)>, b: set<(nat, int)>, t: nat, ps: set<int>) {
    a <= b && forall e :: e in b && e !in a ==> t <= e.0 && e.1 in ps
  }

  lemma ResetsFrom(a: set<(nat, int)>, b: set<(nat, int)>, t: nat, u: nat, ps: set<int>)
    requires ResetsAt(a, b, u, ps) && t <= u
    ensures ResetsAt(a, b, t, ps)
  {
  }

  lemma ResetsOn(a: set<(nat, int)>, b: set<(nat, int)>, c: set<(nat, int)>, t: nat, u: nat, ps: set<int>, qs: set<int>)
    requires ResetsAt(a, b, t, ps) && ResetsAt(b, c, u, qs) && t <= u
    ensures ResetsAt(a, c, t, ps + qs)
  {
  }

  // The version of slot i ends at 2 after other values, so that it comes back to its value of moment
  // c exactly if that was 2 as well.
  ghost predicate EndsAtTwo(hist: seq<Snap>, c: nat, i: int) {
    && c < |hist| && SameSize(hist, |hist[c].ver|) && 0 <= i < |hist[c].ver| && hist[|hist| - 1].ver[i] == 2
    && (NoReturn(hist, i, c, |hist| - 1) <==> hist[c].ver[i] != 2)
  }

  lemma FromOneToTwo(a: seq<Snap>, b: seq<Snap>, c: nat, i: int)
    requires c < |a| && a <= b && SameSize(b, |b[c].ver|) && 0 <= i < |b[c].ver|
    requires a[|a| - 1].ver[i] == 1 && b[|b| - 1].ver[i] == 2
    ensures EndsAtTwo(b, c, i)
  {
    assert b[|a| - 1] == a[|a| - 1];
  }

  // ---------- what an insertion locks ----------

  // Both candidate positions of every prefix of value, of length j and less.
  function AncestorLocks(h: Hashes, size: nat, value: Key, j: nat): seq<int>
    requires 2 * GAP < size && j <= 8
  {
    if j < 3 then []
    else [Place1(h, size, At(value, j)), Place2(h, size, At(value, j))] + AncestorLocks(h, size, value, j - 1)
  }

  // All positions locked when the deepest node on the path of value has length l and sits in
  // slot pos: QueryLCP leaves pos as the first candidate of that length.
  function LocksFrom(h: Hashes, size: nat, value: Key, l: nat, pos: int): seq<int>
    requires 2 * GAP < size && 3 <= l <= 8
  {
    [pos, Place2(h, size, At(value, l))] + AncestorLocks(h, size, value, l - 1)
  }

  lemma {:induction false} AncestorLocksAre(h: Hashes, size: nat, value: Key, n: nat, pos1: seq<int>, pos2: seq<int>,
                                            j: nat)
    requires 2 * GAP < size && j <= n <= 8 && Candidates(h, size, value, n, pos1, pos2)
    ensures PathLocks(pos1, pos2, j) == AncestorLocks(h, size, value, j)
    ensures InRange(AncestorLocks(h, size, value, j), size)
  {
    hide Place1, Place2, Top;
    if j >= 3 {
      AncestorLocksAre(h, size, value, n, pos1, pos2, j - 1);
    }
  }

  lemma LocksAre(h: Hashes, size: nat, value: Key, l: nat, pos1: seq<int>, pos2: seq<int>)
    requires 2 * GAP < size && 3 <= l <= 8 && Candidates(h, size, value, l - 1, pos1, pos2)
    requires 0 <= pos1[l - 1] < size && pos2[l - 1] == Place2(h, size, At(value, l))
    ensures PathLocks(pos1, pos2, l) == LocksFrom(h, size, value, l, pos1[l - 1])
    ensures InRange(PathLocks(pos1, pos2, l), size)
    ensures pos1[l - 1] in PathLocks(pos1, pos2, l)
  {
    hide Place1, Place2, Top;
    AncestorLocksAre(h, size, value, l - 1, pos1, pos2, l - 1);
    assert PathLocks(pos1, pos2, l)[0] == pos1[l - 1];
  }

  // p is locked an odd number of times.
  predicate LockedOdd(locks: seq<int>, p: int) {
    multiset(locks)[p] % 2 == 1
  }

  // Every ancestor whose minimum value lowers sits in a slot locked an odd number of times.
  ghost predicate AncestorsLocked(s: seq<Slot>, m: map<Index, Info>, locks: seq<int>, value: Key, l: nat)
    requires l <= 8
  {
    forall j, i :: 3 <= j < l && HoldsIndex(s, i, At(value, j)) ==>
      At(value, j) in m && value < m[At(value, j)].minKey ==> LockedOdd(locks, i)
  }

  // The parities of n versions after locking from even ones.
  function LockParity(n: nat, locks: seq<int>): (v: seq<nat>)
    ensures |v| == n && forall p :: 0 <= p < n ==> v[p] == multiset(locks)[p] % 2
  {
    seq(n, p => multiset(locks)[p] % 2)
  }

  // The table in which the deepest node, of length l, changes: a split first makes room.
  ghost function RoomyTable(s: seq<Slot>, h: Hashes, m: map<Index, Info>, value: Key, l: nat,
                            coin: bool): (t: seq<Slot>)
    requires 2 * GAP < |s| && forall i :: IsNode(s, i) ==> s[i].ilen <= 8
    ensures |t| == |s|
  {
    if SplitsAt(m, value, l) then AfterReservation(s, h, SplitIndex(m, value, l), coin) else s
  }

  // The versions fit the changes at the deepest node, in slot pos: its version is odd, and in a
  // split the slots that receive nodes, displaced ones included, have even versions.
  ghost predicate BranchFits(s: seq<Slot>, h: Hashes, m: map<Index, Info>, ver: seq<nat>, value: Key, l: nat, pos: int,
                             coin: bool)
    requires 2 * GAP < |s| == |ver| && (forall i :: IsNode(s, i) ==> s[i].ilen <= 8) && 0 <= pos < |s|
  {
    && ver[pos] % 2 == 1
    && (SplitsAt(m, value, l) ==>
          var k := SplitIndex(m, value, l);
          RoomEven(s, h, ver, k, coin) && ver[ReservedAt(s, h, k, coin)] % 2 == 0)
  }

  // The parities those changes leave: a split locks the slot it takes and resets the cut slot.
  ghost function AfterBranch(s: seq<Slot>, h: Hashes, m: map<Index, Info>, ver: seq<nat>, value: Key, l: nat, pos: int,
                             coin: bool): (v: seq<nat>)
    requires 2 * GAP < |s| == |ver| && 0 <= pos < |s|
    ensures |v| == |ver|
  {
    if SplitsAt(m, value, l) then
      var x := ReservedAt(s, h, SplitIndex(m, value, l), coin);
      ver[x := ver[x] + 1][pos := 1]
    else ver
  }

  // What there is to know when the changes at the deepest node are done: r is the table and v1 the
  // versions then, s and v0 before.
  ghost predicate BranchDone(s: seq<Slot>, h: Hashes, m: map<Index, Info>, v0: seq<nat>, r: seq<Slot>, v1: seq<nat>,
                             disciplined: bool, value: Key, l: nat, pos: int, coin: bool)
    requires 2 * GAP < |s| == |v0| && (forall i :: IsNode(s, i) ==> s[i].ilen <= 8) && IsNode(s, pos) && l <= 8
  {
    && (disciplined <==> BranchFits(s, h, m, v0, value, l, pos, coin))
    && SameParity(AfterBranch(s, h, m, v0, value, l, pos, coin), v1)
    && SameLayout(AfterBelow(s, h, value, pos, coin), r)
    && var t, x := RoomyTable(s, h, m, value, l, coin), BranchSlot(s, h, m, value, l, pos, coin);
       TableInv(t, h, m) && HoldsIndex(t, pos, At(value, l)) && OthersKept(t, r,
                {pos, x}) && (x == pos || !IsNode(t, x))
  }

  // The other slot that changes with the deepest node's own: the one a split takes.
  ghost function BranchSlot(s: seq<Slot>, h: Hashes, m: map<Index, Info>, value: Key, l: nat, pos: int, coin: bool): int
    requires 2 * GAP < |s|
  {
    if SplitsAt(m, value, l) then ReservedAt(s, h, SplitIndex(m, value, l), coin) else pos
  }

  // A split, put together from its reservation (s1, v1) and its steps under the versions.
  lemma SplitIsDone(s: seq<Slot>, h: Hashes, m: map<Index, Info>, v0: seq<nat>, s1: seq<Slot>, v1: seq<nat>,
                    r: seq<Slot>,
                    v2: seq<nat>, d1: bool, d2: bool, value: Key, l: nat, pos: int, x: int, coin: bool)
    requires TableInv(s, h, m) && SplitsAt(m, value, l) && HoldsIndex(s, pos, At(value, l))
    requires 2 * GAP < |s| == |v0| && (forall i :: IsNode(s, i) ==> s[i].ilen <= 8) && |s1| == |s|
    requires var k := SplitIndex(m, value, l);
             && s1 == AfterReservation(s, h, k, coin) && x == ReservedAt(s, h, k, coin) && x != pos
             && (d1 <==> RoomEven(s, h, v0, k, coin))
    requires SameParity(v0, v1) && v2 == v1[x := Plus(v1[x], 1)][pos := 1]
    requires d2 <==> v1[pos] % 2 == 1 && v2[x] % 2 == 1
    requires TableInv(s1, h, m) && HoldsIndex(s1, pos, At(value, l)) && s1[x] == Empty && OthersKept(s1, r, {pos, x})
    requires SameLayout(AfterSplit(s1, pos, x, Lcp(value, m[At(value, l)].minKey) + 1), r)
    ensures BranchDone(s, h, m, v0, r, v2, d1 && d2, value, l, pos, coin)
  {
    hide TableInv, Top, Lcp, RoomEven, ReservedAt, AfterReservation, AfterSplit, SameLayout, OthersKept, Children, Plus,
         SameParity, NoneDeeper, FreeNeighbour;
    Located(s, h, m, At(value, l));
    SplitParity(v0, v1, v2, x, pos);
  }

  lemma SplitParity(v0: seq<nat>, v1: seq<nat>, v2: seq<nat>, x: int, pos: int)
    requires SameParity(v0, v1) && 0 <= x < |v0| && 0 <= pos < |v0| && x != pos
    requires v2 == v1[x := Plus(v1[x], 1)][pos := 1]
    ensures SameParity(v0[x := v0[x] + 1][pos := 1], v2)
    ensures (v1[pos] % 2 == 1 <==> v0[pos] % 2 == 1) && (v2[x] % 2 == 1 <==> v0[x] % 2 == 0)
  {
    hide Plus;
    assert v2[x] == Plus(v1[x], 1);
  }

  // All of this looks at parities only.
  lemma BranchByParity(s: seq<Slot>, h: Hashes, m: map<Index, Info>, a: seq<nat>, b: seq<nat>, value: Key, l: nat,
                       pos: int, coin: bool)
    requires 2 * GAP < |s| == |a| && (forall i :: IsNode(s, i) ==> s[i].ilen <= 8) && IsNode(s, pos) && SameParity(a, b)
    ensures BranchFits(s, h, m, a, value, l, pos, coin) <==> BranchFits(s, h, m, b, value, l, pos, coin)
    ensures SameParity(AfterBranch(s, h, m, a, value, l, pos, coin), AfterBranch(s, h, m, b, value, l, pos, coin))
  {
    hide RoomEven, SplitIndex, ReservedAt;
    if SplitsAt(m, value, l) {
      RoomEvenBy(s, s, h, a, b, SplitIndex(m, value, l), coin);
    }
  }

  // What the steps before the leaf leave decides the rest.
  lemma PathIsReady(s: seq<Slot>, h: Hashes, m: map<Index, Info>, r: seq<Slot>, ver: seq<nat>, disciplined: bool,
                    value: Key,
                    l: nat, pos: int, coin1: bool, coin2: bool)
    requires TableInv(s, h, m) && Deepest(m, value, l) && HoldsIndex(s, pos, At(value, l))
             && Lcp(value, s[pos].minKey) < 8
    requires 2 * GAP < |s| && (forall i :: IsNode(s, i) ==> s[i].ilen <= 8) && forall i :: IsNode(r, i) ==>
             r[i].ilen <= 8
    requires disciplined <==> BelowFits(s, h, m, value, l, pos, coin1)
    requires SameLayout(AfterBelow(s, h, value, pos, coin1), r)
    requires SameParity(AfterBranch(s, h, m, LockParity(|s|, LocksFrom(h, |s|, value, l, pos)), value, l, pos, coin1),
                        ver)
    ensures var k := At(value, Lcp(value, s[pos].minKey) + 1);
            && (disciplined && RoomEven(r, h, ver, k, coin2) <==> ProperlyLocked(s, h, m, value, coin1, coin2))
            && (NoRoom(r, h, k, coin2) <==> LeafCannotReserve(s, h, m, value, coin1, coin2))
  {
    hide TableInv, Top, Lcp, NoRoom, RoomEven, LeafCannotReserve, AfterBelow, AfterBranch, SameLayout, BelowFits,
         ProperlyLocked, SameParity, LockParity, LocksFrom, NoneDeeper;
    var k := At(value, Lcp(value, s[pos].minKey) + 1);
    var v := AfterBranch(s, h, m, LockParity(|s|, LocksFrom(h, |s|, value, l, pos)), value, l, pos, coin1);
    ProperlyLockedAt(s, h, m, value, l, pos, coin1, coin2);
    LeafOutcome(s, h, m, value, coin1, coin2, l, pos);
    RoomByLayout(AfterBelow(s, h, value, pos, coin1), r, h, k, coin2);
    RoomEvenBy(AfterBelow(s, h, value, pos, coin1), r, h, v, ver, k, coin2);
  }

  lemma ParityChain(a: seq<nat>, b: seq<nat>, c: seq<nat>)
    requires SameParity(a, b) && SameParity(b, c)
    ensures SameParity(a, c) && SameParity(c, a)
  {
  }

  // The locks fit everything before the leaf: the changes at the deepest node, and the minima of
  // its ancestors, wherever these are once there is room for a split.
  ghost predicate BelowFits(s: seq<Slot>, h: Hashes, m: map<Index, Info>, value: Key, l: nat, pos: int, coin: bool)
    requires 2 * GAP < |s| && (forall i :: IsNode(s, i) ==> s[i].ilen <= 8) && 3 <= l <= 8 && 0 <= pos < |s|
  {
    var locks := LocksFrom(h, |s|, value, l, pos);
    && BranchFits(s, h, m, LockParity(|s|, locks), value, l, pos, coin)
    && AncestorsLocked(RoomyTable(s, h, m, value, l, coin), m, locks, value, l)
  }

  // The nodes displaced to make room for the leaf go to slots with even versions.
  ghost predicate LeafFits(s: seq<Slot>, h: Hashes, m: map<Index, Info>, value: Key, l: nat, pos: int, coin1: bool,
                           coin2: bool)
    requires 2 * GAP < |s| && (forall i :: IsNode(s, i) ==> s[i].ilen <= 8) && 3 <= l <= 8 && IsNode(s, pos)
  {
    var ver := AfterBranch(s, h, m, LockParity(|s|, LocksFrom(h, |s|, value, l, pos)), value, l, pos, coin1);
    var c := Lcp(value, s[pos].minKey);
    c < 8 ==> RoomEven(AfterBelow(s, h, value, pos, coin1), h, ver, At(value, c + 1), coin2)
  }

  // The locks fit the whole insertion of value. Without a node on its path there is nothing to
  // lock. All of it is about the table before the call.
  ghost predicate ProperlyLocked(s: seq<Slot>, h: Hashes, m: map<Index, Info>, value: Key, coin1: bool, coin2: bool)
    requires 2 * GAP < |s| && forall i :: IsNode(s, i) ==> s[i].ilen <= 8
  {
    forall l, i :: Deepest(m, value, l) && HoldsIndex(s, i, At(value, l)) ==>
      BelowFits(s, h, m, value, l, i, coin1) && LeafFits(s, h, m, value, l, i, coin1, coin2)
  }

  lemma ProperlyLockedAt(s: seq<Slot>, h: Hashes, m: map<Index, Info>, value: Key, l: nat, pos: int, coin1: bool,
                         coin2: bool)
    requires TableInv(s, h, m) && Deepest(m, value, l) && HoldsIndex(s, pos, At(value, l))
    ensures 2 * GAP < |s| && IsNode(s, pos) && forall i :: IsNode(s, i) ==> s[i].ilen <= 8
    ensures ProperlyLocked(s, h, m, value, coin1, coin2)
            <==> BelowFits(s, h, m, value, l, pos, coin1) && LeafFits(s, h, m, value, l, pos, coin1, coin2)
  {
    NodesAreOk(s, h, m);
    DeepestIsUnique(s, h, m, value, l, pos);
    hide TableInv, BelowFits, LeafFits, Top, NoneDeeper, Shape;
  }

  lemma ProperlyLockedNone(s: seq<Slot>, h: Hashes, m: map<Index, Info>, value: Key, coin1: bool, coin2: bool)
    requires 2 * GAP < |s| && (forall i :: IsNode(s, i) ==> s[i].ilen <= 8) && NoneDeeper(m, value, 2)
    ensures ProperlyLocked(s, h, m, value, coin1, coin2)
  {
  }

  // A node found at its second position is locked twice by LOCK_PATH_FROM_LCP and left with an
  // even version, unless another prefix length collides with that slot too: it is then changed
  // in front of readers that see no lock.
  lemma SecondPositionUnlocked(s: seq<Slot>, h: Hashes, m: map<Index, Info>, value: Key, l: nat, pos: int, coin1: bool,
                               coin2: bool)
    requires TableInv(s, h, m) && Deepest(m, value, l) && HoldsIndex(s, pos, At(value, l)) && 2 * GAP < |s|
    requires pos == Place2(h, |s|, At(value, l)) && pos !in AncestorLocks(h, |s|, value, l - 1)
    ensures (forall i :: IsNode(s, i) ==> s[i].ilen <= 8) && !ProperlyLocked(s, h, m, value, coin1, coin2)
  {
    hide TableInv, Top, Place1, Place2, SplitsAt, RoomEven, AncestorsLocked, LeafFits;
    ProperlyLockedAt(s, h, m, value, l, pos, coin1, coin2);
    var rest := AncestorLocks(h, |s|, value, l - 1);
    assert multiset([pos, pos] + rest)[pos] == multiset(rest)[pos] + 2;
  }

  // With pairwise different positions that leave out the slot taken by a split, and nothing to
  // displace, all is well.
  lemma DistinctLocksFit(s: seq<Slot>, h: Hashes, m: map<Index, Info>, value: Key, l: nat, pos: int, coin1: bool,
                         coin2: bool)
    requires TableInv(s, h, m) && Deepest(m, value, l) && HoldsIndex(s, pos, At(value, l))
             && Lcp(value, s[pos].minKey) < 8
    requires 2 * GAP < |s| && forall i :: IsNode(s, i) ==> s[i].ilen <= 8
    requires var locks := LocksFrom(h, |s|, value, l, pos);
             (forall i, j :: 0 <= i < j < |locks| ==> locks[i] != locks[j])
             && (SplitsAt(m, value, l) ==> ReservedAt(s, h, SplitIndex(m, value, l), coin1) !in locks)
    requires SplitsAt(m, value, l) ==> s[ReservedAt(s, h, SplitIndex(m, value, l), coin1)] == Empty
    requires var t := AfterBelow(s, h, value, pos, coin1);
             t[ReservedAt(t, h, At(value, Lcp(value, s[pos].minKey) + 1), coin2)] == Empty
    ensures ProperlyLocked(s, h, m, value, coin1, coin2)
  {
    hide TableInv, Top, Place1, Place2, NoneDeeper, SplitsAt, SplitIndex, ReservedAt, AncestorLocks, Lcp, HoldsIndex,
         AfterBelow, AfterBranch, DestsEven, AfterDisplacement, LocksFrom;
    ProperlyLockedAt(s, h, m, value, l, pos, coin1, coin2);
    var locks := LocksFrom(h, |s|, value, l, pos);
    FirstLock(h, |s|, value, l, pos);
    forall p | p in locks ensures LockedOdd(locks, p) {
      OnceEach(locks, p);
    }
    forall j, i | 3 <= j < l && HoldsIndex(s, i, At(value, j)) ensures i in locks {
      AncestorIsLocked(s, h, m, value, l, pos, j, i);
    }
    assert LockedOdd(locks, pos);
    assert RoomyTable(s, h, m, value, l, coin1) == s;
  }

  lemma FirstLock(h: Hashes, size: nat, value: Key, l: nat, pos: int)
    requires 2 * GAP < size && 3 <= l <= 8
    ensures pos in LocksFrom(h, size, value, l, pos)
  {
    assert LocksFrom(h, size, value, l, pos)[0] == pos;
  }

  lemma AncestorIsLocked(s: seq<Slot>, h: Hashes, m: map<Index, Info>, value: Key, l: nat, pos: int, j: nat, i: int)
    requires TableInv(s, h, m) && 2 * GAP < |s| && 3 <= j < l <= 8 && HoldsIndex(s, i, At(value, j))
    ensures i in LocksFrom(h, |s|, value, l, pos)
  {
    hide TableInv, Top, Place1, Place2, AncestorLocks;
    Located(s, h, m, At(value, j));
    IndexIsUnique(s, h, m);
    BothLocked(h, |s|, value, l - 1, j);
    assert forall p :: p in AncestorLocks(h, |s|, value, l - 1) ==> p in LocksFrom(h, |s|, value, l, pos);
  }

  lemma {:induction false} OnceEach(locks: seq<int>, p: int)
    requires p in locks && forall i, j :: 0 <= i < j < |locks| ==> locks[i] != locks[j]
    ensures multiset(locks)[p] == 1
  {
    var i :| 0 <= i < |locks| && locks[i] == p;
    assert locks == locks[..i] + [p] + locks[i + 1..];
    assert p !in multiset(locks[..i]) && p !in multiset(locks[i + 1..]);
  }

  lemma {:induction false} BothLocked(h: Hashes, size: nat, value: Key, n: nat, j: nat)
    requires 2 * GAP < size && 3 <= j <= n <= 8
    ensures Place1(h, size, At(value, j)) in AncestorLocks(h, size, value, n)
    ensures Place2(h, size, At(value, j)) in AncestorLocks(h, size, value, n)
  {
    hide Place1, Place2, Top;
    if j < n {
      BothLocked(h, size, value, n - 1, j);
    }
    var rest := AncestorLocks(h, size, value, n - 1);
    var a := [Place1(h, size, At(value, n)), Place2(h, size, At(value, n))];
    assert a[0] in a + rest && a[1] in a + rest;
    assert forall p :: p in rest ==> p in a + rest;
  }

  // After locking from all-even versions, a version is odd iff its slot was locked oddly often.
  lemma LockedParity(v0: seq<nat>, v1: seq<nat>, locks: seq<int>)
    requires AllEven(v0) && Incremented(v0, v1, locks)
    ensures SameParity(v1, LockParity(|v0|, locks))
  {
    forall p | 0 <= p < |v0| ensures v1[p] % 2 == LockParity(|v0|, locks)[p] % 2 {
      var n := multiset(locks)[p];
      ByteParity(v0[p] + n);
      EvenPlus(v0[p], n);
    }
  }

  lemma EvenPlus(a: nat, n: nat)
    requires a % 2 == 0
    ensures (a + n) % 2 == n % 2
  {
  }

  lemma OddOnlyWhereLocked(v0: seq<nat>, v1: seq<nat>, locks: seq<int>)
    requires AllEven(v0) && Incremented(v0, v1, locks)
    ensures OddOnlyAt(v1, set p | p in locks)
  {
    forall p | 0 <= p < |v1| && v1[p] % 2 == 1 ensures p in locks {
      assert p in multiset(locks);
    }
  }

  // The ancestors are where they were, so their versions are as the locks left them.
  lemma AncestorsStillLocked(s: seq<Slot>, r: seq<Slot>, h: Hashes, m: map<Index, Info>, n: map<Index, Info>,
                             value: Key, l: nat, pos: int, x: int, v2: seq<nat>, locks: seq<int>)
    requires TableInv(s, h, m) && TableInv(r, h, n) && 3 <= l <= 8 && HoldsIndex(s, pos, At(value, l))
    requires OthersKept(s, r, {pos, x}) && (x == pos || !IsNode(s, x))
    requires |v2| == |s| && forall p :: 0 <= p < |v2| && p != pos && p != x ==> v2[p] % 2 == LockParity(|s|, locks)[p]
    ensures AncestorsOdd(r, m, v2, value, 2, l) <==> AncestorsLocked(s, m, locks, value, l)
  {
    hide TableInv, Top, LockParity;
    forall j, i | 3 <= j < l && At(value, j) in m
      ensures HoldsIndex(s, i, At(value, j)) <==> HoldsIndex(r, i, At(value, j))
      ensures HoldsIndex(s, i, At(value, j)) ==> (v2[i] % 2 == 1 <==> LockedOdd(locks, i))
    {
      Located(s, h, m, At(value, j));
      var i0 :| HoldsIndex(s, i0, At(value, j));
      assert i0 != pos && i0 != x;
      assert NodeView(r, i0) == NodeView(s, i0);
      assert HoldsIndex(r, i0, At(value, j));
      IndexIsUnique(s, h, m);
      IndexIsUnique(r, h, n);
    }
  }

  // When value is not below the deepest node's minimum, no ancestor is lowered.
  lemma NoAncestorLowered(s: seq<Slot>, m: map<Index, Info>, keys: set<Key>, locks: seq<int>, value: Key, l: nat)
    requires TrieInv(m, keys) && 3 <= l <= 8 && At(value, l) in m && m[At(value, l)].minKey <= value
    ensures AncestorsLocked(s, m, locks, value, l)
  {
    hide TrieInv, Top, LockedOdd;
    forall j | 3 <= j < l && At(value, j) in m ensures m[At(value, j)].minKey <= value {
      WalkMayStop(m, keys, value, l, At(value, j));
    }
  }

  // After the changes at the deepest node, in slot pos, and the slot x its split took.
  lemma OddAfterBranch(v1: seq<nat>, v2: seq<nat>, locks: seq<int>, pos: int, x: int, used: bool)
    requires OddOnlyAt(v1, set p | p in locks) && |v1| == |v2| && pos in locks && (!used ==> x == pos)
    requires forall p :: 0 <= p < |v1| && p != pos && p != x ==> v2[p] % 2 == v1[p] % 2
    ensures OddOnlyAt(v2, (set p | p in locks) + (if used then {x} else {}))
  {
  }

  // The parities after locking and the changes at the deepest node.
  lemma BranchParities(s: seq<Slot>, h: Hashes, m: map<Index, Info>, v1: seq<nat>, v2: seq<nat>, locks: seq<int>,
                       value: Key, l: nat, pos: int, x: int, used: bool, coin: bool)
    requires 2 * GAP < |s| == |v1| == |v2| && 0 <= pos < |s| && pos in locks && OddOnlyAt(v1, set p | p in locks)
    requires SameParity(v1, LockParity(|s|, locks)) && SameParity(AfterBranch(s, h, m, v1, value, l, pos, coin), v2)
    requires SameParity(AfterBranch(s, h, m, v1, value, l, pos, coin),
                        AfterBranch(s, h, m, LockParity(|s|, locks), value, l, pos, coin))
    requires (used <==> SplitsAt(m, value, l)) && x == BranchSlot(s, h, m, value, l, pos, coin)
    ensures SameParity(AfterBranch(s, h, m, LockParity(|s|, locks), value, l, pos, coin), v2)
    ensures OddOnlyAt(v2, (set p | p in locks) + (if used then {x} else {})) && 0 <= x < |s| && (!used ==> x == pos)
    ensures forall p :: 0 <= p < |v2| && p != pos && p != x ==> v2[p] % 2 == LockParity(|s|, locks)[p] % 2
  {
    hide SplitsAt, BranchSlot, OddOnlyAt;
    AfterBranchParity(s, h, m, v1, value, l, pos, coin);
    ParityChain(AfterBranch(s, h, m, LockParity(|s|, locks), value, l, pos, coin),
                AfterBranch(s, h, m, v1, value, l, pos, coin), v2);
    hide AfterBranch;
    OddAfterBranch(v1, v2, locks, pos, x, used);
  }

  // ---------- the parts of an insertion ----------

  lemma NoThirdByte(m: map<Index, Info>, keys: set<Key>, value: Key)
    requires TrieInv(m, keys) && NoneDeeper(m, value, 2)
    ensures !HasPrefix(keys, 3, Top(value, 3)) && value !in keys
  {
    hide TrieInv, Top;
    NoNodeNoKey(m, keys, value);
  }

  // A leaf slot left odd is the only odd one; its unlock leaves none.
  lemma AllEvenAgain(v1: seq<nat>, v2: seq<nat>, v3: seq<nat>, leaf: int)
    requires AllEven(v1) && |v1| == |v2| && 0 <= leaf < |v2|
    requires forall p :: 0 <= p < |v1| && p != leaf ==> v2[p] % 2 == v1[p] % 2
    requires v3 == v2[leaf := Plus(v2[leaf], v2[leaf] % 2)]
    ensures AllEven(v3)
  {
  }

  lemma OddWithLeaf(v1: seq<nat>, v2: seq<nat>, locks: seq<int>, x: int, used: bool, leaf: int)
    requires OddOnlyAt(v1, (set p | p in locks) + (if used then {x} else {})) && |v1| == |v2|
    requires forall p :: 0 <= p < |v1| && p != leaf ==> v2[p] % 2 == v1[p] % 2
    ensures OddOnlyAt(v2, (set p | p in locks) + ((if used then {x} else {}) + {leaf}))
  {
  }
}
