// Runs of the index that go wrong, with the hash functions of the code and its smallest table: two
// or three insertions into an empty set.
module Counterexamples {
  import opened Bits
  import opened Keys
  import opened Slots
  import opened CuckooTable
  import opened Trie
  import opened TrieInsert
  import opened FlatLevels
  import opened MlpSet
  import opened Encoding
  import opened HashValues
  import opened Snapshot
  import opened LevelVersions
  import opened Versioned
  import opened Locks
  import opened Served
  import opened VersionedSet

  // ---------- the smallest table ----------

  lemma {:induction false} Pow2Monotone(i: nat, j: nat)
    requires i <= j
    ensures 0 < Pow2(i) <= Pow2(j)
  {
    if i < j {
      Pow2Monotone(i, j - 1);
    } else if i > 0 {
      Pow2Monotone(i - 1, i - 1);
    }
  }

  lemma SmallestTable(n: nat)
    requires SizedFor(n, 4096)
    ensures n == SLOTS + 2 * GAP
  {
    var k: nat :| n == 4 * Pow2(k) + 2 * GAP && 4096 <= Pow2(k) < 8192;
    assert Pow2(6) == 64;
    assert Pow2(12) == 4096;
    assert Pow2(13) == 8192;
    if k < 12 {
      Pow2Monotone(k, 11);
    } else if k > 12 {
      Pow2Monotone(13, k);
    }
  }

  // ---------- two leaves in an empty table ----------

  // Inserting a key whose first three bytes are new fails in no way if one of its places is free.
  lemma RootInsertWorks(s: seq<Slot>, h: Hashes, m: map<Index, Info>, value: Key, coin1: bool, coin2: bool)
    requires TableInv(s, h, m) && NoneDeeper(m, value, 2) && 2 * GAP < |s|
    requires s[Place1(h, |s|, At(value, 3))] == Empty || s[Place2(h, |s|, At(value, 3))] == Empty
    ensures !SplitCannotReserve(s, h, m, value, coin1) && !SplitLosesNode(s, h, m, value, coin1)
    ensures !LeafCannotReserve(s, h, m, value, coin1, coin2)
  {
    NodesAreOk(s, h, m);
    NoSplit(s, h, m, value, coin1, 0);
    LeafOutcomeAtRoot(s, h, m, value, coin1, coin2);
  }

  // The table holds a and b as leaves right below the flat levels, in slots p and q, and nothing
  // else.
  ghost predicate TwoLeaves(s: seq<Slot>, m: map<Index, Info>, a: Key, b: Key, p: int, q: int) {
    && m == map[At(a, 3) := Leaf(a), At(b, 3) := Leaf(b)] && At(a, 3) != At(b, 3)
    && HoldsIndex(s, p, At(a, 3)) && HoldsIndex(s, q, At(b, 3)) && p != q
    && forall i :: 0 <= i < |s| && i != p && i != q ==> s[i] == Empty
  }

  // After one insertion into an empty table.
  lemma FirstLeaf(s: seq<Slot>, r: seq<Slot>, h: Hashes, a: Key, coin: bool)
    requires 2 * GAP < |s| == |r| && (forall i :: 0 <= i < |s| ==> s[i] == Empty)
    requires NodePut(s, r, h, At(a, 3), coin)
    ensures ReservedAt(s, h, At(a, 3), coin) == Place1(h, |s|, At(a, 3))
    ensures forall i :: 0 <= i < |r| && i != Place1(h, |s|, At(a, 3)) ==> r[i] == Empty
    ensures HoldsIndex(r, Place1(h, |s|, At(a, 3)), At(a, 3))
  {
    hide Top, Place1, Place2, AfterDisplacement;
  }

  lemma SecondLeafIs(s1: seq<Slot>, s2: seq<Slot>, h: Hashes, m: map<Index, Info>, a: Key, b: Key, p: int, q: int,
                     c: bool)
    requires 2 * GAP < |s1| == |s2| && (forall i :: IsNode(s1, i) ==> s1[i].ilen <= 8) && HoldsIndex(s1, p, At(a, 3))
    requires forall i :: 0 <= i < |s1| && i != p ==> s1[i] == Empty
    requires NodePut(s1, s2, h, At(b, 3), c) && q == ReservedAt(s1, h, At(b, 3), c) && p != q
    requires s1[q] == Empty && At(a, 3) != At(b, 3)
    requires m == map[At(a, 3) := Leaf(a), At(b, 3) := Leaf(b)]
    ensures TwoLeaves(s2, m, a, b, p, q)
  {
    hide Top, Place1, Place2, ReservedAt, AfterDisplacement;
  }

  // Where the second of two such keys goes.
  function SecondLeaf(h: Hashes, n: nat, a: Key, b: Key): int
    requires 2 * GAP < n
  {
    if Place1(h, n, At(b, 3)) != Place1(h, n, At(a, 3)) then Place1(h, n, At(b, 3)) else Place2(h, n, At(b, 3))
  }

  lemma SecondReserved(s: seq<Slot>, h: Hashes, a: Key, b: Key, coin: bool)
    requires 2 * GAP < |s| && s[Place1(h, |s|, At(a, 3))] != Empty
    requires forall i :: 0 <= i < |s| && i != Place1(h, |s|, At(a, 3)) ==> s[i] == Empty
    requires SecondLeaf(h, |s|, a, b) != Place1(h, |s|, At(a, 3))
    ensures ReservedAt(s, h, At(b, 3), coin) == SecondLeaf(h, |s|, a, b) && s[SecondLeaf(h, |s|, a, b)] == Empty
    ensures s[Place1(h, |s|, At(b, 3))] == Empty || s[Place2(h, |s|, At(b, 3))] == Empty
  {
    hide Place1, Place2;
  }

  // Two insertions into an empty set.
  method TwoKeys(a: Key, b: Key, c1: bool, c2: bool, c3: bool, c4: bool) returns (s: MlpSet)
    requires At(a, 3) != At(b, 3)
    requires var h, n := CodeHashes(14), SLOTS + 2 * GAP; SecondLeaf(h, n, a, b) != Place1(h, n, At(a, 3))
    ensures s.Valid() && s.table.h == CodeHashes(14) && s.table.ht.Length == SLOTS + 2 * GAP
    ensures var h, n := s.table.h, s.table.ht.Length;
            TwoLeaves(s.table.ht[..], s.table.nodes, a, b, Place1(h, n, At(a, 3)), SecondLeaf(h, n, a, b))
    ensures fresh(s) && fresh(s.table) && fresh(s.table.ht) && fresh(s.root) && fresh(s.depth1) && fresh(s.depth2)
  {
    hide CodeHashes, Place1, Place2, Top, TableInv, TrieInv, LevelInv, SplitCannotReserve, SplitLosesNode,
         LeafCannotReserve, TwoLeaves, NodePut, SecondLeaf, ReservedAt;
    s := new MlpSet(4096, CodeHashes(14));
    var t := s.table;
    ghost var h, n, s0 := t.h, t.ht.Length, t.ht[..];
    SmallestTable(n);
    RootInsertWorks(s0, h, t.nodes, a, c1, c2);
    var r1 := s.Insert(a, c1, c2);
    ghost var s1 := t.ht[..];
    NodesAreOk(s1, h, t.nodes);
    FirstLeaf(s0, s1, h, a, c2);
    SecondReserved(s1, h, a, b, c4);
    RootInsertWorks(s1, h, t.nodes, b, c3, c4);
    var r2 := s.Insert(b, c3, c4);
    SecondLeafIs(s1, t.ht[..], h, t.nodes, a, b, Place1(h, n, At(a, 3)), SecondLeaf(h, n, a, b), c4);
  }

  // The same under the version protocol, one key and two: their slots end at version 2.
  method OneVersionedKey(a: Key, c1: bool, c2: bool) returns (v: VersionedSet)
    ensures v.Valid() && v.Quiet() && v.index.keys == {a} && Disciplined(v.vt.hist, 0)
    ensures v.index.table.h == CodeHashes(14) && v.index.table.ht.Length == SLOTS + 2 * GAP
    ensures var t, p := v.index.table, Place1(v.index.table.h, SLOTS + 2 * GAP, At(a, 3));
            && t.nodes == map[At(a, 3) := Leaf(a)] && HoldsIndex(t.ht[..], p, At(a, 3))
            && (forall i :: 0 <= i < t.ht.Length && i != p ==> t.ht[i] == Empty)
            && EndsAtTwo(v.vt.hist, 0, p)
    ensures fresh(v) && fresh(v.index) && fresh(v.vt) && fresh(v.vt.ver) && fresh(v.index.table)
            && fresh(v.index.table.ht)
    ensures fresh(v.index.root) && fresh(v.index.depth1) && fresh(v.index.depth2)
  {
    hide CodeHashes, Place1, Place2, Top, TableInv, TrieInv, LevelInv, SplitCannotReserve, SplitLosesNode,
         LeafCannotReserve, TwoLeaves, NodePut, SecondLeaf, ReservedAt, ProperlyLocked, Disciplined, SameSize, AllEven,
         Shows, EndsAtTwo, Calm, CutSlot, HasPrefix, RoomStirs, Counted, ResetsAt, CutSlots, LeafSlots, LevelKept,
         LevelsCounted, LevelsExact, CountedUp;
    v := new VersionedSet(4096, CodeHashes(14));
    var t := v.index.table;
    ghost var h, n, s0 := t.h, t.ht.Length, t.ht[..];
    SmallestTable(n);
    RootInsertWorks(s0, h, t.nodes, a, c1, c2);
    ProperlyLockedNone(s0, h, t.nodes, a, c1, c2);
    var r := v.Insert(a, c1, c2);
    FirstLeaf(s0, t.ht[..], h, a, c2);
  }

  method TwoVersionedKeys(a: Key, b: Key, c1: bool, c2: bool, c3: bool, c4: bool) returns (v: VersionedSet)
    requires At(a, 3) != At(b, 3)
    requires var h, n := CodeHashes(14), SLOTS + 2 * GAP; SecondLeaf(h, n, a, b) != Place1(h, n, At(a, 3))
    ensures v.Valid() && v.Quiet() && v.index.keys == {a, b} && Disciplined(v.vt.hist, 0)
    ensures v.index.table.h == CodeHashes(14) && v.index.table.ht.Length == SLOTS + 2 * GAP
    ensures var t, p, q := v.index.table, Place1(v.index.table.h, SLOTS + 2 * GAP, At(a, 3)),
                           SecondLeaf(v.index.table.h, SLOTS + 2 * GAP, a, b);
            TwoLeaves(t.ht[..], t.nodes, a, b, p, q) && v.vt.ver[p] == v.vt.ver[q] == 2
    ensures fresh(v) && fresh(v.index) && fresh(v.vt) && fresh(v.vt.ver) && fresh(v.index.table)
            && fresh(v.index.table.ht)
    ensures fresh(v.index.root) && fresh(v.index.depth1) && fresh(v.index.depth2)
  {
    hide CodeHashes, Place1, Place2, Top, TableInv, TrieInv, LevelInv, SplitCannotReserve, SplitLosesNode,
         LeafCannotReserve, TwoLeaves, NodePut, SecondLeaf, ReservedAt, ProperlyLocked, Disciplined, SameSize, AllEven,
         Shows, EndsAtTwo, Calm, CutSlot, HasPrefix, RoomStirs, Counted, ResetsAt, CutSlots, LeafSlots, LevelKept,
         LevelsCounted, LevelsExact, CountedUp;
    v := OneVersionedKey(a, c1, c2);
    var t := v.index.table;
    ghost var h, n, s1, hist1 := t.h, t.ht.Length, t.ht[..], v.vt.hist;
    ghost var p, q := Place1(h, n, At(a, 3)), SecondLeaf(h, n, a, b);
    NodesAreOk(s1, h, t.nodes);
    SecondReserved(s1, h, a, b, c4);
    RootInsertWorks(s1, h, t.nodes, b, c3, c4);
    ProperlyLockedNone(s1, h, t.nodes, b, c3, c4);
    var r := v.Insert(b, c3, c4);
    SecondLeafIs(s1, t.ht[..], h, t.nodes, a, b, p, q, c4);
    DisciplineSplits(hist1, v.vt.hist, 0);
    BothAtTwo(s1, h, hist1, v.vt.hist, At(b, 3), p, q, c4);
  }

  lemma BothAtTwo(s: seq<Slot>, h: Hashes, a: seq<Snap>, b: seq<Snap>, k: Index, p: int, q: int, coin: bool)
    requires |a| > 0 && a <= b && EndsAtTwo(a, 0, p) && EndsAtTwo(b, |a| - 1, q)
    requires 2 * GAP < |s| && (forall i :: IsNode(s, i) ==> s[i].ilen <= 8) && ReservedAt(s, h, k, coin) == q
             && s[q] == Empty
    requires Calm(b, |a| - 1, RoomStirs(s, h, k, coin) + {q}) && p != q
    ensures 0 <= p < |b[|b| - 1].ver| && b[|b| - 1].ver[p] == 2 && 0 <= q < |b[|b| - 1].ver| && b[|b| - 1].ver[q] == 2
  {
    hide ReservedAt, NoReturn;
    assert RoomStirs(s, h, k, coin) == {};
    assert b[|a| - 1] == a[|a| - 1];
  }

  // A key that shares seven bytes with a leaf right below the flat levels splits it.
  lemma NextSplitsLeaf(s: seq<Slot>, h: Hashes, m: map<Index, Info>, a: Key, p: int, v: Key)
    requires TableInv(s, h, m) && HoldsIndex(s, p, At(a, 3)) && At(a, 3) in m && m[At(a, 3)] == Leaf(a)
    requires (forall k :: k in m ==> k.len == 3) && Top(v, 7) == Top(a, 7) && v != a
    ensures Top(v, 3) == Top(a, 3) && Deepest(m, v, 3) && HoldsIndex(s, p, At(v, 3)) && s[p].minKey == a
            && s[p].dlen == 8
    ensures Lcp(v, a) == 7 && SplitsAt(m, v, 3) && SplitIndex(m, v, 3) == At(a, 8)
  {
    AgreeShorter(v, a, 3, 7);
    hide Top;
    LcpSpec(v, a, 7);
    LcpSpec(v, a, 8);
    WholeKey(v);
    WholeKey(a);
    Located(s, h, m, At(a, 3));
  }

  // ---------- a split that loses its node ----------

  lemma TopsOfAB()
    ensures Top(A, 3) == 1 && Top(B, 3) == 0xc4af && Top(A + 1, 7) == Top(A, 7) && Top(A, 8) == A
  {
    assert Top(A, 7) == 0x1000000e0;
    assert Top(A, 5) == 0x10000;
    assert Top(B, 6) == 0xc4_af00_0000;
    assert Top(A + 1, 7) == 0x1000000e0;
  }

  // Where the code puts A, B and the lower part of A.
  lemma PlacesOfAB(h: Hashes, n: nat)
    requires h == CodeHashes(14) && n == SLOTS + 2 * GAP
    ensures Place1(h, n, At(A, 3)) == GAP + 12189 && Place2(h, n, At(A, 3)) == GAP + 9315
    ensures Place1(h, n, At(A, 8)) == GAP + 12189 && Place2(h, n, At(A, 8)) == GAP + 7893
    ensures Place1(h, n, At(B, 3)) == GAP + 7893
    ensures At(A, 3) != At(B, 3)
  {
    hide Top, CodeHashes, Place1, Place2;
    TopsOfAB();
    A3First();
    A3Second();
    A8First();
    A8Second();
    B3First();
  }

  // The table of A and B, B in the second place of the lower part of A: the next key splits A,
  // and making room for the lower part in its first place moves A itself.
  lemma NextDisplacesA(s: seq<Slot>, h: Hashes, m: map<Index, Info>)
    requires h == CodeHashes(14) && |s| == SLOTS + 2 * GAP && TableInv(s, h, m)
    requires TwoLeaves(s, m, A, B, GAP + 12189, GAP + 7893)
    ensures SplitLosesNode(s, h, m, A + 1, true)
  {
    hide CodeHashes;
    NodesAreOk(s, h, m);
    TopsOfAB();
    PlacesOfAB(h, |s|);
    NextSplitsLeaf(s, h, m, A, GAP + 12189, A + 1);
    SplitOutcome(s, h, m, A + 1, true, 3, GAP + 12189);
    hide *;
    OneMove(s, h, At(A, 8), At(A, 3), GAP + 12189);
  }

  // Both places of k are taken, the first by a node whose other place is free.
  lemma OneMove(s: seq<Slot>, h: Hashes, k: Index, k0: Index, p: int)
    requires 2 * GAP < |s| && (forall i :: IsNode(s, i) ==> s[i].ilen <= 8) && HoldsIndex(s, p, k0)
    requires Place1(h, |s|, k) == p == Place1(h, |s|, k0) && s[Place2(h, |s|, k)] != Empty
             && s[Place2(h, |s|, k0)] == Empty
    ensures Vacated(s, h, k, true) == Some([p])
  {
    hide Top, Place1, Place2;
    assert Chain(s, h, p, 1000) == Some([p]);
  }

  // The run. Only the coin of the third insertion matters.
  method SplitDisplacesItsNode(c1: bool, c2: bool, c3: bool, c4: bool, c5: bool) returns (r: Outcome)
    ensures r == SplitNodeDisplaced
  {
    hide CodeHashes, Place1, Place2, Top, TableInv, TrieInv, LevelInv, SplitCannotReserve, SplitLosesNode,
         LeafCannotReserve, TwoLeaves, NodePut;
    PlacesOfAB(CodeHashes(14), SLOTS + 2 * GAP);
    var s := TwoKeys(A, B, c1, c2, c3, c4);
    NextDisplacesA(s.table.ht[..], s.table.h, s.table.nodes);
    r := s.Insert(A + 1, true, c5);
  }

  // ---------- reservations that fail ----------

  // No slot can be freed for an index whose two positions are the one where a node sits that has no
  // other position either.
  lemma LoopLeavesNoRoom(s: seq<Slot>, h: Hashes, k: Index, k0: Index, p: int, coin: bool)
    requires 2 * GAP < |s| && (forall i :: IsNode(s, i) ==> s[i].ilen <= 8) && HoldsIndex(s, p, k0)
    requires Place1(h, |s|, k) == Place2(h, |s|, k) == p == Place1(h, |s|, k0) == Place2(h, |s|, k0)
    ensures NoRoom(s, h, k, coin)
  {
    hide Top, Place1, Place2;
    SelfLoop(s, h, p, 1000);
  }

  lemma PlacesOfFG(h: Hashes, n: nat)
    requires h == CodeHashes(14) && n == SLOTS + 2 * GAP
    ensures Place1(h, n, At(F, 3)) == Place2(h, n, At(F, 3)) == GAP + 11915
    ensures Place1(h, n, At(G, 3)) == Place2(h, n, At(G, 3)) == GAP + 11915
    ensures At(F, 3) != At(G, 3)
  {
    hide CodeHashes, Place1, Place2;
    F3First();
    F3Second();
    G3First();
    G3Second();
    assert Top(F, 5) == 0x5a94_0000 && Top(G, 5) == 0xc_cc1a_0000;
    assert Top(F, 3) == 0x5a94 && Top(G, 3) == 0xc_cc1a;
  }

  // The run: all four positions of F and G are one slot, so that the second insertion finds no slot
  // for its leaf, whatever the coins.
  method LeafFindsNoSlot(c1: bool, c2: bool, c3: bool, c4: bool) returns (r: Outcome)
    ensures r == LeafFailed
  {
    hide CodeHashes, Place1, Place2, Top, TableInv, TrieInv, LevelInv, SplitCannotReserve, SplitLosesNode,
         LeafCannotReserve, NodePut, ReservedAt;
    var s := new MlpSet(4096, CodeHashes(14));
    var t := s.table;
    ghost var h, n, s0 := t.h, t.ht.Length, t.ht[..];
    SmallestTable(n);
    PlacesOfFG(h, n);
    RootInsertWorks(s0, h, t.nodes, F, c1, c2);
    r := s.Insert(F, c1, c2);
    NodesAreOk(t.ht[..], h, t.nodes);
    FirstLeaf(s0, t.ht[..], h, F, c2);
    LoopLeavesNoRoom(t.ht[..], h, At(G, 3), At(F, 3), GAP + 11915, c4);
    NoSplit(t.ht[..], h, t.nodes, G, c3, 0);
    LeafOutcomeAtRoot(t.ht[..], h, t.nodes, G, c3, c4);
    r := s.Insert(G, c3, c4);
  }

  lemma PlacesOfPQ(h: Hashes, n: nat)
    requires h == CodeHashes(14) && n == SLOTS + 2 * GAP
    ensures Place1(h, n, At(P, 3)) == Place2(h, n, At(P, 3)) == GAP + 4783
    ensures Place1(h, n, At(Q, 8)) == Place2(h, n, At(Q, 8)) == GAP + 4783
    ensures Place1(h, n, At(Q, 3)) == GAP + 12189
    ensures At(P, 3) != At(Q, 3) && Top(Q + 1, 7) == Top(Q, 7) && At(Q, 8) == Index(8, Q)
  {
    hide CodeHashes, Place1, Place2;
    P3First();
    P3Second();
    Q8First();
    Q8Second();
    A3First();
    assert Top(P, 5) == 0x12_37f9_0000;
    assert Top(Q, 5) == 0x1_0000;
    assert Top(A, 5) == 0x1_0000;
    assert At(Q, 3) == At(A, 3);
  }

  // The table of P and Q: both positions of the lower part of Q are the slot of P.
  lemma NextCannotSplit(s: seq<Slot>, h: Hashes, m: map<Index, Info>, coin: bool)
    requires h == CodeHashes(14) && |s| == SLOTS + 2 * GAP && TableInv(s, h, m)
    requires TwoLeaves(s, m, P, Q, GAP + 4783, GAP + 12189)
    ensures SplitCannotReserve(s, h, m, Q + 1, coin)
  {
    hide CodeHashes, Top, Place1, Place2, NoRoom, TableInv;
    NodesAreOk(s, h, m);
    PlacesOfPQ(h, |s|);
    NextSplitsLeaf(s, h, m, Q, GAP + 12189, Q + 1);
    LoopLeavesNoRoom(s, h, At(Q, 8), At(P, 3), GAP + 4783, coin);
  }

  // The run: the split of Q finds no slot for its lower part, whatever the coins.
  method SplitFindsNoSlot(c1: bool, c2: bool, c3: bool, c4: bool, c5: bool, c6: bool) returns (r: Outcome)
    ensures r == SplitFailed
  {
    hide CodeHashes, Place1, Place2, Top, TableInv, TrieInv, LevelInv, SplitCannotReserve, SplitLosesNode,
         LeafCannotReserve, TwoLeaves, NodePut;
    PlacesOfPQ(CodeHashes(14), SLOTS + 2 * GAP);
    var s := TwoKeys(P, Q, c1, c2, c3, c4);
    NextCannotSplit(s.table.ht[..], s.table.h, s.table.nodes, c5);
    r := s.Insert(Q + 1, c5, c6);
  }

  // ---------- a doubled lock ----------

  lemma TopsOfCD()
    ensures Top(C, 3) == 3 && Top(D, 3) == 0x42 && Top(D + 1, 7) == Top(D, 7) && Top(D, 8) == D
            && Top(D + 1, 8) == D + 1
  {
    assert Top(C, 5) == 0x3_0000;
    assert Top(D, 5) == 0x42_0000;
    assert Top(D, 7) == 0x42_0000_0000;
    assert Top(D + 1, 7) == 0x42_0000_0000;
  }

  // C and D collide at their first place.
  lemma PlacesOfCD(h: Hashes, n: nat)
    requires h == CodeHashes(14) && n == SLOTS + 2 * GAP
    ensures Place1(h, n, At(C, 3)) == Place1(h, n, At(D, 3)) == GAP + 3783 && Place2(h, n, At(D, 3)) == GAP + 12184
    ensures Place1(h, n, At(D, 8)) == GAP + 13785 && Place1(h, n, At(D + 1, 8)) == GAP + 6811
    ensures At(C, 3) != At(D, 3)
  {
    hide Top, CodeHashes, Place1, Place2;
    TopsOfCD();
    C3First();
    D3First();
    D3Second();
    D8First();
    DNext8First();
  }

  // D sits at its second place. The next key splits it, with room for everything, under a lock
  // that increments its version twice.
  lemma NextLocksTwice(s: seq<Slot>, h: Hashes, m: map<Index, Info>, coin1: bool, coin2: bool)
    requires h == CodeHashes(14) && |s| == SLOTS + 2 * GAP && TableInv(s, h, m)
    requires TwoLeaves(s, m, C, D, GAP + 3783, GAP + 12184)
    ensures (forall i :: IsNode(s, i) ==> s[i].ilen <= 8) && Deepest(m, D + 1, 3)
    ensures !SplitCannotReserve(s, h, m, D + 1, coin1) && !SplitLosesNode(s, h, m, D + 1, coin1)
    ensures !LeafCannotReserve(s, h, m, D + 1, coin1, coin2) && !ProperlyLocked(s, h, m, D + 1, coin1, coin2)
  {
    hide CodeHashes;
    var q := GAP + 12184;
    NodesAreOk(s, h, m);
    TopsOfCD();
    PlacesOfCD(h, |s|);
    NextSplitsLeaf(s, h, m, D, q, D + 1);
    SplitOutcome(s, h, m, D + 1, coin1, 3, q);
    LeafOutcome(s, h, m, D + 1, coin1, coin2, 3, q);
    SecondPositionUnlocked(s, h, m, D + 1, 3, q, coin1, coin2);
    hide *;
    FreeFirst(s, h, At(D, 8), coin1);
    LeafRoomAfterSplit(s, h, D, D + 1, q, coin1, coin2);
  }

  lemma FreeFirst(s: seq<Slot>, h: Hashes, k: Index, coin: bool)
    requires 2 * GAP < |s| && (forall i :: IsNode(s, i) ==> s[i].ilen <= 8) && s[Place1(h, |s|, k)] == Empty
    ensures Vacated(s, h, k, coin) == Some([]) && !NoRoom(s, h, k, coin)
    ensures ReservedAt(s, h, k, coin) == Place1(h, |s|, k) && AfterReservation(s, h, k, coin) == s
  {
    hide Place1, Place2, AfterDisplacement;
  }

  // After the leaf a was split to make way for v, the first place of v is still free.
  lemma LeafRoomAfterSplit(s: seq<Slot>, h: Hashes, a: Key, v: Key, q: int, coin1: bool, coin2: bool)
    requires Shape(s) && (forall i :: IsNode(s, i) ==> s[i].ilen <= 8) && IsNode(s, q)
    requires s[q].minKey == a && s[q].dlen == 8 && Lcp(v, a) == 7
    requires var x, y := ReservedAt(s, h, At(a, 8), coin1), Place1(h, |s|, At(v, 8));
             s[x] == Empty && s[y] == Empty && x != y
    ensures !NoLeafRoom(s, h, v, q, coin1, coin2)
    ensures var t := AfterBelow(s, h, v, q, coin1); t[ReservedAt(t, h, At(v, 8), coin2)] == Empty
  {
    hide Top, Place1, Place2, ReservedAt, NoRoom, Lcp, AfterDisplacement;
    var t := AfterBelow(s, h, v, q, coin1);
    assert AfterReservation(s, h, At(a, 8), coin1) == s;
    assert t == AfterSplit(s, q, ReservedAt(s, h, At(a, 8), coin1), 8);
    assert t[Place1(h, |s|, At(v, 8))] == Empty;
    FreeFirst(t, h, At(v, 8), coin2);
  }

  // The run: the third insertion works and leaves every version even, but a slot changed in front
  // of readers while its version was even.
  method DoubledLock(c1: bool, c2: bool, c3: bool, c4: bool, c5: bool, c6: bool) returns (v: VersionedSet, r: Outcome)
    ensures r == Inserted && v.Valid() && v.Quiet() && !Disciplined(v.vt.hist, 0)
  {
    hide CodeHashes, Place1, Place2, Top, TableInv, TrieInv, LevelInv, SplitCannotReserve, SplitLosesNode,
         LeafCannotReserve, TwoLeaves, NodePut, ProperlyLocked, Disciplined, SameSize, AllEven, Shows, EndsAtTwo, Calm,
         CutSlot, HasPrefix, NoneDeeper, Counted, ResetsAt, CutSlots, LeafSlots, LevelKept, LevelsCounted, LevelsExact,
         CountedUp;
    PlacesOfCD(CodeHashes(14), SLOTS + 2 * GAP);
    v := TwoVersionedKeys(C, D, c1, c2, c3, c4);
    NextLocksTwice(v.index.table.ht[..], v.index.table.h, v.index.table.nodes, c5, c6);
    ghost var hist := v.vt.hist;
    r := v.Insert(D + 1, c5, c6);
    Sooner(v.vt.hist, |hist| - 1);
  }

  lemma Sooner(hist: seq<Snap>, lo: nat)
    requires !Disciplined(hist, lo)
    ensures !Disciplined(hist, 0)
  {
  }

  // ---------- a version that comes back ----------

  lemma PlacesOfNextA(h: Hashes, n: nat)
    requires h == CodeHashes(14) && n == SLOTS + 2 * GAP
    ensures Place1(h, n, At(A + 1, 8)) == GAP + 9561 && Place2(h, n, At(A + 1, 3)) == GAP + 9315
  {
    hide CodeHashes, Place1, Place2, Top;
    TopsOfAB();
    ANext8First();
    A3Second();
    AgreeShorter(A, A + 1, 3, 7);
  }

  // The table of A alone: the next key splits it, with room for everything, and its locks fit.
  lemma NextSplitsA(s: seq<Slot>, h: Hashes, m: map<Index, Info>, coin1: bool, coin2: bool)
    requires h == CodeHashes(14) && |s| == SLOTS + 2 * GAP && TableInv(s, h, m) && m == map[At(A, 3) := Leaf(A)]
    requires HoldsIndex(s, GAP + 12189, At(A, 3)) && forall i :: 0 <= i < |s| && i != GAP + 12189 ==> s[i] == Empty
    ensures (forall i :: IsNode(s, i) ==> s[i].ilen <= 8) && CutSlot(s, m, A + 1, GAP + 12189)
            && Top(A + 1, 3) == Top(A, 3)
    ensures !SplitCannotReserve(s, h, m, A + 1, coin1) && !SplitLosesNode(s, h, m, A + 1, coin1)
    ensures !LeafCannotReserve(s, h, m, A + 1, coin1, coin2) && ProperlyLocked(s, h, m, A + 1, coin1, coin2)
  {
    hide CodeHashes;
    var q := GAP + 12189;
    NodesAreOk(s, h, m);
    TopsOfAB();
    PlacesOfAB(h, |s|);
    PlacesOfNextA(h, |s|);
    NextSplitsLeaf(s, h, m, A, q, A + 1);
    SplitOutcome(s, h, m, A + 1, coin1, 3, q);
    LeafOutcome(s, h, m, A + 1, coin1, coin2, 3, q);
    LocksOfThree(h, |s|, A + 1, q);
    hide *;
    SecondFree(s, h, At(A, 8), coin1);
    LeafRoomAfterSplit(s, h, A, A + 1, q, coin1, coin2);
    DistinctLocksFit(s, h, m, A + 1, 3, q, coin1, coin2);
  }

  lemma SecondFree(s: seq<Slot>, h: Hashes, k: Index, coin: bool)
    requires 2 * GAP < |s| && (forall i :: IsNode(s, i) ==> s[i].ilen <= 8)
    requires s[Place1(h, |s|, k)] != Empty && s[Place2(h, |s|, k)] == Empty
    ensures Vacated(s, h, k, coin) == Some([]) && !NoRoom(s, h, k, coin)
            && ReservedAt(s, h, k, coin) == Place2(h, |s|, k)
  {
    hide Place1, Place2;
  }

  lemma LocksOfThree(h: Hashes, n: nat, value: Key, pos: int)
    requires 2 * GAP < n
    ensures LocksFrom(h, n, value, 3, pos) == [pos, Place2(h, n, At(value, 3))]
  {
  }

  // The run: the leaf of A was put in its slot with version 2. The next insertion splits it, under
  // the discipline, and leaves version 2 there again.
  method CutSlotComesBack(c1: bool, c2: bool, c3: bool, c4: bool) returns (v: VersionedSet, ghost c: nat)
    ensures v.Valid() && v.Quiet() && v.index.keys == {A, A + 1} && Disciplined(v.vt.hist, 0)
    ensures EndsAtTwo(v.vt.hist, c, GAP + 12189) && v.vt.hist[c].ver[GAP + 12189] == 2
    ensures NodeView(v.vt.hist[c].slots, GAP + 12189) != NodeView(v.index.table.ht[..], GAP + 12189)
  {
    hide CodeHashes, Place1, Place2, Top, TableInv, TrieInv, LevelInv, SplitCannotReserve, SplitLosesNode,
         LeafCannotReserve, NodePut, ProperlyLocked, Disciplined, SameSize, AllEven, Shows, Calm, CutSlot, HasPrefix,
         NodeView, NoReturn, EndsAtTwo, ReservedAt, Counted, ResetsAt, CutSlots, LeafSlots, LevelKept, LevelsCounted,
         LevelsExact, CountedUp;
    PlacesOfAB(CodeHashes(14), SLOTS + 2 * GAP);
    v := OneVersionedKey(A, c1, c2);
    var t := v.index.table;
    ghost var h, s1, m1, hist1 := t.h, t.ht[..], t.nodes, v.vt.hist;
    NextSplitsA(s1, h, m1, c3, c4);
    c := |hist1| - 1;
    var r := v.Insert(A + 1, c3, c4);
    DisciplineSplits(hist1, v.vt.hist, 0);
    LeafIsCut(s1, t.ht[..], h, m1, t.nodes, A, GAP + 12189, v.index.keys, A + 1);
    WasTwo(hist1, v.vt.hist, GAP + 12189);
  }

  lemma WasTwo(a: seq<Snap>, b: seq<Snap>, p: int)
    requires |a| > 0 && a <= b && EndsAtTwo(a, 0, p)
    ensures b[|a| - 1] == a[|a| - 1] && 0 <= p < |b[|a| - 1].ver| && b[|a| - 1].ver[p] == 2
  {
  }

  // A slot that held the leaf a shows something else once the set has another key with its prefix.
  lemma LeafIsCut(s: seq<Slot>, r: seq<Slot>, h: Hashes, m: map<Index, Info>, n: map<Index, Info>, a: Key, p: int,
                  keys: set<Key>, v: Key)
    requires TableInv(s, h, m) && HoldsIndex(s, p, At(a, 3)) && At(a, 3) in m && m[At(a, 3)] == Leaf(a)
    requires TableInv(r, h, n) && TrieInv(n, keys) && v in keys && Top(v, 3) == Top(a, 3) && v != a
    ensures NodeView(s, p) != NodeView(r, p)
  {
    hide Top, TrieInv, TableInv, Children;
    Located(s, h, m, At(a, 3));
    if NodeView(s, p) == NodeView(r, p) {
      assert HoldsIndex(r, p, At(a, 3));
      Located(r, h, n, At(a, 3));
      NodeOf(n, keys, At(a, 3));
      assert Under(At(a, 3), v);
      WholeKey(v);
      WholeKey(a);
    }
  }
}
