// The index: a set of 64-bit keys with Insert, Exist and LowerBound.
module MlpSet {
  import opened Bits
  import opened Keys
  import opened Slots
  import opened CuckooTable
  import opened Trie
  import opened TrieInsert
  import opened FlatLevels

  function Pow2AtLeast(x: nat, z: nat): (r: nat)
    requires 0 < z
    ensures x <= r && z <= r
    decreases x - z
  {
    if z < x then Pow2AtLeast(x, 2 * z) else z
  }

  // The hash table has four times the smallest power of two from maxSetSize on, but not less than
  // 4 * 4096 slots, and a gap at either end.
  ghost predicate SizedFor(slots: nat, maxSetSize: nat) {
    var n := if maxSetSize < 4096 then 4096 else maxSetSize;
    exists k: nat :: slots == 4 * Pow2(k) + 2 * GAP && n <= Pow2(k) < 2 * n
  }

  lemma {:induction false} SmallestPow2(x: nat, j: nat, z: nat) returns (k: nat)
    requires 0 < z == Pow2(j) < 2 * x
    ensures Pow2AtLeast(x, z) == Pow2(k) && x <= Pow2(k) < 2 * x
    decreases x - z
  {
    if z < x {
      assert Pow2(j + 1) == 2 * Pow2(j);
      k := SmallestPow2(x, j + 1, 2 * z);
    } else {
      k := j;
    }
  }

  // How an insertion ends. In the last three cases an assertion of the debug build fails: no
  // slot can be freed for the lower part of a split node; freeing one moved the very node being
  // split; no slot can be freed for the new leaf.
  datatype Outcome = Inserted | AlreadyPresent | SplitFailed | SplitNodeDisplaced | LeafFailed

  // Inserting value cuts the compressed path of the node at length l.
  ghost predicate SplitsAt(m: map<Index, Info>, value: Key, l: nat) {
    Deepest(m, value, l) && Lcp(value, m[At(value, l)].minKey) < m[At(value, l)].dlen <= 8
  }

  // The index of the lower part after the cut.
  ghost function SplitIndex(m: map<Index, Info>, value: Key, l: nat): Index
    requires SplitsAt(m, value, l)
  {
    At(m[At(value, l)].minKey, Lcp(value, m[At(value, l)].minKey) + 1)
  }

  // The split cannot get a slot for the lower part.
  ghost predicate SplitCannotReserve(s: seq<Slot>, h: Hashes, m: map<Index, Info>, value: Key, coin: bool)
    requires TableInv(s, h, m)
  {
    exists l :: SplitsAt(m, value, l) && NoRoom(s, h, SplitIndex(m, value, l), coin)
  }

  // Making room for the lower part vacates the slot of the node being split.
  ghost predicate SplitLosesNode(s: seq<Slot>, h: Hashes, m: map<Index, Info>, value: Key, coin: bool)
    requires TableInv(s, h, m)
  {
    exists l, i :: SplitsAt(m, value, l) && HoldsIndex(s, i, At(value, l))
                   && var v := Vacated(s, h, SplitIndex(m, value, l), coin); v.Some? && i in v.value
  }

  lemma NoSplit(s: seq<Slot>, h: Hashes, m: map<Index, Info>, value: Key, coin: bool, ilen: nat)
    requires TableInv(s, h, m)
    requires NoneDeeper(m, value, 2)
             || (Deepest(m, value, ilen) && Lcp(value, m[At(value, ilen)].minKey) >= m[At(value, ilen)].dlen)
    ensures !SplitCannotReserve(s, h, m, value, coin) && !SplitLosesNode(s, h, m, value, coin)
  {
    hide Lcp, Top;
    forall l ensures !SplitsAt(m, value, l) {
      assert SplitsAt(m, value, l) ==> l == ilen;
    }
  }

  // The layout when the deepest node on the path of value, in slot i, has taken value's byte: as
  // one more child, or after a split.
  ghost function AfterBelow(s: seq<Slot>, h: Hashes, value: Key, i: int, coin: bool): (r: seq<Slot>)
    requires 2 * GAP < |s| && (forall j :: IsNode(s, j) ==> s[j].ilen <= 8) && IsNode(s, i)
    ensures |r| == |s| && forall j :: IsNode(r, j) ==> r[j].ilen <= 8
  {
    var c := Lcp(value, s[i].minKey);
    if c >= s[i].dlen || c >= 8 then AfterChild(s, i)
    else
      var k := At(s[i].minKey, c + 1);
      AfterSplit(AfterReservation(s, h, k, coin), i, ReservedAt(s, h, k, coin), c + 1)
  }

  // With the path of value prepared at its deepest node, in slot i, no slot can be freed for its
  // leaf, which is one byte longer than what value shares with that node.
  ghost predicate NoLeafRoom(s: seq<Slot>, h: Hashes, value: Key, i: int, coin1: bool, coin2: bool)
    requires 2 * GAP < |s| && (forall j :: IsNode(s, j) ==> s[j].ilen <= 8) && IsNode(s, i)
  {
    var c := Lcp(value, s[i].minKey);
    c < 8 && NoRoom(AfterBelow(s, h, value, i, coin1), h, At(value, c + 1), coin2)
  }

  // Inserting value cannot get a slot for its leaf. All of it is about the table before the call.
  ghost predicate LeafCannotReserve(s: seq<Slot>, h: Hashes, m: map<Index, Info>, value: Key, coin1: bool, coin2: bool)
    requires TableInv(s, h, m)
  {
    || (NoneDeeper(m, value, 2) && NoRoom(s, h, At(value, 3), coin2))
    || exists l, i :: Deepest(m, value, l) && HoldsIndex(s, i, At(value, l)) && NoLeafRoom(s, h, value, i, coin1, coin2)
  }

  lemma LeafOutcome(s: seq<Slot>, h: Hashes, m: map<Index, Info>, value: Key, coin1: bool, coin2: bool, l: nat, i: int)
    requires TableInv(s, h, m) && Deepest(m, value, l) && HoldsIndex(s, i, At(value, l))
    ensures (forall j :: IsNode(s, j) ==> s[j].ilen <= 8) && 2 * GAP < |s|
    ensures LeafCannotReserve(s, h, m, value, coin1, coin2) <==> NoLeafRoom(s, h, value, i, coin1, coin2)
  {
    NodesAreOk(s, h, m);
    DeepestIsUnique(s, h, m, value, l, i);
    hide Top, NoRoom, NoLeafRoom, TableInv, Shape, NoneDeeper, NodeOk;
  }

  lemma DeepestIsUnique(s: seq<Slot>, h: Hashes, m: map<Index, Info>, value: Key, l: nat, i: int)
    requires TableInv(s, h, m) && Deepest(m, value, l) && HoldsIndex(s, i, At(value, l))
    ensures !NoneDeeper(m, value, 2)
    ensures forall k, j :: Deepest(m, value, k) && HoldsIndex(s, j, At(value, k)) ==> k == l && j == i
  {
    hide Top;
    IndexIsUnique(s, h, m);
  }

  lemma LeafOutcomeAtRoot(s: seq<Slot>, h: Hashes, m: map<Index, Info>, value: Key, coin1: bool, coin2: bool)
    requires TableInv(s, h, m) && NoneDeeper(m, value, 2)
    ensures (forall j :: IsNode(s, j) ==> s[j].ilen <= 8) && 2 * GAP < |s|
    ensures LeafCannotReserve(s, h, m, value, coin1, coin2) <==> NoRoom(s, h, At(value, 3), coin2)
  {
    hide Lcp, Top, NoRoom, AfterBelow, Children;
    IndexIsUnique(s, h, m);
  }

  // The parts of a split, seen as layouts.
  lemma CutLayout(s: seq<Slot>, t: seq<Slot>, u: seq<Slot>, pos: int, x: int, len: nat)
    requires Shape(s) && IsNode(s, pos) && s[pos].ilen <= 8 && Inside(s, x) && s[x] == Empty && pos != x && len <= 8
    requires var q := AfterMove(s, pos, x);
             |t| == |s| && IsNode(q, x) && t == q[x := t[x]] && CellOf(t[x]) == Holds(At(s[pos].minKey, len))
    requires |u| == |t| && CellOf(u[pos]) == CellOf(s[pos]) && forall i :: 0 <= i < |t| && i != pos ==>
             CellOf(u[i]) == CellOf(t[i])
    ensures SameLayout(AfterSplit(s, pos, x, len), u)
  {
    hide Shape, Top;
    MoveNodeMoves(s, pos, x);
    assert AfterMove(s, pos, x)[x].minKey == s[pos].minKey;
  }

  lemma KeptThenKept(s: seq<Slot>, t: seq<Slot>, u: seq<Slot>, pos: int)
    requires OthersKept(s, t, {pos}) && OthersKept(t, u, {pos})
    ensures OthersKept(s, u, {pos})
  {
  }

  // Some stored key is at or above value.
  ghost predicate SomeFrom(keys: set<Key>, value: Key) {
    exists x :: x in keys && value <= x
  }

  // At the only place where value can split a node, the two failures are read off that node.
  lemma SplitOutcome(s: seq<Slot>, h: Hashes, m: map<Index, Info>, value: Key, coin: bool, l: nat, pos: int)
    requires TableInv(s, h, m) && SplitsAt(m, value, l) && HoldsIndex(s, pos, At(value, l))
    ensures SplitCannotReserve(s, h, m, value, coin) <==> NoRoom(s, h, SplitIndex(m, value, l), coin)
    ensures SplitLosesNode(s, h, m, value, coin)
            <==> var v := Vacated(s, h, SplitIndex(m, value, l), coin); v.Some? && pos in v.value
  {
    hide Lcp, Top, Vacated, Chain, Children;
    forall j | SplitsAt(m, value, j) ensures j == l {
    }
    IndexIsUnique(s, h, m);
  }

  class MlpSet {
    const table: CuckooHashTable
    const root: array<Word>
    const depth1: array<Word>
    const depth2: array<Word>
    // The keys in the set.
    ghost var keys: set<Key>

    ghost predicate Valid()
      reads this, table, table.ht, root, depth1, depth2
    {
      && root != depth1 && root != depth2 && depth1 != depth2
      && table.Valid()
      && TrieInv(table.nodes, keys)
      && LevelInv(root[..], 1, keys) && LevelInv(depth1[..], 2, keys) && LevelInv(depth2[..], 3, keys)
    }

    // An empty set; the hash table gets four times the next power of two above maxSetSize.
    constructor (maxSetSize: nat, hashes: Hashes)
      requires maxSetSize <= 0x1000_0000
      ensures Valid() && keys == {}
      ensures SizedFor(table.ht.Length, maxSetSize)
      ensures root.Length == 4 && depth1.Length == 1024 && depth2.Length == 262144
      ensures table.h == hashes && table.nodes == map[] && forall i :: 0 <= i < table.ht.Length ==> table.ht[i] == Empty
      ensures fresh(table) && fresh(table.ht) && fresh(root) && fresh(depth1) && fresh(depth2)
    {
      var size := if maxSetSize < 4096 then 4096 else maxSetSize;
      table := new CuckooHashTable(Pow2AtLeast(size, 1) * 4, hashes);
      root := new Word[4](_ => 0);
      depth1 := new Word[1024](_ => 0);
      depth2 := new Word[262144](_ => 0);
      keys := {};
      new;
      ghost var k := SmallestPow2(size, 0, 1);
      LevelSizes();
      EmptyLevel(root[..], 1);
      EmptyLevel(depth1[..], 2);
      EmptyLevel(depth2[..], 3);
    }

    method Exist(value: Key) returns (b: bool)
      requires Valid()
      ensures b <==> value in keys
    {
      var lcp, ilen, pos1, pos2 := table.QueryLCP(value);
      if lcp == 2 {
        NoNodeNoKey(table.nodes, keys, value);
      } else {
        DeepestDecides(table.nodes, keys, value, ilen);
      }
      return lcp == 8;
    }

    // ---------- insertion ----------

    // coin1 and coin2 stand for `rand() % 2` in the two slot reservations an insertion may make.
    method Insert(value: Key, coin1: bool, coin2: bool) returns (r: Outcome)
      requires Valid()
      modifies this`keys, table`nodes, table.ht, root, depth1, depth2
      ensures r == AlreadyPresent <==> value in old(keys)
      ensures r == AlreadyPresent ==> Valid() && keys == old(keys) && table.ht[..] == old(table.ht[..])
      ensures r == Inserted ==> Valid() && keys == old(keys) + {value}
      ensures r == SplitFailed <==> old(SplitCannotReserve(table.ht[..], table.h, table.nodes, value, coin1))
      ensures r == SplitNodeDisplaced <==> old(SplitLosesNode(table.ht[..], table.h, table.nodes, value, coin1))
      ensures r == LeafFailed <==>
              r != AlreadyPresent && r != SplitFailed && r != SplitNodeDisplaced
              && old(LeafCannotReserve(table.ht[..], table.h, table.nodes, value, coin1, coin2))
      ensures r == Inserted && old(NoneDeeper(table.nodes, value, 2)) ==>
              table.nodes == old(table.nodes)[At(value, 3) := Leaf(value)]
              && NodePut(old(table.ht[..]), table.ht[..], table.h, At(value, 3), coin2)
    {
      hide TableInv, TrieInv, LevelInv, Top, Lcp, NoRoom, SplitCannotReserve, SplitLosesNode, HasPrefix,
           LeafCannotReserve, AfterBelow, SameLayout, Shape, Children, NodePut;
      ghost var s0, m0 := table.ht[..], table.nodes;
      NodesAreOk(s0, table.h, m0);
      var lcp := 2;
      PairBit(value);
      var known := HasBit(depth1[..], Top(value, 2));
      if known {
        var ilen, pos1, pos2;
        lcp, ilen, pos1, pos2 := table.QueryLCP(value);
        if lcp == 8 {
          DeepestDecides(table.nodes, keys, value, ilen);
          NoSplit(table.ht[..], table.h, table.nodes, value, coin1, ilen);
          return AlreadyPresent;
        }
        if lcp != 2 {
          TableSize();
          DeepestDecides(table.nodes, keys, value, ilen);
          PrefixOfNode(value, ilen, 3);
          r := InsertBelow(value, lcp, ilen, pos1, pos2, coin1);
          if r != Inserted {
            return;
          }
          Located(s0, table.h, m0, At(value, ilen));
          LeafOutcome(s0, table.h, m0, value, coin1, coin2, ilen, pos1[ilen - 1]);
          NodesAreOk(table.ht[..], table.h, table.nodes);
          RoomByLayout(AfterBelow(s0, table.h, value, pos1[ilen - 1], coin1), table.ht[..], table.h,
                       At(value, lcp + 1), coin2);
        }
      }
      if lcp == 2 {
        LeafOutcomeAtRoot(table.ht[..], table.h, table.nodes, value, coin1, coin2);
        NoNodeNoKey(table.nodes, keys, value);
        NoSplit(table.ht[..], table.h, table.nodes, value, coin1, 0);
        InsertAtRoot(table.nodes, keys, value);
      }
      r := InsertLeaf(value, lcp, known, coin2);
    }

    // The trie is ready to take value as a leaf of length l.
    ghost predicate Ready(m: map<Index, Info>, value: Key, l: nat)
      reads this
    {
      3 <= l <= 8 && At(value, l) !in m && TrieInv(m[At(value, l) := Leaf(value)], keys + {value})
    }

    // depth1 knows the first two bytes of a key iff some stored key starts with them.
    lemma PairBit(value: Key)
      requires Valid()
      ensures HasBit(depth1[..], Top(value, 2)) <==> HasPrefix(keys, 2, Top(value, 2))
      ensures !HasPrefix(keys, 2, Top(value, 2)) ==> NoneDeeper(table.nodes, value, 2)
    {
      hide TableInv, TrieInv, HasBit;
      TopBound(value, 2);
      if !HasPrefix(keys, 2, Top(value, 2)) {
        forall l | 2 < l <= 8 ensures At(value, l) !in table.nodes {
          if At(value, l) in table.nodes {
            PrefixOfNode(value, l, 2);
            assert false;
          }
        }
      }
    }

    // A node on the path of value witnesses the shorter prefixes of value.
    lemma PrefixOfNode(value: Key, l: nat, j: nat)
      requires TrieInv(table.nodes, keys) && j <= l <= 8 && At(value, l) in table.nodes
      ensures HasPrefix(keys, j, Top(value, j))
    {
      NodeOf(table.nodes, keys, At(value, l));
      AgreeShorter(value, table.nodes[At(value, l)].minKey, j, l);
    }

    // Everything but the leaf, when value shares at least three bytes with the node at
    // pos1[ilen - 1]: attach a child or split, then walk the ancestors. Inserted means done so far.
    method InsertBelow(value: Key, lcp: nat, ilen: nat, pos1: seq<int>, pos2: seq<int>, coin: bool) returns (r: Outcome)
      requires Valid() && Deepest(table.nodes, value, ilen) && value !in keys
      requires lcp == Lcp(value, table.nodes[At(value, ilen)].minKey)
      requires |pos1| == 8 && HoldsIndex(table.ht[..], pos1[ilen - 1], At(value, ilen))
      requires 2 * GAP < table.ht.Length && Candidates(table.h, table.ht.Length, value, ilen - 1, pos1, pos2)
      modifies table`nodes, table.ht
      ensures r == Inserted ==> table.Valid() && ilen <= lcp < 8 && Ready(table.nodes, value, lcp + 1)
      ensures r == Inserted ==> old(forall i :: IsNode(table.ht[..], i) ==> table.ht[i].ilen <= 8)
      ensures r == Inserted ==>
              SameLayout(old(AfterBelow(table.ht[..], table.h, value, pos1[ilen - 1], coin)), table.ht[..])
      ensures r == Inserted || r == SplitFailed || r == SplitNodeDisplaced
      ensures r == SplitFailed <==> old(SplitCannotReserve(table.ht[..], table.h, table.nodes, value, coin))
      ensures r == SplitNodeDisplaced <==> old(SplitLosesNode(table.ht[..], table.h, table.nodes, value, coin))
    {
      hide TableInv, TrieInv, LevelInv, Top, Lcp, NoRoom, SplitCannotReserve, SplitLosesNode, Lowered, WithChild,
           WithSplit, Candidates, NodeInv, AfterChild, AfterSplit, AfterReservation, ReservedAt, SameLayout, Shape,
           Children;
      ghost var m0, s0 := table.nodes, table.ht[..];
      var pos := pos1[ilen - 1];
      NodesAreOk(table.ht[..], table.h, m0);
      Located(table.ht[..], table.h, m0, At(value, ilen));
      DeepestDecides(m0, keys, value, ilen);
      var updated;
      ghost var m1;
      if table.ht[pos].dlen == lcp {
        NoSplit(table.ht[..], table.h, m0, value, coin, ilen);
        m1 := WithChild(m0, value, ilen);
        updated := Attach(value, ilen, pos);
        ChildAncestors(m0, keys, value, ilen);
      } else {
        m1 := WithSplit(m0, value, ilen, lcp);
        r, updated := Split(value, lcp, ilen, pos, coin);
        if r != Inserted {
          return;
        }
        SplitAncestors(m0, keys, value, ilen, lcp);
      }
      ghost var s1 := table.ht[..];
      assert SameLayout(AfterBelow(s0, table.h, value, pos, coin), s1);
      if updated {
        LowerAncestors(value, ilen, pos1, pos2, m0, m1);
        LayoutTrans(AfterBelow(s0, table.h, value, pos, coin), s1, table.ht[..]);
      } else {
        LoweredDone(m0, m1, keys, value, ilen, ilen);
      }
      if m0[At(value, ilen)].dlen == lcp {
        ChildReady(m0, value, ilen);
      } else {
        SplitReady(m0, value, ilen);
      }
      r := Inserted;
    }

    lemma ChildReady(m0: map<Index, Info>, value: Key, ilen: nat)
      requires TrieInv(m0, keys) && Deepest(m0, value, ilen) && value !in keys
      requires var n := m0[At(value, ilen)]; Lcp(value, n.minKey) == n.dlen
      ensures var n := m0[At(value, ilen)];
              ilen <= n.dlen < 8 && Ready(Lowered(WithChild(m0, value, ilen), value, 3), value, n.dlen + 1)
    {
      hide TrieInv, Top, Lcp;
      DeepestDecides(m0, keys, value, ilen);
      InsertChild(m0, keys, value, ilen);
    }

    lemma SplitReady(m0: map<Index, Info>, value: Key, ilen: nat)
      requires TrieInv(m0, keys) && Deepest(m0, value, ilen) && value !in keys
      requires var n := m0[At(value, ilen)]; Lcp(value, n.minKey) < n.dlen
      ensures var c := Lcp(value, m0[At(value, ilen)].minKey);
              ilen <= c < 8 && Ready(Lowered(WithSplit(m0, value, ilen, c), value, 3), value, c + 1)
    {
      hide TrieInv, Top, Lcp;
      DeepestDecides(m0, keys, value, ilen);
      InsertSplit(m0, keys, value, ilen);
      LcpSpec(value, m0[At(value, ilen)].minKey, Lcp(value, m0[At(value, ilen)].minKey) + 1);
    }

    // The compressed path matches: one more child.
    method Attach(value: Key, ilen: nat, pos: int) returns (updated: bool)
      requires Valid() && Deepest(table.nodes, value, ilen) && value !in keys
      requires HoldsIndex(table.ht[..], pos, At(value, ilen))
      requires Lcp(value, table.nodes[At(value, ilen)].minKey) == table.nodes[At(value, ilen)].dlen
      modifies table`nodes, table.ht
      ensures table.Valid() && table.nodes == Lowered(old(WithChild(table.nodes, value, ilen)), value, ilen)
      ensures updated <==> value < old(table.nodes[At(value, ilen)].minKey)
      ensures OthersKept(old(table.ht[..]), table.ht[..], {pos})
      ensures NodeView(table.ht[..], pos) != NodeView(old(table.ht[..]), pos)
      ensures SameLayout(AfterChild(old(table.ht[..]), pos), table.ht[..])
    {
      hide TableInv, TrieInv, LevelInv, Top, Lcp, Lowered, Children, AfterChild;
      ghost var m0 := table.nodes;
      ghost var k := At(value, ilen);
      Located(table.ht[..], table.h, m0, k);
      DeepestDecides(m0, keys, value, ilen);
      ghost var s := table.ht[..];
      var dlen := table.ht[pos].dlen;
      table.AddChildOf(pos, ByteOf(value, dlen), k);
      ghost var s1 := table.ht[..];
      assert HoldsIndex(table.ht[..], pos, k);
      Located(table.ht[..], table.h, table.nodes, k);
      updated := value < table.ht[pos].minKey;
      if updated {
        table.SetMinKey(pos, value, k);
        LayoutTrans(AfterChild(s, pos), s1, table.ht[..]);
        assert HoldsIndex(table.ht[..], pos, k);
        Located(table.ht[..], table.h, table.nodes, k);
      }
      assert InfoAt(s, pos) != InfoAt(table.ht[..], pos);
      if NodeView(table.ht[..], pos) == NodeView(s, pos) {
        NodesAreOk(s, table.h, m0);
        NodesAreOk(table.ht[..], table.h, table.nodes);
        ViewHasChildren(s, pos, table.ht[..], pos);
        assert false;
      }
      forall j | j in m0 && Under(j, value) ensures j.len <= ilen {
        OnPathIsShorter(m0, keys, value, ilen, j);
      }
      LoweredDeepest(WithChild(m0, value, ilen), value, ilen);
    }

    // The compressed path differs from value after lcp bytes.
    method Split(value: Key, lcp: nat, ilen: nat, pos: int, coin: bool) returns (r: Outcome, updated: bool)
      requires Valid() && SplitsAt(table.nodes, value, ilen) && value !in keys
      requires HoldsIndex(table.ht[..], pos, At(value, ilen))
      requires lcp == Lcp(value, table.nodes[At(value, ilen)].minKey) && ilen <= lcp < 8
      modifies table`nodes, table.ht
      ensures r == Inserted || r == SplitFailed || r == SplitNodeDisplaced
      ensures r == Inserted ==>
              table.Valid() && table.nodes == Lowered(old(WithSplit(table.nodes, value, ilen, lcp)), value, ilen)
      ensures r == Inserted ==> (updated <==> value < old(table.nodes[At(value, ilen)].minKey))
      ensures r == Inserted ==>
              var k := SplitIndex(old(table.nodes), value, ilen);
              SameLayout(AfterSplit(old(AfterReservation(table.ht[..], table.h, k, coin)), pos,
                                    old(ReservedAt(table.ht[..], table.h, k, coin)), lcp + 1), table.ht[..])
      ensures r == SplitFailed <==> old(SplitCannotReserve(table.ht[..], table.h, table.nodes, value, coin))
      ensures r == SplitNodeDisplaced <==> old(SplitLosesNode(table.ht[..], table.h, table.nodes, value, coin))
    {
      hide TableInv, TrieInv, LevelInv, Top, Lcp, Lowered, SplitCannotReserve, SplitLosesNode, Vacated, Children,
           AfterReservation, ReservedAt, AfterSplit, SameLayout;
      ghost var m0 := table.nodes;
      ghost var s := table.ht[..];
      ghost var k := At(value, ilen);
      NodesAreOk(s, table.h, m0);
      PrintMatches(s, table.h, m0);
      Located(s, table.h, m0, k);
      SplitOutcome(s, table.h, m0, value, coin, ilen, pos);
      SplitIndexIsNew(m0, keys, value, ilen);
      var minKey := table.ht[pos].minKey;
      updated := value < minKey;
      var x, exist, failed := table.ReservePositionForInsert(lcp + 1, minKey, coin);
      if exist || failed {
        return SplitFailed, updated;
      }
      DisplacedIffVacated(s, table.ht[..], table.h, m0, At(minKey, lcp + 1), coin, pos);
      NodesAreOk(table.ht[..], table.h, m0);
      // The code goes on with ht[pos] in any case; its debug build notices the loss when it looks
      // the node up again.
      if !(table.ht[pos].Node? && table.IsEqualNoHash(pos, value, ilen)) {
        return SplitNodeDisplaced, updated;
      }
      assert HoldsIndex(table.ht[..], pos, k);
      Located(table.ht[..], table.h, m0, k);
      Cut(value, lcp, ilen, pos, x);
      r := Inserted;
    }

    // With slot x reserved: the node at pos is cut after lcp bytes and value's byte added.
    method Cut(value: Key, lcp: nat, ilen: nat, pos: int, x: int)
      requires CanCut(value, lcp, ilen, pos, x)
      modifies table`nodes, table.ht
      ensures table.Valid() && table.nodes == Lowered(old(WithSplit(table.nodes, value, ilen, lcp)), value, ilen)
      ensures 2 * GAP < table.ht.Length && SameLayout(AfterSplit(old(table.ht[..]), pos, x, lcp + 1), table.ht[..])
    {
      hide TableInv, TrieInv, Top, Lcp, AfterMove, AfterSplit, Shape, Children, SameLayout;
      ghost var m0, s0 := table.nodes, table.ht[..];
      NodesAreOk(s0, table.h, m0);
      Located(s0, table.h, m0, At(value, ilen));
      var minKey := MoveLowerPart(value, lcp, ilen, pos, x);
      ghost var s1 := table.ht[..];
      RebuildUpperPart(value, lcp, ilen, pos, minKey, m0);
      CutLayout(s0, s1, table.ht[..], pos, x, lcp + 1);
    }

    ghost predicate CanCut(value: Key, lcp: nat, ilen: nat, pos: int, x: int)
      reads this, table, table.ht
    {
      && table.Valid() && TrieInv(table.nodes, keys) && SplitsAt(table.nodes, value, ilen) && value !in keys
      && HoldsIndex(table.ht[..], pos, At(value, ilen))
      && lcp == Lcp(value, table.nodes[At(value, ilen)].minKey) && ilen <= lcp < 8
      && Inside(table.ht[..], x) && table.ht[x] == Empty
      && var k := SplitIndex(table.nodes, value, ilen);
         x == Place1(table.h, table.ht.Length, k) || x == Place2(table.h, table.ht.Length, k)
    }

    // The lower part moves to x under its longer index.
    method MoveLowerPart(value: Key, lcp: nat, ilen: nat, pos: int, x: int) returns (minKey: Key)
      requires CanCut(value, lcp, ilen, pos, x)
      modifies table`nodes, table.ht
      ensures table.Valid() && Inside(table.ht[..], pos) && table.ht[pos] == Empty
      ensures pos == Place1(table.h, table.ht.Length, At(value, ilen))
              || pos == Place2(table.h, table.ht.Length, At(value, ilen))
      ensures minKey == old(table.nodes)[At(value, ilen)].minKey
      ensures var m0 := old(table.nodes);
              table.nodes == (m0 - {At(value, ilen)})[At(minKey, lcp + 1) := m0[At(value, ilen)]]
      ensures x != pos && OthersKept(old(table.ht[..]), table.ht[..], {pos, x})
      ensures NodeView(old(table.ht[..]), pos).ANode? && IsNode(table.ht[..], x)
      ensures var t := AfterMove(old(table.ht[..]), pos, x);
              IsNode(t, x) && table.ht[..] == t[x := table.ht[x]] && CellOf(table.ht[x]) == Holds(At(minKey, lcp + 1))
    {
      hide TableInv, TrieInv, Top, Lcp, Children, AfterMove;
      ghost var m0 := table.nodes;
      ghost var k := At(value, ilen);
      SplitIndexIsNew(m0, keys, value, ilen);
      NodesAreOk(table.ht[..], table.h, m0);
      Located(table.ht[..], table.h, m0, k);
      NodePlaced(table.ht[..], table.h, m0, pos);
      minKey := table.ht[pos].minKey;
      table.SplitOff(pos, x, lcp + 1, k);
    }

    // The upper part is written anew at pos, with two children.
    method RebuildUpperPart(value: Key, lcp: nat, ilen: nat, pos: int, minKey: Key, ghost m0: map<Index, Info>)
      requires table.Valid() && TrieInv(m0, keys) && SplitsAt(m0, value, ilen) && value !in keys
      requires minKey == m0[At(value, ilen)].minKey && lcp == Lcp(value, minKey) && ilen <= lcp < 8
      requires table.nodes == (m0 - {At(value, ilen)})[At(minKey, lcp + 1) := m0[At(value, ilen)]]
      requires Inside(table.ht[..], pos) && table.ht[pos] == Empty
      requires pos == Place1(table.h, table.ht.Length, At(value, ilen))
               || pos == Place2(table.h, table.ht.Length, At(value, ilen))
      modifies table`nodes, table.ht
      ensures table.Valid() && table.nodes == Lowered(WithSplit(m0, value, ilen, lcp), value, ilen)
      ensures OthersKept(old(table.ht[..]), table.ht[..], {pos})
      ensures CellOf(table.ht[pos]) == Holds(At(value, ilen))
      ensures forall i :: 0 <= i < table.ht.Length && i != pos ==> CellOf(table.ht[i]) == CellOf(old(table.ht[i]))
    {
      hide TableInv, TrieInv, Top, Lcp, Lowered, NodeView, Children, Shape;
      ghost var k := At(value, ilen);
      ghost var s := table.ht[..];
      SplitIndexIsNew(m0, keys, value, ilen);
      var z := if value < minKey then value else minKey;
      assert At(z, ilen) == k;
      table.Init(pos, ilen, lcp, z, ByteOf(minKey, lcp));
      LcpByte(value, minKey);
      Located(table.ht[..], table.h, table.nodes, k);
      assert AfterChild(table.ht[..], pos) == table.ht[..];
      ghost var s1 := table.ht[..];
      table.AddChildOf(pos, ByteOf(value, lcp), k);
      assert forall i :: 0 <= i < table.ht.Length ==> CellOf(table.ht[i]) == CellOf(s1[i]);
      KeptThenKept(s, s1, table.ht[..], pos);
      assert table.nodes == WithSplit(m0, value, ilen, lcp);
      forall j | j in table.nodes && Under(j, value) ensures j.len <= ilen {
        if j in m0 {
          OnPathIsShorter(m0, keys, value, ilen, j);
        }
      }
      LoweredDeepest(table.nodes, value, ilen);
    }

    // The minKey walk over the ancestors of the node at length ilen, with its early end.
    method LowerAncestors(value: Key, ilen: nat, pos1: seq<int>, pos2: seq<int>, ghost m0: map<Index, Info>,
                          ghost m1: map<Index, Info>)
      requires table.Valid() && TrieInv(m0, keys) && 3 <= ilen <= 8
      requires 2 * GAP < table.ht.Length && Candidates(table.h, table.ht.Length, value, ilen - 1, pos1, pos2)
      requires AncestorsAgree(m0, m1, value, ilen) && table.nodes == Lowered(m1, value, ilen)
      modifies table`nodes, table.ht
      ensures table.Valid() && table.nodes == Lowered(m1, value, 3) && SameLayout(old(table.ht[..]), table.ht[..])
    {
      hide TableInv, TrieInv, Top, CellOf;
      var l := ilen - 1;
      while l > 2
        invariant 2 <= l < ilen
        invariant SameLayout(old(table.ht[..]), table.ht[..])
        invariant table.Valid() && table.nodes == Lowered(m1, value, l + 1)
      {
        ghost var k := At(value, l);
        Located(table.ht[..], table.h, table.nodes, k);
        LoweredStep(m1, value, l);
        var pos := pos1[l - 1];
        if !table.IsEqualNoHash(pos, value, l) {
          pos := pos2[l - 1];
        }
        if table.IsEqualNoHash(pos, value, l) {
          assert HoldsIndex(table.ht[..], pos, k);
          if value < table.ht[pos].minKey {
            table.SetMinKey(pos, value, k);
          } else {
            LoweredDone(m0, m1, keys, value, l, ilen);
            break;
          }
        }
        l := l - 1;
      }
    }

    // The last part: the leaf and the flat levels.
    method InsertLeaf(value: Key, lcp: nat, known: bool, coin: bool) returns (r: Outcome)
      requires LeafReady(value, lcp, known)
      modifies this`keys, table`nodes, table.ht, root, depth1, depth2
      ensures r == Inserted || r == LeafFailed
      ensures r == Inserted ==> Valid() && keys == old(keys) + {value}
      ensures r == LeafFailed <==> old(NoRoom(table.ht[..], table.h, At(value, lcp + 1), coin))
      ensures r == Inserted ==>
              table.nodes == old(table.nodes)[At(value, lcp + 1) := Leaf(value)]
              && NodePut(old(table.ht[..]), table.ht[..], table.h, At(value, lcp + 1), coin)
    {
      hide TableInv, TrieInv, LevelInv, Top, NoRoom, BitAdded, HasPrefix, NodePut;
      LevelLengths(value);
      if !known {
        SetLevelBit(root, Top(value, 1));
        SetLevelBit(depth1, Top(value, 2));
      }
      var pos, exist, failed := table.Insert(lcp + 1, 8, value, -1, coin);
      if failed {
        return LeafFailed;
      }
      if lcp == 2 {
        SetLevelBit(depth2, Top(value, 3));
      }
      LevelsGrown(value, lcp, known, old(root[..]), old(depth1[..]), old(depth2[..]));
      Grow(value);
      r := Inserted;
    }

    // The key set takes value in, once every structure holds it.
    ghost method Grow(value: Key)
      requires root != depth1 && root != depth2 && depth1 != depth2
      requires table.Valid() && TrieInv(table.nodes, keys + {value})
      requires LevelInv(root[..], 1, keys + {value}) && LevelInv(depth1[..], 2, keys + {value})
      requires LevelInv(depth2[..], 3, keys + {value})
      modifies this`keys
      ensures Valid() && keys == old(keys) + {value}
    {
      hide TableInv, TrieInv, LevelInv;
      keys := keys + {value};
    }

    // Everything is prepared for value as a leaf of length lcp + 1; known says whether its first
    // two bytes occur already.
    ghost predicate LeafReady(value: Key, lcp: nat, known: bool)
      reads this, table, table.ht, root, depth1, depth2
    {
      && table.Valid() && 2 <= lcp < 8 && Ready(table.nodes, value, lcp + 1)
      && root != depth1 && root != depth2 && depth1 != depth2
      && LevelInv(root[..], 1, keys) && LevelInv(depth1[..], 2, keys) && LevelInv(depth2[..], 3, keys)
      && (known ==> HasPrefix(keys, 2, Top(value, 2)))
      && (!known ==> lcp == 2)
      && (lcp > 2 ==> HasPrefix(keys, 3, Top(value, 3)))
    }

    lemma LevelsGrown(value: Key, lcp: nat, known: bool, r0: seq<Word>, d1: seq<Word>, d2: seq<Word>)
      requires LevelInv(r0, 1, keys) && LevelInv(d1, 2, keys) && LevelInv(d2, 3, keys)
      requires if known then root[..] == r0 && depth1[..] == d1 && HasPrefix(keys, 2, Top(value, 2))
               else BitAdded(r0, root[..], Top(value, 1)) && BitAdded(d1, depth1[..], Top(value, 2))
      requires if lcp == 2 then BitAdded(d2, depth2[..], Top(value, 3))
               else depth2[..] == d2 && HasPrefix(keys, 3, Top(value, 3))
      ensures LevelInv(root[..], 1, keys + {value}) && LevelInv(depth1[..], 2, keys + {value})
      ensures LevelInv(depth2[..], 3, keys + {value})
    {
      hide LevelInv, BitAdded, HasPrefix, Top;
      if known {
        PrefixShortens(keys, 1, Top(value, 2));
        assert Top(value, 2) / 256 == Top(value, 1) * 256 / 256 + ByteOf(value, 1) / 256;
      }
      LevelGrows(r0, root[..], 1, keys, value);
      LevelGrows(d1, depth1[..], 2, keys, value);
      LevelGrows(d2, depth2[..], 3, keys, value);
    }

    lemma LevelLengths(value: Key)
      requires LevelInv(root[..], 1, keys) && LevelInv(depth1[..], 2, keys) && LevelInv(depth2[..], 3, keys)
      ensures Top(value, 1) / 64 < root.Length && Top(value, 2) / 64 < depth1.Length
              && Top(value, 3) / 64 < depth2.Length
    {
      LevelSizes();
      Pow256Table();
      TopBound(value, 1);
      TopBound(value, 2);
      TopBound(value, 3);
    }

    // ---------- lower bound ----------

    // The promise p resolves to the minimum key of node k.
    ghost predicate Promises(p: Promise, k: Index)
      requires Valid()
      reads this, table, table.ht, root, depth1, depth2
    {
      k in table.nodes && IsPromiseFor(table.ht[..], table.h, p, k)
    }

    // The answer to a lower-bound query: found with a promise for the least key, or none.
    ghost predicate Answers(value: Key, found: bool, p: Promise, k: Index)
      requires Valid()
      reads this, table, table.ht, root, depth1, depth2
    {
      if found then Promises(p, k) && IsLeast(keys, value, table.nodes[k].minKey)
      else p == Invalid && forall x :: x in keys ==> x < value
    }

    lemma AnswerDecides(value: Key, found: bool, p: Promise, k: Index)
      requires Valid() && Answers(value, found, p, k)
      ensures found <==> SomeFrom(keys, value)
    {
      hide TableInv, TrieInv, LevelInv;
    }

    method LowerBound(value: Key) returns (r: Key, found: bool)
      requires Valid()
      ensures found ==> IsLeast(keys, value, r)
      ensures !found ==> r == MAX_KEY && forall x :: x in keys ==> x < value
    {
      var p;
      ghost var k;
      found, p, k := LowerBoundInternal(value);
      if found {
        r := table.Resolve(p, k);
      } else {
        r := MAX_KEY;
      }
    }

    method LowerBoundInternal(value: Key) returns (found: bool, p: Promise, ghost k: Index)
      requires Valid()
      ensures found <==> SomeFrom(keys, value)
      ensures Answers(value, found, p, k)
    {
      hide TableInv, TrieInv, LevelInv, Top, Lcp;
      var lcp, ilen, pos1, pos2 := table.QueryLCP(value);
      TableSize();
      if lcp == 2 {
        NoNodeNoKey(table.nodes, keys, value);
        found, p, k := FlatMapping(value);
        return;
      }
      k := At(value, ilen);
      DeepestDecides(table.nodes, keys, value, ilen);
      var done;
      done, p, k := AtLcpNode(value, lcp, ilen, pos1[ilen - 1]);
      if done {
        AnswerDecides(value, true, p, k);
        return true, p, k;
      }
      found, p, k := ParentWalk(value, ilen, pos1, pos2);
    }

    // The node at pos is the deepest on the path of value: it answers the query, or its whole
    // subtree is smaller than value.
    method AtLcpNode(value: Key, lcp: nat, ilen: nat, pos: int) returns (done: bool, p: Promise, ghost k: Index)
      requires Valid() && Deepest(table.nodes, value, ilen) && HoldsIndex(table.ht[..], pos, At(value, ilen))
      requires lcp == Lcp(value, table.nodes[At(value, ilen)].minKey)
      ensures done ==> Answers(value, true, p, k)
      ensures !done ==> NoneFrom(keys, value, ilen)
    {
      hide TableInv, TrieInv, LevelInv, Top, Lcp, NodeInv, IsLeast, NoneFrom;
      k := At(value, ilen);
      NodesAreOk(table.ht[..], table.h, table.nodes);
      Located(table.ht[..], table.h, table.nodes, k);
      DeepestDecides(table.nodes, keys, value, ilen);
      if lcp == 8 {
        FoundItself(table.nodes, keys, value, ilen);
        return true, Direct(pos), k;
      }
      var dlen := table.ht[pos].dlen;
      if dlen == lcp {
        var child := ByteOf(value, dlen);
        var lbChild := table.LowerBoundChild(pos, child);
        DeepestChildStep(table.nodes, keys, value, ilen, lbChild);
        if lbChild == -1 {
          return false, Invalid, k;
        }
        LcpSpec(value, table.nodes[k].minKey, dlen);
        ChildByte(table.nodes, keys, k, lbChild);
        p, k := ChildPromise(value, dlen, lbChild, k);
        return true, p, k;
      }
      DeepestPathStep(table.nodes, keys, value, ilen);
      if value < table.ht[pos].minKey {
        return true, Direct(pos), k;
      }
      return false, Invalid, k;
    }

    lemma TableSize()
      requires Valid()
      ensures 2 * GAP < table.ht.Length
    {
    }

    // The promise for the node reached through child c of the node with index k, whose path of
    // dlen bytes is a prefix of value.
    method ChildPromise(value: Key, dlen: nat, c: nat, ghost k: Index) returns (p: Promise, ghost k': Index)
      requires k in table.nodes && table.nodes[k].dlen == dlen < 8 && c < 256
      requires Top(value, dlen) == Top(table.nodes[k].minKey, dlen)
      requires Child(table.nodes[k], c) in table.nodes
      requires Valid()
      ensures k' == Child(table.nodes[k], c) && Promises(p, k')
    {
      hide TableInv, TrieInv, LevelInv, Top;
      TableSize();
      TopWithByte(value, dlen, c);
      Pow256Table();
      WithByteBound(value, dlen, c, 8);
      var keyToFind := WithByte(value, dlen, c);
      p := table.GetLookupMustExistPromise(dlen + 1, keyToFind);
      k' := At(keyToFind, dlen + 1);
    }

    // The subtree at length ilen has no key from value on: try its ancestors.
    method ParentWalk(value: Key, ilen: nat, pos1: seq<int>, pos2: seq<int>)
      returns (found: bool, p: Promise, ghost k: Index)
      requires Valid() && 3 <= ilen <= 8 && At(value, ilen) in table.nodes
      requires 2 * GAP < table.ht.Length && Candidates(table.h, table.ht.Length, value, ilen - 1, pos1, pos2)
      requires NoneFrom(keys, value, ilen)
      ensures found <==> SomeFrom(keys, value)
      ensures Answers(value, found, p, k)
    {
      hide TableInv, TrieInv, LevelInv, Top, NoneFrom, IsLeast;
      ghost var next := ilen;
      var l := ilen - 1;
      while l > 2
        invariant 2 <= l < next <= 8
        invariant next <= ilen
        invariant At(value, next) in table.nodes && NoneFrom(keys, value, next)
        invariant forall j :: l < j < next ==> At(value, j) !in table.nodes
      {
        ghost var here := At(value, l);
        Located(table.ht[..], table.h, table.nodes, here);
        var pos := pos1[l - 1];
        if !table.IsEqualNoHash(pos, value, l) {
          pos := pos2[l - 1];
        }
        if table.IsEqualNoHash(pos, value, l) {
          assert HoldsIndex(table.ht[..], pos, here);
          ParentEndsAbove(table.nodes, keys, value, l, next);
          var dlen := table.ht[pos].dlen;
          var child := ByteOf(value, dlen);
          var lbChild := -1;
          if child < 255 {
            NodesAreOk(table.ht[..], table.h, table.nodes);
            lbChild := table.LowerBoundChild(pos, child + 1);
          }
          ParentStep(table.nodes, keys, value, l, next, lbChild);
          if lbChild != -1 {
            ChildByte(table.nodes, keys, here, lbChild);
            p, k := ChildPromise(value, dlen, lbChild, here);
            AnswerDecides(value, true, p, k);
            return true, p, k;
          }
          next := l;
        }
        l := l - 1;
      }
      PathStartsAtThree(table.nodes, keys, value, next);
      found, p, k := FlatMapping(value);
    }

    // No key from value on shares its first three bytes: the flat levels give the next prefix.
    method FlatMapping(value: Key) returns (found: bool, p: Promise, ghost k: Index)
      requires Valid() && NoneFrom(keys, value, 3)
      ensures found <==> SomeFrom(keys, value)
      ensures Answers(value, found, p, k)
    {
      hide TableInv, TrieInv, HasBit, HasPrefix, IsLeast, NoneFrom;
      var q;
      found, q := NextPrefixOf(value);
      if !found {
        NoNextPrefix(keys, value);
        AnswerDecides(value, false, Invalid, Index(0, 0));
        return false, Invalid, Index(0, 0);
      }
      TableSize();
      NextPrefixIsLeast(table.nodes, keys, value, q);
      p := table.GetLookupMustExistPromise(3, KeyOfPrefix(q));
      k := At(KeyOfPrefix(q), 3);
      AnswerDecides(value, true, p, k);
    }

    method NextPrefixOf(value: Key) returns (found: bool, q: nat)
      requires Valid()
      ensures found ==> NextPrefix(keys, value, q) && q < 0x100_0000
      ensures !found ==> forall p: nat :: Top(value, 3) < p ==> !HasPrefix(keys, 3, p)
    {
      hide TableInv, TrieInv, HasPrefix, LevelInv, Top, PrefixGap, NextPrefix;
      Pow256Table();
      TopBound(value, 3);
      var high24, high16, high8 := Top(value, 3), Top(value, 2), Top(value, 1);
      var b2, b1 := ByteOf(value, 2), ByteOf(value, 1);
      // level 2
      EmptyGap(3, high24);
      if b2 < 255 {
        var c2 := SearchLevel(depth2, 3, keys, high16, b2 + 1);
        if c2 != -1 {
          GapMeansNext(value, high16 * 256 + c2);
          return true, high16 * 256 + c2;
        }
      }
      // level 1
      EmptyGap(2, high16);
      if b1 < 255 {
        var c1 := SearchLevel(depth1, 2, keys, high8, b1 + 1);
        if c1 != -1 {
          q := FirstBelow(high8 * 256 + c1, high16);
          GapsJoin(keys, 3, high24, high16 * 256 + 256, q);
          GapMeansNext(value, q);
          return true, q;
        }
      }
      GapExtends(keys, 2, high16, high8 * 256 + 256);
      GapsJoin(keys, 3, high24, high16 * 256 + 256, high8 * 0x1_0000 + 0x1_0000);
      found, q := NextFromRoot(value);
    }

    // The flat levels have nothing after value under its first byte.
    method NextFromRoot(value: Key) returns (found: bool, q: nat)
      requires Valid() && Top(value, 3) < Top(value, 1) * 0x1_0000 + 0x1_0000 <= 0x100_0000
      requires PrefixGap(keys, 3, Top(value, 3), Top(value, 1) * 0x1_0000 + 0x1_0000)
      ensures found ==> NextPrefix(keys, value, q) && q < 0x100_0000
      ensures !found ==> forall p: nat :: Top(value, 3) < p ==> !HasPrefix(keys, 3, p)
    {
      hide TableInv, TrieInv, HasPrefix, LevelInv, Top, PrefixGap, NextPrefix;
      Pow256Table();
      var high24, high8 := Top(value, 3), Top(value, 1);
      EmptyGap(1, high8);
      if high8 < 255 {
        var c0 := SearchLevel(root, 1, keys, 0, high8 + 1);
        if c0 != -1 {
          var hi := FirstPairBelow(c0, high8);
          q := FirstBelow(hi, high8 * 256 + 255);
          GapsJoin(keys, 3, high24, high8 * 0x1_0000 + 0x1_0000, q);
          GapMeansNext(value, q);
          return true, q;
        }
      }
      GapExtends(keys, 1, high8, 256);
      GapExtends(keys, 2, high8 * 256 + 255, 0x1_0000);
      GapsJoin(keys, 3, high24, high8 * 0x1_0000 + 0x1_0000, 0x100_0000);
      NothingAfter(high24);
      return false, 0;
    }

    lemma EmptyGap(l: nat, p: int)
      requires l <= 8
      ensures PrefixGap(keys, l, p, p + 1)
    {
    }

    lemma GapMeansNext(value: Key, q: nat)
      requires HasPrefix(keys, 3, q) && Top(value, 3) < q && PrefixGap(keys, 3, Top(value, 3), q)
      ensures NextPrefix(keys, value, q)
      ensures q < 0x100_0000
    {
      PrefixBound(keys, 3, q);
      Pow256Table();
    }

    lemma NothingAfter(lo: int)
      requires PrefixGap(keys, 3, lo, 0x100_0000)
      ensures forall p: nat :: lo < p ==> !HasPrefix(keys, 3, p)
    {
      Pow256Table();
      forall p: nat | lo < p ensures !HasPrefix(keys, 3, p) {
        if HasPrefix(keys, 3, p) {
          PrefixBound(keys, 3, p);
        }
      }
    }

    // The first 2-byte prefix under the 1-byte prefix hi, the next one after lo.
    method FirstPairBelow(hi: nat, ghost lo: nat) returns (q: nat)
      requires Valid() && hi < 256 && HasPrefix(keys, 1, hi) && PrefixGap(keys, 1, lo, hi)
      ensures hi * 256 <= q < hi * 256 + 256 && HasPrefix(keys, 2, q) && PrefixGap(keys, 2, lo * 256 + 255, q)
    {
      hide TableInv, TrieInv, HasPrefix, LevelInv;
      Pow256Table();
      ghost var e := PrefixExtends(keys, 1, hi);
      var c := SearchLevel(depth1, 2, keys, hi, 0);
      GapExtends(keys, 1, lo, hi);
      GapsJoin(keys, 2, lo * 256 + 255, hi * 256, hi * 256 + c);
      q := hi * 256 + c;
    }

    // The first 3-byte prefix under the 2-byte prefix hi, the next one after lo.
    method FirstBelow(hi: nat, ghost lo: nat) returns (q: nat)
      requires Valid() && hi < 0x1_0000 && HasPrefix(keys, 2, hi) && PrefixGap(keys, 2, lo, hi)
      ensures hi * 256 <= q < hi * 256 + 256 && HasPrefix(keys, 3, q) && PrefixGap(keys, 3, lo * 256 + 255, q)
    {
      hide TableInv, TrieInv, HasPrefix, LevelInv;
      Pow256Table();
      ghost var e := PrefixExtends(keys, 2, hi);
      var c := SearchLevel(depth2, 3, keys, hi, 0);
      GapExtends(keys, 2, lo, hi);
      GapsJoin(keys, 3, lo * 256 + 255, hi * 256, hi * 256 + c);
      q := hi * 256 + c;
    }
  }
}
