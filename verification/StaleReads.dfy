// Lookups that pass their version check and yet do not answer for one moment, beside runs of the
// writer with the hash functions of the code and its smallest table.
module StaleReads {
  import opened Keys
  import opened Slots
  import opened CuckooTable
  import opened Trie
  import opened TrieInsert
  import opened FlatLevels
  import opened MlpSet
  import opened Encoding
  import opened HashValues
  import opened Snapshot
  import opened Reader
  import opened LevelVersions
  import opened Versioned
  import opened Locks
  import opened Served
  import opened VersionedSet
  import opened Counterexamples

  // ---------- reading ----------

  // The lookup of key that collects all versions at moment c and checks them at moment z.
  function LookupBetween(h: Hashes, n: nat, key: Key, c: nat, z: nat): (a: Attempt)
    requires 2 * GAP < n
    ensures LooksUp(a, h, n, key)
  {
    Attempt((i: int, k: int) => if !Lane(i, k) then 0
                                else if k == 0 then Place1(h, n, At(key, i + 1))
                                else Place2(h, n, At(key, i + 1)),
            (i, k) => c, c, (i, k) => z)
  }

  // What it reads if it finds in each lane the slots that tab says, and in slot 0 those of s0.
  function ReadsFrom(a: Attempt, tab: (int, int) -> seq<Slot>, s0: seq<Slot>): Reads {
    var mark := (i, k) => MarkOf(NodeView(tab(i, k), a.slot(i, k)));
    var key := (i, k) => KeyIn(NodeView(tab(i, k), a.slot(i, k)));
    Reads(mark, key, key, mark, key, key, (i: int) => MarkOf(NodeView(s0, GAP)), (i: int) => KeyIn(NodeView(s0, GAP)),
          (i: int) => KeyIn(NodeView(s0, GAP)))
  }

  // A reader may find the slots of any moment from the end of its collect loop to its check.
  lemma ReadsAreReal(hist: seq<Snap>, n: nat, a: Attempt, tab: (int, int) -> seq<Slot>, z: nat)
    requires SameSize(hist, n) && WellTimed(hist, n, a) && a.end <= z < |hist|
    requires forall i, k :: Lane(i, k) ==>
             a.checked(i, k) == z && (tab(i, k) == hist[a.end].slots || tab(i, k) == hist[z].slots)
    ensures IsRead(hist, a, z, ReadsFrom(a, tab, hist[a.end].slots))
  {
    hide ReadFrom, NodeView;
    forall i, k | Lane(i, k)
      ensures ReadFrom(hist, a.slot(i, k), a.end, z, MarkOf, MarkOf(NodeView(tab(i, k), a.slot(i, k))))
      ensures ReadFrom(hist, a.slot(i, k), a.end, z, KeyIn, KeyIn(NodeView(tab(i, k), a.slot(i, k))))
    {
      var u := if tab(i, k) == hist[a.end].slots then a.end else z;
      ReadAt(hist, n, a.slot(i, k), a.end, z, u, MarkOf);
      ReadAt(hist, n, a.slot(i, k), a.end, z, u, KeyIn);
    }
    ReadAt(hist, n, GAP, a.end, z, a.end, MarkOf);
    ReadAt(hist, n, GAP, a.end, z, a.end, KeyIn);
  }

  lemma ReadAt<T>(hist: seq<Snap>, n: nat, q: nat, lo: nat, hi: nat, u: nat, field: View -> T)
    requires SameSize(hist, n) && lo <= u <= hi && u < |hist|
    ensures ReadFrom(hist, q, lo, hi, field, field(NodeView(hist[u].slots, q)))
  {
    assert SeenAfter(hist, u, hist[u].slots);
    assert CanRead(hist, u, q, field, field(NodeView(hist[u].slots, q)));
  }

  // No longer prefix matches, and the first candidate of length 3 does.
  lemma AnswersAtThree(r: Reads, h: Hashes, key: Key)
    requires forall i, k :: Lane(i, k) && i > 2 ==> !(r.mark(i, k).Mark? && r.mark(i, k).ilen == i + 1)
    requires r.mark(2, 0) == Mark(3, Print(h, At(key, 3))) && Top(r.prefix(2, 0), 3) == Top(key, 3)
    ensures Answered(r, h, key) == Found(3, Lcp(key, r.key(2, 0)))
  {
    hide Print, Top, Lcp;
    assert Lane(7, 0) && Lane(7, 1) && Lane(6, 0) && Lane(6, 1) && Lane(5, 0) && Lane(5, 1);
    assert Lane(4, 0) && Lane(4, 1) && Lane(3, 0) && Lane(3, 1);
    assert FirstMatch(r, h, key, 7) == FirstMatch(r, h, key, 4);
    assert FirstMatch(r, h, key, 4) == FirstMatch(r, h, key, 2);
  }

  // ---------- places ----------

  // Where lookups of keys that start with the first seven bytes of D look, lengths 3 to 7.
  lemma LanesOfD(h: Hashes, n: nat, key: Key)
    requires h == CodeHashes(14) && n == SLOTS + 2 * GAP && Top(key, 7) == Top(D, 7)
    ensures Place1(h, n, At(key, 3)) == GAP + 3783 && Place2(h, n, At(key, 3)) == GAP + 12184
    ensures forall i, k :: Lane(i, k) && i <= 6 ==>
              var p := if k == 0 then Place1(h, n, At(key, i + 1)) else Place2(h, n, At(key, i + 1));
              p !in {GAP + 9937, GAP + 6811, GAP + 12433} && (i > 2 ==> p != GAP + 3783)
  {
    hide CodeHashes, Place1, Place2, Top;
    forall l | 3 <= l <= 7 ensures At(key, l) == At(D, l) {
      AgreeShorter(key, D, l, 7);
    }
    D3First();
    D3Second();
    D4First();
    D4Second();
    D5First();
    D5Second();
    D6First();
    D6Second();
    D7First();
    D7Second();
  }

  // ---------- displacing one node ----------

  lemma OneLink(s: seq<Slot>, h: Hashes, ver: seq<nat>, p: int, q: int)
    requires 2 * GAP < |s| == |ver| && (forall i :: IsNode(s, i) ==> s[i].ilen <= 8)
    requires IsNode(s, p) && Other(s, h, p) == q && s[q] == Empty && ver[q] % 2 == 0
    ensures Chain(s, h, p, 1000) == Some([p]) && Stirred(s, h, p, 1000) == {p, q} && DestsEven(s, h, ver, p, 1000)
  {
    hide Other;
  }

  // ---------- a stored key that is missed ----------

  // The trie of two keys that share seven bytes.
  function TrieOfTwo(d: Key, e: Key): map<Index, Info> {
    map[At(d, 3) := Info(7, d, {ByteOf(d, 7), ByteOf(e, 7)}), At(d, 8) := Leaf(d), At(e, 8) := Leaf(e)]
  }

  lemma TwoKeysApart(d: Key, e: Key)
    requires Top(e, 7) == Top(d, 7) && d < e
    ensures Lcp(e, d) == 7 && Top(e, 3) == Top(d, 3) && Top(e, 8) == e && Top(d, 8) == d && ByteOf(d, 7) != ByteOf(e, 7)
    ensures d == 256 * Top(d, 7) + ByteOf(d, 7) && e == 256 * Top(d, 7) + ByteOf(e, 7)
  {
    WholeKey(d);
    WholeKey(e);
    AgreeShorter(d, e, 3, 7);
    LcpSpec(e, d, 7);
    LcpSpec(e, d, 8);
  }

  lemma TrieOfTwoHolds(d: Key, e: Key)
    requires Top(e, 7) == Top(d, 7) && d < e
    ensures TrieInv(TrieOfTwo(d, e), {d, e})
  {
    hide Top, ByteOf, NodeInv;
    LeavesInTwo(d, e);
    ParentOfTwo(TrieOfTwo(d, e), d, e, TrieOfTwo(d, e)[At(d, 3)]);
    AgreeShorter(d, e, 3, 7);
  }

  lemma LeavesInTwo(d: Key, e: Key)
    requires Top(e, 7) == Top(d, 7) && d < e
    ensures NodeInv(TrieOfTwo(d, e), {d, e}, At(d, 8)) && NodeInv(TrieOfTwo(d, e), {d, e}, At(e, 8))
  {
    WholeKey(d);
    WholeKey(e);
    hide Top, ByteOf, NodeInv;
    assert {e} + {d} == {d, e} == {d} + {e};
    NewLeaf(TrieOfTwo(d, e), {e}, d, 8);
    NewLeaf(TrieOfTwo(d, e), {d}, e, 8);
  }

  lemma ParentOfTwo(m: map<Index, Info>, d: Key, e: Key, n: Info)
    requires At(d, 3) in m && m[At(d, 3)] == n == Info(7, d, {ByteOf(d, 7), ByteOf(e, 7)})
    requires (forall k :: k in m ==> k.len == 3 || k.len == 8) && At(d, 8) in m && At(e, 8) in m
    requires Top(e, 7) == Top(d, 7) && d < e
    ensures NodeInv(m, {d, e}, At(d, 3))
  {
    AgreeShorter(d, e, 3, 7);
    assert Child(n, ByteOf(d, 7)) == At(d, 8) && Child(n, ByteOf(e, 7)) == At(e, 8);
    hide Top, ByteOf, Child;
  }

  // The leaves of two keys, in slots q and x.
  method LeavesOfTwo(size: nat, h: Hashes, d: Key, e: Key, q: int, x: int) returns (t: CuckooHashTable)
    requires 0 < size && Top(d, 8) == d != e == Top(e, 8) && q != x
    requires var n := size + 2 * GAP; q == Place1(h, n, At(d, 8)) && x == Place2(h, n, At(e, 8))
    ensures t.Valid() && t.nodes == map[At(d, 8) := Leaf(d), At(e, 8) := Leaf(e)] && t.h == h
            && t.ht.Length == size + 2 * GAP
    ensures fresh(t) && fresh(t.ht) && HoldsIndex(t.ht[..], x, At(e, 8))
    ensures forall i :: 0 <= i < t.ht.Length && i != q && i != x ==> t.ht[i] == Empty
  {
    hide TableInv, Place1, Place2, Top, Children, OthersKept;
    t := new CuckooHashTable(size, h);
    t.Init(q, 8, 8, d, -1);
    t.Init(x, 8, 8, e, -1);
  }

  // A table of that trie: the node of length 3 in slot p, the leaf of e in its second place x.
  method TableOfTwo(size: nat, h: Hashes, d: Key, e: Key, p: int, q: int, x: int) returns (t: CuckooHashTable)
    requires 0 < size && Top(e, 7) == Top(d, 7) && d < e && p != q && p != x && q != x
    requires var n := size + 2 * GAP;
             p == Place1(h, n, At(d, 3)) && q == Place1(h, n, At(d, 8)) && x == Place2(h, n, At(e, 8))
    ensures t.Valid() && t.nodes == TrieOfTwo(d, e) && t.h == h && t.ht.Length == size + 2 * GAP && fresh(t)
            && fresh(t.ht)
    ensures HoldsIndex(t.ht[..], p, At(d, 3)) && HoldsIndex(t.ht[..], x, At(e, 8))
    ensures forall i :: 0 <= i < t.ht.Length && i != p && i != q && i != x ==> t.ht[i] == Empty
  {
    hide TableInv, Place1, Place2, Top, Children, OthersKept, ByteOf, SameIndices, Lcp;
    TwoKeysApart(d, e);
    t := LeavesOfTwo(size, h, d, e, q, x);
    t.Init(p, 3, 7, d, ByteOf(d, 7));
    ghost var s, m := t.ht[..], t.nodes;
    Located(s, h, m, At(d, 3));
    t.AddChildOf(p, ByteOf(e, 7), At(d, 3));
    StillThere(s, t.ht[..], p, At(d, 3));
    StillThere(s, t.ht[..], x, At(e, 8));
    SameFree(s, t.ht[..], p);
    assert {ByteOf(d, 7)} + {ByteOf(e, 7)} == {ByteOf(d, 7), ByteOf(e, 7)};
  }

  lemma StillThere(s: seq<Slot>, r: seq<Slot>, i: int, k: Index)
    requires SameIndices(s, r) && HoldsIndex(s, i, k)
    ensures HoldsIndex(r, i, k)
  {
  }

  lemma SameFree(s: seq<Slot>, r: seq<Slot>, p: int)
    requires 2 * GAP < |s| && 0 <= p < |s| && s[p].Node? && s[p].kids.Inline? && s[p].kids.num == 1
    requires SameLayout(AfterChild(s, p), r)
    ensures |r| == |s| && forall i :: 0 <= i < |s| && s[i] == Empty ==> r[i] == Empty
  {
    hide Top;
    forall i | 0 <= i < |s| ensures CellOf(s[i]) == CellOf(r[i]) {
    }
  }

  // A displacement moves the leaf of e from x to its first place y. Every moment has the trie of d and
  // e, no version that is checked changes, and a lookup of e that looks at y before and at x after
  // answers with the parent, seven bytes.
  method MissedBetween(size: nat, h: Hashes, d: Key, e: Key, p: int, q: int, x: int, y: int)
    returns (vt: VersionedTable, ghost a: Attempt, ghost r: Reads)
    requires 0 < size && Top(e, 7) == Top(d, 7) && d < e && p != q && p != x && p != y && q != x && q != y && x != y
    requires var n := size + 2 * GAP;
             && p == Place1(h, n, At(d, 3)) && q == Place1(h, n, At(d, 8))
             && x == Place2(h, n, At(e, 8)) && y == Place1(h, n, At(e, 8))
             && forall i, k :: Lane(i, k) && i <= 6 ==>
                  (if k == 0 then Place1(h, n, At(e, i + 1)) else Place2(h, n, At(e, i + 1))) !in {x, y}
    ensures var n, hist := vt.ver.Length, vt.hist;
            && vt.Aligned() && vt.table.h == h && n == size + 2 * GAP && Disciplined(hist, 0)
            && Keeps(hist, 0, h, TrieOfTwo(d, e)) && TrieInv(TrieOfTwo(d, e), {d, e})
            && WellTimed(hist, n, a) && Passes(hist, n, a) && LanesSteady(hist, a, 6) && LooksUp(a, h, n, e)
            && IsRead(hist, a, |hist| - 1, r) && Answered(r, h, e) == Found(3, 7)
  {
    hide TableInv, TrieInv, Place1, Place2, Top, Disciplined, Chain, Stirred, DestsEven, AfterDisplacement,
         ChainMoved, Keeps, Calm, TrieOfTwo, IsRead, Answered, ReadsFrom, Passes, LanesSteady, LooksUp, Lcp, SameNode,
         NodeOk, SameSize;
    TrieOfTwoHolds(d, e);
    TwoKeysApart(d, e);
    var t := TableOfTwo(size, h, d, e, p, q, x);
    vt := new VersionedTable(t);
    ghost var n, s0, m := t.ht.Length, t.ht[..], t.nodes;
    NodesAreOk(s0, h, m);
    OneLink(s0, h, vt.ver[..], x, y);
    var failed := vt.HashTableCuckooDisplacement(x, 1);
    ghost var z, s1 := |vt.hist| - 1, t.ht[..];
    a := LookupBetween(h, n, e, 0, z);
    OffChain(s0, s1, h, x, p);
    QuietLanes(vt.hist, n, a, {x, y}, z);
    ghost var tab := (i: int, k: int) => if i == 7 && k == 0 then s0 else s1;
    ReadsAreReal(vt.hist, n, a, tab, z);
    r := ReadsFrom(a, tab, s0);
    LeafSeenNowhere(s0, s1, h, d, e, p, a, tab);
  }

  lemma OffChain(s: seq<Slot>, t: seq<Slot>, h: Hashes, x: int, p: int)
    requires Shape(s) && Chain(s, h, x, 1000) == Some([x]) && ChainMoved(s, t, h, x, 1000) && IsNode(s, p) && p != x
    ensures NodeOk(s[p]) && SameNode(s, p, t, p)
  {
    hide Chain, SameNode, NodeOk;
    NodesAreOkShape(s);
  }

  // Lanes outside the slots that were counted up are steady, from even versions on.
  lemma QuietLanes(hist: seq<Snap>, n: nat, a: Attempt, ps: set<int>, z: nat)
    requires SameSize(hist, n) && |hist| > 0 && z == |hist| - 1 && WellTimed(hist, n, a) && Calm(hist, 0, ps)
    requires a.end == 0 && forall i, k :: Lane(i, k) ==> a.collected(i, k) == 0 && a.checked(i, k) == z
    requires forall i, k :: Lane(i, k) && i <= 6 ==> a.slot(i, k) !in ps
    requires forall p :: 0 <= p < n ==> hist[0].ver[p] == 0
    ensures Passes(hist, n, a) && LanesSteady(hist, a, 6)
  {
  }

  lemma LeafSeenNowhere(s0: seq<Slot>, s1: seq<Slot>, h: Hashes, d: Key, e: Key, p: int, a: Attempt,
                        tab: (int, int) -> seq<Slot>)
    requires Top(e, 7) == Top(d, 7) && d < e && TableInv(s0, h, TrieOfTwo(d, e)) && TableInv(s1, h, TrieOfTwo(d, e))
    requires HoldsIndex(s0, p, At(d, 3)) && NodeOk(s0[p]) && SameNode(s0, p, s1, p) && a.slot(2, 0) == p
    requires a.slot(7, 0) < |s0| && s0[a.slot(7, 0)] == Empty && a.slot(7, 1) < |s1| && s1[a.slot(7, 1)] == Empty
    requires tab(7, 0) == s0 && forall i, k :: Lane(i, k) && (i != 7 || k != 0) ==> tab(i, k) == s1
    ensures Answered(ReadsFrom(a, tab, s0), h, e) == Found(3, 7)
  {
    hide TableInv, TrieInv, Top, Lcp, Answered, Print, Children, NodeOk;
    var m := TrieOfTwo(d, e);
    TwoKeysApart(d, e);
    PrintMatches(s1, h, m);
    Located(s0, h, m, At(d, 3));
    NodesAreOk(s1, h, m);
    forall i | IsNode(s1, i) ensures s1[i].ilen == 3 || s1[i].ilen == 8 {
      NodeInMap(s1, h, m, i);
    }
    AnswersAtThree(ReadsFrom(a, tab, s0), h, e);
  }

  lemma NodeInMap(s: seq<Slot>, h: Hashes, m: map<Index, Info>, i: int)
    requires TableInv(s, h, m) && IsNode(s, i)
    ensures s[i].ilen <= 8 && IndexOf(s[i]) in m
  {
  }

  // The run: the leaf of D + 1 moves.
  method StoredKeyMissed() returns (vt: VersionedTable, ghost a: Attempt, ghost r: Reads)
    ensures var h, n, hist := CodeHashes(14), vt.ver.Length, vt.hist;
            && vt.Aligned() && vt.table.h == h && n == SLOTS + 2 * GAP && Disciplined(hist, 0)
            && Keeps(hist, 0, h, TrieOfTwo(D, D + 1)) && TrieInv(TrieOfTwo(D, D + 1), {D, D + 1})
            && WellTimed(hist, n, a) && Passes(hist, n, a) && LanesSteady(hist, a, 6) && LooksUp(a, h, n, D + 1)
            && IsRead(hist, a, |hist| - 1, r) && Answered(r, h, D + 1) == Found(3, 7)
  {
    hide CodeHashes, Place1, Place2, Top, TrieInv, Keeps, Disciplined, Passes, LanesSteady, LooksUp, IsRead, Answered,
         TrieOfTwo, SameSize;
    PlacesForRun(CodeHashes(14), SLOTS + 2 * GAP);
    vt, a, r := MissedBetween(SLOTS, CodeHashes(14), D, D + 1, GAP + 3783, GAP + 13785, GAP + 12433, GAP + 6811);
  }

  lemma PlacesForRun(h: Hashes, n: nat)
    requires h == CodeHashes(14) && n == SLOTS + 2 * GAP
    ensures Place1(h, n, At(D, 3)) == GAP + 3783 && Place1(h, n, At(D, 8)) == GAP + 13785
    ensures Place1(h, n, At(D + 1, 8)) == GAP + 6811 && Place2(h, n, At(D + 1, 8)) == GAP + 12433
    ensures Top(D + 1, 7) == Top(D, 7)
    ensures forall i, k :: Lane(i, k) && i <= 6 ==>
              var p := if k == 0 then Place1(h, n, At(D + 1, i + 1)) else Place2(h, n, At(D + 1, i + 1));
              p !in {GAP + 12433, GAP + 6811}
  {
    hide CodeHashes, Place1, Place2, Top;
    TopsOfCD();
    PlacesOfCD(h, n);
    DNext8Second();
    LanesOfD(h, n, D + 1);
  }

  // ---------- a check that passes over a new leaf ----------

  lemma LeafSeenLate(s0: seq<Slot>, s1: seq<Slot>, h: Hashes, m: map<Index, Info>, d: Key, p: int, a: Attempt,
                     tab: (int, int) -> seq<Slot>)
    requires TableInv(s1, h, m) && (forall k :: k in m ==> k.len == 3) && At(d, 3) in m && m[At(d, 3)] == Leaf(d)
    requires HoldsIndex(s1, p, At(d, 3)) && a.slot(2, 0) == p && forall i, k :: Lane(i, k) ==> tab(i, k) == s1
    ensures Answered(ReadsFrom(a, tab, s0), h, d) == Found(3, 8)
  {
    hide TableInv, Top, Lcp, Answered, Print, Children;
    PrintMatches(s1, h, m);
    Located(s1, h, m, At(d, 3));
    forall i | IsNode(s1, i) ensures s1[i].ilen == 3 {
      NodeInMap(s1, h, m, i);
    }
    LcpSpec(d, d, 8);
    AnswersAtThree(ReadsFrom(a, tab, s0), h, d);
  }

  // All lanes pass if the only version among theirs that was counted up came back.
  lemma LanesPass(hist: seq<Snap>, n: nat, a: Attempt, c: nat, z: nat, p: int, q: int)
    requires SameSize(hist, n) && c <= z == |hist| - 1 && WellTimed(hist, n, a) && a.end == c
    requires forall i, k :: Lane(i, k) ==> a.collected(i, k) == c && a.checked(i, k) == z
    requires Calm(hist, c, {p, q}) && (forall x :: 0 <= x < n ==> hist[c].ver[x] % 2 == 0)
    requires forall i, k :: Lane(i, k) && i <= 6 ==> a.slot(i, k) != q
    requires 0 <= p < n && hist[c].ver[p] == hist[z].ver[p]
    ensures Passes(hist, n, a)
  {
  }

  // The table of C and E, which takes both places of D: the leaf of D displaces C.
  lemma DisplacesC(s: seq<Slot>, h: Hashes, m: map<Index, Info>, ver: seq<nat>, coin: bool)
    requires h == CodeHashes(14) && |s| == SLOTS + 2 * GAP == |ver| && TableInv(s, h, m)
    requires TwoLeaves(s, m, C, E, GAP + 3783, GAP + 12184) && forall p :: 0 <= p < |ver| ==> ver[p] % 2 == 0
    ensures (forall i :: IsNode(s, i) ==> s[i].ilen <= 8) && NoneDeeper(m, D, 2)
    ensures !SplitCannotReserve(s, h, m, D, coin) && !SplitLosesNode(s, h, m, D, coin)
    ensures !LeafCannotReserve(s, h, m, D, coin, true) && ProperlyLocked(s, h, m, D, coin, true)
    ensures ReservedAt(s, h, At(D, 3), true) == GAP + 3783
    ensures RoomStirs(s, h, At(D, 3), true) == {GAP + 3783, GAP + 9937}
  {
    hide CodeHashes;
    var p, q := GAP + 3783, GAP + 9937;
    NodesAreOk(s, h, m);
    PlacesOfC(h, |s|);
    PrefixesApart();
    assert NoneDeeper(m, D, 2) by {
      hide Top;
    }
    NoSplit(s, h, m, D, coin, 0);
    LeafOutcomeAtRoot(s, h, m, D, coin, true);
    ProperlyLockedNone(s, h, m, D, coin, true);
    hide *;
    IsOther(s, h, At(C, 3), p, q);
    OneLink(s, h, ver, p, q);
    BothTaken(s, h, At(D, 3), p);
  }

  lemma PlacesOfC(h: Hashes, n: nat)
    requires h == CodeHashes(14) && n == SLOTS + 2 * GAP
    ensures Place1(h, n, At(C, 3)) == GAP + 3783 && Place2(h, n, At(C, 3)) == GAP + 9937
    ensures Place1(h, n, At(D, 3)) == GAP + 3783 && Place2(h, n, At(D, 3)) == GAP + 12184
    ensures Place1(h, n, At(E, 3)) == GAP + 12184
  {
    hide CodeHashes, Place1, Place2, Top;
    C3First();
    C3Second();
    D3First();
    D3Second();
    E3First();
  }

  lemma PrefixesApart()
    ensures At(C, 3) != At(D, 3) && At(E, 3) != At(D, 3) && At(C, 3) != At(E, 3)
  {
    TopsOfCD();
    assert Top(E, 5) == 0x2385_0000;
  }

  lemma IsOther(s: seq<Slot>, h: Hashes, k: Index, p: int, q: int)
    requires 2 * GAP < |s| && HoldsIndex(s, p, k) && Place1(h, |s|, k) == p && Place2(h, |s|, k) == q
    ensures Other(s, h, p) == q
  {
    hide Top, Place1, Place2;
  }

  lemma BothTaken(s: seq<Slot>, h: Hashes, k: Index, p: int)
    requires 2 * GAP < |s| && (forall i :: IsNode(s, i) ==> s[i].ilen <= 8) && Place1(h, |s|, k) == p
    requires s[p] != Empty && s[Place2(h, |s|, k)] != Empty && Chain(s, h, p, 1000).Some?
    ensures ReservedAt(s, h, k, true) == p && RoomStirs(s, h, k, true) == Stirred(s, h, p, 1000)
            && !NoRoom(s, h, k, true)
  {
    hide Place1, Place2, Stirred, Chain;
  }

  // C and E are in the set, their slots at version 2. Then D is inserted, in the slot of C, whose
  // version Init resets and the unlock leaves at 2 again.
  method ThirdTakesSlot(c1: bool, c2: bool, c3: bool, c4: bool, c5: bool)
    returns (v: VersionedSet, ghost m: map<Index, Info>, ghost c: nat)
    ensures v.Valid() && v.index.keys == {C, E, D} && Disciplined(v.vt.hist, 0) && v.index.table.h == CodeHashes(14)
    ensures v.index.table.ht.Length == SLOTS + 2 * GAP && v.index.table.nodes == m[At(D, 3) := Leaf(D)]
    ensures forall k :: k in m ==> k.len == 3
    ensures c < |v.vt.hist| && TableInv(v.vt.hist[c].slots, CodeHashes(14), m) && TrieInv(m, {C, E})
    ensures Calm(v.vt.hist, c, {GAP + 3783, GAP + 9937}) && AllEven(v.vt.hist[c].ver)
    ensures EndsAtTwo(v.vt.hist, c, GAP + 3783) && v.vt.hist[c].ver[GAP + 3783] == 2
    ensures HoldsIndex(v.index.table.ht[..], GAP + 3783, At(D, 3))
  {
    hide CodeHashes, Place1, Place2, Top, TableInv, TrieInv, LevelInv, SplitCannotReserve, SplitLosesNode,
         LeafCannotReserve, NodePut, ProperlyLocked, Disciplined, SameSize, AllEven, Shows, Calm, CutSlot, HasPrefix,
         TwoLeaves, RoomStirs, ReservedAt, NoneDeeper, EndsAtTwo, Counted, ResetsAt, CutSlots, LeafSlots, LevelKept,
         LevelsCounted, LevelsExact, CountedUp;
    PlacesOfC(CodeHashes(14), SLOTS + 2 * GAP);
    PrefixesApart();
    v := TwoVersionedKeys(C, E, c1, c2, c3, c4);
    var t := v.index.table;
    ghost var h, s0, hist0 := t.h, t.ht[..], v.vt.hist;
    m, c := t.nodes, |hist0| - 1;
    EvenVersions(v.vt.ver[..]);
    DisplacesC(s0, h, m, v.vt.ver[..], c5);
    LengthsOfTwo(s0, m, C, E, GAP + 3783, GAP + 12184);
    var o := v.Insert(D, c5, true);
    DisciplineSplits(hist0, v.vt.hist, 0);
    PutThere(s0, t.ht[..], h, m, D, GAP + 3783);
    assert {GAP + 3783, GAP + 9937} + {GAP + 3783} == {GAP + 3783, GAP + 9937};
  }

  lemma LengthsOfTwo(s: seq<Slot>, m: map<Index, Info>, a: Key, b: Key, p: int, q: int)
    requires TwoLeaves(s, m, a, b, p, q)
    ensures forall k :: k in m ==> k.len == 3
  {
    hide Top;
  }

  // The run: a lookup of D collects the versions of its lanes before that insertion, passes its check
  // after it and takes D for a member, which it was not when the versions were collected.
  method CheckPassesOverNewLeaf(c1: bool, c2: bool, c3: bool, c4: bool, c5: bool)
    returns (v: VersionedSet, ghost m: map<Index, Info>, ghost a: Attempt, ghost r: Reads)
    ensures v.Valid() && v.index.keys == {C, E, D} && Disciplined(v.vt.hist, 0)
    ensures var h, n, hist := v.index.table.h, v.vt.ver.Length, v.vt.hist;
            && h == CodeHashes(14) && 2 * GAP < n && SameSize(hist, n) && WellTimed(hist, n, a) && Passes(hist, n, a)
            && LooksUp(a, h, n, D) && IsRead(hist, a, |hist| - 1, r) && Answered(r, h, D) == Found(3, 8)
            && TableInv(hist[a.end].slots, h, m) && TrieInv(m, {C, E})
  {
    hide CodeHashes, Place1, Place2, Top, TableInv, TrieInv, Disciplined, AllEven, Calm, EndsAtTwo, IsRead, Answered,
         ReadsFrom, Passes, LooksUp, NoReturn, LevelInv, Counted, ResetsAt, CutSlots, LeafSlots, LevelKept,
         LevelsCounted, LevelsExact, CountedUp;
    ghost var c;
    v, m, c := ThirdTakesSlot(c1, c2, c3, c4, c5);
    ghost var h, n, hist := v.index.table.h, v.vt.ver.Length, v.vt.hist;
    ghost var z, s1 := |hist| - 1, v.index.table.ht[..];
    a := LookupBetween(h, n, D, c, z);
    LanesOfD(h, n, D);
    EvenVersions(hist[c].ver);
    EndsThere(hist, c, GAP + 3783);
    LanesPass(hist, n, a, c, z, GAP + 3783, GAP + 9937);
    ghost var tab := (i: int, k: int) => s1;
    ReadsAreReal(hist, n, a, tab, z);
    r := ReadsFrom(a, tab, hist[c].slots);
    LeafSeenLate(hist[c].slots, s1, h, v.index.table.nodes, D, GAP + 3783, a, tab);
  }

  lemma EndsThere(hist: seq<Snap>, c: nat, i: int)
    requires EndsAtTwo(hist, c, i)
    ensures c < |hist| && 0 <= i < |hist[c].ver| == |hist[|hist| - 1].ver| && hist[|hist| - 1].ver[i] == 2
  {
  }

  lemma EvenVersions(ver: seq<nat>)
    requires AllEven(ver)
    ensures forall p :: 0 <= p < |ver| ==> ver[p] % 2 == 0
  {
  }

  lemma PutThere(s: seq<Slot>, r: seq<Slot>, h: Hashes, m: map<Index, Info>, d: Key, p: int)
    requires TableInv(s, h, m) && 2 * GAP < |s| == |r| && (forall i :: IsNode(s, i) ==> s[i].ilen <= 8)
    requires NodePut(s, r, h, At(d, 3), true) && ReservedAt(s, h, At(d, 3), true) == p
    ensures HoldsIndex(r, p, At(d, 3))
  {
    hide TableInv, Top, ReservedAt, AfterReservation;
  }
}
