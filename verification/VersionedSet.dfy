// The locked insertion: versions of the slots on the path go up before the trie changes, and
// every version is even again afterwards.
module VersionedSet {
  import opened Bits
  import opened Keys
  import opened Slots
  import opened CuckooTable
  import opened Trie
  import opened TrieInsert
  import opened FlatLevels
  import opened MlpSet
  import opened Snapshot
  import opened LevelVersions
  import opened Versioned
  import opened Locks
  import opened Served

  class VersionedSet {
    const index: MlpSet
    const vt: VersionedTable
    var rootVer: Wide
    var depth1Ver: Wide
    var depth2Ver: Wide
    // The flat levels after each step of the writer.
    ghost var tops: seq<Levels>

    ghost predicate Linked()
      reads this, vt
    {
      && vt.table == index.table
      && vt.ver as object != index.root && vt.ver as object != index.depth1 && vt.ver as object != index.depth2
      && vt as object != index && vt as object != index.table && this as object != vt && this as object != index
         && this as object != index.table
    }

    ghost predicate TopEven()
      reads this
    {
      rootVer % 2 == 0 && depth1Ver % 2 == 0 && depth2Ver % 2 == 0
    }

    ghost predicate Valid()
      reads this, vt, vt.ver, vt.table.ht, index, index.table, index.table.ht, index.root, index.depth1, index.depth2
    {
      Linked() && index.Valid() && vt.Aligned() && TopsAligned()
    }

    ghost function TopVers(): seq<nat>
      reads this
    {
      [rootVer, depth1Ver, depth2Ver]
    }

    ghost function TopWords(): seq<seq<Word>>
      reads index.root, index.depth1, index.depth2
    {
      [index.root[..], index.depth1[..], index.depth2[..]]
    }

    // The flat levels as they are.
    ghost function Now(): Levels
      reads this, index.root, index.depth1, index.depth2, index.table
    {
      Levels(TopVers(), TopWords(), index.table.nodes)
    }

    // Their history ends there, counted every version properly, and at each of its moments the bits of
    // the third level were the three-byte prefixes with a node.
    ghost predicate TopsAligned()
      reads this, index.root, index.depth1, index.depth2
    {
      |tops| > 0 && tops[|tops| - 1].ver == TopVers() && tops[|tops| - 1].words == TopWords()
      && LevelsCounted(tops) && LevelsExact(tops)
    }

    constructor (maxSetSize: nat, hashes: Hashes)
      requires maxSetSize <= 0x1000_0000
      ensures Valid() && index.keys == {} && TopEven() && AllEven(vt.ver[..]) && |tops| == 1
      ensures |vt.hist| == 1 && Disciplined(vt.hist, 0) && Shows(vt.hist, 0, hashes, {}, {})
      ensures SizedFor(index.table.ht.Length, maxSetSize) && index.table.h == hashes && index.table.nodes == map[]
      ensures forall i :: 0 <= i < index.table.ht.Length ==> index.table.ht[i] == Empty
      ensures fresh(index) && fresh(vt) && fresh(index.table) && fresh(index.table.ht) && fresh(vt.ver)
      ensures fresh(index.root) && fresh(index.depth1) && fresh(index.depth2)
    {
      var s := new MlpSet(maxSetSize, hashes);
      var v := new VersionedTable(s.table);
      index := s;
      vt := v;
      rootVer, depth1Ver, depth2Ver := 0, 0, 0;
      new;
      tops := [Now()];
      LevelHasNodes(index.depth2[..], index.table.nodes, {});
      TrieServes(index.table.nodes, {});
      NothingYet(vt.hist, hashes, index.table.nodes, {});
      KeptShows(vt.hist, 0, hashes, index.table.nodes, {}, {});
    }

    // ---------- locks on the path ----------

    method LockPath(pos1: seq<int>, pos2: seq<int>, ilen: nat)
      requires vt.Aligned() && |pos1| == 8 && |pos2| == 8 && ilen <= 8
               && InRange(PathLocks(pos1, pos2, ilen), vt.ver.Length)
      modifies vt.ver, vt`hist
      ensures vt.OnlyVersions()
      ensures Incremented(old(vt.ver[..]), vt.ver[..], PathLocks(pos1, pos2, ilen))
    {
      hide Disciplined, SameSize, Counted, StepOk, OneOf, Incremented, Plus, PathLocks, InRange;
      ghost var ver0, hist0, all := vt.ver[..], vt.hist, PathLocks(pos1, pos2, ilen);
      NotIncremented(ver0);
      SelfDisciplined(hist0);
      SameSlots(hist0);
      ghost var done: seq<int> := [];
      var j := ilen;
      while j > 2
        invariant 0 <= j <= ilen
        invariant vt.Aligned() && vt.table.ht[..] == old(vt.table.ht[..]) && hist0 <= vt.hist
                  && Disciplined(vt.hist, |hist0| - 1) && OneOf(vt.hist, |hist0| - 1, vt.table.ht[..], vt.table.ht[..])
        invariant done + PathLocks(pos1, pos2, j) == all
        invariant Incremented(ver0, vt.ver[..], done)
      {
        PathStep(pos1, pos2, j, done, all, vt.ver.Length);
        ghost var h1, v1 := vt.hist, vt.ver[..];
        LockPair(pos1[j - 1], pos2[j - 1]);
        IncrementedPair(ver0, v1, vt.ver[..], done, pos1[j - 1], pos2[j - 1]);
        DisciplineSplits(h1, vt.hist, |hist0| - 1);
        OneOfOn(h1, vt.hist, |hist0| - 1, vt.table.ht[..], vt.table.ht[..]);
        done := done + [pos1[j - 1], pos2[j - 1]];
        j := j - 1;
      }
      PathEnd(pos1, pos2, j, done);
    }

    method LockPair(p: int, q: int)
      requires vt.Aligned() && 0 <= p < vt.ver.Length && 0 <= q < vt.ver.Length
      modifies vt.ver, vt`hist
      ensures vt.OnlyVersions()
      ensures var v := old(vt.ver[..])[p := Plus(old(vt.ver[p]), 1)]; vt.ver[..] == v[q := Plus(v[q], 1)]
    {
      hide Disciplined, SameSize, Counted, StepOk, OneOf, Calm, Plus;
      vt.Inc(p);
      ghost var h := vt.hist;
      vt.Inc(q);
      DisciplineSplits(h, vt.hist, |old(vt.hist)| - 1);
      OneOfOn(h, vt.hist, |old(vt.hist)| - 1, vt.table.ht[..], vt.table.ht[..]);
    }

    // UNLOCK_PATH_FROM_LCP makes the version of every slot on the path even, however often the
    // slot occurs there, and no version odd.
    method UnlockPath(pos1: seq<int>, pos2: seq<int>, ilen: nat, ghost others: set<int>)
      requires vt.Aligned() && |pos1| == 8 && |pos2| == 8 && ilen <= 8
               && InRange(PathLocks(pos1, pos2, ilen), vt.ver.Length)
      requires OddOnlyAt(vt.ver[..], (set p | p in PathLocks(pos1, pos2, ilen)) + others)
      modifies vt.ver, vt`hist
      ensures vt.OnlyVersions() && OddOnlyAt(vt.ver[..], others)
      ensures OddUpdated(old(vt.ver[..]), vt.ver[..])
    {
      hide Disciplined, SameSize, Counted, StepOk, OneOf, Calm, OddUpdated, OddOnlyAt, InRange, Plus;
      ghost var hist0 := vt.hist;
      SelfDisciplined(hist0);
      SameSlots(hist0);
      NoneUpdated(vt.ver[..]);
      var j := ilen;
      while j > 2
        invariant 0 <= j <= ilen
        invariant vt.Aligned() && vt.table.ht[..] == old(vt.table.ht[..]) && hist0 <= vt.hist
                  && Disciplined(vt.hist, |hist0| - 1) && OneOf(vt.hist, |hist0| - 1, vt.table.ht[..], vt.table.ht[..])
        invariant OddUpdated(old(vt.ver[..]), vt.ver[..])
        invariant InRange(PathLocks(pos1, pos2, j), vt.ver.Length)
        invariant OddOnlyAt(vt.ver[..], (set p | p in PathLocks(pos1, pos2, j)) + others)
      {
        ghost var rest := PathLocks(pos1, pos2, j - 1);
        FirstTwo(pos1[j - 1], pos2[j - 1], rest, vt.ver.Length);
        ghost var h1, v1 := vt.hist, vt.ver[..];
        vt.CondInc(pos1[j - 1]);
        ghost var h2, v2 := vt.hist, vt.ver[..];
        vt.CondInc(pos2[j - 1]);
        UnlockedTwo(v1, vt.ver[..], pos1[j - 1], pos2[j - 1], rest, others);
        DisciplineSplits(h1, h2, |hist0| - 1);
        DisciplineSplits(h2, vt.hist, |hist0| - 1);
        OneOfOn(h1, h2, |hist0| - 1, vt.table.ht[..], vt.table.ht[..]);
        OneOfOn(h2, vt.hist, |hist0| - 1, vt.table.ht[..], vt.table.ht[..]);
        UpdatedOn(old(vt.ver[..]), v1, v2, pos1[j - 1]);
        UpdatedOn(old(vt.ver[..]), v2, vt.ver[..], pos2[j - 1]);
        j := j - 1;
      }
      NoLocksLeft(vt.ver[..], PathLocks(pos1, pos2, j), others);
    }

    // ---------- contents steps under the locks ----------

    // The compressed path matches: one more child at pos.
    method Attach(value: Key, ilen: nat, pos: int) returns (updated: bool)
      requires Valid() && Deepest(index.table.nodes, value, ilen) && value !in index.keys
      requires HoldsIndex(index.table.ht[..], pos, At(value, ilen))
      requires Lcp(value, index.table.nodes[At(value, ilen)].minKey) == index.table.nodes[At(value, ilen)].dlen
      modifies vt`hist, index.table`nodes, index.table.ht
      ensures index.table.Valid() && vt.Aligned() && old(vt.hist) <= vt.hist
      ensures index.table.nodes == Lowered(old(WithChild(index.table.nodes, value, ilen)), value, ilen)
      ensures updated <==> value < old(index.table.nodes[At(value, ilen)].minKey)
      ensures OthersKept(old(index.table.ht[..]), index.table.ht[..], {pos})
      ensures SameLayout(AfterChild(old(index.table.ht[..]), pos), index.table.ht[..])
      ensures Disciplined(vt.hist, |old(vt.hist)| - 1) <==> vt.ver[pos] % 2 == 1
      ensures Shows(vt.hist, |old(vt.hist)| - 1, index.table.h, index.keys, index.keys + {value})
    {
      hide TrieInv, TableInv, LevelInv, Disciplined, Lowered, WithChild, NodeView, Lcp, Top, AfterChild, Shows, Serves,
           OneOf;
      ghost var s, m := index.table.ht[..], index.table.nodes;
      DeepestDecides(m, index.keys, value, ilen);
      TrieServes(m, index.keys);
      ServesLess(m, index.keys, index.keys, index.keys, index.keys + {value});
      ChildServes(m, index.keys, value, ilen, ilen);
      updated := index.Attach(value, ilen, pos);
      vt.Log();
      OneStep(old(vt.hist), Snap(vt.ver[..], vt.table.ht[..]));
      StepShows(vt.hist, |old(vt.hist)| - 1, index.table.h, s, index.table.ht[..], m, index.table.nodes, index.keys,
                index.keys + {value});
    }

    // Reserves a slot for the lower part of a split, with displacement if need be.
    method ReserveForSplit(value: Key, lcp: nat, ilen: nat, pos: int, coin: bool) returns (r: Outcome, x: int)
      requires Valid() && SplitsAt(index.table.nodes, value, ilen) && value !in index.keys
      requires HoldsIndex(index.table.ht[..], pos, At(value, ilen))
      requires lcp == Lcp(value, index.table.nodes[At(value, ilen)].minKey) && ilen <= lcp < 8
      modifies vt`hist, vt.ver, index.table.ht
      ensures r == Inserted || r == SplitFailed || r == SplitNodeDisplaced
      ensures r == Inserted ==> index.CanCut(value, lcp, ilen, pos, x) && vt.Aligned() && old(vt.hist) <= vt.hist
      ensures r == SplitFailed
              <==> old(SplitCannotReserve(index.table.ht[..], index.table.h, index.table.nodes, value, coin))
      ensures r == SplitNodeDisplaced
              <==> old(SplitLosesNode(index.table.ht[..], index.table.h, index.table.nodes, value, coin))
      ensures SameParity(old(vt.ver[..]), vt.ver[..])
      ensures r == Inserted ==>
              var k := SplitIndex(index.table.nodes, value, ilen);
              && x == ReservedAt(old(index.table.ht[..]), index.table.h, k, coin)
              && index.table.ht[..] == AfterReservation(old(index.table.ht[..]), index.table.h, k, coin)
              && (Disciplined(vt.hist, |old(vt.hist)| - 1)
                  <==> RoomEven(old(index.table.ht[..]), index.table.h, old(vt.ver[..]), k, coin))
      ensures r == Inserted ==> Shows(vt.hist, |old(vt.hist)| - 1, index.table.h, index.keys, index.keys + {value})
    {
      hide TrieInv, TableInv, LevelInv, Disciplined, Lcp, Top, SameSize, Counted, NoRoom, SplitCannotReserve,
           SplitLosesNode, Shape, Children, Vacated, RoomMade, RoomEven, AfterReservation, ReservedAt, Shows, Serves,
           Keeps, Calm, OddKept, RoomStirs;
      var table := index.table;
      ghost var m0, s := table.nodes, table.ht[..];
      ghost var k := At(value, ilen);
      NodesAreOk(s, table.h, m0);
      Located(s, table.h, m0, k);
      SplitOutcome(s, table.h, m0, value, coin, ilen, pos);
      SplitIndexIsNew(m0, index.keys, value, ilen);
      var minKey := table.ht[pos].minKey;
      var exist, failed;
      x, exist, failed := vt.ReservePositionForInsert(lcp + 1, minKey, coin);
      if exist || failed {
        NoRoomNoLoss(s, table.h, At(minKey, lcp + 1), coin);
        return SplitFailed, x;
      }
      RoomIsRoom(s, table.ht[..], table.h, At(minKey, lcp + 1), coin);
      DisplacedIffVacated(s, table.ht[..], table.h, m0, At(minKey, lcp + 1), coin, pos);
      NodesAreOk(table.ht[..], table.h, m0);
      if !(table.ht[pos].Node? && table.IsEqualNoHash(pos, value, ilen)) {
        return SplitNodeDisplaced, x;
      }
      assert HoldsIndex(table.ht[..], pos, k);
      TrieServes(m0, index.keys);
      ServesLess(m0, index.keys, index.keys, index.keys, index.keys + {value});
      KeptShows(vt.hist, |old(vt.hist)| - 1, table.h, m0, index.keys, index.keys + {value});
      r := Inserted;
    }

    // The steps of a split once slot x is reserved: lock x, move the lower part there, reset the
    // version of pos to 1, rebuild the upper part.
    method SplitUnderVersions(value: Key, lcp: nat, ilen: nat, pos: int, x: int)
      requires Linked() && vt.Aligned() && index.CanCut(value, lcp, ilen, pos, x)
      modifies vt`hist, vt`resets, vt.ver, index.table`nodes, index.table.ht
      ensures index.table.Valid() && vt.Aligned() && old(vt.hist) <= vt.hist && x != pos
      ensures index.table.nodes == Lowered(old(WithSplit(index.table.nodes, value, ilen, lcp)), value, ilen)
      ensures OthersKept(old(index.table.ht[..]), index.table.ht[..], {pos, x})
      ensures 2 * GAP < index.table.ht.Length
              && SameLayout(AfterSplit(old(index.table.ht[..]), pos, x, lcp + 1), index.table.ht[..])
      ensures vt.ver[..] == old(vt.ver[..])[x := Plus(old(vt.ver[x]), 1)][pos := 1]
      ensures Disciplined(vt.hist, |old(vt.hist)| - 1) <==> old(vt.ver[pos]) % 2 == 1 && vt.ver[x] % 2 == 1
      ensures Shows(vt.hist, |old(vt.hist)| - 1, index.table.h, index.keys, index.keys + {value})
      ensures ResetsAt(old(vt.resets), vt.resets, |old(vt.hist)|, {pos})
    {
      hide TrieInv, TableInv, LevelInv, Disciplined, Lowered, WithSplit, Lcp, Top, SameSize, Counted, Shape, Children,
           StepOk, NodeView, Deepest, Plus, AfterMove, AfterSplit, SameLayout, Shows, Serves, OthersKept;
      ghost var hist0, m0, s0 := vt.hist, index.table.nodes, index.table.ht[..];
      NodesAreOk(s0, index.table.h, m0);
      Located(s0, index.table.h, m0, At(value, ilen));
      var minKey := CutOff(value, lcp, ilen, pos, x);
      ghost var s1, hist1 := index.table.ht[..], vt.hist;
      RebuildUpperPart(value, lcp, ilen, pos, minKey, m0);
      KeptTwice(s0, s1, index.table.ht[..], pos, x);
      CutLayout(s0, s1, index.table.ht[..], pos, x, lcp + 1);
      DisciplineSplits(hist1, vt.hist, |hist0| - 1);
      ShowsOn(hist1, vt.hist, |hist0| - 1, index.table.h, index.keys, index.keys + {value});
    }

    // The first three of these steps.
    method CutOff(value: Key, lcp: nat, ilen: nat, pos: int, x: int) returns (minKey: Key)
      requires Linked() && vt.Aligned() && index.CanCut(value, lcp, ilen, pos, x)
      modifies vt`hist, vt`resets, vt.ver, index.table`nodes, index.table.ht
      ensures index.table.Valid() && Inside(index.table.ht[..], pos) && index.table.ht[pos] == Empty
      ensures pos == Place1(index.table.h, index.table.ht.Length, At(value, ilen))
              || pos == Place2(index.table.h, index.table.ht.Length, At(value, ilen))
      ensures minKey == old(index.table.nodes)[At(value, ilen)].minKey
      ensures var m0 := old(index.table.nodes);
              index.table.nodes == (m0 - {At(value, ilen)})[At(minKey, lcp + 1) := m0[At(value, ilen)]]
      ensures x != pos && OthersKept(old(index.table.ht[..]), index.table.ht[..], {pos, x})
      ensures var t := AfterMove(old(index.table.ht[..]), pos, x);
              IsNode(t, x) && index.table.ht[..] == t[x := index.table.ht[x]]
              && CellOf(index.table.ht[x]) == Holds(At(minKey, lcp + 1))
      ensures vt.Aligned() && old(vt.hist) <= vt.hist
      ensures vt.ver[..] == old(vt.ver[..])[x := Plus(old(vt.ver[x]), 1)][pos := 1]
      ensures Disciplined(vt.hist, |old(vt.hist)| - 1) <==> old(vt.ver[pos]) % 2 == 1 && vt.ver[x] % 2 == 1
      ensures Shows(vt.hist, |old(vt.hist)| - 1, index.table.h, index.keys, index.keys + {value})
      ensures Serves(index.table.nodes, index.keys, index.keys + {value})
      ensures ResetsAt(old(vt.resets), vt.resets, |old(vt.hist)|, {pos})
    {
      hide TrieInv, TableInv, LevelInv, Disciplined, Lcp, Top, SameSize, Counted, Shape, Children, StepOk, NodeView,
           Deepest, Plus, AfterMove, Shows, Serves, OneOf, Calm, OthersKept, HoldsIndex, CellOf;
      ghost var hist0, s0, m0 := vt.hist, index.table.ht[..], index.table.nodes;
      TrieServes(m0, index.keys);
      ServesLess(m0, index.keys, index.keys, index.keys, index.keys + {value});
      vt.Inc(x);
      StepShows(vt.hist, |hist0| - 1, index.table.h, s0, s0, m0, m0, index.keys, index.keys + {value});
      ghost var hist1 := vt.hist;
      minKey := MoveLowerPart(value, lcp, ilen, pos, x);
      ghost var s1, m1, hist2 := index.table.ht[..], index.table.nodes, vt.hist;
      vt.Reset(pos);
      StepShows(vt.hist, |hist2| - 1, index.table.h, s1, s1, m1, m1, index.keys, index.keys + {value});
      DisciplineSplits(hist1, hist2, |hist0| - 1);
      DisciplineSplits(hist2, vt.hist, |hist0| - 1);
      ShowsOn(hist1, hist2, |hist0| - 1, index.table.h, index.keys, index.keys + {value});
      ShowsOn(hist2, vt.hist, |hist0| - 1, index.table.h, index.keys, index.keys + {value});
    }

    method MoveLowerPart(value: Key, lcp: nat, ilen: nat, pos: int, x: int) returns (minKey: Key)
      requires Linked() && vt.Aligned() && index.CanCut(value, lcp, ilen, pos, x)
      modifies vt`hist, index.table`nodes, index.table.ht
      ensures index.table.Valid() && Inside(index.table.ht[..], pos) && index.table.ht[pos] == Empty
      ensures pos == Place1(index.table.h, index.table.ht.Length, At(value, ilen))
              || pos == Place2(index.table.h, index.table.ht.Length, At(value, ilen))
      ensures minKey == old(index.table.nodes)[At(value, ilen)].minKey
      ensures var m0 := old(index.table.nodes);
              index.table.nodes == (m0 - {At(value, ilen)})[At(minKey, lcp + 1) := m0[At(value, ilen)]]
      ensures x != pos && OthersKept(old(index.table.ht[..]), index.table.ht[..], {pos, x})
      ensures var t := AfterMove(old(index.table.ht[..]), pos, x);
              IsNode(t, x) && index.table.ht[..] == t[x := index.table.ht[x]]
              && CellOf(index.table.ht[x]) == Holds(At(minKey, lcp + 1))
      ensures vt.Aligned() && old(vt.hist) <= vt.hist
      ensures Disciplined(vt.hist, |old(vt.hist)| - 1) <==> vt.ver[pos] % 2 == 1 && vt.ver[x] % 2 == 1
      ensures Shows(vt.hist, |old(vt.hist)| - 1, index.table.h, index.keys, index.keys + {value})
      ensures Serves(index.table.nodes, index.keys, index.keys + {value})
    {
      hide TrieInv, TableInv, LevelInv, Disciplined, Lcp, Top, SameSize, Counted, Shape, Children, AfterMove, Shows,
           Serves, OneOf;
      ghost var s0, m0 := index.table.ht[..], index.table.nodes;
      TrieServes(m0, index.keys);
      ReindexedServes(m0, index.keys, value, ilen);
      ServesLess(m0, index.keys, index.keys, index.keys, index.keys + {value});
      ServesLess(Reindexed(m0, value, ilen), index.keys, index.keys, index.keys, index.keys + {value});
      minKey := index.MoveLowerPart(value, lcp, ilen, pos, x);
      vt.Log();
      OneStep(old(vt.hist), Snap(vt.ver[..], index.table.ht[..]));
      StepShows(vt.hist, |old(vt.hist)| - 1, index.table.h, s0, index.table.ht[..], m0, index.table.nodes, index.keys,
                index.keys + {value});
      MovedAway(s0, index.table.ht[..], pos, x);
    }

    method RebuildUpperPart(value: Key, lcp: nat, ilen: nat, pos: int, minKey: Key, ghost m0: map<Index, Info>)
      requires Linked() && vt.Aligned() && index.table.Valid() && TrieInv(m0, index.keys)
               && SplitsAt(m0, value, ilen) && value !in index.keys
      requires minKey == m0[At(value, ilen)].minKey && lcp == Lcp(value, minKey) && ilen <= lcp < 8
      requires index.table.nodes == (m0 - {At(value, ilen)})[At(minKey, lcp + 1) := m0[At(value, ilen)]]
      requires Inside(index.table.ht[..], pos) && index.table.ht[pos] == Empty && vt.ver[pos] == 1
      requires pos == Place1(index.table.h, index.table.ht.Length, At(value, ilen))
               || pos == Place2(index.table.h, index.table.ht.Length, At(value, ilen))
      requires Serves(index.table.nodes, index.keys, index.keys + {value})
      modifies vt`hist, index.table`nodes, index.table.ht
      ensures index.table.Valid() && index.table.nodes == Lowered(WithSplit(m0, value, ilen, lcp), value, ilen)
      ensures OthersKept(old(index.table.ht[..]), index.table.ht[..], {pos})
      ensures CellOf(index.table.ht[pos]) == Holds(At(value, ilen))
      ensures forall i :: 0 <= i < index.table.ht.Length && i != pos ==>
              CellOf(index.table.ht[i]) == CellOf(old(index.table.ht[i]))
      ensures vt.Aligned() && old(vt.hist) <= vt.hist && Disciplined(vt.hist, |old(vt.hist)| - 1)
      ensures Shows(vt.hist, |old(vt.hist)| - 1, index.table.h, index.keys, index.keys + {value})
    {
      hide TrieInv, TableInv, LevelInv, Disciplined, Lcp, Top, SameSize, Counted, Shape, Children, Shows, Serves, OneOf;
      ghost var s1, m1 := index.table.ht[..], index.table.nodes;
      SplitServes(m0, index.keys, value, ilen, ilen);
      index.RebuildUpperPart(value, lcp, ilen, pos, minKey, m0);
      vt.Log();
      OneStep(old(vt.hist), Snap(vt.ver[..], index.table.ht[..]));
      StepShows(vt.hist, |old(vt.hist)| - 1, index.table.h, s1, index.table.ht[..], m1, index.table.nodes, index.keys,
                index.keys + {value});
    }

    // One step of the minKey walk.
    method SetMinKey(pos: int, key: Key, ghost k: Index)
      requires Linked() && vt.Aligned() && index.table.Valid() && HoldsIndex(index.table.ht[..], pos, k)
      requires Top(key, index.table.ht[pos].ilen) == k.prefix && key < index.table.ht[pos].minKey
      modifies vt`hist, index.table`nodes, index.table.ht
      ensures index.table.Valid() && SameIndices(old(index.table.ht[..]), index.table.ht[..])
      ensures SameLayout(old(index.table.ht[..]), index.table.ht[..])
      ensures index.table.nodes == old(index.table.nodes)[k := old(index.table.nodes)[k].(minKey := key)]
      ensures vt.Aligned() && old(vt.hist) <= vt.hist
      ensures Disciplined(vt.hist, |old(vt.hist)| - 1) <==> vt.ver[pos] % 2 == 1
      ensures OneOf(vt.hist, |old(vt.hist)| - 1, old(index.table.ht[..]), index.table.ht[..])
    {
      hide TableInv, Disciplined, SameSize, Counted, Top, Children;
      ghost var s := index.table.ht[..];
      Located(s, index.table.h, index.table.nodes, k);
      index.table.SetMinKey(pos, key, k);
      assert HoldsIndex(index.table.ht[..], pos, k);
      Located(index.table.ht[..], index.table.h, index.table.nodes, k);
      assert NodeView(s, pos) != NodeView(index.table.ht[..], pos);
      vt.Log();
      OneStep(old(vt.hist), Snap(vt.ver[..], index.table.ht[..]));
    }

    // The minKey walk over the ancestors. It keeps the discipline iff every ancestor it lowers
    // sits in a slot with an odd version.
    method LowerAncestors(value: Key, ilen: nat, pos1: seq<int>, pos2: seq<int>, ghost m0: map<Index, Info>,
                          ghost m1: map<Index, Info>)
      requires Linked() && vt.Aligned() && index.table.Valid() && TrieInv(m0, index.keys) && 3 <= ilen <= 8
      requires 2 * GAP < index.table.ht.Length
               && Candidates(index.table.h, index.table.ht.Length, value, ilen - 1, pos1, pos2)
      requires AncestorsAgree(m0, m1, value, ilen) && index.table.nodes == Lowered(m1, value, ilen)
      requires forall k :: k in m0 ==> k in m1
      requires ServesLow(m1, value, index.keys, index.keys + {value})
      modifies vt`hist, index.table`nodes, index.table.ht
      ensures index.table.Valid() && index.table.nodes == Lowered(m1, value, 3)
      ensures SameLayout(old(index.table.ht[..]), index.table.ht[..])
      ensures vt.Aligned() && old(vt.hist) <= vt.hist
      ensures Disciplined(vt.hist, |old(vt.hist)| - 1)
              <==> AncestorsOdd(old(index.table.ht[..]), m0, vt.ver[..], value, 2, ilen)
      ensures Shows(vt.hist, |old(vt.hist)| - 1, index.table.h, index.keys, index.keys + {value})
    {
      hide TableInv, TrieInv, Top, Disciplined, SameSize, Counted, StepOk, AncestorsOdd, CellOf, Shows, Serves,
           ServesLow;
      ghost var s0, n0, hist0 := index.table.ht[..], index.table.nodes, vt.hist;
      SelfDisciplined(hist0);
      SameIndicesSelf(s0);
      LowServes(m1, value, ilen, index.keys, index.keys + {value});
      NoAncestorsLeft(s0, m0, vt.ver[..], value, ilen);
      KeptShows(hist0, |hist0| - 1, index.table.h, n0, index.keys, index.keys + {value});
      var l := ilen - 1;
      while l > 2
        invariant 2 <= l < ilen
        invariant index.table.Valid() && index.table.nodes == Lowered(m1, value, l + 1)
        invariant vt.Aligned() && hist0 <= vt.hist && SameIndices(s0, index.table.ht[..])
        invariant Shows(vt.hist, |hist0| - 1, index.table.h, index.keys, index.keys + {value})
        invariant SameLayout(s0, index.table.ht[..])
        invariant Disciplined(vt.hist, |hist0| - 1) <==> AncestorsOdd(s0, m0, vt.ver[..], value, l, ilen)
      {
        ghost var hist1 := vt.hist;
        var stop := LowerAncestor(value, l, ilen, pos1, pos2, m0, m1, s0, n0);
        DisciplineSplits(hist1, vt.hist, |hist0| - 1);
        ShowsOn(hist1, vt.hist, |hist0| - 1, index.table.h, index.keys, index.keys + {value});
        if stop {
          break;
        }
        l := l - 1;
      }
    }

    // The ancestor of length l, if there is one; stop when it is low enough.
    method LowerAncestor(value: Key, l: nat, ilen: nat, pos1: seq<int>, pos2: seq<int>, ghost m0: map<Index, Info>,
                         ghost m1: map<Index, Info>,
                         ghost s0: seq<Slot>, ghost n0: map<Index, Info>) returns (stop: bool)
      requires Linked() && vt.Aligned() && index.table.Valid() && TrieInv(m0, index.keys) && 3 <= l < ilen <= 8
      requires 2 * GAP < index.table.ht.Length
               && Candidates(index.table.h, index.table.ht.Length, value, ilen - 1, pos1, pos2)
      requires AncestorsAgree(m0, m1, value, ilen) && index.table.nodes == Lowered(m1, value, l + 1)
      requires forall k :: k in m0 ==> k in m1
      requires TableInv(s0, index.table.h, n0) && n0.Keys == m1.Keys && SameIndices(s0, index.table.ht[..])
      requires ServesLow(m1, value, index.keys, index.keys + {value})
      modifies vt`hist, index.table`nodes, index.table.ht
      ensures index.table.Valid() && index.table.nodes == Lowered(m1, value, if stop then 3 else l)
      ensures vt.Aligned() && old(vt.hist) <= vt.hist && SameIndices(s0, index.table.ht[..])
      ensures SameLayout(old(index.table.ht[..]), index.table.ht[..])
      ensures AncestorsOdd(s0, m0, vt.ver[..], value, if stop then 2 else l - 1, ilen)
              <==> AncestorsOdd(s0, m0, vt.ver[..], value, l, ilen) && Disciplined(vt.hist, |old(vt.hist)| - 1)
      ensures Shows(vt.hist, |old(vt.hist)| - 1, index.table.h, index.keys, index.keys + {value})
    {
      hide TableInv, TrieInv, Top, Disciplined, SameSize, Counted, StepOk, AncestorsOdd, Children, Shape, Place1,
           Place2, Shows, Serves, ServesLow, OneOf;
      ghost var k := At(value, l);
      ghost var r := index.table.ht[..];
      ghost var n1 := index.table.nodes;
      SelfDisciplined(vt.hist);
      SameSlots(vt.hist);
      LowServes(m1, value, l + 1, index.keys, index.keys + {value});
      Located(r, index.table.h, index.table.nodes, k);
      Located(s0, index.table.h, n0, k);
      IndexIsUnique(r, index.table.h, index.table.nodes);
      LoweredStep(m1, value, l);
      var pos := pos1[l - 1];
      if !index.table.IsEqualNoHash(pos, value, l) {
        pos := pos2[l - 1];
      }
      stop := false;
      if index.table.IsEqualNoHash(pos, value, l) {
        assert HoldsIndex(r, pos, k);
        AncestorSlot(s0, r, m0, index.table.nodes, vt.ver[..], value, l, ilen, pos);
        if value < index.table.ht[pos].minKey {
          SetMinKey(pos, value, k);
          SameIndicesTrans(s0, r, index.table.ht[..]);
        } else {
          LoweredDone(m0, m1, index.keys, value, l, ilen);
          NoneLowered(s0, m0, index.keys, vt.ver[..], value, l, ilen);
          stop := true;
        }
      } else {
        AbsentAncestor(s0, m0, vt.ver[..], value, l, ilen);
      }
      LowServes(m1, value, if stop then 3 else l, index.keys, index.keys + {value});
      StepShows(vt.hist, |old(vt.hist)| - 1, index.table.h, r, index.table.ht[..], n1, index.table.nodes, index.keys,
                index.keys + {value});
    }

    // Everything below the lock: a child attached or the node split, and its own minimum lowered.
    // x is the slot a split takes.
    method Branch(value: Key, lcp: nat, ilen: nat, pos: int, coin: bool)
      returns (r: Outcome, x: int, used: bool, updated: bool)
      requires Valid() && Deepest(index.table.nodes, value, ilen) && value !in index.keys
      requires HoldsIndex(index.table.ht[..], pos, At(value, ilen))
      requires lcp == Lcp(value, index.table.nodes[At(value, ilen)].minKey)
      modifies vt`hist, vt`resets, vt.ver, index.table`nodes, index.table.ht
      ensures r == Inserted || r == SplitFailed || r == SplitNodeDisplaced
      ensures r == SplitFailed
              <==> old(SplitCannotReserve(index.table.ht[..], index.table.h, index.table.nodes, value, coin))
      ensures r == SplitNodeDisplaced
              <==> old(SplitLosesNode(index.table.ht[..], index.table.h, index.table.nodes, value, coin))
      ensures r == Inserted ==> index.table.Valid() && vt.Aligned() && old(vt.hist) <= vt.hist
      ensures r == Inserted ==>
              ilen <= lcp < 8
              && index.table.nodes == Lowered(Reshaped(old(index.table.nodes), value, ilen), value, ilen)
      ensures r == Inserted ==> (updated <==> value < old(index.table.nodes)[At(value, ilen)].minKey)
      ensures r == Inserted ==>
              BranchDone(old(index.table.ht[..]), index.table.h, old(index.table.nodes), old(vt.ver[..]),
                         index.table.ht[..],
                         vt.ver[..], Disciplined(vt.hist, |old(vt.hist)| - 1), value, ilen, pos, coin)
      ensures r == Inserted ==>
              (used <==> SplitsAt(old(index.table.nodes), value, ilen))
              && x == BranchSlot(old(index.table.ht[..]), index.table.h, old(index.table.nodes), value, ilen, pos, coin)
      ensures r == Inserted ==> Shows(vt.hist, |old(vt.hist)| - 1, index.table.h, index.keys, index.keys + {value})
      ensures r == Inserted && used ==> vt.ver[pos] == 1
      ensures r == Inserted ==> ResetsAt(old(vt.resets), vt.resets, |old(vt.hist)|, if used then {pos} else {})
    {
      hide TrieInv, TableInv, LevelInv, Disciplined, Lcp, Top, SameSize, Counted, StepOk, Lowered, WithChild,
           WithSplit, SplitCannotReserve, SplitLosesNode, NodeView, NodeInv, SplitIndex, ReservedAt, Shape, Children,
           AfterReservation, AfterChild, AfterSplit, RoomEven, SameLayout, OthersKept, Shows;
      ghost var m0, s0 := index.table.nodes, index.table.ht[..];
      NodesAreOk(s0, index.table.h, m0);
      Located(s0, index.table.h, m0, At(value, ilen));
      DeepestDecides(m0, index.keys, value, ilen);
      if index.table.ht[pos].dlen == lcp {
        NoSplit(s0, index.table.h, m0, value, coin, ilen);
        updated := Attach(value, ilen, pos);
        KeptOne(s0, index.table.ht[..], pos);
        return Inserted, pos, false, updated;
      }
      used := true;
      updated := value < index.table.ht[pos].minKey;
      r, x := SplitBranch(value, lcp, ilen, pos, coin);
    }

    method SplitBranch(value: Key, lcp: nat, ilen: nat, pos: int, coin: bool) returns (r: Outcome, x: int)
      requires Valid() && SplitsAt(index.table.nodes, value, ilen) && value !in index.keys
      requires HoldsIndex(index.table.ht[..], pos, At(value, ilen))
      requires lcp == Lcp(value, index.table.nodes[At(value, ilen)].minKey) && ilen <= lcp < 8
      modifies vt`hist, vt`resets, vt.ver, index.table`nodes, index.table.ht
      ensures r == Inserted || r == SplitFailed || r == SplitNodeDisplaced
      ensures r == SplitFailed
              <==> old(SplitCannotReserve(index.table.ht[..], index.table.h, index.table.nodes, value, coin))
      ensures r == SplitNodeDisplaced
              <==> old(SplitLosesNode(index.table.ht[..], index.table.h, index.table.nodes, value, coin))
      ensures r == Inserted ==> index.table.Valid() && vt.Aligned() && old(vt.hist) <= vt.hist
      ensures r == Inserted ==>
              index.table.nodes == Lowered(old(WithSplit(index.table.nodes, value, ilen, lcp)), value, ilen)
      ensures r == Inserted ==>
              BranchDone(old(index.table.ht[..]), index.table.h, old(index.table.nodes), old(vt.ver[..]),
                         index.table.ht[..],
                         vt.ver[..], Disciplined(vt.hist, |old(vt.hist)| - 1), value, ilen, pos, coin)
      ensures r == Inserted ==>
              x == ReservedAt(old(index.table.ht[..]), index.table.h, SplitIndex(old(index.table.nodes), value, ilen),
                              coin)
      ensures r == Inserted ==>
              Shows(vt.hist, |old(vt.hist)| - 1, index.table.h, index.keys, index.keys + {value}) && vt.ver[pos] == 1
      ensures r == Inserted ==> ResetsAt(old(vt.resets), vt.resets, |old(vt.hist)|, {pos})
    {
      hide TrieInv, TableInv, LevelInv, Disciplined, Lcp, Top, SameSize, Counted, StepOk, Lowered, WithSplit,
           SplitCannotReserve, SplitLosesNode, NodeView, NodeInv, ReservedAt, Shape, Children, AfterReservation,
           AfterSplit, RoomEven, SameLayout, OthersKept, BranchDone, SameParity, Plus, Shows;
      ghost var ver0, s0, m0, hist0 := vt.ver[..], index.table.ht[..], index.table.nodes, vt.hist;
      NodesAreOk(s0, index.table.h, m0);
      Located(s0, index.table.h, m0, At(value, ilen));
      r, x := ReserveForSplit(value, lcp, ilen, pos, coin);
      if r != Inserted {
        return;
      }
      ghost var ver1, s1, hist1 := vt.ver[..], index.table.ht[..], vt.hist;
      SplitUnderVersions(value, lcp, ilen, pos, x);
      DisciplineSplits(hist1, vt.hist, |hist0| - 1);
      ShowsOn(hist1, vt.hist, |hist0| - 1, index.table.h, index.keys, index.keys + {value});
      SplitIsDone(s0, index.table.h, m0, ver0, s1, ver1, index.table.ht[..], vt.ver[..],
                  Disciplined(hist1, |hist0| - 1),
                  Disciplined(vt.hist, |hist1| - 1), value, ilen, pos, x, coin);
    }

    // The path of value locked.
    method LockBelow(value: Key, ilen: nat, pos1: seq<int>, pos2: seq<int>)
      requires Valid() && AllEven(vt.ver[..]) && 3 <= ilen <= 8 && |pos1| == |pos2| == 8
      requires 2 * GAP < index.table.ht.Length && 0 <= pos1[ilen - 1] < index.table.ht.Length
               && Candidates(index.table.h, index.table.ht.Length, value, ilen - 1, pos1, pos2)
      requires pos2[ilen - 1] == Place2(index.table.h, index.table.ht.Length, At(value, ilen))
      modifies vt`hist, vt.ver
      ensures vt.OnlyVersions()
      ensures var locks := PathLocks(pos1, pos2, ilen);
              && locks == LocksFrom(index.table.h, index.table.ht.Length, value, ilen, pos1[ilen - 1])
              && InRange(locks, vt.ver.Length) && pos1[ilen - 1] in locks
              && OddOnlyAt(vt.ver[..], set p | p in locks)
              && SameParity(vt.ver[..], LockParity(vt.ver.Length, locks))
      ensures Shows(vt.hist, |old(vt.hist)| - 1, index.table.h, index.keys, index.keys + {value})
    {
      hide TrieInv, TableInv, LevelInv, Disciplined, SameSize, Counted, StepOk, Place1, Place2, AllEven, Incremented,
           OddOnlyAt, LockedOdd, PathLocks, InRange, Candidates, LockParity, LocksFrom, SameParity, Shows, Serves,
           OneOf;
      ghost var s, m, hist0, ver0 := index.table.ht[..], index.table.nodes, vt.hist, vt.ver[..];
      LocksAre(index.table.h, index.table.ht.Length, value, ilen, pos1, pos2);
      LockPath(pos1, pos2, ilen);
      TrieServes(m, index.keys);
      ServesLess(m, index.keys, index.keys, index.keys, index.keys + {value});
      StepShows(vt.hist, |hist0| - 1, index.table.h, s, s, m, m, index.keys, index.keys + {value});
      OddOnlyWhereLocked(ver0, vt.ver[..], PathLocks(pos1, pos2, ilen));
      LockedParity(ver0, vt.ver[..], PathLocks(pos1, pos2, ilen));
    }

    // All that happens before the leaf when value has a node on its path: lock, change the
    // deepest node, walk the ancestors.
    method InsertBelow(value: Key, lcp: nat, ilen: nat, pos1: seq<int>, pos2: seq<int>, coin: bool)
      returns (r: Outcome, x: int, used: bool)
      requires Valid() && AllEven(vt.ver[..]) && Deepest(index.table.nodes, value, ilen) && value !in index.keys
      requires lcp == Lcp(value, index.table.nodes[At(value, ilen)].minKey)
      requires |pos1| == |pos2| == 8 && HoldsIndex(index.table.ht[..], pos1[ilen - 1], At(value, ilen))
      requires 2 * GAP < index.table.ht.Length
               && Candidates(index.table.h, index.table.ht.Length, value, ilen - 1, pos1, pos2)
      requires pos2[ilen - 1] == Place2(index.table.h, index.table.ht.Length, At(value, ilen))
      modifies vt`hist, vt`resets, vt.ver, index.table`nodes, index.table.ht
      ensures r == Inserted || r == SplitFailed || r == SplitNodeDisplaced
      ensures r == SplitFailed
              <==> old(SplitCannotReserve(index.table.ht[..], index.table.h, index.table.nodes, value, coin))
      ensures r == SplitNodeDisplaced
              <==> old(SplitLosesNode(index.table.ht[..], index.table.h, index.table.nodes, value, coin))
      ensures r == Inserted ==> index.table.Valid() && vt.Aligned() && old(vt.hist) <= vt.hist
      ensures r == Inserted ==> ilen <= lcp < 8 && index.Ready(index.table.nodes, value, lcp + 1)
      ensures r == Inserted ==> 0 <= x < vt.ver.Length && InRange(PathLocks(pos1, pos2, ilen), vt.ver.Length)
      ensures r == Inserted ==>
              OddOnlyAt(vt.ver[..], (set p | p in PathLocks(pos1, pos2, ilen)) + (if used then {x} else {}))
      ensures r == Inserted ==>
              (Disciplined(vt.hist, |old(vt.hist)| - 1)
               <==> old(BelowFits(index.table.ht[..], index.table.h, index.table.nodes, value, ilen, pos1[ilen - 1],
                                  coin)))
      ensures r == Inserted ==>
              SameLayout(old(AfterBelow(index.table.ht[..], index.table.h, value, pos1[ilen - 1], coin)),
                         index.table.ht[..])
      ensures r == Inserted ==>
              SameParity(old(AfterBranch(index.table.ht[..], index.table.h, index.table.nodes,
                                         LockParity(index.table.ht.Length,
                                                    LocksFrom(index.table.h, index.table.ht.Length, value, ilen,
                                                              pos1[ilen - 1])),
                                         value, ilen, pos1[ilen - 1], coin)), vt.ver[..])
      ensures r == Inserted ==> Shows(vt.hist, |old(vt.hist)| - 1, index.table.h, index.keys, index.keys + {value})
      ensures r == Inserted ==> Serves(index.table.nodes, index.keys, index.keys + {value})
      ensures r == Inserted && SplitsAt(old(index.table.nodes), value, ilen) ==> vt.ver[pos1[ilen - 1]] == 1
      ensures r == Inserted ==>
              ResetsAt(old(vt.resets), vt.resets, |old(vt.hist)|,
                       if SplitsAt(old(index.table.nodes), value, ilen) then {pos1[ilen - 1]} else {})
    {
      hide TrieInv, TableInv, LevelInv, Disciplined, Lcp, Top, SameSize, Counted, StepOk, Lowered, WithChild,
           WithSplit, SplitCannotReserve, SplitLosesNode, NodeInv, SplitIndex, ReservedAt, Shape, Children, Place1,
           Place2, AllEven, Incremented, OddOnlyAt, AncestorsOdd, AncestorsLocked, LockedOdd, PathLocks, InRange,
           Candidates, BranchFits, AfterBranch, AfterBelow, AfterReservation, LockParity, LocksFrom, SameLayout,
           OthersKept, RoomyTable, Shows, Serves, OneOf, ResetsAt, SameParity, CellOf, Reshaped, IsNode, SplitsAt,
           TopsAligned;
      ghost var resets0 := vt.resets;
      ghost var s0, m0, hist0, h := index.table.ht[..], index.table.nodes, vt.hist, index.table.h;
      var pos := pos1[ilen - 1];
      NodesAreOk(s0, h, m0);
      LockBelow(value, ilen, pos1, pos2);
      ghost var ver1, hist1, locks := vt.ver[..], vt.hist, PathLocks(pos1, pos2, ilen);
      BranchByParity(s0, h, m0, ver1, LockParity(|s0|, locks), value, ilen, pos, coin);
      var updated;
      r, x, used, updated := Branch(value, lcp, ilen, pos, coin);
      if r != Inserted {
        return;
      }
      ghost var s2, m2, hist2, ver2 := index.table.ht[..], index.table.nodes, vt.hist, vt.ver[..];
      BranchParities(s0, h, m0, ver1, ver2, locks, value, ilen, pos, x, used, coin);
      ResetsFrom(resets0, vt.resets, |hist0|, |hist1|, if used then {pos} else {});
      FinishBelow(value, lcp, ilen, pos1, pos2, updated, m0);
      ghost var t := RoomyTable(s0, h, m0, value, ilen, coin);
      LayoutTrans(AfterBelow(s0, h, value, pos, coin), s2, index.table.ht[..]);
      if updated {
        AncestorsStillLocked(t, s2, h, m0, m2, value, ilen, pos, x, ver2, locks);
      } else {
        NoAncestorLowered(t, m0, index.keys, locks, value, ilen);
      }
      ThreeParts(hist0, hist1, hist2, vt.hist, h, index.keys, index.keys + {value});
    }

    // After the deepest node changed: its ancestors take value as minimum where it is smaller.
    method FinishBelow(value: Key, lcp: nat, ilen: nat, pos1: seq<int>, pos2: seq<int>, updated: bool,
                       ghost m0: map<Index, Info>)
      requires Linked() && vt.Aligned() && index.table.Valid() && TrieInv(m0, index.keys)
      requires Deepest(m0, value, ilen) && value !in index.keys && lcp == Lcp(value, m0[At(value, ilen)].minKey)
               && ilen <= lcp < 8
      requires updated <==> value < m0[At(value, ilen)].minKey
      requires 2 * GAP < index.table.ht.Length
               && Candidates(index.table.h, index.table.ht.Length, value, ilen - 1, pos1, pos2)
      requires index.table.nodes == Lowered(Reshaped(m0, value, ilen), value, ilen)
      modifies vt`hist, index.table`nodes, index.table.ht
      ensures index.table.Valid() && vt.Aligned() && old(vt.hist) <= vt.hist
              && index.Ready(index.table.nodes, value, lcp + 1)
      ensures SameLayout(old(index.table.ht[..]), index.table.ht[..])
      ensures Disciplined(vt.hist, |old(vt.hist)| - 1)
              <==> (updated ==> AncestorsOdd(old(index.table.ht[..]), m0, vt.ver[..], value, 2, ilen))
      ensures Shows(vt.hist, |old(vt.hist)| - 1, index.table.h, index.keys, index.keys + {value})
              && Serves(index.table.nodes, index.keys, index.keys + {value})
    {
      hide TrieInv, TableInv, LevelInv, Disciplined, Lcp, Top, SameSize, Counted, StepOk, Lowered, WithChild,
           WithSplit, NodeInv, Candidates, AncestorsAgree, AncestorsOdd, Shows, Serves, ServesLow;
      ghost var m1 := Reshaped(m0, value, ilen);
      SelfDisciplined(vt.hist);
      DeepestDecides(m0, index.keys, value, ilen);
      if m0[At(value, ilen)].dlen == lcp {
        ChildAncestors(m0, index.keys, value, ilen);
        index.ChildReady(m0, value, ilen);
        ChildServesLow(m0, index.keys, value, ilen);
      } else {
        SplitAncestors(m0, index.keys, value, ilen, lcp);
        index.SplitReady(m0, value, ilen);
        SplitServesLow(m0, index.keys, value, ilen);
      }
      LowServes(m1, value, ilen, index.keys, index.keys + {value});
      LowServes(m1, value, 3, index.keys, index.keys + {value});
      if updated {
        ReshapedKeys(m0, value, ilen);
        LowerAncestors(value, ilen, pos1, pos2, m0, m1);
      } else {
        LoweredDone(m0, m1, index.keys, value, ilen, ilen);
        KeptShows(vt.hist, |vt.hist| - 1, index.table.h, index.table.nodes, index.keys, index.keys + {value});
      }
    }

    // ---------- the leaf and the flat levels ----------

    // A slot for the leaf: its version is reset to 1 before the node is written.
    method TakeSlot(len: nat, value: Key, coin: bool, ghost lo: set<Key>, ghost hi: set<Key>)
      returns (leaf: int, failed: bool)
      requires Linked() && vt.Aligned() && index.table.Valid() && 3 <= len <= 8 && At(value, len) !in index.table.nodes
      requires Serves(index.table.nodes, lo, hi)
      modifies vt`hist, vt`resets, vt.ver, index.table.ht
      ensures vt.Aligned() && old(vt.hist) <= vt.hist && index.table.Valid()
      ensures failed <==> old(NoRoom(index.table.ht[..], index.table.h, At(value, len), coin))
      ensures !failed ==> Inside(index.table.ht[..], leaf) && index.table.ht[leaf] == Empty && vt.ver[leaf] == 1
      ensures !failed ==>
              leaf == Place1(index.table.h, index.table.ht.Length, At(value, len))
              || leaf == Place2(index.table.h, index.table.ht.Length, At(value, len))
      ensures !failed ==>
              leaf == ReservedAt(old(index.table.ht[..]), index.table.h, At(value, len), coin)
              && index.table.ht[..] == AfterReservation(old(index.table.ht[..]), index.table.h, At(value, len), coin)
      ensures !failed ==> forall p :: 0 <= p < vt.ver.Length && p != leaf ==> vt.ver[p] % 2 == old(vt.ver[p]) % 2
      ensures !failed ==>
              (Disciplined(vt.hist, |old(vt.hist)| - 1)
               <==> old(RoomEven(index.table.ht[..], index.table.h, vt.ver[..], At(value, len), coin)))
      ensures !failed ==>
              (old(RoomEven(index.table.ht[..], index.table.h, vt.ver[..], At(value, len), coin)) ==>
                 OddKept(old(vt.ver[..])[leaf := 1], vt.ver[..]))
      ensures !failed ==> Shows(vt.hist, |old(vt.hist)| - 1, index.table.h, lo, hi)
      ensures !failed ==>
              Calm(vt.hist, |old(vt.hist)| - 1,
                   old(RoomStirs(index.table.ht[..], index.table.h, At(value, len), coin)) + {leaf})
      ensures !failed ==> ResetsAt(old(vt.resets), vt.resets, |old(vt.hist)|, {leaf})
    {
      hide TableInv, Disciplined, SameSize, Top, Children, NoRoom, Vacated, RoomMade, Shape, StepOk, RoomEven,
           ReservedAt, AfterReservation, Shows, Serves, OneOf, Calm, Keeps, RoomStirs, Counted, SameParity, OddKept,
           Place1, Place2;
      NodesAreOk(index.table.ht[..], index.table.h, index.table.nodes);
      ghost var hist0, m0, ver0 := vt.hist, index.table.nodes, vt.ver[..];
      ghost var even := RoomEven(index.table.ht[..], index.table.h, ver0, At(value, len), coin);
      ghost var stirred := RoomStirs(index.table.ht[..], index.table.h, At(value, len), coin);
      var exist;
      leaf, exist, failed := vt.ReservePositionForInsert(len, value, coin);
      if failed {
        return;
      }
      ghost var hist1, s1, ver1 := vt.hist, index.table.ht[..], vt.ver[..];
      KeptShows(hist1, |hist0| - 1, index.table.h, m0, lo, hi);
      vt.Reset(leaf);
      ResetParities(ver0, ver1, vt.ver[..], leaf, even);
      DisciplineSplits(hist1, vt.hist, |hist0| - 1);
      StepShows(vt.hist, |hist1| - 1, index.table.h, s1, s1, m0, m0, lo, hi);
      ShowsOn(hist1, vt.hist, |hist0| - 1, index.table.h, lo, hi);
      CalmOn(hist1, vt.hist, |hist0| - 1, stirred, {leaf}, stirred + {leaf});
    }

    // The leaf in that slot.
    method WriteLeaf(len: nat, value: Key, coin: bool, ghost lo: set<Key>, ghost hi: set<Key>)
      returns (leaf: int, failed: bool)
      requires Linked() && vt.Aligned() && index.table.Valid() && 3 <= len <= 8 && At(value, len) !in index.table.nodes
      requires Serves(index.table.nodes, lo, hi) && Serves(index.table.nodes[At(value, len) := Leaf(value)], lo, hi)
      modifies vt`hist, vt`resets, vt.ver, index.table`nodes, index.table.ht
      ensures vt.Aligned() && old(vt.hist) <= vt.hist && index.table.Valid()
      ensures failed <==> old(NoRoom(index.table.ht[..], index.table.h, At(value, len), coin))
      ensures !failed ==> index.table.nodes == old(index.table.nodes)[At(value, len) := Leaf(value)]
      ensures !failed ==> NodePut(old(index.table.ht[..]), index.table.ht[..], index.table.h, At(value, len), coin)
      ensures !failed ==> 0 <= leaf < vt.ver.Length
      ensures !failed ==> forall p :: 0 <= p < vt.ver.Length && p != leaf ==> vt.ver[p] % 2 == old(vt.ver[p]) % 2
      ensures !failed ==>
              (Disciplined(vt.hist, |old(vt.hist)| - 1)
               <==> old(RoomEven(index.table.ht[..], index.table.h, vt.ver[..], At(value, len), coin)))
      ensures !failed ==>
              leaf == ReservedAt(old(index.table.ht[..]), index.table.h, At(value, len), coin) && vt.ver[leaf] == 1
      ensures !failed ==>
              (old(RoomEven(index.table.ht[..], index.table.h, vt.ver[..], At(value, len), coin)) ==>
                 OddKept(old(vt.ver[..])[leaf := 1], vt.ver[..]))
      ensures !failed ==> Shows(vt.hist, |old(vt.hist)| - 1, index.table.h, lo, hi)
      ensures !failed ==>
              Calm(vt.hist, |old(vt.hist)| - 1,
                   old(RoomStirs(index.table.ht[..], index.table.h, At(value, len), coin)) + {leaf})
      ensures !failed ==> ResetsAt(old(vt.resets), vt.resets, |old(vt.hist)|, {leaf})
    {
      hide TableInv, Disciplined, SameSize, Top, Children, NoRoom, Vacated, RoomMade, Shape, StepOk, RoomEven,
           ReservedAt, AfterReservation, Shows, Serves, OneOf, Calm, Keeps, RoomStirs, Counted, OddKept, ResetsAt,
           Place1, Place2;
      NodesAreOk(index.table.ht[..], index.table.h, index.table.nodes);
      ghost var hist0, m0 := vt.hist, index.table.nodes;
      ghost var stirred := RoomStirs(index.table.ht[..], index.table.h, At(value, len), coin);
      leaf, failed := TakeSlot(len, value, coin, lo, hi);
      if failed {
        return;
      }
      ghost var hist1, s1 := vt.hist, index.table.ht[..];
      InitLeaf(leaf, len, value);
      DisciplineSplits(hist1, vt.hist, |hist0| - 1);
      StepShows(vt.hist, |hist1| - 1, index.table.h, s1, index.table.ht[..], m0, index.table.nodes, lo, hi);
      ShowsOn(hist1, vt.hist, |hist0| - 1, index.table.h, lo, hi);
      CalmOn(hist1, vt.hist, |hist0| - 1, stirred + {leaf}, {}, stirred + {leaf});
    }

    method InitLeaf(leaf: int, len: nat, value: Key)
      requires Linked() && vt.Aligned() && index.table.Valid() && 3 <= len <= 8 && At(value, len) !in index.table.nodes
      requires Inside(index.table.ht[..], leaf) && index.table.ht[leaf] == Empty && vt.ver[leaf] == 1
      requires leaf == Place1(index.table.h, index.table.ht.Length, At(value, len))
               || leaf == Place2(index.table.h, index.table.ht.Length, At(value, len))
      modifies vt`hist, index.table`nodes, index.table.ht
      ensures vt.Aligned() && old(vt.hist) <= vt.hist && index.table.Valid()
      ensures index.table.nodes == old(index.table.nodes)[At(value, len) := Leaf(value)]
      ensures index.table.ht[..] == old(index.table.ht[..])[leaf := index.table.ht[leaf]]
      ensures HoldsIndex(index.table.ht[..], leaf, At(value, len))
      ensures Disciplined(vt.hist, |old(vt.hist)| - 1)
      ensures OneOf(vt.hist, |old(vt.hist)| - 1, old(index.table.ht[..]), index.table.ht[..])
              && Calm(vt.hist, |old(vt.hist)| - 1, {})
    {
      hide TableInv, Disciplined, SameSize, Counted, Top, Children, Calm, OneOf, Place1, Place2, StepOk;
      index.table.Init(leaf, len, 8, value, -1);
      vt.Log();
      OneSlotStep(old(vt.hist)[|old(vt.hist)| - 1], Snap(vt.ver[..], index.table.ht[..]), leaf);
      OneStep(old(vt.hist), Snap(vt.ver[..], index.table.ht[..]));
    }

    // Records the flat levels after a step.
    ghost method LogTops(lo: nat)
      requires lo < |tops| && LevelsCounted(tops) && LevelCount(tops[|tops| - 1], Now())
      requires LevelsExact(tops) && BitsAreNodes(index.depth2[..], index.table.nodes)
      modifies this`tops
      ensures TopsAligned() && tops == old(tops) + [Now()]
      ensures forall i: nat :: i < 3 ==>
              (LevelKept(tops, lo, i) <==> old(LevelKept(tops, lo, i)) && LevelStep(old(tops[|tops| - 1]), Now(), i))
    {
      hide LevelKept, LevelStep, LevelsCounted, LevelCount, LevelsExact, BitsAreNodes;
      tops := tops + [Now()];
      OneLevelCount(old(tops), Now());
      OneMoreExact(old(tops), Now());
      forall i: nat | i < 3
        ensures LevelKept(tops, lo, i) <==> LevelKept(old(tops), lo, i) && LevelStep(old(tops[|tops| - 1]), Now(), i)
      {
        LevelKeptSplits(old(tops), tops, lo, i);
        OneLevelStep(old(tops), Now(), i);
      }
    }

    // The history of the flat levels grew, and no step since moment lo wrote a level whose version
    // was even, if none did before.
    twostate predicate StillKept(lo: nat)
      reads this, index.root, index.depth1, index.depth2
    {
      TopsAligned() && old(tops) <= tops
      && forall i: nat :: i < 3 ==> (LevelKept(tops, lo, i) <==> old(LevelKept(tops, lo, i)))
    }

    // One version counted up by d, 0 or 1.
    method CountRoot(d: nat, ghost lo: nat)
      requires TopsAligned() && lo < |tops| && d <= 1
      requires BitsAreNodes(index.depth2[..], index.table.nodes)
      modifies this`rootVer, this`tops
      ensures StillKept(lo) && rootVer == PlusWide(old(rootVer), d)
    {
      hide LevelKept, LevelsCounted, PlusWide, LevelsExact, BitsAreNodes;
      rootVer := PlusWide(rootVer, d);
      LogTops(lo);
    }

    method CountDepth1(d: nat, ghost lo: nat)
      requires TopsAligned() && lo < |tops| && d <= 1
      requires BitsAreNodes(index.depth2[..], index.table.nodes)
      modifies this`depth1Ver, this`tops
      ensures StillKept(lo) && depth1Ver == PlusWide(old(depth1Ver), d)
    {
      hide LevelKept, LevelsCounted, PlusWide, LevelsExact, BitsAreNodes;
      depth1Ver := PlusWide(depth1Ver, d);
      LogTops(lo);
    }

    method CountDepth2(d: nat, ghost lo: nat)
      requires TopsAligned() && lo < |tops| && d <= 1
      requires BitsAreNodes(index.depth2[..], index.table.nodes)
      modifies this`depth2Ver, this`tops
      ensures StillKept(lo) && depth2Ver == PlusWide(old(depth2Ver), d)
    {
      hide LevelKept, LevelsCounted, PlusWide, LevelsExact, BitsAreNodes;
      depth2Ver := PlusWide(depth2Ver, d);
      LogTops(lo);
    }

    // LOCK_TOP_LEVELS
    method LockTopLevels(ghost lo: nat)
      requires TopsAligned() && lo < |tops|
      requires BitsAreNodes(index.depth2[..], index.table.nodes)
      modifies this`rootVer, this`depth1Ver, this`depth2Ver, this`tops
      ensures StillKept(lo) && CountedUp(old(TopVers()), TopVers(), 1)
      ensures old(TopEven()) ==> TopOdd()
    {
      hide LevelKept, LevelsCounted, PlusWide, Now, LevelsExact, BitsAreNodes;
      CountRoot(1, lo);
      CountDepth1(1, lo);
      CountDepth2(1, lo);
    }

    // UNLOCK_TOP_LEVELS
    method UnlockTopLevels(ghost lo: nat)
      requires TopsAligned() && lo < |tops|
      requires BitsAreNodes(index.depth2[..], index.table.nodes)
      modifies this`rootVer, this`depth1Ver, this`depth2Ver, this`tops
      ensures StillKept(lo) && TopEven()
      ensures old(TopEven()) ==> TopVers() == old(TopVers())
      ensures old(TopOdd()) ==> CountedUp(old(TopVers()), TopVers(), 1)
    {
      hide LevelKept, LevelsCounted, PlusWide, Now, LevelsExact, BitsAreNodes;
      CountRoot(rootVer % 2, lo);
      CountDepth1(depth1Ver % 2, lo);
      CountDepth2(depth2Ver % 2, lo);
    }

    // LOCK_TOP_LEVELS, then the bits of the first byte and of the first two bytes.
    method MarkPair(value: Key, ghost lo: nat)
      requires index.root != index.depth1 && index.root != index.depth2 && index.depth1 != index.depth2
      requires Top(value, 1) / 64 < index.root.Length && Top(value, 2) / 64 < index.depth1.Length
      requires TopsAligned() && lo < |tops|
      requires BitsAreNodes(index.depth2[..], index.table.nodes)
      modifies this`rootVer, this`depth1Ver, this`depth2Ver, this`tops, index.root, index.depth1
      ensures BitAdded(old(index.root[..]), index.root[..], Top(value, 1))
      ensures BitAdded(old(index.depth1[..]), index.depth1[..], Top(value, 2))
      ensures TopsAligned() && old(tops) <= tops && CountedUp(old(TopVers()), TopVers(), 1)
      ensures old(TopEven()) ==> TopOdd() && StillKept(lo)
    {
      hide Top, BitAdded, LevelKept, LevelsCounted, CountedUp, LevelsExact, BitsAreNodes;
      LockTopLevels(lo);
      SetLevelBit(index.root, Top(value, 1));
      LogTops(lo);
      SetLevelBit(index.depth1, Top(value, 2));
      LogTops(lo);
    }

    // The bit of the first three bytes, which is new.
    method MarkTriple(value: Key, ghost lo: nat)
      requires index.root != index.depth2 && index.depth1 != index.depth2 && Top(value, 3) / 64 < index.depth2.Length
      requires !HasBit(index.depth2[..], Top(value, 3))
      requires BitsAreNodesBut(index.depth2[..], index.table.nodes, Top(value, 3)) && TopsAligned() && lo < |tops|
      modifies this`tops, index.depth2
      ensures BitAdded(old(index.depth2[..]), index.depth2[..], Top(value, 3))
      ensures TopsAligned() && old(tops) <= tops
      ensures LevelKept(tops, lo, 0) <==> old(LevelKept(tops, lo, 0))
      ensures LevelKept(tops, lo, 1) <==> old(LevelKept(tops, lo, 1))
      ensures LevelKept(tops, lo, 2) <==> old(LevelKept(tops, lo, 2)) && depth2Ver % 2 == 1
    {
      hide Top, LevelKept, LevelsCounted, LevelsExact, BitsAreNodes, BitsAreNodesBut, HasBit;
      ghost var before := index.depth2[..];
      SetLevelBit(index.depth2, Top(value, 3));
      BitMakesNode(before, index.depth2[..], index.table.nodes, Top(value, 3));
      LogTops(lo);
    }

    // What an insertion writes to the flat levels it writes under odd versions, but for the bit of three
    // bytes when the first two are known.
    static ghost predicate LevelsWritten(tops0: seq<Levels>, tops: seq<Levels>, known: bool, lcp: nat) {
      |tops0| > 0 && tops0 <= tops && LevelKept(tops, |tops0| - 1, 0) && LevelKept(tops, |tops0| - 1, 1)
      && (LevelKept(tops, |tops0| - 1, 2) <==> !(known && lcp == 2))
    }

    lemma NothingWritten()
      requires TopsAligned()
      ensures |tops| > 0 && LevelKept(tops, |tops| - 1, 0) && LevelKept(tops, |tops| - 1, 1)
              && LevelKept(tops, |tops| - 1, 2)
    {
      NoLevelStep(tops, 0);
      NoLevelStep(tops, 1);
      NoLevelStep(tops, 2);
    }

    // The last part. LOCK_TOP_LEVELS happens only when the first two bytes of value are new.
    method InsertLeaf(value: Key, lcp: nat, known: bool, coin: bool) returns (r: Outcome, leaf: int)
      requires Linked() && vt.Aligned() && TopsAligned() && index.LeafReady(value, lcp, known)
      requires Serves(index.table.nodes, index.keys, index.keys + {value})
      requires lcp > 2 <==> HasPrefix(index.keys, 3, Top(value, 3))
      modifies this`rootVer, this`depth1Ver, this`depth2Ver, this`tops, vt`hist, vt`resets, vt.ver
      modifies index`keys, index.table`nodes, index.table.ht, index.root, index.depth1, index.depth2
      ensures r == Inserted || r == LeafFailed
      ensures r == LeafFailed <==> old(NoRoom(index.table.ht[..], index.table.h, At(value, lcp + 1), coin))
      ensures r == Inserted ==> Valid() && index.keys == old(index.keys) + {value} && old(vt.hist) <= vt.hist
      ensures r == Inserted ==>
              index.table.nodes == old(index.table.nodes)[At(value, lcp + 1) := Leaf(value)]
              && NodePut(old(index.table.ht[..]), index.table.ht[..], index.table.h, At(value, lcp + 1), coin)
      ensures r == Inserted ==> 0 <= leaf < vt.ver.Length
      ensures r == Inserted ==> forall p :: 0 <= p < vt.ver.Length && p != leaf ==> vt.ver[p] % 2 == old(vt.ver[p]) % 2
      ensures r == Inserted ==>
              (Disciplined(vt.hist, |old(vt.hist)| - 1)
               <==> old(RoomEven(index.table.ht[..], index.table.h, vt.ver[..], At(value, lcp + 1), coin)))
      ensures r == Inserted && old(TopEven()) ==> if known then TopEven() else TopOdd()
      ensures r == Inserted && old(TopEven()) ==>
              LevelsWritten(old(tops), tops, known, lcp)
              && if known then TopVers() == old(TopVers()) else CountedUp(old(TopVers()), TopVers(), 1)
      ensures r == Inserted ==>
              leaf == ReservedAt(old(index.table.ht[..]), index.table.h, At(value, lcp + 1), coin) && vt.ver[leaf] == 1
      ensures r == Inserted ==>
              (old(RoomEven(index.table.ht[..], index.table.h, vt.ver[..], At(value, lcp + 1), coin)) ==>
                 OddKept(old(vt.ver[..])[leaf := 1], vt.ver[..]))
      ensures r == Inserted ==> Shows(vt.hist, |old(vt.hist)| - 1, index.table.h, old(index.keys), index.keys)
      ensures r == Inserted ==> Serves(index.table.nodes, old(index.keys), index.keys)
      ensures r == Inserted ==>
              Calm(vt.hist, |old(vt.hist)| - 1,
                   old(RoomStirs(index.table.ht[..], index.table.h, At(value, lcp + 1), coin)) + {leaf})
      ensures r == Inserted ==> forall i :: LeafSlot(index.table.ht[..], index.table.nodes, value, i) ==> i == leaf
      ensures r == Inserted ==>
              LeafSlot(index.table.ht[..], index.table.nodes, value, leaf)
              && ResetsAt(old(vt.resets), vt.resets, |old(vt.hist)|, {leaf})
    {
      hide TableInv, TrieInv, LevelInv, Top, BitAdded, HasPrefix, Disciplined, SameSize, Counted, StepOk, NoRoom,
           RoomEven, NodePut, Shows, Serves, Calm, OddKept, RoomStirs, ReservedAt, LeafSlot, LevelKept, LevelsCounted,
           CountedUp, HasBit, ResetsAt, HoldsIndex, TopsAligned, BitsAreNodes, BitsAreNodesBut;
      index.LevelLengths(value);
      ghost var lo := |tops| - 1;
      NothingWritten();
      BitOfPrefix(index.depth2[..], 3, index.keys, value);
      LeafBits(index.depth2[..], index.table.nodes, index.keys, value, lcp + 1);
      NodesAreOk(index.table.ht[..], index.table.h, index.table.nodes);
      TrieServes(index.table.nodes[At(value, lcp + 1) := Leaf(value)], index.keys + {value});
      ServesLess(index.table.nodes[At(value, lcp + 1) := Leaf(value)], index.keys + {value}, index.keys + {value},
                 index.keys,
                 index.keys + {value});
      if !known {
        MarkPair(value, lo);
      }
      var failed;
      leaf, failed := WriteLeaf(lcp + 1, value, coin, index.keys, index.keys + {value});
      if failed {
        return LeafFailed, leaf;
      }
      if lcp == 2 {
        MarkTriple(value, lo);
      }
      index.LevelsGrown(value, lcp, known, old(index.root[..]), old(index.depth1[..]), old(index.depth2[..]));
      index.Grow(value);
      LeafPut(old(index.table.ht[..]), index.table.ht[..], index.table.h, value, lcp + 1, coin, leaf);
      LeafSlotIs(index.table.ht[..], index.table.h, index.table.nodes, index.keys, value, lcp + 1, leaf);
      r := Inserted;
    }

    ghost predicate TopOdd()
      reads this
    {
      rootVer % 2 == 1 && depth1Ver % 2 == 1 && depth2Ver % 2 == 1
    }

    // The versions the insertion still holds odd when the leaf is in place.
    method Unlock(pos1: seq<int>, pos2: seq<int>, ilen: nat, x: int, used: bool, leaf: int)
      requires vt.Aligned() && |pos1| == 8 && |pos2| == 8 && ilen <= 8
               && InRange(PathLocks(pos1, pos2, ilen), vt.ver.Length)
      requires 0 <= leaf < vt.ver.Length && (used ==> 0 <= x < vt.ver.Length)
      requires OddOnlyAt(vt.ver[..], (set p | p in PathLocks(pos1, pos2, ilen)) + ((if used then {x} else {}) + {leaf}))
      modifies vt.ver, vt`hist
      ensures vt.OnlyVersions() && AllEven(vt.ver[..]) && OddUpdated(old(vt.ver[..]), vt.ver[..])
    {
      hide Disciplined, SameSize, Counted, StepOk, OneOf, Calm, OddUpdated, Plus;
      ghost var hist0 := vt.hist;
      UnlockPath(pos1, pos2, ilen, (if used then {x} else {}) + {leaf});
      ghost var hist1, ver1 := vt.hist, vt.ver[..];
      if used {
        vt.CondInc(x);
        UpdatedOn(old(vt.ver[..]), ver1, vt.ver[..], x);
      } else {
        SelfDisciplined(hist1);
        SameSlots(hist1);
      }
      ghost var hist2, ver2 := vt.hist, vt.ver[..];
      assert OddOnlyAt(vt.ver[..], {leaf});
      vt.CondInc(leaf);
      UpdatedOn(old(vt.ver[..]), ver2, vt.ver[..], leaf);
      OneOfOn(hist1, hist2, |hist0| - 1, vt.table.ht[..], vt.table.ht[..]);
      OneOfOn(hist2, vt.hist, |hist0| - 1, vt.table.ht[..], vt.table.ht[..]);
      DisciplineSplits(hist1, hist2, |hist0| - 1);
      DisciplineSplits(hist2, vt.hist, |hist0| - 1);
    }

    // Between insertions no version is odd.
    ghost predicate Quiet()
      reads this, vt, vt.ver
    {
      AllEven(vt.ver[..]) && TopEven()
    }

    // The node changes below the flat levels, and what they leave decides the leaf.
    method PrepareBelow(value: Key, lcp: nat, ilen: nat, pos1: seq<int>, pos2: seq<int>, coin: bool, ghost coin2: bool)
      returns (r: Outcome, x: int, used: bool)
      requires Valid() && AllEven(vt.ver[..]) && Deepest(index.table.nodes, value, ilen) && value !in index.keys
      requires lcp == Lcp(value, index.table.nodes[At(value, ilen)].minKey) && ilen <= lcp < 8
      requires |pos1| == |pos2| == 8 && HoldsIndex(index.table.ht[..], pos1[ilen - 1], At(value, ilen))
      requires 2 * GAP < index.table.ht.Length
               && Candidates(index.table.h, index.table.ht.Length, value, ilen - 1, pos1, pos2)
      requires pos2[ilen - 1] == Place2(index.table.h, index.table.ht.Length, At(value, ilen))
      modifies vt`hist, vt`resets, vt.ver, index.table`nodes, index.table.ht
      ensures r == Inserted || r == SplitFailed || r == SplitNodeDisplaced
      ensures r == SplitFailed
              <==> old(SplitCannotReserve(index.table.ht[..], index.table.h, index.table.nodes, value, coin))
      ensures r == SplitNodeDisplaced
              <==> old(SplitLosesNode(index.table.ht[..], index.table.h, index.table.nodes, value, coin))
      ensures r == Inserted ==> Prepared(value, lcp, true) && old(vt.hist) <= vt.hist
      ensures r == Inserted ==>
              (NoRoom(index.table.ht[..], index.table.h, At(value, lcp + 1), coin2)
               <==> old(LeafCannotReserve(index.table.ht[..], index.table.h, index.table.nodes, value, coin, coin2)))
      ensures r == Inserted ==> HeldLocks(pos1, pos2, ilen, x, used)
      ensures r == Inserted ==>
              (Disciplined(vt.hist, |old(vt.hist)| - 1)
               && RoomEven(index.table.ht[..], index.table.h, vt.ver[..], At(value, lcp + 1), coin2)
               <==> old(ProperlyLocked(index.table.ht[..], index.table.h, index.table.nodes, value, coin, coin2)))
      ensures r == Inserted ==> Shows(vt.hist, |old(vt.hist)| - 1, index.table.h, index.keys, index.keys + {value})
      ensures r == Inserted ==>
              forall i :: CutSlot(old(index.table.ht[..]), old(index.table.nodes), value, i) ==>
                0 <= i < vt.ver.Length && vt.ver[i] == 1
      ensures r == Inserted ==>
              ResetsAt(old(vt.resets), vt.resets, |old(vt.hist)|,
                       CutSlots(old(index.table.ht[..]), old(index.table.nodes), value))
    {
      hide TableInv, TrieInv, LevelInv, Top, Lcp, NoRoom, SplitCannotReserve, SplitLosesNode, HasPrefix, BelowFits,
           ProperlyLocked, Disciplined, SameSize, Counted, StepOk, OddOnlyAt, PathLocks, InRange, Candidates, Place1,
           Place2, SplitIndex, HasBit, RoomEven, LeafCannotReserve, AfterBelow, AfterBranch, SameLayout, Shape,
           Children, LocksFrom, LockParity, SameParity, Shows, Serves, AllEven, CutSlot, NoneDeeper, SplitsAt, ResetsAt,
           CutSlots;
      ghost var s0, m0, h := index.table.ht[..], index.table.nodes, index.table.h;
      NodesAreOk(s0, h, m0);
      Located(s0, h, m0, At(value, ilen));
      index.PairBit(value);
      index.PrefixOfNode(value, ilen, 2);
      index.PrefixOfNode(value, ilen, 3);
      ghost var pos := pos1[ilen - 1];
      CutSlotIs(s0, h, m0, value, ilen, pos);
      r, x, used := InsertBelow(value, lcp, ilen, pos1, pos2, coin);
      if r == Inserted {
        NodesAreOk(index.table.ht[..], h, index.table.nodes);
        PathIsReady(s0, h, m0, index.table.ht[..], vt.ver[..], Disciplined(vt.hist, |old(vt.hist)| - 1), value, ilen,
                    pos,
                    coin, coin2);
      }
    }

    // Ready for the leaf.
    ghost predicate Prepared(value: Key, lcp: nat, known: bool)
      reads this, vt, vt.ver, vt.table.ht, index, index.table, index.table.ht, index.root, index.depth1, index.depth2
    {
      && Linked() && vt.Aligned() && TopsAligned() && index.LeafReady(value, lcp, known)
      && Serves(index.table.nodes, index.keys, index.keys + {value})
      && (known <==> HasPrefix(index.keys, 2, Top(value, 2))) && (lcp > 2 <==> HasPrefix(index.keys, 3, Top(value, 3)))
    }

    // The only odd versions are those of the locked path and of the slot a split took.
    ghost predicate HeldLocks(pos1: seq<int>, pos2: seq<int>, ilen: nat, x: int, used: bool)
      reads vt.ver
    {
      && |pos1| == |pos2| == 8 && ilen <= 8 && 0 <= x < vt.ver.Length
         && InRange(PathLocks(pos1, pos2, ilen), vt.ver.Length)
      && OddOnlyAt(vt.ver[..], (set p | p in PathLocks(pos1, pos2, ilen)) + (if used then {x} else {}))
    }

    // Without a node on the path of value there is nothing to do before the leaf.
    lemma RootReady(value: Key, known: bool, coin: bool, coin2: bool)
      requires Valid() && Quiet() && NoneDeeper(index.table.nodes, value, 2)
      requires known <==> HasPrefix(index.keys, 2, Top(value, 2))
      ensures value !in index.keys && Prepared(value, 2, known)
      ensures 2 * GAP < index.table.ht.Length && forall i :: IsNode(index.table.ht[..], i) ==>
              index.table.ht[..][i].ilen <= 8
      ensures var s, h, m := index.table.ht[..], index.table.h, index.table.nodes;
              && !SplitCannotReserve(s, h, m, value, coin) && !SplitLosesNode(s, h, m, value, coin)
              && (NoRoom(s, h, At(value, 3), coin2) <==> LeafCannotReserve(s, h, m, value, coin, coin2))
              && ProperlyLocked(s, h, m, value, coin, coin2) && RoomEven(s, h, vt.ver[..], At(value, 3), coin2)
              && (forall i :: !CutSlot(s, m, value, i))
      ensures Disciplined(vt.hist, |vt.hist| - 1)
      ensures Shows(vt.hist, |vt.hist| - 1, index.table.h, index.keys, index.keys + {value})
    {
      hide TableInv, TrieInv, LevelInv, Top, Lcp, NoRoom, SplitCannotReserve, SplitLosesNode, HasPrefix,
           ProperlyLocked, Disciplined, SameSize, Counted, RoomEven, LeafCannotReserve, Shape, Shows, Serves, CutSlot,
           Keeps;
      var s, m, h := index.table.ht[..], index.table.nodes, index.table.h;
      NodesAreOk(s, h, m);
      NoThirdByte(m, index.keys, value);
      NoSplit(s, h, m, value, coin, 0);
      InsertAtRoot(m, index.keys, value);
      LeafOutcomeAtRoot(s, h, m, value, coin, coin2);
      ProperlyLockedNone(s, h, m, value, coin, coin2);
      RoomEvenAtStart(s, h, vt.ver[..], At(value, 3), coin2);
      NoCutSlot(s, m, value);
      SelfDisciplined(vt.hist);
      TrieServes(m, index.keys);
      ServesLess(m, index.keys, index.keys, index.keys, index.keys + {value});
      NothingYet(vt.hist, h, m, {});
      KeptShows(vt.hist, |vt.hist| - 1, h, m, index.keys, index.keys + {value});
    }

    // Everything up to the leaf: lcp is the length value shares with the set, known whether its
    // first two bytes occur already.
    method Prepare(value: Key, coin: bool, ghost coin2: bool)
      returns (r: Outcome, lcp: nat, known: bool, ilen: nat, pos1: seq<int>, pos2: seq<int>, x: int, used: bool)
      requires Valid() && Quiet()
      modifies vt`hist, vt`resets, vt.ver, index.table`nodes, index.table.ht
      ensures r == Inserted || r == AlreadyPresent || r == SplitFailed || r == SplitNodeDisplaced
      ensures r == AlreadyPresent <==> value in index.keys
      ensures r == AlreadyPresent ==>
              Valid() && vt.hist == old(vt.hist) && vt.ver[..] == old(vt.ver[..])
              && index.table.ht[..] == old(index.table.ht[..])
      ensures r == SplitFailed
              <==> old(SplitCannotReserve(index.table.ht[..], index.table.h, index.table.nodes, value, coin))
      ensures r == SplitNodeDisplaced
              <==> old(SplitLosesNode(index.table.ht[..], index.table.h, index.table.nodes, value, coin))
      ensures r == Inserted ==> Prepared(value, lcp, known) && old(vt.hist) <= vt.hist
      ensures r == Inserted ==>
              (NoRoom(index.table.ht[..], index.table.h, At(value, lcp + 1), coin2)
               <==> old(LeafCannotReserve(index.table.ht[..], index.table.h, index.table.nodes, value, coin, coin2)))
      ensures r == Inserted && lcp > 2 ==> HeldLocks(pos1, pos2, ilen, x, used)
      ensures r == Inserted && lcp == 2 ==> vt.hist == old(vt.hist) && vt.ver[..] == old(vt.ver[..])
      ensures r == Inserted && old(NoneDeeper(index.table.nodes, value, 2)) ==>
              lcp == 2 && index.table.ht[..] == old(index.table.ht[..]) && index.table.nodes == old(index.table.nodes)
      ensures r == Inserted ==>
              (Disciplined(vt.hist, |old(vt.hist)| - 1)
               && RoomEven(index.table.ht[..], index.table.h, vt.ver[..], At(value, lcp + 1), coin2)
               <==> old(ProperlyLocked(index.table.ht[..], index.table.h, index.table.nodes, value, coin, coin2)))
      ensures r == Inserted ==> Shows(vt.hist, |old(vt.hist)| - 1, index.table.h, index.keys, index.keys + {value})
      ensures r == Inserted ==>
              forall i :: CutSlot(old(index.table.ht[..]), old(index.table.nodes), value, i) ==>
                0 <= i < vt.ver.Length && vt.ver[i] == 1
      ensures r == Inserted ==>
              ResetsAt(old(vt.resets), vt.resets, |old(vt.hist)|,
                       CutSlots(old(index.table.ht[..]), old(index.table.nodes), value))
    {
      hide TableInv, TrieInv, LevelInv, Top, Lcp, NoRoom, SplitCannotReserve, SplitLosesNode, HasPrefix,
           ProperlyLocked, Disciplined, SameSize, Counted, Candidates, Place1, Place2, HasBit, RoomEven,
           LeafCannotReserve, Shape, Children, Shows, Serves, CutSlot;
      ghost var s0, m0, h := index.table.ht[..], index.table.nodes, index.table.h;
      NodesAreOk(s0, h, m0);
      lcp, ilen, pos1, pos2, x, used := 2, 0, [], [], 0, false;
      index.PairBit(value);
      known := HasBit(index.depth1[..], Top(value, 2));
      if known {
        lcp, ilen, pos1, pos2 := index.table.QueryLCP(value);
        if lcp == 8 {
          DeepestDecides(m0, index.keys, value, ilen);
          NoSplit(s0, h, m0, value, coin, ilen);
          r := AlreadyPresent;
          return;
        }
        if lcp != 2 {
          DeepestDecides(m0, index.keys, value, ilen);
          r, x, used := PrepareBelow(value, lcp, ilen, pos1, pos2, coin, coin2);
          return;
        }
      }
      RootReady(value, known, coin, coin2);
      r := Inserted;
    }

    // The unlocking at the end.
    method Release(pos1: seq<int>, pos2: seq<int>, ilen: nat, lcp: nat, x: int, used: bool, leaf: int,
                   ghost ver1: seq<nat>, ghost lo: nat)
      requires vt.Aligned() && Linked() && TopsAligned() && lo < |tops|
      requires 0 <= leaf < vt.ver.Length && |ver1| == vt.ver.Length
      requires forall p :: 0 <= p < vt.ver.Length && p != leaf ==> vt.ver[p] % 2 == ver1[p] % 2
      requires lcp == 2 ==> AllEven(ver1) && BitsAreNodes(index.depth2[..], index.table.nodes)
      requires lcp != 2 ==>
               && |pos1| == |pos2| == 8 && ilen <= 8 && 0 <= x < |ver1| && InRange(PathLocks(pos1, pos2, ilen), |ver1|)
               && OddOnlyAt(ver1, (set p | p in PathLocks(pos1, pos2, ilen)) + (if used then {x} else {}))
      modifies this`rootVer, this`depth1Ver, this`depth2Ver, this`tops, vt`hist, vt.ver
      ensures vt.OnlyVersions() && AllEven(vt.ver[..]) && OddUpdated(old(vt.ver[..]), vt.ver[..])
      ensures StillKept(lo) && (old(TopEven()) || lcp == 2 ==> TopEven())
      ensures old(TopEven()) ==> TopVers() == old(TopVers())
      ensures lcp == 2 && old(TopOdd()) ==> CountedUp(old(TopVers()), TopVers(), 1)
      ensures lcp == 2 ==> Calm(vt.hist, |old(vt.hist)| - 1, {leaf})
    {
      hide Disciplined, SameSize, Counted, StepOk, OddOnlyAt, PathLocks, InRange, AllEven, Plus, OneOf, Calm,
           OddUpdated, LevelKept, LevelsCounted, CountedUp, LevelsExact, BitsAreNodes;
      ghost var ver2 := vt.ver[..];
      if lcp == 2 {
        NoneUpdated(ver2);
        vt.CondInc(leaf);
        UpdatedOn(ver2, ver2, vt.ver[..], leaf);
        AllEvenAgain(ver1, ver2, vt.ver[..], leaf);
        UnlockTopLevels(lo);
      } else {
        OddWithLeaf(ver1, ver2, PathLocks(pos1, pos2, ilen), x, used, leaf);
        Unlock(pos1, pos2, ilen, x, used, leaf);
      }
    }

    // The leaf and the unlocking, after what came before: hist0, s0 and m0 are from before the
    // insertion.
    method Commit(value: Key, lcp: nat, known: bool, ilen: nat, pos1: seq<int>, pos2: seq<int>, x: int, used: bool,
                  coin: bool, ghost hist0: seq<Snap>, ghost s0: seq<Slot>, ghost m0: map<Index, Info>)
      returns (r: Outcome, ghost leaf: int)
      requires Prepared(value, lcp, known) && TopEven() && hist0 <= vt.hist && |hist0| > 0
      requires if lcp == 2 then AllEven(vt.ver[..]) else HeldLocks(pos1, pos2, ilen, x, used)
      requires forall i :: CutSlot(s0, m0, value, i) ==> 0 <= i < vt.ver.Length && vt.ver[i] == 1
      modifies this`rootVer, this`depth1Ver, this`depth2Ver, this`tops, vt`hist, vt`resets, vt.ver
      modifies index`keys, index.table`nodes, index.table.ht, index.root, index.depth1, index.depth2
      ensures r == Inserted || r == LeafFailed
      ensures r == LeafFailed <==> old(NoRoom(index.table.ht[..], index.table.h, At(value, lcp + 1), coin))
      ensures r == Inserted ==>
              Valid() && Quiet() && index.keys == old(index.keys) + {value} && old(vt.hist) <= vt.hist
      ensures r == Inserted ==>
              index.table.nodes == old(index.table.nodes)[At(value, lcp + 1) := Leaf(value)]
              && NodePut(old(index.table.ht[..]), index.table.ht[..], index.table.h, At(value, lcp + 1), coin)
      ensures r == Inserted ==>
              (Disciplined(vt.hist, |old(vt.hist)| - 1)
               <==> old(RoomEven(index.table.ht[..], index.table.h, vt.ver[..], At(value, lcp + 1), coin)))
      ensures r == Inserted ==> Shows(vt.hist, |old(vt.hist)| - 1, index.table.h, old(index.keys), index.keys)
      ensures r == Inserted ==>
              leaf == ReservedAt(old(index.table.ht[..]), index.table.h, At(value, lcp + 1), coin)
              && EndsAtTwo(vt.hist, |hist0| - 1, leaf)
      ensures r == Inserted ==> forall i :: LeafSlot(index.table.ht[..], index.table.nodes, value, i) ==> i == leaf
      ensures r == Inserted
              && old(RoomEven(index.table.ht[..], index.table.h, vt.ver[..], At(value, lcp + 1), coin)) ==>
              forall i :: CutSlot(s0, m0, value, i) ==> EndsAtTwo(vt.hist, |hist0| - 1, i)
      ensures r == Inserted && lcp == 2 ==>
              Calm(vt.hist, |old(vt.hist)| - 1,
                   old(RoomStirs(index.table.ht[..], index.table.h, At(value, 3), coin)) + {leaf})
      ensures r == Inserted ==>
              LevelsWritten(old(tops), tops, known, lcp)
              && if known then TopVers() == old(TopVers()) else CountedUp(old(TopVers()), TopVers(), 2)
      ensures r == Inserted ==>
              ResetsAt(old(vt.resets), vt.resets, |old(vt.hist)|,
                       LeafSlots(index.table.ht[..], index.table.nodes, value))
    {
      hide TableInv, TrieInv, LevelInv, Top, NoRoom, HasPrefix, Disciplined, SameSize, Counted, StepOk, OddOnlyAt,
           PathLocks, InRange, AllEven, RoomEven, Plus, NodePut, Shows, Serves, OneOf, Calm, OddUpdated, OddKept,
           CutSlot, EndsAtTwo, RoomStirs, ReservedAt, LeafSlot, LevelKept, LevelsCounted, CountedUp, LevelsExact,
           BitsAreNodes;
      ghost var tops0, vers0 := tops, TopVers();
      ghost var hist1, ver1, h := vt.hist, vt.ver[..], index.table.h;
      NodesAreOk(index.table.ht[..], h, index.table.nodes);
      ghost var even := RoomEven(index.table.ht[..], h, ver1, At(value, lcp + 1), coin);
      ghost var stirred := RoomStirs(index.table.ht[..], h, At(value, lcp + 1), coin);
      var slot;
      r, slot := InsertLeaf(value, lcp, known, coin);
      leaf := slot;
      if r != Inserted {
        return;
      }
      ghost var hist2, ver2, vers1 := vt.hist, vt.ver[..], TopVers();
      LevelHasNodes(index.depth2[..], index.table.nodes, index.keys);
      Release(pos1, pos2, ilen, lcp, x, used, slot, ver1, |tops0| - 1);
      StepShows(vt.hist, |hist2| - 1, h, index.table.ht[..], index.table.ht[..], index.table.nodes, index.table.nodes,
                old(index.keys), index.keys);
      DisciplineSplits(hist2, vt.hist, |hist1| - 1);
      ShowsOn(hist2, vt.hist, |hist1| - 1, h, old(index.keys), index.keys);
      SlotsEnd(hist0, hist2, ver1, ver2, s0, m0, value, leaf, even);
      if !known {
        CountedTwice(vers0, vers1, TopVers());
      }
      if lcp == 2 {
        CalmOn(hist2, vt.hist, |hist1| - 1, stirred + {leaf}, {leaf}, stirred + {leaf});
      }
    }

    // Insertion under the version protocol.
    method Insert(value: Key, coin1: bool, coin2: bool) returns (r: Outcome)
      requires Valid() && Quiet()
      modifies this`rootVer, this`depth1Ver, this`depth2Ver, this`tops, vt`hist, vt`resets, vt.ver
      modifies index`keys, index.table`nodes, index.table.ht, index.root, index.depth1, index.depth2
      ensures r == AlreadyPresent <==> value in old(index.keys)
      ensures r == AlreadyPresent ==>
              Valid() && Quiet() && index.keys == old(index.keys) && vt.hist == old(vt.hist) && tops == old(tops)
      ensures r == Inserted ==> Valid() && Quiet() && index.keys == old(index.keys) + {value} && old(vt.hist) <= vt.hist
      ensures r == SplitFailed
              <==> old(SplitCannotReserve(index.table.ht[..], index.table.h, index.table.nodes, value, coin1))
      ensures r == SplitNodeDisplaced
              <==> old(SplitLosesNode(index.table.ht[..], index.table.h, index.table.nodes, value, coin1))
      ensures r == LeafFailed <==>
              r != AlreadyPresent && r != SplitFailed && r != SplitNodeDisplaced
              && old(LeafCannotReserve(index.table.ht[..], index.table.h, index.table.nodes, value, coin1, coin2))
      ensures r == Inserted ==>
              (Disciplined(vt.hist, |old(vt.hist)| - 1)
               <==> old(ProperlyLocked(index.table.ht[..], index.table.h, index.table.nodes, value, coin1, coin2)))
      // Queries find the old set or the new one at every moment.
      ensures r == Inserted ==> Shows(vt.hist, |old(vt.hist)| - 1, index.table.h, old(index.keys), index.keys)
      // Where the locks fit, the slot of a node that was cut ends at version 2.
      ensures r == Inserted
              && old(ProperlyLocked(index.table.ht[..], index.table.h, index.table.nodes, value, coin1, coin2)) ==>
              forall i :: CutSlot(old(index.table.ht[..]), old(index.table.nodes), value, i) ==>
                EndsAtTwo(vt.hist, |old(vt.hist)| - 1, i)
      // So does the slot of the new leaf.
      ensures r == Inserted ==>
              forall i :: LeafSlot(index.table.ht[..], index.table.nodes, value, i) ==>
                EndsAtTwo(vt.hist, |old(vt.hist)| - 1, i)
      // No other slots are reset, so that every version on the way counts on by ones elsewhere.
      ensures r == Inserted ==>
              ResetsAt(old(vt.resets), vt.resets, |old(vt.hist)|,
                       CutSlots(old(index.table.ht[..]), old(index.table.nodes), value)
                       + LeafSlots(index.table.ht[..], index.table.nodes, value))
      // A new leaf right below the flat levels.
      ensures r == Inserted && old(NoneDeeper(index.table.nodes, value, 2)) ==>
              var s := old(index.table.ht[..]);
              var i := ReservedAt(s, index.table.h, At(value, 3), coin2);
              && index.table.nodes == old(index.table.nodes)[At(value, 3) := Leaf(value)]
              && NodePut(s, index.table.ht[..], index.table.h, At(value, 3), coin2)
              && EndsAtTwo(vt.hist, |old(vt.hist)| - 1, i)
              && Calm(vt.hist, |old(vt.hist)| - 1, RoomStirs(s, index.table.h, At(value, 3), coin2) + {i})
      // The flat levels: no word changes under an even version, but for the third level when the first
      // two bytes of value are known and the first three are new. New first two bytes count every
      // version up twice, known ones not at all.
      ensures r == Inserted ==>
              old(tops) <= tops && LevelKept(tops, |old(tops)| - 1, 0) && LevelKept(tops, |old(tops)| - 1, 1)
              && (LevelKept(tops, |old(tops)| - 1, 2)
                  <==> !HasPrefix(old(index.keys), 2, Top(value, 2)) || HasPrefix(old(index.keys), 3, Top(value, 3)))
      ensures r == Inserted ==>
              if HasPrefix(old(index.keys), 2, Top(value, 2)) then TopVers() == old(TopVers())
              else CountedUp(old(TopVers()), TopVers(), 2)
    {
      hide TableInv, TrieInv, LevelInv, Top, NoRoom, SplitCannotReserve, SplitLosesNode, HasPrefix, ProperlyLocked,
           Disciplined, SameSize, Counted, StepOk, OddOnlyAt, PathLocks, InRange, AllEven, RoomEven, LeafCannotReserve,
           Plus, NodePut, Shows, Serves, OneOf, Calm, OddUpdated, OddKept, CutSlot, EndsAtTwo, RoomStirs, ReservedAt,
           LeafSlot, LevelKept, LevelsCounted, CountedUp, ResetsAt, LevelsExact;
      ghost var resets0 := vt.resets;
      ghost var hist0, s0, m0, h := vt.hist, index.table.ht[..], index.table.nodes, index.table.h;
      index.TableSize();
      var lcp, known, ilen, pos1, pos2, x, used;
      r, lcp, known, ilen, pos1, pos2, x, used := Prepare(value, coin1, coin2);
      if r != Inserted {
        return;
      }
      ghost var hist1, resets1 := vt.hist, vt.resets;
      NodesAreOk(index.table.ht[..], h, index.table.nodes);
      ghost var leaf;
      r, leaf := Commit(value, lcp, known, ilen, pos1, pos2, x, used, coin2, hist0, s0, m0);
      if r != Inserted {
        return;
      }
      DisciplineSplits(hist1, vt.hist, |hist0| - 1);
      ResetsOn(resets0, resets1, vt.resets, |hist0|, |hist1|, CutSlots(s0, m0, value),
               LeafSlots(index.table.ht[..], index.table.nodes, value));
      ShowsOn(hist1, vt.hist, |hist0| - 1, h, old(index.keys), index.keys);
    }

    // The slot of the leaf ends at 2, and so does that of the node that was cut if no odd version
    // changed while the leaf was written.
    lemma SlotsEnd(hist0: seq<Snap>, hist2: seq<Snap>, ver1: seq<nat>, ver2: seq<nat>, s0: seq<Slot>,
                   m0: map<Index, Info>, value: Key, leaf: int, even: bool)
      requires vt.Aligned() && AllEven(vt.ver[..]) && OddUpdated(ver2, vt.ver[..])
      requires hist0 <= hist2 <= vt.hist && |hist0| > 0 && hist2[|hist2| - 1].ver == ver2
      requires 0 <= leaf < |ver2| == |ver1| && ver2[leaf] == 1 && (even ==> OddKept(ver1[leaf := 1], ver2))
      requires forall i :: CutSlot(s0, m0, value, i) ==> 0 <= i < |ver1| && ver1[i] == 1
      ensures EndsAtTwo(vt.hist, |hist0| - 1, leaf)
      ensures even ==> forall i :: CutSlot(s0, m0, value, i) ==> EndsAtTwo(vt.hist, |hist0| - 1, i)
    {
      hide CutSlot, EndsAtTwo, OddKept, OddUpdated, AllEven, SameSize;
      SlotEnds(hist0, hist2, ver2, leaf);
      if even {
        forall i | CutSlot(s0, m0, value, i) ensures EndsAtTwo(vt.hist, |hist0| - 1, i) {
          ResetKept(ver1, ver2, leaf, i);
          SlotEnds(hist0, hist2, ver2, i);
        }
      }
    }

    // A slot whose version was 1 when the leaf was in place ends at 2.
    lemma SlotEnds(hist0: seq<Snap>, hist2: seq<Snap>, ver2: seq<nat>, i: int)
      requires vt.Aligned() && AllEven(vt.ver[..]) && OddUpdated(ver2, vt.ver[..]) && 0 <= i < |ver2| && ver2[i] == 1
      requires hist0 <= hist2 <= vt.hist && |hist0| > 0 && hist2[|hist2| - 1].ver == ver2
      ensures EndsAtTwo(vt.hist, |hist0| - 1, i)
    {
      hide OddUpdated, AllEven;
      UpdatedFromOne(ver2, vt.ver[..], i);
      FromOneToTwo(hist2, vt.hist, |hist0| - 1, i);
    }
  }
}
