// The writer side of the version protocol: the insertion of MlpSet with the version of a slot
// odd while the slot changes. There is a single writer; hist records the table after each of
// its steps, for the readers of module Snapshot.
module Versioned {
  import opened Keys
  import opened Slots
  import opened CuckooTable
  import opened Snapshot

  // Discipline over a longer history is discipline over its two parts.
  lemma DisciplineSplits(a: seq<Snap>, b: seq<Snap>, lo: nat)
    requires a <= b && lo < |a|
    ensures Disciplined(b, lo) <==> Disciplined(a, lo) && Disciplined(b, |a| - 1)
  {
    if Disciplined(b, lo) {
      forall t | lo <= t < |a| - 1 ensures StepOk(a[t], a[t + 1]) {
        assert StepOk(b[t], b[t + 1]);
      }
    }
    if Disciplined(a, lo) && Disciplined(b, |a| - 1) {
      forall t | lo <= t < |b| - 1 ensures StepOk(b[t], b[t + 1]) {
        if t < |a| - 1 {
          assert StepOk(a[t], a[t + 1]);
        }
      }
    }
  }

  lemma OneStep(a: seq<Snap>, s: Snap)
    requires |a| > 0
    ensures Disciplined(a + [s], |a| - 1) <==> StepOk(a[|a| - 1], s)
    ensures Disciplined(a, |a| - 1) && OneOf(a + [s], |a| - 1, a[|a| - 1].slots, s.slots)
    ensures s.ver == a[|a| - 1].ver ==> Calm(a + [s], |a| - 1, {})
  {
    var b := a + [s];
    var l := |a| - 1;
    assert b[l] == a[l] && b[l + 1] == s;
    assert Disciplined(b, l) ==> StepOk(b[l], b[l + 1]);
  }

  // ---------- what no step of the writer does ----------

  // From moment lo on the table stores the nodes m.
  ghost predicate Keeps(hist: seq<Snap>, lo: nat, h: Hashes, m: map<Index, Info>) {
    forall t :: lo <= t < |hist| ==> TableInv(hist[t].slots, h, m)
  }

  lemma KeepsOn(a: seq<Snap>, b: seq<Snap>, lo: nat, h: Hashes, m: map<Index, Info>)
    requires a <= b && lo < |a| && Keeps(a, lo, h, m) && Keeps(b, |a| - 1, h, m)
    ensures Keeps(b, lo, h, m)
  {
    hide TableInv;
    forall t | lo <= t < |b| ensures TableInv(b[t].slots, h, m) {
      assert t < |a| ==> b[t] == a[t];
    }
  }

  // From moment lo on the slots are s or r.
  ghost predicate OneOf(hist: seq<Snap>, lo: nat, s: seq<Slot>, r: seq<Slot>) {
    forall t :: lo <= t < |hist| ==> hist[t].slots == s || hist[t].slots == r
  }

  lemma OneOfOn(a: seq<Snap>, b: seq<Snap>, lo: nat, s: seq<Slot>, r: seq<Slot>)
    requires a <= b && lo < |a| && (OneOf(a, lo, s, s) || OneOf(a, lo, s, r))
             && (OneOf(b, |a| - 1, s, r) || OneOf(b, |a| - 1, r, r))
    ensures OneOf(b, lo, s, r)
  {
    forall t | lo <= t < |b| ensures b[t].slots == s || b[t].slots == r {
      assert t < |a| ==> b[t] == a[t];
    }
  }

  lemma KeepsBoth(hist: seq<Snap>, lo: nat, s: seq<Slot>, r: seq<Slot>, h: Hashes, m: map<Index, Info>)
    requires OneOf(hist, lo, s, r) && TableInv(s, h, m) && TableInv(r, h, m)
    ensures Keeps(hist, lo, h, m)
  {
    hide TableInv;
  }

  // From moment lo on no version outside ps changes.
  ghost predicate Calm(hist: seq<Snap>, lo: nat, ps: set<int>) {
    forall t, p :: lo <= t < |hist| && 0 <= p < |hist[t].ver| && p !in ps ==>
      p < |hist[lo].ver| && hist[t].ver[p] == hist[lo].ver[p]
  }

  lemma CalmOn(a: seq<Snap>, b: seq<Snap>, lo: nat, ps: set<int>, qs: set<int>, all: set<int>)
    requires a <= b && lo < |a| && Calm(a, lo, ps) && Calm(b, |a| - 1, qs) && ps <= all && qs <= all
    ensures Calm(b, lo, all)
  {
    var l := |a| - 1;
    assert a[lo] == b[lo] && a[l] == b[l];
    forall t, p | lo <= t < |b| && 0 <= p < |b[t].ver| && p !in all
      ensures p < |b[lo].ver| && b[t].ver[p] == b[lo].ver[p]
    {
      if t < |a| {
        assert a[t] == b[t];
      } else {
        assert p < |b[l].ver| && b[t].ver[p] == b[l].ver[p];
      }
    }
  }

  // Before the first step.
  lemma NothingYet(hist: seq<Snap>, h: Hashes, m: map<Index, Info>, ps: set<int>)
    requires |hist| > 0 && TableInv(hist[|hist| - 1].slots, h, m)
    ensures Keeps(hist, |hist| - 1, h, m) && Calm(hist, |hist| - 1, ps)
  {
    hide TableInv;
  }

  // No odd version changes.
  ghost predicate OddKept(a: seq<nat>, b: seq<nat>) {
    |a| == |b| && forall p :: 0 <= p < |a| && a[p] % 2 == 1 ==> b[p] == a[p]
  }

  lemma SameOdd(a: seq<nat>)
    ensures OddKept(a, a)
  {
  }

  lemma OddKeptOn(a: seq<nat>, b: seq<nat>, c: seq<nat>)
    requires OddKept(a, b) && OddKept(b, c)
    ensures OddKept(a, c)
  {
  }

  // What a displacement up to hist1 and one more move keep together.
  lemma OneMoreMove(hist0: seq<Snap>, hist1: seq<Snap>, hist2: seq<Snap>, ver0: seq<nat>, ver1: seq<nat>,
                    ver2: seq<nat>,
                    h: Hashes, m: map<Index, Info>, ps: set<int>, qs: set<int>, all: set<int>)
    requires |hist0| > 0 && hist0 <= hist1 <= hist2 && SameParity(ver0, ver1) && SameParity(ver1, ver2)
    requires Keeps(hist1, |hist0| - 1, h, m) && Keeps(hist2, |hist1| - 1, h, m)
    requires Calm(hist1, |hist0| - 1, ps) && Calm(hist2, |hist1| - 1, qs) && ps <= all && qs <= all
    ensures Disciplined(hist2, |hist0| - 1) <==> Disciplined(hist1, |hist0| - 1) && Disciplined(hist2, |hist1| - 1)
    ensures SameParity(ver0, ver2) && Keeps(hist2, |hist0| - 1, h, m) && Calm(hist2, |hist0| - 1, all)
    ensures OddKept(ver0, ver1) && OddKept(ver1, ver2) ==> OddKept(ver0, ver2)
  {
    hide Keeps, Calm, Disciplined, SameParity, OddKept;
    DisciplineSplits(hist1, hist2, |hist0| - 1);
    ParityTrans(ver0, ver1, ver2);
    KeepsOn(hist1, hist2, |hist0| - 1, h, m);
    CalmOn(hist1, hist2, |hist0| - 1, ps, qs, all);
    if OddKept(ver0, ver1) && OddKept(ver1, ver2) {
      OddKeptOn(ver0, ver1, ver2);
    }
  }

  // The slots whose versions a displacement of the chain from p counts up.
  ghost function Stirred(s: seq<Slot>, h: Hashes, p: int, rounds: nat): set<int>
    requires 2 * GAP < |s| && forall i :: IsNode(s, i) ==> s[i].ilen <= 8
    decreases rounds
  {
    if rounds == 0 then {}
    else if !IsNode(s, p) then {OwnerOf(s, p)}
    else
      var q := Other(s, h, p);
      {p, q} + if s[q] == Empty then {} else Stirred(s, h, q, rounds - 1)
  }

  // How much a displacement of the chain from p adds to the version of slot j: two for receiving a
  // node, and two for giving away a node or a bitmap if its version was even.
  ghost function Adds(s: seq<Slot>, h: Hashes, ver: seq<nat>, p: int, rounds: nat, j: int): nat
    requires 2 * GAP < |s| == |ver| && forall i :: IsNode(s, i) ==> s[i].ilen <= 8
    decreases rounds
  {
    if rounds == 0 then 0
    else if !IsNode(s, p) then if j == OwnerOf(s, p) && 0 <= j < |ver| && ver[j] % 2 == 0 then 2 else 0
    else
      var q := Other(s, h, p);
      (if s[q] == Empty then 0 else Adds(s, h, ver, q, rounds - 1, j)) + (if j == q then 2 else 0)
      + (if j == p && ver[j] % 2 == 0 then 2 else 0)
  }

  // The versions b are a after that displacement.
  ghost predicate CountedOn(s: seq<Slot>, h: Hashes, a: seq<nat>, b: seq<nat>, p: int, rounds: nat)
    requires 2 * GAP < |s| == |a| && forall i :: IsNode(s, i) ==> s[i].ilen <= 8
  {
    |b| == |a| && forall j :: 0 <= j < |a| ==> b[j] == (a[j] + Adds(s, h, a, p, rounds, j)) % 256
  }

  lemma CountedOnOwner(s: seq<Slot>, h: Hashes, a: seq<nat>, b: seq<nat>, p: int, rounds: nat)
    requires 2 * GAP < |s| == |a| && (forall i :: IsNode(s, i) ==> s[i].ilen <= 8) && rounds > 0 && !IsNode(s, p)
    requires 0 <= OwnerOf(s, p) < |a| && forall j :: 0 <= j < |a| ==> a[j] < 256
    requires var i := OwnerOf(s, p); b == if a[i] % 2 == 0 then a[i := (a[i] + 2) % 256] else a
    ensures CountedOn(s, h, a, b, p, rounds)
  {
    hide OwnerOf;
  }

  // One more move, of the node in p.
  lemma CountedOnMove(s: seq<Slot>, h: Hashes, a: seq<nat>, b: seq<nat>, c: seq<nat>, p: int, rounds: nat)
    requires 2 * GAP < |s| == |a| && (forall i :: IsNode(s, i) ==> s[i].ilen <= 8) && rounds > 0 && IsNode(s, p)
    requires (forall j :: 0 <= j < |a| ==> a[j] < 256) && SameParity(a, b) && Other(s, h, p) != p
    requires var q := Other(s, h, p); if s[q] == Empty then b == a else CountedOn(s, h, a, b, q, rounds - 1)
    requires c == MoveCounted(b, p, Other(s, h, p))
    ensures CountedOn(s, h, a, c, p, rounds)
  {
    hide Place1, Place2, Top, Adds;
    var q := Other(s, h, p);
    forall j | 0 <= j < |a| ensures c[j] == (a[j] + Adds(s, h, a, p, rounds, j)) % 256 {
      AddsStep(s, h, a, p, rounds, j);
      var n := if s[q] == Empty then 0 else Adds(s, h, a, q, rounds - 1, j);
      assert b[j] == (a[j] + n) % 256;
      TwoMore(a[j] + n);
    }
  }

  lemma AddsStep(s: seq<Slot>, h: Hashes, a: seq<nat>, p: int, rounds: nat, j: int)
    requires 2 * GAP < |s| == |a| && (forall i :: IsNode(s, i) ==> s[i].ilen <= 8) && rounds > 0 && IsNode(s, p)
    ensures var q := Other(s, h, p);
            Adds(s, h, a, p, rounds, j)
            == (if s[q] == Empty then 0 else Adds(s, h, a, q, rounds - 1, j)) + (if j == q then 2 else 0)
               + (if j == p && a[j] % 2 == 0 then 2 else 0)
  {
  }

  lemma TwoMore(x: nat)
    ensures (x % 256 + 2) % 256 == (x + 2) % 256
  {
  }

  // The versions after a move from p to q: the receiving slot's is two more, that of the other too if
  // it was even.
  function MoveCounted(ver: seq<nat>, p: int, q: int): seq<nat>
    requires 0 <= p < |ver| && 0 <= q < |ver|
  {
    ver[p := if ver[p] % 2 == 0 then (ver[p] + 2) % 256 else ver[p]][q := (ver[q] + 2) % 256]
  }

  lemma MoveCounts(a: seq<nat>, b: seq<nat>, c: seq<nat>, p: int, q: int)
    requires 0 <= p < |a| && 0 <= q < |a| && p != q && forall i :: 0 <= i < |a| ==> a[i] < 256
    requires b == a[q := Plus(a[q], 1)][p := Plus(a[p], 1 - a[p] % 2)]
    requires c == b[p := Plus(b[p], 1 - a[p] % 2)][q := Plus(b[q], 1)]
    ensures c == MoveCounted(a, p, q)
  {
    hide Plus;
    TwiceOne(a[q]);
    TwiceOne(a[p]);
  }

  lemma OwnerCounts(a: seq<nat>, b: seq<nat>, c: seq<nat>, i: int)
    requires 0 <= i < |a| && a[i] < 256
    requires b == a[i := Plus(a[i], 1 - a[i] % 2)] && c == b[i := Plus(b[i], 1 - a[i] % 2)]
    ensures c == if a[i] % 2 == 0 then a[i := (a[i] + 2) % 256] else a
    ensures SameParity(a, c) && OddKept(a, c)
  {
    hide Plus;
    TwiceOne(a[i]);
  }

  lemma TwiceOne(v: nat)
    ensures ((v + 1) % 256 + 1) % 256 == (v + 2) % 256
  {
  }

  // Slots that give away or receive a node do not come back to their version: it changes in every slot
  // that receives one, and in every slot that gives one away if it was even.
  lemma MovedVersionsDiffer(s: seq<Slot>, h: Hashes, a: seq<nat>, b: seq<nat>, p: int, rounds: nat, j: int)
    requires 2 * GAP < |s| == |a| && (forall i :: IsNode(s, i) ==> s[i].ilen <= 8) && IsNode(s, j)
    requires Chain(s, h, p, rounds).Some? && j in Chain(s, h, p, rounds).value
    requires CountedOn(s, h, a, b, p, rounds) && forall i :: 0 <= i < |a| ==> a[i] < 256
    ensures a[j] % 2 == 0 ==> b[j] != a[j]
    ensures b[Other(s, h, j)] != a[Other(s, h, j)]
  {
    hide Place1, Place2, Top, Adds, Chain;
    var q := Other(s, h, j);
    AddsBound(s, h, a, p, rounds, j);
    AddsBound(s, h, a, p, rounds, q);
    AddsAtLeast(s, h, a, p, rounds, j);
    SmallAddDiffers(a[q], Adds(s, h, a, p, rounds, q));
    if a[j] % 2 == 0 {
      SmallAddDiffers(a[j], Adds(s, h, a, p, rounds, j));
    }
  }

  lemma SmallAddDiffers(v: nat, n: nat)
    requires v < 256 && 0 < n < 256
    ensures (v + n) % 256 != v
  {
  }

  lemma {:induction false} AddsBound(s: seq<Slot>, h: Hashes, a: seq<nat>, p: int, rounds: nat, j: int)
    requires 2 * GAP < |s| == |a| && (forall i :: IsNode(s, i) ==> s[i].ilen <= 8) && Chain(s, h, p, rounds).Some?
    ensures Adds(s, h, a, p, rounds, j)
            <= 2 + if j == p then 2 else if j in Chain(s, h, p, rounds).value then 4 else 0
    decreases rounds
  {
    hide Place1, Place2, Top, OwnerOf;
    if IsNode(s, p) {
      var q := Other(s, h, p);
      ChainHasNoRepeat(s, h, p, rounds);
      if s[q] != Empty {
        AddsBound(s, h, a, q, rounds - 1, j);
        var c, rest := Chain(s, h, p, rounds).value, Chain(s, h, q, rounds - 1).value;
        assert c == [p] + rest && rest[0] == q;
        assert forall i :: 0 <= i < |rest| ==> rest[i] == c[i + 1];
        assert c[0] == p && p !in rest && q in rest;
      }
    }
  }

  lemma {:induction false} AddsAtLeast(s: seq<Slot>, h: Hashes, a: seq<nat>, p: int, rounds: nat, j: int)
    requires 2 * GAP < |s| == |a| && (forall i :: IsNode(s, i) ==> s[i].ilen <= 8) && IsNode(s, j)
    requires Chain(s, h, p, rounds).Some? && j in Chain(s, h, p, rounds).value
    ensures a[j] % 2 == 0 ==> Adds(s, h, a, p, rounds, j) >= 2
    ensures Adds(s, h, a, p, rounds, Other(s, h, j)) >= 2
    decreases rounds
  {
    hide Place1, Place2, Top, OwnerOf;
    if IsNode(s, p) && j != p {
      AddsAtLeast(s, h, a, Other(s, h, p), rounds - 1, j);
    }
  }

  lemma StirredStep(s: seq<Slot>, h: Hashes, p: int, rounds: nat)
    requires 2 * GAP < |s| && (forall i :: IsNode(s, i) ==> s[i].ilen <= 8) && rounds > 0 && IsNode(s, p)
    ensures {p, Other(s, h, p)} <= Stirred(s, h, p, rounds)
    ensures s[Other(s, h, p)] != Empty ==> Stirred(s, h, Other(s, h, p), rounds - 1) <= Stirred(s, h, p, rounds)
  {
  }

  // ---------- where nodes are received ----------

  // Every slot that receives a node when the chain from p is displaced has an even version.
  ghost predicate DestsEven(s: seq<Slot>, h: Hashes, ver: seq<nat>, p: int, rounds: nat)
    requires 2 * GAP < |s| == |ver| && forall i :: IsNode(s, i) ==> s[i].ilen <= 8
    decreases rounds
  {
    rounds == 0 || !IsNode(s, p)
    || var q := Other(s, h, p);
       ver[q] % 2 == 0 && (s[q] == Empty || DestsEven(s, h, ver, q, rounds - 1))
  }

  // The same for the slots that receive a node when room is made for index k.
  ghost predicate RoomEven(s: seq<Slot>, h: Hashes, ver: seq<nat>, k: Index, coin: bool)
    requires 2 * GAP < |s| == |ver| && forall i :: IsNode(s, i) ==> s[i].ilen <= 8
  {
    var p := ReservedAt(s, h, k, coin);
    s[p] == Empty || DestsEven(s, h, ver, p, 1000)
  }

  // Along the chain: after any number of nodes, the next place has an even version.
  lemma {:induction false} DestsEvenIs(s: seq<Slot>, h: Hashes, ver: seq<nat>, p: int, rounds: nat)
    requires 2 * GAP < |s| == |ver| && (forall i :: IsNode(s, i) ==> s[i].ilen <= 8) && 0 <= p < |s|
    ensures DestsEven(s, h, ver, p, rounds) <==>
            forall i: nat :: 0 < i <= rounds && AllNodes(s, h, p, i) ==> ver[Hop(s, h, p, i)] % 2 == 0
    decreases rounds
  {
    hide Place1, Place2, Top;
    if rounds > 0 && IsNode(s, p) {
      var q := Other(s, h, p);
      if s[q] != Empty {
        DestsEvenIs(s, h, ver, q, rounds - 1);
      }
      hide Hop, AllNodes;
      HopZero(s, h, p);
      HopZero(s, h, q);
      forall i: nat | 0 < i
        ensures Hop(s, h, p, i) == Hop(s, h, q, i - 1) && (AllNodes(s, h, p, i) <==> AllNodes(s, h, q, i - 1))
      {
        HopsFromNext(s, h, p, i);
      }
      if DestsEven(s, h, ver, p, rounds) {
        forall i: nat | 0 < i <= rounds && AllNodes(s, h, p, i) ensures ver[Hop(s, h, p, i)] % 2 == 0 {
          if i > 1 {
            StartsWithNode(s, h, q, i - 1);
          }
        }
      } else if ver[q] % 2 == 0 {
        var i: nat :| 0 < i <= rounds - 1 && AllNodes(s, h, q, i) && ver[Hop(s, h, q, i)] % 2 != 0;
        assert AllNodes(s, h, p, i + 1);
      } else {
        assert AllNodes(s, h, p, 1) && Hop(s, h, p, 1) == q;
      }
    } else if rounds > 0 {
      forall i: nat | i > 0 ensures !AllNodes(s, h, p, i) {
        if AllNodes(s, h, p, i) {
          StartsWithNode(s, h, p, i);
          assert false;
        }
      }
    }
  }

  lemma StartsWithNode(s: seq<Slot>, h: Hashes, p: int, n: nat)
    requires 2 * GAP < |s| && (forall i :: IsNode(s, i) ==> s[i].ilen <= 8) && 0 <= p < |s|
    requires n > 0 && AllNodes(s, h, p, n)
    ensures IsNode(s, p)
  {
    assert Hop(s, h, p, 0) == p;
  }

  lemma HopZero(s: seq<Slot>, h: Hashes, p: int)
    requires 2 * GAP < |s| && (forall i :: IsNode(s, i) ==> s[i].ilen <= 8) && 0 <= p < |s|
    ensures Hop(s, h, p, 0) == p && AllNodes(s, h, p, 0)
  {
  }

  // The slots whose versions are counted up to make that room.
  ghost function RoomStirs(s: seq<Slot>, h: Hashes, k: Index, coin: bool): set<int>
    requires 2 * GAP < |s| && forall i :: IsNode(s, i) ==> s[i].ilen <= 8
  {
    var p := ReservedAt(s, h, k, coin);
    if s[p] == Empty then {} else Stirred(s, h, p, 1000)
  }

  // Which slots those are depends on the layout and the parities only.
  lemma RoomEvenBy(s: seq<Slot>, t: seq<Slot>, h: Hashes, a: seq<nat>, b: seq<nat>, k: Index, coin: bool)
    requires 2 * GAP < |s| == |a| && (forall i :: IsNode(s, i) ==> s[i].ilen <= 8) && forall i :: IsNode(t, i) ==>
             t[i].ilen <= 8
    requires SameLayout(s, t) && SameParity(a, b)
    ensures RoomEven(s, h, a, k, coin) <==> RoomEven(t, h, b, k, coin)
  {
    hide NoRoom, ReservedAt, DestsEven;
    RoomByLayout(s, t, h, k, coin);
    var p := ReservedAt(s, h, k, coin);
    assert CellOf(s[p]) == CellOf(t[p]);
    DestsEvenBy(s, t, h, a, b, p, 1000);
  }

  // With every version even, nothing is received in an odd slot.
  lemma RoomEvenAtStart(s: seq<Slot>, h: Hashes, ver: seq<nat>, k: Index, coin: bool)
    requires 2 * GAP < |s| == |ver| && forall i :: IsNode(s, i) ==> s[i].ilen <= 8
    requires forall q :: 0 <= q < |ver| ==> ver[q] % 2 == 0
    ensures RoomEven(s, h, ver, k, coin)
  {
    EvenStartIsDisciplined(s, h, ver, ReservedAt(s, h, k, coin), 1000);
  }

  ghost predicate SameParity(a: seq<nat>, b: seq<nat>) {
    |a| == |b| && forall p :: 0 <= p < |a| ==> a[p] % 2 == b[p] % 2
  }

  lemma {:induction false} DestsEvenBy(s: seq<Slot>, t: seq<Slot>, h: Hashes, a: seq<nat>, b: seq<nat>, p: int,
                                       rounds: nat)
    requires 2 * GAP < |s| == |a| && (forall i :: IsNode(s, i) ==> s[i].ilen <= 8) && forall i :: IsNode(t, i) ==>
             t[i].ilen <= 8
    requires SameLayout(s, t) && SameParity(a, b)
    ensures DestsEven(s, h, a, p, rounds) <==> DestsEven(t, h, b, p, rounds)
    decreases rounds
  {
    hide Top, Place1, Place2;
    assert 0 <= p < |s| ==> CellOf(s[p]) == CellOf(t[p]);
    if rounds != 0 && IsNode(s, p) {
      var q := Other(s, h, p);
      assert CellOf(s[q]) == CellOf(t[q]);
      if s[q] != Empty {
        DestsEvenBy(s, t, h, a, b, q, rounds - 1);
      }
    }
  }

  // From a table where every version is even, every displacement keeps the discipline.
  lemma {:induction false} EvenStartIsDisciplined(s: seq<Slot>, h: Hashes, ver: seq<nat>, p: int, rounds: nat)
    requires 2 * GAP < |s| == |ver| && forall i :: IsNode(s, i) ==> s[i].ilen <= 8
    requires forall q :: 0 <= q < |ver| ==> ver[q] % 2 == 0
    ensures DestsEven(s, h, ver, p, rounds)
    decreases rounds
  {
    if rounds != 0 && IsNode(s, p) && s[Other(s, h, p)] != Empty {
      EvenStartIsDisciplined(s, h, ver, Other(s, h, p), rounds - 1);
    }
  }

  lemma DestsEvenStep(s: seq<Slot>, h: Hashes, a: seq<nat>, b: seq<nat>, p: int, rounds: nat)
    requires Shape(s) && |a| == |s| && SameParity(a, b) && IsNode(s, p) && rounds > 0
    ensures var q := Other(s, h, p);
            DestsEven(s, h, a, p, rounds) <==> b[q] % 2 == 0 && (s[q] == Empty || DestsEven(s, h, a, q, rounds - 1))
  {
  }

  lemma ParityReflexive(a: seq<nat>)
    ensures SameParity(a, a)
  {
  }

  lemma ParityTrans(a: seq<nat>, b: seq<nat>, c: seq<nat>)
    requires SameParity(a, b) && SameParity(b, c)
    ensures SameParity(a, c)
  {
  }

  // A version is an 8-bit counter. The writer adds one, or one if that makes it even or odd as
  // it should be.
  function Plus(v: nat, d: nat): (r: nat)
    ensures r < 256
    ensures d == 0 && v < 256 ==> r == v
    ensures d == 0 ==> r % 2 == v % 2
    ensures d == 1 ==> (r % 2 == 1 <==> v % 2 == 0) && r == (v + 1) % 256
  {
    ByteParity(v + d);
    (v + d) % 256
  }

  lemma ByteParity(x: nat)
    ensures x % 256 % 2 == x % 2
  {
    var q, r := x / 256, x % 256;
    assert x == 2 * (128 * q) + r;
  }

  class VersionedTable {
    const table: CuckooHashTable
    // version_lock of every slot, an 8-bit counter
    const ver: array<nat>
    ghost var hist: seq<Snap>
    // Where, and at which moment, Init set a version to 1.
    ghost var resets: set<(nat, int)>

    constructor (t: CuckooHashTable)
      requires t.Valid()
      ensures table == t && fresh(ver) && Aligned()
      ensures ver.Length == t.ht.Length && forall p :: 0 <= p < ver.Length ==> ver[p] == 0
      ensures hist == [Snap(ver[..], t.ht[..])] && resets == {}
    {
      table := t;
      ver := new nat[t.ht.Length](_ => 0);
      new;
      hist, resets := [Snap(ver[..], t.ht[..])], {};
    }

    // The history ends with the table as it is, and every step of it counted the versions properly.
    ghost predicate Aligned()
      reads this, ver, table.ht
    {
      Recorded() && hist[|hist| - 1].slots == table.ht[..]
    }

    // The same while contents change.
    ghost predicate Recorded()
      reads this, ver
    {
      && ver.Length == table.ht.Length && SameSize(hist, ver.Length)
      && |hist| > 0 && hist[|hist| - 1].ver == ver[..]
      && (forall p :: 0 <= p < ver.Length ==> ver[p] < 256)
      && Counted(hist, 0, resets) && forall e :: e in resets ==> e.0 < |hist|
    }

    // So of every history that is built with these steps: when the version of q returns between
    // moments c and v depends on how often it was counted up after its last reset, at moment r.
    lemma VersionReturns(q: nat, c: nat, v: nat) returns (r: nat)
      requires Recorded() && q < ver.Length && c <= v < |hist|
      ensures c <= r <= v && (r > c ==> (r, q) in resets && hist[r].ver[q] == 1 != hist[r - 1].ver[q])
      ensures r == c ==>
              (NoReturn(hist, q, c, v) <==>
               Increments(hist, ver.Length, q, c, v) == 0 || Increments(hist, ver.Length, q, c, v) % 256 != 0)
      ensures r > c ==>
              (NoReturn(hist, q, c, v) <==> (1 + Increments(hist, ver.Length, q, r, v)) % 256 != hist[c].ver[q])
    {
      assert c < |hist| - 1 ==> CountStep(hist[c].ver, hist[c + 1].ver, c + 1, resets);
      r := ReturnOfCounted(hist, ver.Length, q, c, v, resets);
    }

    // Versions changed at most; history grew accordingly.
    twostate predicate OnlyVersions()
      reads this, ver, table.ht
    {
      Aligned() && table.ht[..] == old(table.ht[..]) && old(hist) <= hist && |old(hist)| > 0
      && Disciplined(hist, |old(hist)| - 1) && OneOf(hist, |old(hist)| - 1, table.ht[..], table.ht[..])
    }

    // Adds d, 0 or 1, to a version.
    method Count(p: int, d: nat)
      requires Aligned() && 0 <= p < ver.Length && d <= 1
      modifies ver, this`hist
      ensures OnlyVersions() && ver[..] == old(ver[..])[p := Plus(old(ver[p]), d)] && Calm(hist, |old(hist)| - 1, {p})
    {
      hide Plus;
      ver[p] := Plus(ver[p], d);
      hist := hist + [Snap(ver[..], table.ht[..])];
      OneStep(old(hist), Snap(ver[..], table.ht[..]));
      CountedOneMore(old(hist), Snap(ver[..], table.ht[..]), resets, resets);
    }

    // INC_VERSION
    method Inc(p: int)
      requires Aligned() && 0 <= p < ver.Length
      modifies ver, this`hist
      ensures OnlyVersions() && ver[..] == old(ver[..])[p := Plus(old(ver[p]), 1)] && Calm(hist, |old(hist)| - 1, {p})
    {
      Count(p, 1);
    }

    // COND_INC_VERSION
    method CondInc(p: int)
      requires Aligned() && 0 <= p < ver.Length
      modifies ver, this`hist
      ensures OnlyVersions() && ver[..] == old(ver[..])[p := Plus(old(ver[p]), old(ver[p]) % 2)]
      ensures Calm(hist, |old(hist)| - 1, {p})
    {
      Count(p, ver[p] % 2);
    }

    // What Init does to the version of its slot.
    method Reset(p: int)
      requires Aligned() && 0 <= p < ver.Length
      modifies ver, this`hist, this`resets
      ensures OnlyVersions() && ver[..] == old(ver[..])[p := 1] && Calm(hist, |old(hist)| - 1, {p})
      ensures resets == old(resets) + {(|old(hist)|, p)}
    {
      ver[p] := 1;
      hist := hist + [Snap(ver[..], table.ht[..])];
      resets := resets + {(|hist| - 1, p)};
      OneStep(old(hist), Snap(ver[..], table.ht[..]));
      CountedOneMore(old(hist), Snap(ver[..], table.ht[..]), old(resets), resets);
    }

    // Records the table after a step that changed contents.
    ghost method Log()
      requires Recorded()
      modifies this`hist
      ensures Aligned() && hist == old(hist) + [Snap(ver[..], table.ht[..])]
    {
      hist := hist + [Snap(ver[..], table.ht[..])];
      CountedOneMore(old(hist), Snap(ver[..], table.ht[..]), resets, resets);
    }

    // ---------- displacement ----------

    method HashTableCuckooDisplacement(victim: int, rounds: nat) returns (failed: bool)
      requires Aligned() && table.Valid() && 1 <= rounds <= 1001
      requires Inside(table.ht[..], victim) && table.ht[victim] != Empty
      modifies table.ht, ver, this`hist
      ensures Aligned() && table.Valid() && old(hist) <= hist
      ensures failed <==> Chain(old(table.ht[..]), table.h, victim, 1001 - rounds) == None
      ensures failed ==> table.ht[..] == old(table.ht[..]) && hist == old(hist)
      ensures !failed ==> table.ht[victim] == Empty
      ensures !failed ==> ChainMoved(old(table.ht[..]), table.ht[..], table.h, victim, 1001 - rounds)
      ensures !failed ==> table.ht[..] == AfterDisplacement(old(table.ht[..]), table.h, victim, 1001 - rounds)
      ensures SameParity(old(ver[..]), ver[..])
      ensures !failed ==> (Disciplined(hist, |old(hist)| - 1)
                           <==> DestsEven(old(table.ht[..]), table.h, old(ver[..]), victim, 1001 - rounds))
      ensures !failed && DestsEven(old(table.ht[..]), table.h, old(ver[..]), victim, 1001 - rounds) ==>
              OddKept(old(ver[..]), ver[..])
      ensures Keeps(hist, |old(hist)| - 1, table.h, table.nodes)
      ensures Calm(hist, |old(hist)| - 1, Stirred(old(table.ht[..]), table.h, victim, 1001 - rounds))
      ensures !failed ==> CountedOn(old(table.ht[..]), table.h, old(ver[..]), ver[..], victim, 1001 - rounds)
      decreases 1001 - rounds, 1
    {
      hide TableInv, Shape, Chain, ChainMoved, AfterDisplacement, AfterRelocation, Rearranged, OwnerOf, Disciplined,
           SameSize, Counted, StepOk, Keeps, Calm, OddKept, CountedOn;
      ghost var s := table.ht[..];
      NodesAreOk(s, table.h, table.nodes);
      NothingYet(hist, table.h, table.nodes, Stirred(s, table.h, victim, 1001 - rounds));
      if rounds > 1000 {
        ChainOfNone(s, table.h, victim);
        return true;
      }
      if table.ht[victim].Node? {
        failed := DisplaceNode(victim, rounds);
      } else {
        ghost var ver0 := ver[..];
        RelocateVictimBitMap(victim);
        CountedOnOwner(s, table.h, ver0, ver[..], victim, 1001 - rounds);
        BitmapVictim(s, table.ht[..], table.h, victim, 1001 - rounds);
        failed := false;
      }
    }

    method DisplaceNode(victim: int, rounds: nat) returns (failed: bool)
      requires Aligned() && table.Valid() && Shape(table.ht[..]) && 1 <= rounds <= 1000
      requires forall i :: IsNode(table.ht[..], i) ==> table.ht[..][i].ilen <= 8
      requires IsNode(table.ht[..], victim)
      modifies table.ht, ver, this`hist
      ensures Aligned() && table.Valid() && old(hist) <= hist
      ensures failed <==> Chain(old(table.ht[..]), table.h, victim, 1001 - rounds) == None
      ensures failed ==> table.ht[..] == old(table.ht[..]) && hist == old(hist)
      ensures !failed ==> table.ht[victim] == Empty
      ensures !failed ==> ChainMoved(old(table.ht[..]), table.ht[..], table.h, victim, 1001 - rounds)
      ensures !failed ==> table.ht[..] == AfterDisplacement(old(table.ht[..]), table.h, victim, 1001 - rounds)
      ensures SameParity(old(ver[..]), ver[..])
      ensures !failed ==> (Disciplined(hist, |old(hist)| - 1)
                           <==> DestsEven(old(table.ht[..]), table.h, old(ver[..]), victim, 1001 - rounds))
      ensures !failed && DestsEven(old(table.ht[..]), table.h, old(ver[..]), victim, 1001 - rounds) ==>
              OddKept(old(ver[..]), ver[..])
      ensures Keeps(hist, |old(hist)| - 1, table.h, table.nodes)
      ensures Calm(hist, |old(hist)| - 1, Stirred(old(table.ht[..]), table.h, victim, 1001 - rounds))
      ensures !failed ==> CountedOn(old(table.ht[..]), table.h, old(ver[..]), ver[..], victim, 1001 - rounds)
      decreases 1001 - rounds, 0
    {
      hide TableInv, Moved, Shape, SameNode, ChainMoved, Chain, Disciplined, SameSize, Counted, StepOk, DestsEven,
           SameParity, NodeOk, AfterMove, AfterDisplacement, OthersKept, NodeView, Keeps, Calm, OneOf, OddKept, Stirred,
           CountedOn, MoveCounted;
      ghost var s, h, m := table.ht[..], table.h, table.nodes;
      DisplacementUnfold(s, h, m, victim, 1001 - rounds);
      ghost var hist0, ver0 := hist, ver[..];
      InvShape(s, h, m);
      OtherIsOther(s, h, m, victim);
      var k := IndexOf(table.ht[victim]);
      var h1 := Place1(table.h, table.ht.Length, k);
      var h2 := Place2(table.h, table.ht.Length, k);
      if h1 == victim {
        h1, h2 := h2, h1;
      }
      assert h2 == victim && h1 == Other(s, h, victim);
      ghost var all := Stirred(s, h, victim, 1001 - rounds);
      StirredStep(s, h, victim, 1001 - rounds);
      NothingYet(hist, h, m, all);
      if table.ht[h1] != Empty {
        failed := HashTableCuckooDisplacement(h1, rounds + 1);
        if failed {
          ChainUnfold(s, h, victim, 1001 - rounds);
          return;
        }
        NodeStillThere(s, table.ht[..], h, victim, 1001 - rounds);
      } else {
        OneStep(hist, hist[0]);
        SameOdd(ver0);
      }
      ghost var t, hist1, ver1 := table.ht[..], hist, ver[..];
      ParityReflexive(ver0);
      DestsEvenStep(s, h, ver0, ver1, victim, 1001 - rounds);
      InvShape(t, h, m);
      SameAsItself(s);
      MoveUnderVersions(victim, h1);
      LinkAdded(s, t, table.ht[..], h, m, victim, 1001 - rounds);
      KeepsBoth(hist, |hist1| - 1, t, table.ht[..], h, m);
      OneMoreMove(hist0, hist1, hist, ver0, ver1, ver[..], h, m,
                  if s[h1] == Empty then all else Stirred(s, h, h1, 1000 - rounds), {victim, h1}, all);
      CountedOnMove(s, h, ver0, ver1, ver[..], victim, 1001 - rounds);
      failed := false;
    }

    // The contents half of a move: it keeps the discipline iff both versions are odd.
    method MoveContents(victim: int, h1: int)
      requires Aligned() && Shape(table.ht[..]) && IsNode(table.ht[..], victim)
      requires Inside(table.ht[..], h1) && table.ht[h1] == Empty && victim != h1
      modifies table.ht, this`hist
      ensures Aligned() && old(hist) <= hist && Moved(old(table.ht[..]), table.ht[..], victim, h1)
      ensures table.ht[victim] == Empty && table.ht[..] == AfterMove(old(table.ht[..]), victim, h1)
      ensures Disciplined(hist, |old(hist)| - 1) <==> ver[h1] % 2 == 1 && ver[victim] % 2 == 1
      ensures OneOf(hist, |old(hist)| - 1, old(table.ht[..]), table.ht[..]) && Calm(hist, |old(hist)| - 1, {})
    {
      hide Shape, Disciplined, AfterMove;
      ghost var s := table.ht[..];
      table.MoveNode(victim, h1);
      MovedShows(s, table.ht[..], victim, h1);
      Log();
      OneStep(old(hist), Snap(ver[..], table.ht[..]));
      assert NodeView(s, victim) != NodeView(table.ht[..], victim);
    }

    // The move of one node with its version steps. It keeps the discipline iff the version of the
    // receiving slot was even.
    method MoveUnderVersions(victim: int, h1: int)
      requires Aligned() && Shape(table.ht[..]) && IsNode(table.ht[..], victim)
      requires Inside(table.ht[..], h1) && table.ht[h1] == Empty && victim != h1
      modifies table.ht, ver, this`hist
      ensures Aligned() && old(hist) <= hist && Moved(old(table.ht[..]), table.ht[..], victim, h1)
      ensures table.ht[victim] == Empty && table.ht[..] == AfterMove(old(table.ht[..]), victim, h1)
      ensures SameParity(old(ver[..]), ver[..])
      ensures Disciplined(hist, |old(hist)| - 1) <==> old(ver[h1]) % 2 == 0
      ensures old(ver[h1]) % 2 == 0 ==> OddKept(old(ver[..]), ver[..])
      ensures ver[..] == MoveCounted(old(ver[..]), victim, h1)
      ensures OneOf(hist, |old(hist)| - 1, old(table.ht[..]), table.ht[..])
      ensures Calm(hist, |old(hist)| - 1, {victim, h1})
    {
      hide Shape, Disciplined, Moved, SameSize, Counted, StepOk, Plus, AfterMove, Calm, OneOf;
      ghost var hist0, ver0, s := hist, ver[..], table.ht[..];
      var oldVictimState := BeginMove(victim, h1);
      ghost var hist1, ver1 := hist, ver[..];
      MoveContents(victim, h1);
      ghost var hist2 := hist;
      EndMove(victim, h1, oldVictimState);
      DisciplineSplits(hist1, hist2, |hist0| - 1);
      DisciplineSplits(hist2, hist, |hist0| - 1);
      OneOfOn(hist1, hist2, |hist0| - 1, s, table.ht[..]);
      OneOfOn(hist2, hist, |hist0| - 1, s, table.ht[..]);
      CalmOn(hist1, hist2, |hist0| - 1, {victim, h1}, {}, {victim, h1});
      CalmOn(hist2, hist, |hist0| - 1, {victim, h1}, {victim, h1}, {victim, h1});
      MoveCounts(ver0, ver1, ver[..], victim, h1);
    }

    method BeginMove(victim: int, h1: int) returns (oldVictimState: nat)
      requires Aligned() && 0 <= victim < ver.Length && 0 <= h1 < ver.Length && victim != h1
      modifies ver, this`hist
      ensures OnlyVersions() && oldVictimState == old(ver[victim]) % 2
      ensures ver[..] == old(ver[..])[h1 := Plus(old(ver[h1]), 1)][victim := Plus(old(ver[victim]), 1 - oldVictimState)]
      ensures Calm(hist, |old(hist)| - 1, {victim, h1})
    {
      hide Disciplined, SameSize, Counted, StepOk, Plus, Calm, OneOf;
      Inc(h1);
      ghost var hist1 := hist;
      oldVictimState := ver[victim] % 2;
      Count(victim, 1 - oldVictimState);
      DisciplineSplits(hist1, hist, |old(hist)| - 1);
      OneOfOn(hist1, hist, |old(hist)| - 1, table.ht[..], table.ht[..]);
      CalmOn(hist1, hist, |old(hist)| - 1, {h1}, {victim}, {victim, h1});
    }

    method EndMove(victim: int, h1: int, oldVictimState: nat)
      requires Aligned() && 0 <= victim < ver.Length && 0 <= h1 < ver.Length && victim != h1 && oldVictimState <= 1
      modifies ver, this`hist
      ensures OnlyVersions()
      ensures ver[..] == old(ver[..])[victim := Plus(old(ver[victim]), 1 - oldVictimState)][h1 := Plus(old(ver[h1]), 1)]
      ensures Calm(hist, |old(hist)| - 1, {victim, h1})
    {
      hide Disciplined, SameSize, Counted, StepOk, Plus, Calm, OneOf;
      Count(victim, 1 - oldVictimState);
      ghost var hist1 := hist;
      Inc(h1);
      DisciplineSplits(hist1, hist, |old(hist)| - 1);
      OneOfOn(hist1, hist, |old(hist)| - 1, table.ht[..], table.ht[..]);
      CalmOn(hist1, hist, |old(hist)| - 1, {victim}, {h1}, {victim, h1});
    }

    // The victim is a bitmap: its owner's version is odd while the bitmap moves.
    method RelocateVictimBitMap(victim: int)
      requires Aligned() && table.Valid() && Inside(table.ht[..], victim) && table.ht[victim].Bitmap?
      modifies table.ht, ver, this`hist
      ensures Aligned() && table.Valid() && old(hist) <= hist && table.ht[victim] == Empty
      ensures Rearranged(old(table.ht[..]), table.ht[..], OwnerOf(old(table.ht[..]), victim))
      ensures table.ht[..] == AfterRelocation(old(table.ht[..]), OwnerOf(old(table.ht[..]), victim))
      ensures SameParity(old(ver[..]), ver[..]) && Disciplined(hist, |old(hist)| - 1)
      ensures OddKept(old(ver[..]), ver[..])
      ensures var i := OwnerOf(old(table.ht[..]), victim);
              && 0 <= i < ver.Length
              && ver[..] == old(if ver[i] % 2 == 0 then ver[..][i := (ver[i] + 2) % 256] else ver[..])
      ensures Keeps(hist, |old(hist)| - 1, table.h, table.nodes)
      ensures Calm(hist, |old(hist)| - 1, {OwnerOf(old(table.ht[..]), victim)})
    {
      hide Shape, Disciplined, TableInv, Rearranged, SameSize, Counted, StepOk, Plus, AfterRelocation, Calm, OneOf,
           Keeps, OwnerOf, SameParity, OddKept;
      ghost var s, hist0, ver0 := table.ht[..], hist, ver[..];
      InvShape(s, table.h, table.nodes);
      var owner := table.FindOwner(victim);
      var oldOwnerState := ver[owner] % 2;
      Count(owner, 1 - oldOwnerState);
      ghost var hist1, ver1 := hist, ver[..];
      RelocateContents(owner, victim);
      ghost var hist2 := hist;
      Count(owner, 1 - oldOwnerState);
      OwnerCounts(ver0, ver1, ver[..], owner);
      DisciplineSplits(hist1, hist2, |hist0| - 1);
      DisciplineSplits(hist2, hist, |hist0| - 1);
      OneOfOn(hist1, hist2, |hist0| - 1, s, table.ht[..]);
      OneOfOn(hist2, hist, |hist0| - 1, s, table.ht[..]);
      KeepsBoth(hist, |hist0| - 1, s, table.ht[..], table.h, table.nodes);
      CalmOn(hist1, hist2, |hist0| - 1, {owner}, {}, {owner});
      CalmOn(hist2, hist, |hist0| - 1, {owner}, {owner}, {owner});
    }

    // The contents half: a reader of the owner can see it, so the discipline needs the owner's
    // version odd.
    method RelocateContents(owner: int, victim: int)
      requires Aligned() && table.Valid() && Inside(table.ht[..], victim) && Owns(table.ht[..], owner, victim)
      modifies table.ht, this`hist
      ensures Aligned() && table.Valid() && old(hist) <= hist && table.ht[victim] == Empty
      ensures Rearranged(old(table.ht[..]), table.ht[..], owner)
      ensures table.ht[..] == AfterRelocation(old(table.ht[..]), owner)
      ensures Disciplined(hist, |old(hist)| - 1) <==> ver[owner] % 2 == 1
      ensures OneOf(hist, |old(hist)| - 1, old(table.ht[..]), table.ht[..]) && Calm(hist, |old(hist)| - 1, {})
    {
      hide Shape, Disciplined, TableInv, AfterRelocation;
      ghost var s := table.ht[..];
      InvShape(s, table.h, table.nodes);
      RelocationShows(s, owner, victim);
      table.RelocateBitMap(owner);
      RearrangedInv(s, table.ht[..], table.h, table.nodes, owner);
      Log();
      OneStep(old(hist), Snap(ver[..], table.ht[..]));
    }

    // ReservePositionForInsert with versioned displacement. Without displacement (Vacated is
    // empty) nothing changes at all.
    method ReservePositionForInsert(len: nat, key: Key, coin: bool) returns (pos: int, exist: bool, failed: bool)
      requires Aligned() && table.Valid() && 1 <= len <= 8
      modifies table.ht, ver, this`hist
      ensures Aligned() && table.Valid() && old(hist) <= hist && SameParity(old(ver[..]), ver[..])
      ensures exist <==> At(key, len) in table.nodes
      ensures failed <==> !exist && NoRoom(old(table.ht[..]), table.h, At(key, len), coin)
      ensures exist || failed ==> table.ht[..] == old(table.ht[..]) && hist == old(hist)
      ensures !exist && !failed ==> Inside(table.ht[..], pos) && table.ht[pos] == Empty
      ensures !exist && !failed ==>
              pos == Place1(table.h, table.ht.Length, At(key, len))
              || pos == Place2(table.h, table.ht.Length, At(key, len))
      ensures !exist && !failed ==> RoomMade(old(table.ht[..]), table.ht[..], table.h, At(key, len), coin)
      ensures !exist && !failed ==>
              pos == ReservedAt(old(table.ht[..]), table.h, At(key, len), coin)
              && table.ht[..] == AfterReservation(old(table.ht[..]), table.h, At(key, len), coin)
      ensures !exist && !failed ==>
              (Disciplined(hist, |old(hist)| - 1)
               <==> RoomEven(old(table.ht[..]), table.h, old(ver[..]), At(key, len), coin))
      ensures !exist && !failed && RoomEven(old(table.ht[..]), table.h, old(ver[..]), At(key, len), coin) ==>
              OddKept(old(ver[..]), ver[..])
      ensures Keeps(hist, |old(hist)| - 1, table.h, table.nodes)
      ensures Calm(hist, |old(hist)| - 1, RoomStirs(old(table.ht[..]), table.h, At(key, len), coin))
      ensures !exist && !failed ==>
              if old(table.ht[..])[pos] == Empty then ver[..] == old(ver[..])
              else CountedOn(old(table.ht[..]), table.h, old(ver[..]), ver[..], pos, 1000)
    {
      hide TableInv, Shape, Children, Place1, Place2, NodeOk, Chain, SameNode, Disciplined, SameSize, Counted,
           AfterDisplacement, DestsEven, Keeps, Calm, OddKept, Stirred, CountedOn;
      OneStep(hist, hist[0]);
      SameOdd(ver[..]);
      NodesAreOk(table.ht[..], table.h, table.nodes);
      var k := At(key, len);
      NothingYet(hist, table.h, table.nodes, RoomStirs(table.ht[..], table.h, k, coin));
      Located(table.ht[..], table.h, table.nodes, k);
      PrintMatches(table.ht[..], table.h, table.nodes);
      var h1 := Place1(table.h, table.ht.Length, k);
      var h2 := Place2(table.h, table.ht.Length, k);
      if table.IsEqual(h1, len, Print(table.h, k), k.prefix) {
        return h1, true, false;
      }
      if table.IsEqual(h2, len, Print(table.h, k), k.prefix) {
        return h2, true, false;
      }
      SameAsItself(table.ht[..]);
      if table.ht[h1] == Empty {
        return h1, false, false;
      }
      if table.ht[h2] == Empty {
        return h2, false, false;
      }
      pos := if coin then h1 else h2;
      exist := false;
      failed := HashTableCuckooDisplacement(pos, 1);
    }
  }

  // Moving a bitmap changes its owner's own words.
  lemma RelocationShows(s: seq<Slot>, owner: int, victim: int)
    requires Shape(s) && Owns(s, owner, victim)
    ensures NodeView(AfterRelocation(s, owner), owner) != NodeView(s, owner)
  {
    RelocationRearranges(s, owner);
    assert s[victim].Bitmap?;
  }

  lemma MovedShows(s: seq<Slot>, r: seq<Slot>, from: int, to: int)
    requires Shape(s) && IsNode(s, from) && Moved(s, r, from, to) && s[to] == Empty
    ensures NodeView(s, to) == NoNode && NodeView(r, to) != NoNode && r[from] == Empty
  {
  }
}
