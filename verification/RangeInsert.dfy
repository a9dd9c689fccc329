// Insertion of a whole range of keys: the recursion over the leftovers, what it covers and why
// it ends soon.
module RangeInsert {
  import opened Keys
  import opened RangeModule

  // What InsertRange hands on: a run of complete subtrees below prefixes of sb + 1 bytes, or a
  // single key for Insert.
  datatype Piece = Perfect(low: Key, high: Key, sb: nat) | Single(key: Key)

  // The keys a piece brings into the set: InsertPerfectRange returns at once when sb is 8.
  predicate Holds(p: Piece, k: Key) {
    match p
    case Perfect(low, high, sb) => sb != 8 && low <= k <= high
    case Single(key) => k == key
  }

  // How many pieces hold k.
  function Count(ps: seq<Piece>, k: Key): nat {
    if ps == [] then 0 else (if Holds(ps[0], k) then 1 else 0) + Count(ps[1..], k)
  }

  function Singles(ps: seq<Piece>): nat {
    if ps == [] then 0 else (if ps[0].Single? then 1 else 0) + Singles(ps[1..])
  }

  lemma {:induction false} CountJoin(a: seq<Piece>, b: seq<Piece>, k: Key)
    ensures Count(a + b, k) == Count(a, k) + Count(b, k)
  {
    if a == [] {
      assert a + b == b;
    } else {
      assert (a + b)[1..] == a[1..] + b;
      CountJoin(a[1..], b, k);
    }
  }

  lemma {:induction false} SinglesJoin(a: seq<Piece>, b: seq<Piece>)
    ensures Singles(a + b) == Singles(a) + Singles(b)
  {
    if a == [] {
      assert a + b == b;
    } else {
      assert (a + b)[1..] == a[1..] + b;
      SinglesJoin(a[1..], b);
    }
  }

  // Every key from low to high is in exactly one piece, every other key in none.
  ghost predicate Tiles(ps: seq<Piece>, low: Key, high: Key) {
    forall k: Key :: Count(ps, k) == if low <= k <= high then 1 else 0
  }

  // What each piece is promised to be.
  ghost predicate PieceOk(p: Piece) {
    p.Perfect? ==>
      && p.sb <= 8
      && (p.sb == 8 ==> p.low == p.high)
      && (p.sb == 7 ==> p.low < p.high && Top(p.low, 7) == Top(p.high, 7))
      && (p.sb <= 6 ==> p.low <= p.high + 1 && Tail(p.low, p.sb + 1) == 0 && Tail(p.high, p.sb + 1) == Unit(p.sb) - 1)
      && (p.sb <= 6 && p.low <= p.high ==> Top(p.low, p.sb) == Top(p.high, p.sb))
  }

  ghost predicate AllOk(ps: seq<Piece>) {
    forall i :: 0 <= i < |ps| ==> PieceOk(ps[i])
  }

  // Adjacent ranges: their tilings put together.
  lemma TilesJoin(a: seq<Piece>, low: Key, m: Key, b: seq<Piece>, n: Key, high: Key)
    requires Tiles(a, low, m) && Tiles(b, n, high) && low <= m + 1 && m < n <= high + 1 && n == m + 1
    ensures Tiles(a + b, low, high)
  {
    forall k: Key ensures Count(a + b, k) == if low <= k <= high then 1 else 0 {
      CountJoin(a, b, k);
    }
  }

  // The sides of a range that do not end at the edge of a subtree.
  predicate RaggedLeft(low: Key, high: Key) {
    var b := Lcp(low, high);
    b <= 6 && Tail(low, b + 1) != 0
  }

  predicate RaggedRight(low: Key, high: Key) {
    var b := Lcp(low, high);
    b <= 6 && Tail(high, b + 1) != Unit(b) - 1
  }

  // Single keys that splitting low..high can leave.
  function MaxSingles(low: Key, high: Key): (r: nat)
    ensures r <= 512
  {
    (if RaggedLeft(low, high) then 256 else 0) + (if RaggedRight(low, high) then 256 else 0)
  }

  // Calls of InsertRange that splitting low..high can take, itself included.
  function MaxCalls(low: Key, high: Key): (r: nat)
    ensures 1 <= r <= 13
  {
    1 + (if RaggedLeft(low, high) then 6 - Lcp(low, high) else 0)
    + (if RaggedRight(low, high) then 6 - Lcp(low, high) else 0)
  }

  // A left leftover splits later than its range and is ragged on its left side only.
  lemma LeftLeftover(x: Key, y: Key, b: nat, x1: Key, y1: Key)
    requires x < y && b == Lcp(x, y) <= 6 && PerfectMiddle(x, y, b, x1, y1) && x1 != x
    ensures x <= x1 - 1 && Lcp(x, x1 - 1) > b && MaxSingles(x, x1 - 1) <= 256
    ensures x1 - 1 - x >= 256 ==> Lcp(x, x1 - 1) <= 6 && MaxCalls(x, x1 - 1) <= 6 - b
  {
    hide Tail, Top, Unit, Mul, Lcp;
    var z, u, q := x1 - 1, Unit(b), Top(x, b + 1);
    PrefixAndRest(x, b);
    PrefixAndRest(x1, b);
    MulStep(q, u);
    Composed(q, u - 1, z, b);
    LcpSpec(x, z, b + 1);
    var c := Lcp(x, z);
    if c <= 7 {
      EdgesStay(z, b, c);
    }
    if c >= 7 {
      ShortRange(x, z);
    }
  }

  // A right leftover splits later than its range and is ragged on its right side only.
  lemma RightLeftover(x: Key, y: Key, b: nat, x1: Key, y1: Key)
    requires x < y && b == Lcp(x, y) <= 6 && PerfectMiddle(x, y, b, x1, y1) && y1 != y
    ensures y1 + 1 <= y < MAX_KEY && Lcp(y1 + 1, y) > b && MaxSingles(y1 + 1, y) <= 256
    ensures y - (y1 + 1) >= 256 ==> Lcp(y1 + 1, y) <= 6 && MaxCalls(y1 + 1, y) <= 6 - b
  {
    hide Tail, Top, Unit, Mul, Lcp;
    var z, u, q := y1 + 1, Unit(b), Top(y, b + 1);
    PrefixAndRest(y, b);
    PrefixAndRest(y1, b);
    MulStep(q - 1, u);
    Composed(q, 0, z, b);
    LcpSpec(z, y, b + 1);
    var c := Lcp(z, y);
    if c <= 7 {
      EdgesStay(z, b, c);
    }
    if c >= 7 {
      ShortRange(z, y);
    }
    MaxTail(b);
  }

  // Bounds that share seven bytes are less than 256 apart.
  lemma ShortRange(x: Key, y: Key)
    requires x <= y && Lcp(x, y) >= 7
    ensures y - x < 256
  {
    LcpSpec(x, y, 7);
  }

  class RangeInserter {
    // What was inserted so far, and how often InsertRange ran.
    ghost var log: seq<Piece>
    ghost var calls: nat

    constructor ()
      ensures log == [] && calls == 0
    {
      log := [];
      calls := 0;
    }

    method InsertPerfectRange(low: Key, high: Key, sb: nat)
      modifies this`log
      ensures log == old(log) + [Perfect(low, high, sb)]
    {
      log := log + [Perfect(low, high, sb)];
    }

    method Insert(key: Key)
      modifies this`log
      ensures log == old(log) + [Single(key)]
    {
      log := log + [Single(key)];
    }

    // `for (key = low; key <= high; key++) Insert(key)`, which would never end for the largest
    // 64-bit key as high.
    method InsertKeys(low: Key, high: Key)
      requires low <= high < MAX_KEY
      modifies this`log
      ensures old(log) <= log && Tiles(log[|old(log)|..], low, high) && AllOk(log[|old(log)|..])
      ensures Singles(log[|old(log)|..]) == high - low + 1
    {
      ghost var log0 := log;
      var key := low;
      while key <= high
        invariant low <= key <= high + 1 && log0 <= log && |log| == |log0| + (key - low)
        invariant key > low ==> Tiles(log[|log0|..], low, key - 1)
        invariant Singles(log[|log0|..]) == key - low && AllOk(log[|log0|..])
        decreases high + 1 - key
      {
        ghost var part := log[|log0|..];
        Insert(key);
        assert log[|log0|..] == part + [Single(key)];
        SinglesJoin(part, [Single(key)]);
        if key > low {
          TilesJoin(part, low, key - 1, [Single(key)], key, key);
        } else {
          assert part == [];
        }
        key := Succ(key);
      }
    }

    // A leftover of 257 keys or more is split again, a shorter one inserted key by key.
    method InsertLeftover(low: Key, high: Key)
      requires low <= high < MAX_KEY
      modifies this
      ensures old(log) <= log && Tiles(log[|old(log)|..], low, high) && AllOk(log[|old(log)|..])
      ensures calls <= old(calls) + if high - low >= 256 then MaxCalls(low, high) else 0
      ensures Singles(log[|old(log)|..]) <= if high - low >= 256 then MaxSingles(low, high) else 256
      decreases 9 - Lcp(low, high), 1
    {
      if high - low >= 256 {
        InsertRange(low, high);
      } else {
        InsertKeys(low, high);
      }
    }

    // Every key from low to high is inserted exactly once and no other - except that a range of
    // one key inserts nothing.
    method InsertRange(low: Key, high: Key)
      modifies this
      ensures old(log) <= log && AllOk(log[|old(log)|..])
      ensures low < high ==> Tiles(log[|old(log)|..], low, high)
      ensures low >= high ==> forall k: Key :: Count(log[|old(log)|..], k) == 0
      ensures calls <= old(calls) + MaxCalls(low, high)
      ensures Singles(log[|old(log)|..]) <= MaxSingles(low, high)
      decreases 9 - Lcp(low, high), 0
    {
      hide Tail, Top, Unit, Lcp, PerfectMiddle, Tiles, AllOk, MaxCalls, MaxSingles, PieceOk;
      calls := calls + 1;
      ghost var log0 := log;
      if low > high {
        assert log[|log0|..] == [];
        NoPieces();
        return;
      }
      var x, y, lf1, lf2, sb, status := HandleRange(low, high);
      Budget(low, high, sb, x, y);
      InsertPerfectRange(x, y, sb);
      ghost var a: seq<Piece>, b: seq<Piece> := [], [];
      ghost var n := |log|;
      NoPieces();
      if status == Leftover1Updated || status == BothLeftoversUpdated {
        LeftLeftover(low, high, sb, x, y);
        InsertLeftover(lf1.0, lf1.1);
        a := log[n..];
      }
      n := |log|;
      if status == Leftover2Updated || status == BothLeftoversUpdated {
        RightLeftover(low, high, sb, x, y);
        InsertLeftover(lf2.0, lf2.1);
        b := log[n..];
      }
      assert log[|log0|..] == [Perfect(x, y, sb)] + a + b;
      Assembled(low, high, sb, x, y, a, b);
    }
  }

  // Each side with a leftover has its own allowance.
  lemma Budget(low: Key, high: Key, sb: nat, x: Key, y: Key)
    requires sb == Lcp(low, high) && (sb >= 7 ==> x == low && y == high)
    requires sb <= 6 ==> (x == low <==> Tail(low, sb + 1) == 0) && (y == high <==> Tail(high, sb + 1) == Unit(sb) - 1)
    ensures MaxCalls(low, high) == 1 + (if x != low then 6 - sb else 0) + (if y != high then 6 - sb else 0)
    ensures MaxSingles(low, high) == (if x != low then 256 else 0) + (if y != high then 256 else 0)
  {
  }

  lemma NoPieces()
    ensures AllOk([]) && Singles([]) == 0 && forall k: Key :: Count([], k) == 0
  {
  }

  // The middle and the leftovers of a range tile it.
  lemma Assembled(low: Key, high: Key, sb: nat, x: Key, y: Key, a: seq<Piece>, b: seq<Piece>)
    requires low <= high && sb == Lcp(low, high) && (sb == 8 <==> low == high)
    requires if sb >= 7 then x == low && y == high else PerfectMiddle(low, high, sb, x, y)
    requires if x == low then a == [] else Tiles(a, low, x - 1)
    requires if y == high then b == [] else Tiles(b, y + 1, high)
    requires AllOk(a) && AllOk(b)
    ensures var ps := [Perfect(x, y, sb)] + a + b;
            && AllOk(ps) && Singles(ps) == Singles(a) + Singles(b)
            && (low < high ==> Tiles(ps, low, high))
            && (low == high ==> forall k: Key :: Count(ps, k) == 0)
  {
    hide Tail, Top, Unit, Lcp;
    var m := [Perfect(x, y, sb)];
    if sb <= 6 && x <= y {
      MiddlePrefix(low, high, sb, x, y);
    } else if sb == 7 {
      LcpSpec(low, high, 7);
    }
    SinglesJoin(m + a, b);
    SinglesJoin(m, a);
    forall k: Key ensures Count(m + a + b, k) == Count(m, k) + Count(a, k) + Count(b, k) {
      CountJoin(m + a, b, k);
      CountJoin(m, a, k);
    }
    assert forall k: Key :: Count(m, k) == if Holds(m[0], k) then 1 else 0;
  }
}
