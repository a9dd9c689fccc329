// Splitting a range of keys at the first byte its bounds differ in: the run of complete
// subtrees in the middle and at most one leftover on either side.
module RangeModule {
  import opened Keys

  // The low 8 - l bytes of k as a number.
  function Tail(k: nat, l: nat): (t: nat)
    requires l <= 8
    decreases 8 - l
  {
    if l == 8 then 0 else Tail(k / 256, l + 1) * 256 + k % 256
  }

  // How many keys share a prefix of b + 1 bytes.
  function Unit(b: nat): (u: nat)
    requires b <= 7
    ensures 1 <= u <= 0x100_0000_0000_0000 && (b <= 6 ==> 256 <= u)
  {
    UnitBound(b);
    Pow256(7 - b)
  }

  lemma UnitBound(b: nat)
    requires b <= 7
    ensures 1 <= Pow256(7 - b) <= 0x100_0000_0000_0000 && (b <= 6 ==> 256 <= Pow256(7 - b))
  {
    assert Pow256(7) == 256 * 256 * 256 * 256 * 256 * 256 * 256 * Pow256(0);
    if b <= 6 {
      assert Pow256(7 - b) == 256 * Pow256(6 - b);
    }
  }

  // Products stay symbolic in the proofs below; these are the facts they use.
  function Mul(a: nat, b: nat): nat {
    a * b
  }

  lemma MulStep(q: nat, u: nat)
    ensures Mul(q + 1, u) == Mul(q, u) + u && Mul(0, u) == 0
  {
  }

  lemma {:induction false} MulLarger(p: nat, q: nat, u: nat)
    requires p < q
    ensures Mul(p, u) + u <= Mul(q, u)
    decreases q - p
  {
    hide Mul;
    MulStep(q - 1, u);
    if p < q - 1 {
      MulLarger(p, q - 1, u);
    }
  }

  lemma MulShift(q: nat, p: nat)
    ensures Mul(q, 256 * p) == 256 * Mul(q, p) == Mul(256 * q, p)
  {
    assert q * (256 * p) == 256 * (q * p);
  }

  lemma {:induction false} TopAndTail(k: nat, l: nat)
    requires l <= 8
    ensures k == Mul(Top(k, l), Pow256(8 - l)) + Tail(k, l) && Tail(k, l) < Pow256(8 - l)
    decreases 8 - l
  {
    if l < 8 {
      hide Mul, Top;
      TopShift(k, l);
      TopAndTail(k / 256, l + 1);
      MulShift(Top(k, l), Pow256(7 - l));
    }
  }

  lemma PrefixAndRest(k: nat, b: nat)
    requires b <= 7
    ensures k == Mul(Top(k, b + 1), Unit(b)) + Tail(k, b + 1) && Tail(k, b + 1) < Unit(b)
  {
    hide Mul, Top, Tail;
    TopAndTail(k, b + 1);
  }

  // A number is determined by its prefix and its tail.
  lemma Composed(q: nat, t: nat, k: nat, b: nat)
    requires b <= 7 && t < Unit(b) && k == Mul(q, Unit(b)) + t
    ensures Top(k, b + 1) == q && Tail(k, b + 1) == t
  {
    hide Mul, Top, Tail;
    TopAndTail(k, b + 1);
    var q', u := Top(k, b + 1), Unit(b);
    if q' < q {
      MulLarger(q', q, u);
      assert false;
    } else if q < q' {
      MulLarger(q, q', u);
      assert false;
    }
  }

  // ---------- RangeModule.cpp ----------

  // Bytes count from 1 at the most significant end.
  function GetByte(x: Key, b: nat): (r: nat)
    requires 1 <= b <= 8
  {
    ByteOf(x, b - 1)
  }

  method GetSplitByteIndex(x: Key, y: Key) returns (split: nat)
    ensures split == Lcp(x, y)
  {
    split := 0;
    TopBound(x, 0);
    TopBound(y, 0);
    var xB, yB := GetByte(x, 1), GetByte(y, 1);
    while xB == yB
      invariant 0 <= split < 8 && Top(x, split) == Top(y, split)
      invariant xB == ByteOf(x, split) && yB == ByteOf(y, split)
      decreases 8 - split
    {
      split := split + 1;
      if split == 8 {
        break;
      }
      xB, yB := GetByte(x, split + 1), GetByte(y, split + 1);
    }
    LcpSpec(x, y, split);
    if split < 8 {
      LcpSpec(x, y, split + 1);
    }
  }

  // The prefix of split bytes, built byte by byte.
  method GetPrefix(x: Key, split: nat) returns (p: Key)
    requires split <= 8
    ensures p == Top(x, split)
  {
    if split == 8 {
      return x;
    }
    TopBound(x, 0);
    p := 0;
    var i := 1;
    while i <= split
      invariant 1 <= i <= split + 1
      invariant p == Top(x, i - 1)
    {
      PrefixFits(x, i);
      p := p * 256 + GetByte(x, i);
      i := i + 1;
    }
  }

  lemma PrefixFits(x: Key, l: nat)
    requires l <= 8
    ensures Top(x, l) < 0x1_0000_0000_0000_0000
    decreases 8 - l
  {
    if l < 8 {
      PrefixFits(x, l + 1);
    }
  }

  // A 64-bit left shift by n bytes loses what leaves the word.
  function ShiftLeft(v: nat, n: nat): (r: Key) {
    Mul(v, Pow256(n)) % 0x1_0000_0000_0000_0000
  }

  lemma ShiftFits(v: nat, b: nat)
    requires b <= 7 && Mul(v, Unit(b)) <= 0x1_0000_0000_0000_0000
    ensures ShiftLeft(v, 7 - b) == if Mul(v, Unit(b)) == 0x1_0000_0000_0000_0000 then 0 else Mul(v, Unit(b))
  {
    hide Mul;
  }

  // `x - 1` and `x + 1` on 64-bit words.
  function Pred(x: Key): Key {
    if x == 0 then MAX_KEY else x - 1
  }

  function Succ(x: Key): Key {
    if x == MAX_KEY then 0 else x + 1
  }

  // r is the next number above x whose bytes after byte b are all zero; past the last such
  // number it wraps to 0.
  ghost predicate NextPerfect(x: Key, b: nat, r: Key)
    requires b <= 6
  {
    Tail(r, b + 1) == 0
    && if x + Unit(b) <= 0x1_0000_0000_0000_0000 then x < r < x + Unit(b)
       && Top(r, b + 1) == Top(x, b + 1) + 1 else r == 0
  }

  // r is the largest number below y whose bytes after byte b are all 0xff; below the first such
  // number it wraps to the largest key.
  ghost predicate PreviousPerfect(y: Key, b: nat, r: Key)
    requires b <= 6
  {
    Tail(r, b + 1) == Unit(b) - 1
    && if Unit(b) <= y then r < y < r + Unit(b) && Top(r, b + 1) == Top(y, b + 1) - 1 else r == MAX_KEY
  }

  // x becomes the next number whose bytes after byte b are all zero, unless it is one. Ranges that
  // differ only in the last byte are left alone.
  method ConvertToPerfectLowerBound(x: Key, b: nat) returns (r: Key, updated: bool)
    requires b <= 8
    ensures updated <==> b <= 6 && Tail(x, b + 1) != 0
    ensures !updated ==> r == x
    ensures updated ==> NextPerfect(x, b, r)
  {
    if b == 7 || b == 8 {
      return x, false;
    }
    hide Mul, Top, Tail, Unit, ShiftLeft, NextPerfect;
    LowerFacts(x, b);
    var val := Top(x, b + 1);
    if ShiftLeft(val, 7 - b) == x {
      return x, false;
    }
    val := val + 1;
    val := ShiftLeft(val, 7 - b);
    if val == x {
      return x, false;
    }
    r, updated := val, true;
  }

  lemma LowerFacts(x: Key, b: nat)
    requires b <= 6
    ensures ShiftLeft(Top(x, b + 1), 7 - b) == x <==> Tail(x, b + 1) == 0
    ensures var r := ShiftLeft(Top(x, b + 1) + 1, 7 - b);
            Tail(x, b + 1) != 0 ==> r != x && NextPerfect(x, b, r)
  {
    hide Mul, Top, Tail, Unit, ShiftLeft;
    PrefixAndRest(x, b);
    var q, u := Top(x, b + 1), Unit(b);
    NextUnit(q, b);
    MulStep(q, u);
    MulStep(0, u);
    ShiftFits(q, b);
    ShiftFits(q + 1, b);
    if Mul(q + 1, u) < 0x1_0000_0000_0000_0000 {
      NextUnit(q + 1, b);
      Composed(q + 1, 0, ShiftLeft(q + 1, 7 - b), b);
    } else {
      Composed(0, 0, 0, b);
    }
  }

  // Complete subtrees of one length fill the key space exactly.
  lemma NextUnit(q: nat, b: nat)
    requires b <= 6 && Mul(q, Unit(b)) < 0x1_0000_0000_0000_0000
    ensures Mul(q, Unit(b)) + Unit(b) <= 0x1_0000_0000_0000_0000
  {
    hide Mul;
    UnitsFill(b);
    var n, u := Pow256(b + 1), Unit(b);
    if q > n {
      MulLarger(n, q, u);
    }
    MulLarger(q, n, u);
  }

  lemma {:induction false} UnitsFill(b: nat)
    requires b <= 7
    ensures Mul(Pow256(b + 1), Unit(b)) == 0x1_0000_0000_0000_0000
    decreases 7 - b
  {
    if b < 7 {
      UnitsFill(b + 1);
      hide Mul;
      MulShift(Pow256(b + 1), Unit(b + 1));
    } else {
      Pow256Table();
    }
  }

  // y becomes the largest number below it whose bytes after byte b are all 0xff, unless it is one.
  method ConvertToPerfectUpperBound(y: Key, b: nat) returns (r: Key, updated: bool)
    requires b <= 8
    ensures updated <==> b <= 6 && Tail(y, b + 1) != Unit(b) - 1
    ensures !updated ==> r == y
    ensures updated ==> PreviousPerfect(y, b, r)
  {
    if b == 7 || b == 8 {
      return y, false;
    }
    hide Mul, Top, Tail, Unit, ShiftLeft, Pred, PreviousPerfect;
    UpperFacts(y, b);
    var val := Top(y, b + 1);
    if Pred(ShiftLeft(val + 1, 7 - b)) == y {
      return y, false;
    }
    val := Pred(ShiftLeft(val, 7 - b));
    if val == y {
      return y, false;
    }
    r, updated := val, true;
  }

  lemma UpperFacts(y: Key, b: nat)
    requires b <= 6
    ensures Pred(ShiftLeft(Top(y, b + 1) + 1, 7 - b)) == y <==> Tail(y, b + 1) == Unit(b) - 1
    ensures var r := Pred(ShiftLeft(Top(y, b + 1), 7 - b));
            Tail(y, b + 1) != Unit(b) - 1 ==> r != y && PreviousPerfect(y, b, r)
  {
    hide Mul, Top, Tail, Unit, ShiftLeft;
    PrefixAndRest(y, b);
    var q, u := Top(y, b + 1), Unit(b);
    NextUnit(q, b);
    MulStep(q, u);
    MulStep(0, u);
    ShiftFits(q, b);
    ShiftFits(q + 1, b);
    MaxTail(b);
    if q > 0 {
      MulStep(q - 1, u);
      if q > 1 {
        MulLarger(0, q - 1, u);
      }
      Composed(q - 1, u - 1, ShiftLeft(q, 7 - b) - 1, b);
    }
  }

  lemma MaxTail(b: nat)
    requires b <= 6
    ensures Tail(MAX_KEY, b + 1) == Unit(b) - 1
  {
    hide Mul;
    UnitsFill(b);
    var n, u := Pow256(b + 1), Unit(b);
    MulStep(n - 1, u);
    Composed(n - 1, u - 1, MAX_KEY, b);
  }

  // ---------- one step of the decomposition ----------

  datatype Status = AlreadyPerfect | Leftover1Updated | Leftover2Updated | BothLeftoversUpdated

  // x1..y1 is the largest run of complete subtrees below prefixes of sb + 1 bytes inside x..y;
  // it is empty exactly when x1 == y1 + 1.
  ghost predicate PerfectMiddle(x: Key, y: Key, sb: nat, x1: Key, y1: Key)
    requires sb <= 6
  {
    && x <= x1 <= y1 + 1 && y1 <= y
    && Tail(x1, sb + 1) == 0 && Tail(y1, sb + 1) == Unit(sb) - 1
    && x1 < x + Unit(sb) && y < y1 + Unit(sb)
    && Top(x1, sb + 1) == Top(x, sb + 1) + (if x1 == x then 0 else 1)
    && Top(y1, sb + 1) == Top(y, sb + 1) - (if y1 == y then 0 else 1)
  }

  // The bounds of a range differ first in byte b: the prefixes are ordered with room to spare.
  lemma PrefixesApart(x: Key, y: Key, b: nat)
    requires x < y && b == Lcp(x, y) <= 6
    ensures Top(x, b) == Top(y, b) && Top(x, b + 1) < Top(y, b + 1)
    ensures x + Unit(b) <= 0x1_0000_0000_0000_0000 && Unit(b) <= y
  {
    hide Mul, Top, Tail, Unit, Lcp;
    LcpByte(x, y);
    PrefixAndRest(x, b);
    PrefixAndRest(y, b);
    var p, q, u := Top(x, b + 1), Top(y, b + 1), Unit(b);
    MulLarger(p, q, u);
    NextUnit(q, b);
  }

  method HandleRange(x: Key, y: Key)
    returns (x1: Key, y1: Key, lf1: (Key, Key), lf2: (Key, Key), sb: nat, status: Status)
    requires x <= y
    ensures sb == Lcp(x, y) <= 8 && (sb == 8 <==> x == y)
    ensures sb >= 7 ==> x1 == x && y1 == y && status == AlreadyPerfect
    ensures sb <= 6 ==> PerfectMiddle(x, y, sb, x1, y1)
    ensures x1 != x <==> status == Leftover1Updated || status == BothLeftoversUpdated
    ensures y1 != y <==> status == Leftover2Updated || status == BothLeftoversUpdated
    ensures sb <= 6 ==> (x1 == x <==> Tail(x, sb + 1) == 0) && (y1 == y <==> Tail(y, sb + 1) == Unit(sb) - 1)
    ensures x1 != x ==> lf1 == (x, x1 - 1)
    ensures y1 != y ==> lf2 == (y1 + 1, y)
  {
    hide Tail, Unit, Lcp, Top;
    sb := GetSplitByteIndex(x, y);
    LcpSpec(x, y, 8);
    WholeKey(x);
    WholeKey(y);
    if sb <= 6 {
      PrefixesApart(x, y, sb);
    }
    var low, high := x, y;
    var isLf1Updated, isLf2Updated;
    x1, isLf1Updated := ConvertToPerfectLowerBound(low, sb);
    y1, isLf2Updated := ConvertToPerfectUpperBound(high, sb);
    if sb <= 6 {
      MiddleBounds(x, y, sb, x1, y1);
    }
    lf1 := (x, Pred(x1));
    lf2 := (Succ(y1), y);
    status := if isLf1Updated && isLf2Updated then BothLeftoversUpdated
    else if isLf1Updated then Leftover1Updated
    else if isLf2Updated then Leftover2Updated
    else AlreadyPerfect;
  }

  lemma MiddleBounds(x: Key, y: Key, b: nat, x1: Key, y1: Key)
    requires x < y && b == Lcp(x, y) <= 6 && Tail(x1, b + 1) == 0 && Tail(y1, b + 1) == Unit(b) - 1
    requires Top(x1, b + 1) == Top(x, b + 1) + (if x1 == x then 0 else 1)
    requires Top(y1, b + 1) == Top(y, b + 1) - (if y1 == y then 0 else 1)
    ensures x1 <= y1 + 1
  {
    hide Mul, Top, Tail, Unit, Lcp;
    PrefixesApart(x, y, b);
    PrefixAndRest(x1, b);
    PrefixAndRest(y1, b);
    var p, q, u := Top(x1, b + 1), Top(y1, b + 1), Unit(b);
    MulStep(q, u);
    if p < q + 1 {
      MulLarger(p, q + 1, u);
    }
  }

  // The middle of a range vanishes exactly when neither bound is at the edge of a subtree and
  // the two bounds lie in neighbouring subtrees.
  lemma MiddleVanishes(x: Key, y: Key, b: nat, x1: Key, y1: Key)
    requires x < y && b == Lcp(x, y) <= 6 && PerfectMiddle(x, y, b, x1, y1)
    ensures x1 == y1 + 1 <==> x1 != x && y1 != y && ByteOf(y, b) == ByteOf(x, b) + 1
  {
    hide Mul, Top, Tail, Unit, Lcp;
    PrefixesApart(x, y, b);
    PrefixAndRest(x1, b);
    PrefixAndRest(y1, b);
    var p, q, u := Top(x1, b + 1), Top(y1, b + 1), Unit(b);
    MulStep(q, u);
    if p < q + 1 {
      MulLarger(p, q + 1, u);
    }
  }

  // A middle that does not vanish is a run of children of one prefix of b bytes, all complete.
  lemma MiddleIsRunOfSubtrees(x: Key, y: Key, b: nat, x1: Key, y1: Key, k: Key)
    requires x < y && b == Lcp(x, y) <= 6 && PerfectMiddle(x, y, b, x1, y1) && x1 <= y1
    ensures x1 <= k <= y1 <==> Top(k, b) == Top(x, b) && ByteOf(x1, b) <= ByteOf(k, b) <= ByteOf(y1, b)
  {
    hide Mul, Top, Tail, Unit, Lcp, PerfectMiddle;
    PrefixesApart(x, y, b);
    MiddlePrefix(x, y, b, x1, y1);
    PrefixAndRest(x1, b);
    PrefixAndRest(y1, b);
    PrefixAndRest(k, b);
    var p, q, r, u := Top(x1, b + 1), Top(y1, b + 1), Top(k, b + 1), Unit(b);
    if r < p {
      MulLarger(r, p, u);
    } else if p < r {
      MulLarger(p, r, u);
    }
    if q < r {
      MulLarger(q, r, u);
    } else if r < q {
      MulLarger(r, q, u);
    }
    assert x1 <= k <==> p <= r;
    assert k <= y1 <==> r <= q;
    var t := Top(x, b);
    assert p == t * 256 + ByteOf(x1, b) && q == t * 256 + ByteOf(y1, b) && r == Top(k, b) * 256 + ByteOf(k, b);
  }

  lemma MiddlePrefix(x: Key, y: Key, b: nat, x1: Key, y1: Key)
    requires x < y && b == Lcp(x, y) <= 6 && PerfectMiddle(x, y, b, x1, y1) && x1 <= y1
    ensures Top(x1, b) == Top(x, b) == Top(y1, b)
    ensures Tail(x1, b + 1) == 0 && Tail(y1, b + 1) == Unit(b) - 1
  {
    hide Mul, Top, Tail, Unit, Lcp;
    PrefixesApart(x, y, b);
    TopMonotone(x, x1, b);
    TopMonotone(x1, y1, b);
    TopMonotone(y1, y, b);
  }

  // ---------- tails of longer prefixes ----------

  lemma TailByte(k: nat, l: nat)
    requires l < 8
    ensures Tail(k, l) == Mul(ByteOf(k, l), Pow256(7 - l)) + Tail(k, l + 1)
  {
    hide Mul, Tail, Pow256;
    TopAndTail(k, l);
    TopAndTail(k, l + 1);
    var q, c, p := Top(k, l), ByteOf(k, l), Pow256(7 - l);
    MulShift(q, p);
    MulSum(256 * q, c, p);
    PowStep(7 - l);
  }

  lemma MulSum(a: nat, b: nat, u: nat)
    ensures Mul(a + b, u) == Mul(a, u) + Mul(b, u)
  {
    assert (a + b) * u == a * u + b * u;
  }

  lemma PowStep(n: nat)
    ensures Pow256(n + 1) == 256 * Pow256(n)
  {
  }

  // All bytes after byte b are zero, all are 0xff: so are all after a later byte.
  lemma {:induction false} EdgesStay(k: Key, b: nat, c: nat)
    requires b <= c <= 7
    ensures Tail(k, b + 1) == 0 ==> Tail(k, c + 1) == 0
    ensures Tail(k, b + 1) == Unit(b) - 1 ==> Tail(k, c + 1) == Unit(c) - 1
    decreases c - b
  {
    if b < c {
      hide Mul, Tail, Top, Unit;
      EdgeStep(k, b);
      EdgesStay(k, b + 1, c);
    }
  }

  lemma EdgeStep(k: Key, b: nat)
    requires b <= 6
    ensures Tail(k, b + 1) == 0 ==> Tail(k, b + 2) == 0
    ensures Tail(k, b + 1) == Unit(b) - 1 ==> Tail(k, b + 2) == Unit(b + 1) - 1
  {
    hide Mul, Tail, Top, Pow256, ByteOf;
    var d, p := ByteOf(k, b + 1), Unit(b + 1);
    TailByte(k, b + 1);
    PowStep(6 - b);
    PrefixAndRest(k, b + 1);
    MulBy256(p);
    if d < 255 {
      MulLarger(d, 255, p);
    }
  }

  lemma MulBy256(p: nat)
    ensures Mul(256, p) == 256 * p && Mul(255, p) == 255 * p
  {
  }
}
