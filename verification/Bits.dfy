// Machine words as natural numbers below 2^64, with the shift, mask, `|=` and
// count-trailing-zeros operations the index performs on them.
module Bits {

  type Word = w: nat | w < 0x1_0000_0000_0000_0000

  // Bit i of w, i.e. `(w >> i) & 1`.
  predicate Bit(w: nat, i: nat) {
    if i == 0 then w % 2 == 1 else Bit(w / 2, i - 1)
  }

  // w with bit i forced to b: `w | (1 << i)` when b, `w & ~(1 << i)` otherwise.
  function WithBit(w: nat, i: nat, b: bool): nat {
    if i == 0 then w - w % 2 + (if b then 1 else 0)
    else w % 2 + 2 * WithBit(w / 2, i - 1, b)
  }

  // `w >> s`
  function Shr(w: nat, s: nat): nat {
    if s == 0 then w else Shr(w / 2, s - 1)
  }

  // `__builtin_ctzll(w)`
  function Ctz(w: nat): nat
    requires w != 0
  {
    if w % 2 == 1 then 0 else 1 + Ctz(w / 2)
  }

  function Pow2(n: nat): nat {
    if n == 0 then 1 else 2 * Pow2(n - 1)
  }

  lemma {:induction false} BitWithBit(w: nat, i: nat, b: bool, j: nat)
    ensures Bit(WithBit(w, i, b), j) == (if i == j then b else Bit(w, j))
  {
    if i != 0 && j != 0 {
      BitWithBit(w / 2, i - 1, b, j - 1);
    }
  }

  lemma {:induction false} WithBitBound(w: nat, i: nat, b: bool, n: nat)
    requires w < Pow2(n) && i < n
    ensures WithBit(w, i, b) < Pow2(n)
  {
    var p := Pow2(n - 1);
    assert Pow2(n) == 2 * p && w / 2 < p;
    if i == 0 {
      assert WithBit(w, i, b) <= 2 * (w / 2) + 1;
    } else {
      WithBitBound(w / 2, i - 1, b, n - 1);
      assert WithBit(w, i, b) == w % 2 + 2 * WithBit(w / 2, i - 1, b);
    }
  }

  lemma Pow2Of64()
    ensures Pow2(64) == 0x1_0000_0000_0000_0000
  {
    assert Pow2(8) == 256;
    assert Pow2(16) == 0x1_0000;
    assert Pow2(24) == 0x100_0000;
    assert Pow2(32) == 0x1_0000_0000;
    assert Pow2(40) == 0x100_0000_0000;
    assert Pow2(48) == 0x1_0000_0000_0000;
    assert Pow2(56) == 0x100_0000_0000_0000;
  }

  lemma {:induction false} BitShr(w: nat, s: nat, i: nat)
    ensures Bit(Shr(w, s), i) == Bit(w, s + i)
  {
    if s != 0 {
      BitShr(w / 2, s - 1, i);
    }
  }

  lemma {:induction false} NoBitPast(w: nat, n: nat, i: nat)
    requires w < Pow2(n) && n <= i
    ensures !Bit(w, i)
  {
    if i != 0 {
      NoBitPast(w / 2, if n == 0 then 0 else n - 1, i - 1);
    }
  }

  lemma {:induction false} NoBitOfZero(i: nat)
    ensures !Bit(0, i)
  {
    if i != 0 {
      NoBitOfZero(i - 1);
    }
  }

  // Count-trailing-zeros finds the lowest one bit.
  lemma {:induction false} CtzIsLowest(w: nat, i: nat)
    requires w != 0
    ensures Bit(w, Ctz(w))
    ensures Bit(w, i) ==> Ctz(w) <= i
  {
    if w % 2 == 0 {
      CtzIsLowest(w / 2, if i == 0 then 0 else i - 1);
    }
  }

  // r is the least set bit of w at or above s.
  ghost predicate IsLowestFrom(w: nat, s: nat, r: nat) {
    s <= r < 64 && Bit(w, r) && forall i :: s <= i < 64 && Bit(w, i) ==> r <= i
  }

  // The shift-then-ctz idiom: what `x = w >> s; if (x) return ctz(x) + s` finds.
  lemma ShrCtz(w: Word, s: nat)
    requires s < 64
    ensures Shr(w, s) != 0 ==> IsLowestFrom(w, s, Ctz(Shr(w, s)) + s)
    ensures Shr(w, s) == 0 ==> forall i :: s <= i < 64 ==> !Bit(w, i)
  {
    var x := Shr(w, s);
    forall i | s <= i < 64
      ensures Bit(w, i) == Bit(x, i - s)
    {
      BitShr(w, s, i - s);
    }
    if x == 0 {
      forall i | s <= i < 64 ensures !Bit(w, i) {
        NoBitOfZero(i - s);
      }
    } else {
      var r := Ctz(x);
      forall i | s <= i < 64 && Bit(w, i) ensures r + s <= i {
        CtzIsLowest(x, i - s);
      }
      CtzIsLowest(x, 0);
      BitShr(w, s, r);
      if 64 <= r + s {
        Pow2Of64();
        NoBitPast(w, 64, r + s);
      }
    }
  }

  lemma {:induction false} ShiftedBits(w: nat, s: nat, i: nat)
    ensures Bit(w * Pow2(s), s + i) == Bit(w, i)
  {
    if s != 0 {
      assert w * Pow2(s) == 2 * (w * Pow2(s - 1));
      ShiftedBits(w, s - 1, i);
    }
  }

  lemma {:induction false} LowBitsClear(w: nat, s: nat, i: nat)
    requires i < s
    ensures !Bit(w * Pow2(s), i)
  {
    assert w * Pow2(s) == 2 * (w * Pow2(s - 1));
    if i != 0 {
      LowBitsClear(w, s - 1, i - 1);
    }
  }
}
