// How the words of the program stand behind the model: the hash functions of the table, applied
// to keys as 64-bit words, and the packed word of a slot.
module Encoding {
  import opened Bits
  import opened Keys
  import opened Slots
  import opened CuckooTable
  import opened HashWord
  import opened XxHash

  // ---------- keys and prefixes ----------

  function ByteWord(b: nat): (w: bv64)
    requires b < 256
    ensures w <= 255
  {
    b as bv64
  }

  // One more byte at the right end of a word.
  function Push(w: bv64, b: bv64): bv64 {
    (w << 8) | b
  }

  // A prefix of l bytes as a word; a whole key for l == 8.
  function PrefixWord(p: nat, l: nat): bv64 {
    if l == 0 then 0 else Push(PrefixWord(p / 256, l - 1), ByteWord(p % 256))
  }

  // A prefix at the left end of a word, all other bytes clear: what the code hashes.
  function Padded(p: nat, l: nat): bv64
    requires 3 <= l <= 8
  {
    Leftmost(PrefixWord(p, l), l)
  }

  function Leftmost(w: bv64, l: nat): bv64
    requires 3 <= l <= 8
  {
    match l
    case 3 => Left3(w)
    case 4 => Left4(w)
    case 5 => Left5(w)
    case 6 => Left6(w)
    case 7 => Left7(w)
    case _ => w
  }

  function Left3(w: bv64): bv64 { w << 40 }

  function Left4(w: bv64): bv64 { w << 32 }

  function Left5(w: bv64): bv64 { w << 24 }

  function Left6(w: bv64): bv64 { w << 16 }

  function Left7(w: bv64): bv64 { w << 8 }

  lemma Clear7(w: bv64, b7: bv64)
    requires b7 <= 255
    ensures Truncated7(Push(w, b7)) == Left7(w) && Truncated7(Left7(w)) == Left7(w)
  {
  }

  lemma Clear6(w: bv64, b6: bv64, b7: bv64)
    requires b6 <= 255 && b7 <= 255
    ensures Truncated6(Push(Push(w, b6), b7)) == Left6(w) && Truncated6(Left6(w)) == Left6(w)
  {
  }

  lemma Clear5(w: bv64, b5: bv64, b6: bv64, b7: bv64)
    requires b5 <= 255 && b6 <= 255 && b7 <= 255
    ensures Truncated5(Push(Push(Push(w, b5), b6), b7)) == Left5(w) && Truncated5(Left5(w)) == Left5(w)
  {
  }

  lemma Clear4(w: bv64, b4: bv64, b5: bv64, b6: bv64, b7: bv64)
    requires b4 <= 255 && b5 <= 255 && b6 <= 255 && b7 <= 255
    ensures Truncated4(Push(Push(Push(Push(w, b4), b5), b6), b7)) == Left4(w)
    ensures Truncated4(Left4(w)) == Left4(w)
  {
  }

  lemma Clear3(w: bv64, b3: bv64, b4: bv64, b5: bv64, b6: bv64, b7: bv64)
    requires b3 <= 255 && b4 <= 255 && b5 <= 255 && b6 <= 255 && b7 <= 255
    ensures Truncated3(Push(Push(Push(Push(Push(w, b3), b4), b5), b6), b7)) == Left3(w)
    ensures Truncated3(Left3(w)) == Left3(w)
  {
  }

  lemma PushTop(key: Key, l: nat)
    requires l < 8
    ensures PrefixWord(Top(key, l + 1), l + 1) == Push(PrefixWord(Top(key, l), l), ByteWord(ByteOf(key, l)))
  {
  }

  // Clearing the bytes of a key past the first l leaves its prefix.
  lemma TruncatedKey(key: Key, l: nat)
    requires 3 <= l <= 8
    ensures Truncated(PrefixWord(key, 8), l) == Padded(Top(key, l), l)
    ensures Truncated(Padded(Top(key, l), l), l) == Padded(Top(key, l), l)
  {
    hide PrefixWord, Push, Top, ByteWord, Left3, Left4, Left5, Left6, Left7, Truncated3, Truncated4, Truncated5,
         Truncated6, Truncated7;
    WholeKey(key);
    PushTop(key, 7);
    PushTop(key, 6);
    PushTop(key, 5);
    PushTop(key, 4);
    PushTop(key, 3);
    var w := PrefixWord(Top(key, l), l);
    var b3, b4, b5 := ByteWord(ByteOf(key, 3)), ByteWord(ByteOf(key, 4)), ByteWord(ByteOf(key, 5));
    var b6, b7 := ByteWord(ByteOf(key, 6)), ByteWord(ByteOf(key, 7));
    match l
    case 3 =>
      Clear3(w, b3, b4, b5, b6, b7);
      assert Truncated(PrefixWord(key, 8), l) == Padded(Top(key, l), l) == Truncated(Padded(Top(key, l), l), l);
    case 4 =>
      Clear4(w, b4, b5, b6, b7);
      assert Truncated(PrefixWord(key, 8), l) == Padded(Top(key, l), l) == Truncated(Padded(Top(key, l), l), l);
    case 5 =>
      Clear5(w, b5, b6, b7);
      assert Truncated(PrefixWord(key, 8), l) == Padded(Top(key, l), l) == Truncated(Padded(Top(key, l), l), l);
    case 6 =>
      Clear6(w, b6, b7);
      assert Truncated(PrefixWord(key, 8), l) == Padded(Top(key, l), l) == Truncated(Padded(Top(key, l), l), l);
    case 7 =>
      Clear7(w, b7);
      assert Truncated(PrefixWord(key, 8), l) == Padded(Top(key, l), l) == Truncated(Padded(Top(key, l), l), l);
    case _ =>
  }

  // ---------- numbers ----------

  function Half(x: bv32): bv32 { x >> 1 }

  predicate Odd(x: bv32) { x & 1 == 1 }

  function TwiceAndOne(x: bv32): bv32 { (x << 1) | 1 }

  // The lower k bits of a word as a number.
  function Num(x: bv32, k: nat): (n: nat)
    ensures n < Pow2(k)
  {
    if k == 0 then 0 else 2 * Num(Half(x), k - 1) + if Odd(x) then 1 else 0
  }

  // A word of k ones: the mask of a table of 2^k slots.
  function Mask(k: nat): bv32 {
    if k == 0 then 0 else TwiceAndOne(Mask(k - 1))
  }

  lemma MaskBits(x: bv32, m: bv32)
    ensures Half(And(x, TwiceAndOne(m))) == And(Half(x), m)
    ensures Odd(And(x, TwiceAndOne(m))) == Odd(x)
  {
  }

  lemma AndZero(x: bv32)
    ensures And(x, 0) == 0
  {
  }

  lemma HalfOfZero()
    ensures Half(0) == 0 && !Odd(0)
  {
  }

  lemma {:induction false} NumOfZero(n: nat)
    ensures Num(0, n) == 0
  {
    HalfOfZero();
    if n > 0 {
      NumOfZero(n - 1);
    }
  }

  // Cutting a word down with a mask leaves the lower bits.
  lemma {:induction false} NumOfMasked(x: bv32, k: nat, n: nat)
    requires k <= n
    ensures Num(And(x, Mask(k)), n) == Num(x, k)
    decreases k
  {
    hide And, Half, Odd, TwiceAndOne;
    if k == 0 {
      AndZero(x);
      NumOfZero(n);
    } else {
      MaskBits(x, Mask(k - 1));
      NumOfMasked(Half(x), k - 1, n - 1);
    }
  }

  lemma SameLowerBits(x: bv32, y: bv32, m: bv32)
    requires Odd(x) == Odd(y) && And(Half(x), m) == And(Half(y), m)
    ensures And(x, TwiceAndOne(m)) == And(y, TwiceAndOne(m))
  {
  }

  lemma {:induction false} NumDecides(x: bv32, y: bv32, k: nat)
    requires Num(x, k) == Num(y, k)
    ensures And(x, Mask(k)) == And(y, Mask(k))
    decreases k
  {
    hide And, Half, Odd, TwiceAndOne;
    if k == 0 {
      AndZero(x);
      AndZero(y);
    } else {
      NumDecides(Half(x), Half(y), k - 1);
      SameLowerBits(x, y, Mask(k - 1));
    }
  }

  // ---------- the hash functions of the table ----------

  // XXHashFn1, 2 and 3 of a prefix: the first two cut down to a table of 2^k slots, the third to
  // the 18 bits of a fingerprint.
  function CodeHashes(k: nat): Hashes {
    Hashes((l: nat, p: nat) => if 3 <= l <= 8 then Num(Fn1(Padded(p, l), l), k) else 0,
           (l: nat, p: nat) => if 3 <= l <= 8 then Num(Fn2(Padded(p, l), l), k) else 0,
           (l: nat, p: nat) => if 3 <= l <= 8 then Num(Fn3(Padded(p, l), l), 18) else 0)
  }

  // They are what the code computes from the whole key and a length, with its masks.
  lemma HashesOfKey(key: Key, l: nat, k: nat)
    requires 3 <= l <= 8 && k <= 32
    ensures var h, i, w := CodeHashes(k), At(key, l), PrefixWord(key, 8);
            && h.h1(i.len, i.prefix) == Num(And(Fn1(w, l), Mask(k)), 32) < Pow2(k)
            && h.h2(i.len, i.prefix) == Num(And(Fn2(w, l), Mask(k)), 32) < Pow2(k)
            && h.h3(i.len, i.prefix) == Num(Fingerprint(Fn3(w, l)), 32) < 0x4_0000
  {
    hide Fn1, Fn2, Fn3, And, Fingerprint, Padded, PrefixWord, Truncated, Top, Num, Mask, Pow2;
    var w := PrefixWord(key, 8);
    TruncatedKey(key, l);
    PrefixDecides(w, Padded(Top(key, l), l), l);
    NumOfMasked(Fn1(w, l), k, 32);
    NumOfMasked(Fn2(w, l), k, 32);
    NumOfMasked(Fn3(w, l), 18, 32);
    FingerprintIs(Fn3(w, l));
    Pow2Of18();
  }

  // So the positions and the fingerprint of the model are the code's: the modulo in the model
  // changes nothing.
  lemma PlacesOfKey(key: Key, l: nat, k: nat)
    requires 3 <= l <= 8 && k <= 32
    ensures var h, size, i, w := CodeHashes(k), Pow2(k) + 2 * GAP, At(key, l), PrefixWord(key, 8);
            && 2 * GAP < size
            && Place1(h, size, i) == GAP + Num(And(Fn1(w, l), Mask(k)), 32)
            && Place2(h, size, i) == GAP + Num(And(Fn2(w, l), Mask(k)), 32)
            && Print(h, i) == Num(Fingerprint(Fn3(w, l)), 32)
  {
    hide CodeHashes, Fn1, Fn2, Fn3, And, Fingerprint, PrefixWord, Top, Num, Mask, Pow2;
    HashesOfKey(key, l, k);
    var h, i := CodeHashes(k), At(key, l);
    Remainder(h.h1(i.len, i.prefix), Pow2(k));
    Remainder(h.h2(i.len, i.prefix), Pow2(k));
  }

  lemma Remainder(x: nat, n: nat)
    requires x < n
    ensures x % n == x
  {
  }

  lemma FingerprintIs(x: bv32)
    ensures Fingerprint(x) == And(x, Mask(18))
  {
    Mask18();
  }

  lemma Mask18()
    ensures Mask(18) == 0x3ffff
  {
    assert Mask(6) == 0x3f;
    assert Mask(12) == 0xfff;
  }

  lemma Pow2Of18()
    ensures Pow2(18) == 0x4_0000
  {
    assert Pow2(9) == 512;
  }

  // ---------- the packed word ----------

  // h is the packed word of slot x.
  ghost predicate Packs(h: bv32, x: Slot) {
    match x
    case Empty => Flag(h) == 0
    case Bitmap(_, _, _) => Flag(h) == 3
    case Node(ilen, dlen, fp, _, kids) =>
      && Flag(h) == 2 && Num(IndexKeyLen(h), 4) == ilen && Num(FullKeyLen(h), 4) == dlen && Num(Hash18(h), 18) == fp
      && match kids
         case Inline(_, num) => MapKind(h) == 0 && Num(ChildNum(h), 4) == num
         case Near(offset, _, b94, b95) =>
           Num(MapKind(h), 3) == 4 + offset && offset != 0 && StolenBit(h, 94) == b94 && StolenBit(h, 95) == b95
         case External(_) => MapKind(h) == 4
  }

  // The masked comparison of two words is the comparison the model makes.
  lemma WordMatches(h: bv32, s: seq<Slot>, i: nat, key: Key, l: nat)
    requires 3 <= l <= 8 && i < |s| && Packs(h, s[i])
    ensures var w := PrefixWord(key, 8);
            h & 0xf803ffff == Expected(w, l) && IsNode(s, i) && Top(s[i].minKey, l) == Top(key, l)
            <==> Matches(s, i, l, Num(Fingerprint(Fn3(w, l)), 18), Top(key, l))
  {
    hide Fn3, PrefixWord, Top, StolenBit, FullKeyLen, MapKind, ChildNum, Num, IndexKeyLen, Hash18, Fingerprint, Length,
         ExpectedHash;
    var fp := Fingerprint(Fn3(PrefixWord(key, 8), l));
    MaskedEqualIs(h, Length(l), fp);
    LengthOf(h, l);
    PrintOf(h, fp);
  }

  lemma LengthOf(h: bv32, l: nat)
    requires 3 <= l <= 8
    ensures Num(IndexKeyLen(h), 4) == l <==> IndexKeyLen(h) == Length(l)
  {
    hide IndexKeyLen, Num, Mask, And;
    Lengths(l);
    ShortLength(h);
    if Num(IndexKeyLen(h), 4) == Num(Length(l), 4) {
      NumDecides(IndexKeyLen(h), Length(l), 4);
    }
  }

  lemma ShortLength(h: bv32)
    ensures And(IndexKeyLen(h), Mask(4)) == IndexKeyLen(h)
  {
    assert Mask(4) == 0xf;
    assert IndexKeyLen(h) <= 8;
  }

  lemma Lengths(l: nat)
    requires 3 <= l <= 8
    ensures Num(Length(l), 4) == l && And(Length(l), Mask(4)) == Length(l)
  {
    assert Mask(4) == 0xf;
    assert Num(3, 4) == 3 && Num(4, 4) == 4 && Num(5, 4) == 5 && Num(6, 4) == 6 && Num(7, 4) == 7 && Num(8, 4) == 8;
  }

  lemma PrintOf(h: bv32, fp: bv32)
    requires fp < 0x40000
    ensures Num(Hash18(h), 18) == Num(fp, 18) <==> Hash18(h) == fp
  {
    Mask18();
    if Num(Hash18(h), 18) == Num(fp, 18) {
      NumDecides(Hash18(h), fp, 18);
      ShortWord(Hash18(h));
      ShortWord(fp);
    }
  }

  lemma ShortWord(x: bv32)
    requires x < 0x40000
    ensures And(x, 0x3ffff) == x
  {
  }
}
