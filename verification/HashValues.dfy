// Where the hash functions of the code put some keys in a table of 2^14 slots, computed step by
// step.
module HashValues {
  import opened Bits
  import opened Keys
  import opened Slots
  import opened CuckooTable
  import opened XxHash
  import opened Encoding

  const SLOTS := 16384

  // One more byte b after the prefix q.
  lemma PrefixStep(p: nat, l: nat, q: nat, b: nat, w: bv64, c: bv64)
    requires l > 0 && p == 256 * q + b && b < 256 && PrefixWord(q, l - 1) == w && ByteWord(b) == c
    ensures PrefixWord(p, l) == Push(w, c)
  {
    hide Push;
    assert p / 256 == q && p % 256 == b;
  }

  function Shifted(x: bv32, j: nat): bv32 {
    if j == 0 then x else Shifted(Half(x), j - 1)
  }

  // The lower j + k bits are the lower j bits and k more.
  lemma {:induction false} NumSplit(x: bv32, j: nat, k: nat)
    ensures Num(x, j + k) == Num(x, j) + Pow2(j) * Num(Shifted(x, j), k)
    decreases j
  {
    if j == 0 {
      assert Pow2(0) == 1 && Shifted(x, 0) == x;
    } else {
      NumStep(x, j);
      NumStep(x, j + k);
      SplitStep(x, j);
      hide Half, Odd, Num, Shifted, Pow2;
      NumSplit(Half(x), j - 1, k);
      Twice(Pow2(j - 1), Num(Shifted(x, j), k));
    }
  }

  lemma NumStep(x: bv32, k: nat)
    requires k > 0
    ensures Num(x, k) == 2 * Num(Half(x), k - 1) + if Odd(x) then 1 else 0
  {
    hide Half, Odd;
  }

  lemma SplitStep(x: bv32, j: nat)
    requires j > 0
    ensures Shifted(x, j) == Shifted(Half(x), j - 1) && Pow2(j) == 2 * Pow2(j - 1)
  {
    hide Half;
  }

  lemma Twice(a: nat, n: nat)
    ensures 2 * a * n == 2 * (a * n)
  {
  }

  // The lower fourteen bits, seven by seven.
  lemma Num14(x: bv32, y: bv32, low: nat, high: nat)
    requires Shifted(x, 7) == y && Num(x, 7) == low && Num(y, 7) == high
    ensures Num(x, 14) == low + 128 * high
  {
    hide Half, Odd, Num, Shifted;
    NumSplit(x, 7, 7);
    assert Pow2(7) == 128;
  }

  lemma FourteenBits()
    ensures Pow2(14) == SLOTS
  {
    assert Pow2(7) == 128;
  }

  // Steps of a hash with their intermediate values, to be computed on literals.
  predicate IsProduct(x: bv32, y: bv32, r: bv32) { x * y == r }

  predicate IsRound(h: bv32, z: bv32, x: bv32, r: bv32) { Rotl17(Xor(h, z)) == x && IsProduct(x, 668265263, r) }

  predicate IsAvalanche(h: bv32, x: bv32, a1: bv32, z: bv32, a2: bv32, r: bv32) {
    && Xor(h, XxHash.Shr(h, 15)) == x && IsProduct(x, 2246822519, a1)
    && Xor(a1, XxHash.Shr(a1, 13)) == z && IsProduct(z, 3266489917, a2) && Xor(a2, XxHash.Shr(a2, 16)) == r
  }

  lemma ProductIs(x: bv32, y: bv32, r: bv32)
    requires IsProduct(x, y, r)
    ensures Mul(x, y) == r
  {
  }

  // A hash: hi and lo are the halves of the key, c is the start value.
  lemma HashIs(key: bv64, l: nat, seed: bv32, multiplier: bv32, hi: bv32, lo: bv32, c: bv32, u: bv32, v: bv32, x1: bv32,
               h1: bv32, x2: bv32, h2: bv32, z1: bv32, a1: bv32, z2: bv32, a2: bv32, r: bv32)
    requires 3 <= l <= 8 && Start(seed, l) == c && High(Truncated(key, l)) == hi && Low(Truncated(key, l)) == lo
    requires IsProduct(hi, multiplier, u) && IsProduct(lo, multiplier, v) && IsRound(c, u, x1, h1)
    requires (if l > 4 then IsRound(h1, v, x2, h2) else h1 == h2) && IsAvalanche(h2, z1, a1, z2, a2, r)
    ensures CoreLogic(key, l, seed, multiplier) == r
  {
    hide High, Low, Truncated, Start, Mul, Xor, XxHash.Shr, Rotl17, IsProduct;
    ProductIs(hi, multiplier, u);
    ProductIs(lo, multiplier, v);
    ProductIs(x1, 668265263, h1);
    if l > 4 {
      ProductIs(x2, 668265263, h2);
    }
    ProductIs(z1, 2246822519, a1);
    ProductIs(z2, 3266489917, a2);
  }

  // The first place of a prefix of key, from the word w of the key.
  lemma FirstIs(key: Key, l: nat, w: bv64, hi: bv32, lo: bv32, c: bv32, u: bv32, v: bv32, x1: bv32, h1: bv32, x2: bv32,
                h2: bv32, z1: bv32, a1: bv32, z2: bv32, a2: bv32, r: bv32, y: bv32, low: nat, high: nat)
    requires PrefixWord(key, 8) == w && 3 <= l <= 8 && High(Truncated(w, l)) == hi && Low(Truncated(w, l)) == lo
    requires Start(SEED1, l) == c && IsProduct(hi, 2654435761, u) && IsProduct(lo, 2654435761, v)
    requires IsRound(c, u, x1, h1) && (if l > 4 then IsRound(h1, v, x2, h2) else h1 == h2)
    requires IsAvalanche(h2, z1, a1, z2, a2, r) && Shifted(r, 7) == y && Num(r, 7) == low && Num(y, 7) == high
    ensures Place1(CodeHashes(14), SLOTS + 2 * GAP, At(key, l)) == GAP + low + 128 * high
  {
    hide High, Low, Truncated, Start, IsProduct, IsRound, IsAvalanche, Num, Shifted, CoreLogic, CodeHashes, Top,
         PrefixWord, And, Mask, Fingerprint;
    HashIs(w, l, SEED1, PRIME1, hi, lo, c, u, v, x1, h1, x2, h2, z1, a1, z2, a2, r);
    Num14(r, y, low, high);
    FourteenBits();
    PlacesOfKey(key, l, 14);
    NumOfMasked(r, 14, 32);
  }

  // The same for the second place.
  lemma SecondIs(key: Key, l: nat, w: bv64, hi: bv32, lo: bv32, c: bv32, u: bv32, v: bv32, x1: bv32, h1: bv32, x2: bv32,
                 h2: bv32, z1: bv32, a1: bv32, z2: bv32, a2: bv32, r: bv32, y: bv32, low: nat, high: nat)
    requires PrefixWord(key, 8) == w && 3 <= l <= 8 && High(Truncated(w, l)) == hi && Low(Truncated(w, l)) == lo
    requires Start(SEED2, l) == c && IsProduct(hi, 3266489917, u) && IsProduct(lo, 3266489917, v)
    requires IsRound(c, u, x1, h1) && (if l > 4 then IsRound(h1, v, x2, h2) else h1 == h2)
    requires IsAvalanche(h2, z1, a1, z2, a2, r) && Shifted(r, 7) == y && Num(r, 7) == low && Num(y, 7) == high
    ensures Place2(CodeHashes(14), SLOTS + 2 * GAP, At(key, l)) == GAP + low + 128 * high
  {
    hide High, Low, Truncated, Start, IsProduct, IsRound, IsAvalanche, Num, Shifted, CoreLogic, CodeHashes, Top,
         PrefixWord, And, Mask, Fingerprint;
    HashIs(w, l, SEED2, PRIME3, hi, lo, c, u, v, x1, h1, x2, h2, z1, a1, z2, a2, r);
    Num14(r, y, low, high);
    FourteenBits();
    PlacesOfKey(key, l, 14);
    NumOfMasked(r, 14, 32);
  }

  // ---------- the key A ----------

  const A: Key := 0x100_0000_e052

  lemma WordOfA()
    ensures PrefixWord(A, 8) == 0x1000000e052
  {
    PrefixStep(0x0, 1, 0x0, 0x0, 0x0, 0x0);
    PrefixStep(0x0, 2, 0x0, 0x0, 0x0, 0x0);
    PrefixStep(0x1, 3, 0x0, 0x1, 0x0, 0x1);
    PrefixStep(0x100, 4, 0x1, 0x0, 0x1, 0x0);
    PrefixStep(0x10000, 5, 0x100, 0x0, 0x100, 0x0);
    PrefixStep(0x1000000, 6, 0x10000, 0x0, 0x10000, 0x0);
    PrefixStep(0x1000000e0, 7, 0x1000000, 0xe0, 0x1000000, 0xe0);
    PrefixStep(0x1000000e052, 8, 0x1000000e0, 0x52, 0x1000000e0, 0x52);
  }

  lemma A3First()
    ensures Place1(CodeHashes(14), SLOTS + 2 * GAP, At(A, 3)) == GAP + 12189
  {
    hide CodeHashes, Place1, Place2, PrefixWord, Top;
    WordOfA();
    FirstIs(A, 3, 0x1000000e052, 0x100, 0x0, 0x5d6f8147, 0x3779b100, 0x0, 0x608ed42c, 0x3f6d5814,
            0x0, 0x3f6d5814, 0x3f6d26ce, 0x417595c2, 0x41779e6e, 0x6bab8436, 0x6babef9d, 0xd757df, 29, 95);
  }

  lemma A3Second()
    ensures Place2(CodeHashes(14), SLOTS + 2 * GAP, At(A, 3)) == GAP + 9315
  {
    hide CodeHashes, Place1, Place2, PrefixWord, Top;
    WordOfA();
    SecondIs(A, 3, 0x1000000e052, 0x100, 0x0, 0x36384c6f, 0xb2ae3d00, 0x0, 0xe2df092c, 0xb0ce1314,
             0x0, 0xb0ce1314, 0xb0cf7288, 0xaba58d38, 0xaba0d014, 0x8a72cc4, 0x8a72463, 0x114e48, 99, 72);
  }

  lemma A8First()
    ensures Place1(CodeHashes(14), SLOTS + 2 * GAP, At(A, 8)) == GAP + 12189
  {
    hide CodeHashes, Place1, Place2, PrefixWord, Top;
    WordOfA();
    FirstIs(A, 8, 0x1000000e052, 0x100, 0xe052, 0x5d6f814c, 0x3779b100, 0x383fdab2, 0x6098d42c, 0x6f435814,
            0x54caef9, 0x32e6b2b7, 0x32e6d77a, 0xfe526db6, 0xfe559f25, 0x7e4c11d1, 0x7e4c6f9d, 0xfc98df, 29, 95);
  }

  lemma A8Second()
    ensures Place2(CodeHashes(14), SLOTS + 2 * GAP, At(A, 8)) == GAP + 7893
  {
    hide CodeHashes, Place1, Place2, PrefixWord, Top;
    WordOfA();
    SecondIs(A, 8, 0x1000000e052, 0x100, 0xe052, 0x36384c74, 0xb2ae3d00, 0xb5b12f8a, 0xe2e9092c, 0xe0a41314,
             0x793caa2a, 0x431fcbb6, 0x431f4d89, 0x407e24af, 0x407c275e, 0x5bb34566, 0x5bb31ed5, 0xb7663d, 85, 61);
  }

  lemma WordOfANext()
    ensures PrefixWord(A + 1, 8) == 0x1000000e053
  {
    PrefixStep(0x0, 1, 0x0, 0x0, 0x0, 0x0);
    PrefixStep(0x0, 2, 0x0, 0x0, 0x0, 0x0);
    PrefixStep(0x1, 3, 0x0, 0x1, 0x0, 0x1);
    PrefixStep(0x100, 4, 0x1, 0x0, 0x1, 0x0);
    PrefixStep(0x10000, 5, 0x100, 0x0, 0x100, 0x0);
    PrefixStep(0x1000000, 6, 0x10000, 0x0, 0x10000, 0x0);
    PrefixStep(0x1000000e0, 7, 0x1000000, 0xe0, 0x1000000, 0xe0);
    PrefixStep(0x1000000e053, 8, 0x1000000e0, 0x53, 0x1000000e0, 0x53);
  }

  lemma ANext8First()
    ensures Place1(CodeHashes(14), SLOTS + 2 * GAP, At(A + 1, 8)) == GAP + 9561
  {
    hide CodeHashes, Place1, Place2, PrefixWord, Top;
    WordOfANext();
    FirstIs(A + 1, 8, 0x1000000e053, 0x100, 0xe053, 0x5d6f814c, 0x3779b100, 0xd6775463, 0x6098d42c, 0x6f435814,
            0x18ef7268, 0xf81b7918, 0xf81a892e, 0x17ce1062, 0x17ceae12, 0xd313b64a, 0xd3136559, 0x1a626ca, 89, 74);
  }

  // ---------- the key B ----------

  const B: Key := 0xc4_af00_0000_0000

  lemma WordOfB()
    ensures PrefixWord(B, 8) == 0xc4af0000000000
  {
    PrefixStep(0x0, 1, 0x0, 0x0, 0x0, 0x0);
    PrefixStep(0xc4, 2, 0x0, 0xc4, 0x0, 0xc4);
    PrefixStep(0xc4af, 3, 0xc4, 0xaf, 0xc4, 0xaf);
    PrefixStep(0xc4af00, 4, 0xc4af, 0x0, 0xc4af, 0x0);
    PrefixStep(0xc4af0000, 5, 0xc4af00, 0x0, 0xc4af00, 0x0);
    PrefixStep(0xc4af000000, 6, 0xc4af0000, 0x0, 0xc4af0000, 0x0);
    PrefixStep(0xc4af00000000, 7, 0xc4af000000, 0x0, 0xc4af000000, 0x0);
    PrefixStep(0xc4af0000000000, 8, 0xc4af00000000, 0x0, 0xc4af00000000, 0x0);
  }

  lemma B3First()
    ensures Place1(CodeHashes(14), SLOTS + 2 * GAP, At(B, 3)) == GAP + 7893
  {
    hide CodeHashes, Place1, Place2, PrefixWord, Top;
    WordOfB();
    FirstIs(B, 3, 0xc4af0000000000, 0xc4af00, 0x0, 0x5d6f8147, 0x17b3ff00, 0x0, 0xfc8e95b8, 0x45fd64c8,
            0x0, 0x45fd64c8, 0x45fdef32, 0x74ada43e, 0x74ae0153, 0xe412bac7, 0xe4125ed5, 0x1c824bd, 85, 61);
  }

  // ---------- the key C ----------

  const C: Key := 0x300_0000_0000

  lemma WordOfC()
    ensures PrefixWord(C, 8) == 0x30000000000
  {
    PrefixStep(0x0, 1, 0x0, 0x0, 0x0, 0x0);
    PrefixStep(0x0, 2, 0x0, 0x0, 0x0, 0x0);
    PrefixStep(0x3, 3, 0x0, 0x3, 0x0, 0x3);
    PrefixStep(0x300, 4, 0x3, 0x0, 0x3, 0x0);
    PrefixStep(0x30000, 5, 0x300, 0x0, 0x300, 0x0);
    PrefixStep(0x3000000, 6, 0x30000, 0x0, 0x30000, 0x0);
    PrefixStep(0x300000000, 7, 0x3000000, 0x0, 0x3000000, 0x0);
    PrefixStep(0x30000000000, 8, 0x300000000, 0x0, 0x300000000, 0x0);
  }

  lemma C3First()
    ensures Place1(CodeHashes(14), SLOTS + 2 * GAP, At(C, 3)) == GAP + 3783
  {
    hide CodeHashes, Place1, Place2, PrefixWord, Top;
    WordOfC();
    FirstIs(C, 3, 0x30000000000, 0x300, 0x0, 0x5d6f8147, 0xa66d1300, 0x0, 0x248ff605, 0x5c68c1eb,
            0x0, 0x5c68c1eb, 0x5c68793a, 0xce761df6, 0xce706e46, 0x5469daae, 0x54698ec7, 0xa8d31d, 71, 29);
  }

  lemma C3Second()
    ensures Place2(CodeHashes(14), SLOTS + 2 * GAP, At(C, 3)) == GAP + 9937
  {
    hide CodeHashes, Place1, Place2, PrefixWord, Top;
    WordOfC();
    SecondIs(C, 3, 0x30000000000, 0x300, 0x0, 0x36384c6f, 0x180ab700, 0x0, 0xf6de5c65, 0x5847ad8b,
             0x0, 0x5847ad8b, 0x58471d04, 0xdc9fa4dc, 0xdc994021, 0x530cb5dd, 0x530ce6d1, 0xa619cd, 81, 77);
  }

  // ---------- the key D ----------

  const D: Key := 0x4200_0000_0000

  lemma WordOfD()
    ensures PrefixWord(D, 8) == 0x420000000000
  {
    PrefixStep(0x0, 1, 0x0, 0x0, 0x0, 0x0);
    PrefixStep(0x0, 2, 0x0, 0x0, 0x0, 0x0);
    PrefixStep(0x42, 3, 0x0, 0x42, 0x0, 0x42);
    PrefixStep(0x4200, 4, 0x42, 0x0, 0x42, 0x0);
    PrefixStep(0x420000, 5, 0x4200, 0x0, 0x4200, 0x0);
    PrefixStep(0x42000000, 6, 0x420000, 0x0, 0x420000, 0x0);
    PrefixStep(0x4200000000, 7, 0x42000000, 0x0, 0x42000000, 0x0);
    PrefixStep(0x420000000000, 8, 0x4200000000, 0x0, 0x4200000000, 0x0);
  }

  lemma D3First()
    ensures Place1(CodeHashes(14), SLOTS + 2 * GAP, At(D, 3)) == GAP + 3783
  {
    hide CodeHashes, Place1, Place2, PrefixWord, Top;
    WordOfD();
    FirstIs(D, 3, 0x420000000000, 0x4200, 0x0, 0x5d6f8147, 0x4d5fa200, 0x0, 0x468e2060, 0xdb5011a0,
            0x0, 0xdb5011a0, 0xdb51a700, 0xadbaa100, 0xadbfccd5, 0x9a0694c1, 0x9a060ec7, 0x1340c1d, 71, 29);
  }

  lemma D3Second()
    ensures Place2(CodeHashes(14), SLOTS + 2 * GAP, At(D, 3)) == GAP + 12184
  {
    hide CodeHashes, Place1, Place2, PrefixWord, Top;
    WordOfD();
    SecondIs(D, 3, 0x420000000000, 0x4200, 0x0, 0x36384c6f, 0x10ebba00, 0x0, 0xecde4da7, 0x4d648ea9,
             0x0, 0x4d648ea9, 0x4d641460, 0x85b938a0, 0x85bd1569, 0xd79d7805, 0xd79daf98, 0x1af3b5f, 24, 95);
  }

  lemma D4First()
    ensures Place1(CodeHashes(14), SLOTS + 2 * GAP, At(D, 4)) == GAP + 3827
  {
    hide CodeHashes, Place1, Place2, PrefixWord, Top;
    WordOfD();
    FirstIs(D, 4, 0x420000000000, 0x4200, 0x0, 0x5d6f8148, 0x4d5fa200, 0x0, 0x46902060, 0xb1ae11a0,
            0x0, 0xb1ae11a0, 0xb1af72fc, 0x829d4b24, 0x82995fce, 0x16e5d816, 0x16e5cef3, 0x2dcb9d, 115, 29);
  }

  lemma D4Second()
    ensures Place2(CodeHashes(14), SLOTS + 2 * GAP, At(D, 4)) == GAP + 15513
  {
    hide CodeHashes, Place1, Place2, PrefixWord, Top;
    WordOfD();
    SecondIs(D, 4, 0x420000000000, 0x4200, 0x0, 0x36384c70, 0x10ebba00, 0x0, 0xece04da7, 0x23c28ea9,
             0x0, 0x23c28ea9, 0x23c2c92c, 0xd9ac3b74, 0xd9aaf615, 0x1598e901, 0x1598fc99, 0x2b31f9, 25, 121);
  }

  lemma D5First()
    ensures Place1(CodeHashes(14), SLOTS + 2 * GAP, At(D, 5)) == GAP + 9335
  {
    hide CodeHashes, Place1, Place2, PrefixWord, Top;
    WordOfD();
    FirstIs(D, 5, 0x420000000000, 0x4200, 0x0, 0x5d6f8149, 0x4d5fa200, 0x0, 0x46922060, 0x880c11a0,
            0x23411018, 0x2e97fc68, 0x2e97a147, 0x3ceafe01, 0x3ceb1956, 0x19097d7e, 0x19096477, 0x3212c8, 119, 72);
  }

  lemma D5Second()
    ensures Place2(CodeHashes(14), SLOTS + 2 * GAP, At(D, 5)) == GAP + 3014
  {
    hide CodeHashes, Place1, Place2, PrefixWord, Top;
    WordOfD();
    SecondIs(D, 5, 0x420000000000, 0x4200, 0x0, 0x36384c71, 0x10ebba00, 0x0, 0xece24da7, 0xfa208ea9,
             0x1d53f441, 0xa07582ef, 0xa074c204, 0xe50957dc, 0xe50e7f96, 0xd1785abe, 0xd1788bc6, 0x1a2f117, 70, 23);
  }

  lemma D6First()
    ensures Place1(CodeHashes(14), SLOTS + 2 * GAP, At(D, 6)) == GAP + 8838
  {
    hide CodeHashes, Place1, Place2, PrefixWord, Top;
    WordOfD();
    FirstIs(D, 6, 0x420000000000, 0x4200, 0x0, 0x5d6f814a, 0x4d5fa200, 0x0, 0x46942060, 0x5e6a11a0,
            0x2340bcd4, 0x91c946ec, 0x91c8657e, 0x84e69992, 0x84e2bea6, 0x2308418e, 0x23086286, 0x4610c5, 6, 69);
  }

  lemma D6Second()
    ensures Place2(CodeHashes(14), SLOTS + 2 * GAP, At(D, 6)) == GAP + 3825
  {
    hide CodeHashes, Place1, Place2, PrefixWord, Top;
    WordOfD();
    SecondIs(D, 6, 0x420000000000, 0x4200, 0x0, 0x36384c72, 0x10ebba00, 0x0, 0xece44da7, 0xd07e8ea9,
             0x1d53a0fd, 0x3a6cd73, 0x3a6ca3e, 0x2b06eed2, 0x2b07b6e5, 0x34603a91, 0x34600ef1, 0x68c01d, 113, 29);
  }

  lemma D7First()
    ensures Place1(CodeHashes(14), SLOTS + 2 * GAP, At(D, 7)) == GAP + 15390
  {
    hide CodeHashes, Place1, Place2, PrefixWord, Top;
    WordOfD();
    FirstIs(D, 7, 0x420000000000, 0x4200, 0x0, 0x5d6f814b, 0x4d5fa200, 0x0, 0x46962060, 0x34c811a0,
            0x23406990, 0xf4fa9170, 0xf4fb7885, 0x914f7d3, 0x914bf74, 0x4aba76a4, 0x4aba3c1e, 0x957478, 30, 120);
  }

  lemma D7Second()
    ensures Place2(CodeHashes(14), SLOTS + 2 * GAP, At(D, 7)) == GAP + 6046
  {
    hide CodeHashes, Place1, Place2, PrefixWord, Top;
    WordOfD();
    SecondIs(D, 7, 0x420000000000, 0x4200, 0x0, 0x36384c73, 0x10ebba00, 0x0, 0xece64da7, 0xa6dc8ea9,
             0x1d534db9, 0x66d817f7, 0x66d8da47, 0x2d367d01, 0x2d3714b2, 0x7df4ea6a, 0x7df4979e, 0xfbe92f, 30, 47);
  }

  lemma D8First()
    ensures Place1(CodeHashes(14), SLOTS + 2 * GAP, At(D, 8)) == GAP + 13785
  {
    hide CodeHashes, Place1, Place2, PrefixWord, Top;
    WordOfD();
    FirstIs(D, 8, 0x420000000000, 0x4200, 0x0, 0x5d6f814c, 0x4d5fa200, 0x0, 0x46982060, 0xb2611a0,
            0x2340164c, 0x582bdbf4, 0x582b6ba3, 0xbcbea6c5, 0xbcbb4330, 0x57a9a270, 0x57a9f5d9, 0xaf53eb, 89, 107);
  }

  lemma WordOfDNext()
    ensures PrefixWord(D + 1, 8) == 0x420000000001
  {
    PrefixStep(0x0, 1, 0x0, 0x0, 0x0, 0x0);
    PrefixStep(0x0, 2, 0x0, 0x0, 0x0, 0x0);
    PrefixStep(0x42, 3, 0x0, 0x42, 0x0, 0x42);
    PrefixStep(0x4200, 4, 0x42, 0x0, 0x42, 0x0);
    PrefixStep(0x420000, 5, 0x4200, 0x0, 0x4200, 0x0);
    PrefixStep(0x42000000, 6, 0x420000, 0x0, 0x420000, 0x0);
    PrefixStep(0x4200000000, 7, 0x42000000, 0x0, 0x42000000, 0x0);
    PrefixStep(0x420000000001, 8, 0x4200000000, 0x1, 0x4200000000, 0x1);
  }

  lemma DNext8First()
    ensures Place1(CodeHashes(14), SLOTS + 2 * GAP, At(D + 1, 8)) == GAP + 6811
  {
    hide CodeHashes, Place1, Place2, PrefixWord, Top;
    WordOfDNext();
    FirstIs(D + 1, 8, 0x420000000001, 0x4200, 0x1, 0x5d6f814c, 0x4d5fa200, 0x9e3779b1, 0x46982060, 0xb2611a0,
            0xd0232a22, 0x9049f23e, 0x9048d2ad, 0xcde5706b, 0xcde31f40, 0xa8dbf240, 0xa8db5a9b, 0x151b6b5, 27, 53);
  }

  lemma DNext8Second()
    ensures Place2(CodeHashes(14), SLOTS + 2 * GAP, At(D + 1, 8)) == GAP + 12433
  {
    hide CodeHashes, Place1, Place2, PrefixWord, Top;
    WordOfDNext();
    SecondIs(D + 1, 8, 0x420000000001, 0x4200, 0x1, 0x36384c74, 0x10ebba00, 0xc2b2ae3d, 0xece84da7, 0x7d3a8ea9,
             0x41297f10, 0xb78203f0, 0xb7836cf4, 0xca0c2d6c, 0xca0a7d0d, 0x1288a219, 0x1288b091, 0x251161, 17, 97);
  }

  // ---------- the key E ----------

  const E: Key := 0x23_8500_0000_0000

  lemma WordOfE()
    ensures PrefixWord(E, 8) == 0x23850000000000
  {
    PrefixStep(0x0, 1, 0x0, 0x0, 0x0, 0x0);
    PrefixStep(0x23, 2, 0x0, 0x23, 0x0, 0x23);
    PrefixStep(0x2385, 3, 0x23, 0x85, 0x23, 0x85);
    PrefixStep(0x238500, 4, 0x2385, 0x0, 0x2385, 0x0);
    PrefixStep(0x23850000, 5, 0x238500, 0x0, 0x238500, 0x0);
    PrefixStep(0x2385000000, 6, 0x23850000, 0x0, 0x23850000, 0x0);
    PrefixStep(0x238500000000, 7, 0x2385000000, 0x0, 0x2385000000, 0x0);
    PrefixStep(0x23850000000000, 8, 0x238500000000, 0x0, 0x238500000000, 0x0);
  }

  lemma E3First()
    ensures Place1(CodeHashes(14), SLOTS + 2 * GAP, At(E, 3)) == GAP + 12184
  {
    hide CodeHashes, Place1, Place2, PrefixWord, Top;
    WordOfE();
    FirstIs(E, 3, 0x23850000000000, 0x238500, 0x0, 0x5d6f8147, 0x756bf500, 0x0, 0xe88e5008, 0xd4380978,
            0x0, 0xd4380978, 0xd439a108, 0x1a322ab8, 0x1a32fb29, 0x995db6c5, 0x995d2f98, 0x132ba5f, 24, 95);
  }

  // ---------- the key F ----------

  const F: Key := 0x5a_9400_0000_0000

  lemma WordOfF()
    ensures PrefixWord(F, 8) == 0x5a940000000000
  {
    PrefixStep(0x0, 1, 0x0, 0x0, 0x0, 0x0);
    PrefixStep(0x5a, 2, 0x0, 0x5a, 0x0, 0x5a);
    PrefixStep(0x5a94, 3, 0x5a, 0x94, 0x5a, 0x94);
    PrefixStep(0x5a9400, 4, 0x5a94, 0x0, 0x5a94, 0x0);
    PrefixStep(0x5a940000, 5, 0x5a9400, 0x0, 0x5a9400, 0x0);
    PrefixStep(0x5a94000000, 6, 0x5a940000, 0x0, 0x5a940000, 0x0);
    PrefixStep(0x5a9400000000, 7, 0x5a94000000, 0x0, 0x5a94000000, 0x0);
    PrefixStep(0x5a940000000000, 8, 0x5a9400000000, 0x0, 0x5a9400000000, 0x0);
  }

  lemma F3First()
    ensures Place1(CodeHashes(14), SLOTS + 2 * GAP, At(F, 3)) == GAP + 11915
  {
    hide CodeHashes, Place1, Place2, PrefixWord, Top;
    WordOfF();
    FirstIs(F, 3, 0x5a940000000000, 0x5a9400, 0x0, 0x5d6f8147, 0xda945400, 0x0, 0xaa8f0ff7, 0x7d77ab59,
            0x0, 0x7d77ab59, 0x7d7751b6, 0x902979a, 0x902df8e, 0x265dc8d6, 0x265dee8b, 0x4cbbdd, 11, 93);
  }

  lemma F3Second()
    ensures Place2(CodeHashes(14), SLOTS + 2 * GAP, At(F, 3)) == GAP + 11915
  {
    hide CodeHashes, Place1, Place2, PrefixWord, Top;
    WordOfF();
    SecondIs(F, 3, 0x5a940000000000, 0x5a9400, 0x0, 0x36384c6f, 0x8e2d4400, 0x0, 0x10df702a, 0x7dc425b6,
             0x0, 0x7dc425b6, 0x7dc4de3e, 0x6ca3ad2, 0x6ca0c83, 0xebbc0537, 0xebbcee8b, 0x1d779dd, 11, 93);
  }

  // ---------- the key G ----------

  const G: Key := 0xccc_1a00_0000_0000

  lemma WordOfG()
    ensures PrefixWord(G, 8) == 0xccc1a0000000000
  {
    PrefixStep(0xc, 1, 0x0, 0xc, 0x0, 0xc);
    PrefixStep(0xccc, 2, 0xc, 0xcc, 0xc, 0xcc);
    PrefixStep(0xccc1a, 3, 0xccc, 0x1a, 0xccc, 0x1a);
    PrefixStep(0xccc1a00, 4, 0xccc1a, 0x0, 0xccc1a, 0x0);
    PrefixStep(0xccc1a0000, 5, 0xccc1a00, 0x0, 0xccc1a00, 0x0);
    PrefixStep(0xccc1a000000, 6, 0xccc1a0000, 0x0, 0xccc1a0000, 0x0);
    PrefixStep(0xccc1a00000000, 7, 0xccc1a000000, 0x0, 0xccc1a000000, 0x0);
    PrefixStep(0xccc1a0000000000, 8, 0xccc1a00000000, 0x0, 0xccc1a00000000, 0x0);
  }

  lemma G3First()
    ensures Place1(CodeHashes(14), SLOTS + 2 * GAP, At(G, 3)) == GAP + 11915
  {
    hide CodeHashes, Place1, Place2, PrefixWord, Top;
    WordOfG();
    FirstIs(G, 3, 0xccc1a0000000000, 0xccc1a00, 0x0, 0x5d6f8147, 0xe767fa00, 0x0, 0xf68f7410, 0x8120fef0,
            0x0, 0x8120fef0, 0x8121fcb1, 0xc3ab2047, 0xc3ad3d1e, 0x9aadf426, 0x9aad6e8b, 0x1355add, 11, 93);
  }

  lemma G3Second()
    ensures Place2(CodeHashes(14), SLOTS + 2 * GAP, At(G, 3)) == GAP + 11915
  {
    hide CodeHashes, Place1, Place2, PrefixWord, Top;
    WordOfG();
    SecondIs(G, 3, 0xccc1a0000000000, 0xccc1a00, 0x0, 0x36384c6f, 0xda4e3200, 0x0, 0xfcdfd8ec, 0x80a97754,
             0x0, 0x80a97754, 0x80a87606, 0x30f198ca, 0x30f01f46, 0xa92507ae, 0xa925ae8b, 0x1524b5d, 11, 93);
  }

  // ---------- the key P ----------

  const P: Key := 0x1237_f900_0000_0000

  lemma WordOfP()
    ensures PrefixWord(P, 8) == 0x1237f90000000000
  {
    PrefixStep(0x12, 1, 0x0, 0x12, 0x0, 0x12);
    PrefixStep(0x1237, 2, 0x12, 0x37, 0x12, 0x37);
    PrefixStep(0x1237f9, 3, 0x1237, 0xf9, 0x1237, 0xf9);
    PrefixStep(0x1237f900, 4, 0x1237f9, 0x0, 0x1237f9, 0x0);
    PrefixStep(0x1237f90000, 5, 0x1237f900, 0x0, 0x1237f900, 0x0);
    PrefixStep(0x1237f9000000, 6, 0x1237f90000, 0x0, 0x1237f90000, 0x0);
    PrefixStep(0x1237f900000000, 7, 0x1237f9000000, 0x0, 0x1237f9000000, 0x0);
    PrefixStep(0x1237f90000000000, 8, 0x1237f900000000, 0x0, 0x1237f900000000, 0x0);
  }

  lemma P3First()
    ensures Place1(CodeHashes(14), SLOTS + 2 * GAP, At(P, 3)) == GAP + 4783
  {
    hide CodeHashes, Place1, Place2, PrefixWord, Top;
    WordOfP();
    FirstIs(P, 3, 0x1237f90000000000, 0x1237f900, 0x0, 0x5d6f8147, 0x8c642900, 0x0, 0x508fa217, 0x6035df39,
            0x0, 0x6035df39, 0x60351f52, 0xfdae431e, 0xfda9ae6c, 0xe513f7bc, 0xe51312af, 0x1ca2625, 47, 37);
  }

  lemma P3Second()
    ensures Place2(CodeHashes(14), SLOTS + 2 * GAP, At(P, 3)) == GAP + 4783
  {
    hide CodeHashes, Place1, Place2, PrefixWord, Top;
    WordOfP();
    SecondIs(P, 3, 0x1237f90000000000, 0x1237f900, 0x0, 0x36384c6f, 0x84945500, 0x0, 0x32df6558, 0xbdeb6328,
             0x0, 0xbdeb6328, 0xbdea18fe, 0xe6b40a12, 0xe6b33fb2, 0xfbc5296a, 0xfbc5d2af, 0x1f78ba5, 47, 37);
  }

  // ---------- the key Q ----------

  const Q: Key := 0x100_00b7_5026

  lemma WordOfQ()
    ensures PrefixWord(Q, 8) == 0x10000b75026
  {
    PrefixStep(0x0, 1, 0x0, 0x0, 0x0, 0x0);
    PrefixStep(0x0, 2, 0x0, 0x0, 0x0, 0x0);
    PrefixStep(0x1, 3, 0x0, 0x1, 0x0, 0x1);
    PrefixStep(0x100, 4, 0x1, 0x0, 0x1, 0x0);
    PrefixStep(0x10000, 5, 0x100, 0x0, 0x100, 0x0);
    PrefixStep(0x10000b7, 6, 0x10000, 0xb7, 0x10000, 0xb7);
    PrefixStep(0x10000b750, 7, 0x10000b7, 0x50, 0x10000b7, 0x50);
    PrefixStep(0x10000b75026, 8, 0x10000b750, 0x26, 0x10000b750, 0x26);
  }

  lemma Q8First()
    ensures Place1(CodeHashes(14), SLOTS + 2 * GAP, At(Q, 8)) == GAP + 4783
  {
    hide CodeHashes, Place1, Place2, PrefixWord, Top;
    WordOfQ();
    FirstIs(Q, 8, 0x10000b75026, 0x100, 0xb75026, 0x5d6f814c, 0x3779b100, 0xcfca6046, 0x6098d42c, 0x6f435814,
            0x70a54112, 0x1fa784e, 0x1fa7bba, 0xc6ce4776, 0xc6c87104, 0x375ba5f4, 0x375b92af, 0x6eb725, 47, 37);
  }

  lemma Q8Second()
    ensures Place2(CodeHashes(14), SLOTS + 2 * GAP, At(Q, 8)) == GAP + 4783
  {
    hide CodeHashes, Place1, Place2, PrefixWord, Top;
    WordOfQ();
    SecondIs(Q, 8, 0x10000b75026, 0x100, 0xb75026, 0x36384c74, 0xb2ae3d00, 0x4a93ed0e, 0xe2e9092c, 0xe0a41314,
             0xfc35546f, 0x17386561, 0x17384b11, 0xf4014ee7, 0xf406eeed, 0x96d60479, 0x96d692af, 0x12dad25, 47, 37);
  }

  // ---------- values of the third function ----------

  lemma A3Third()
    ensures Fn3(0x1000000e052, 3) == 0x6433f08
  {
    HashIs(0x1000000e052, 3, 0, PRIME3, 0x100, 0x0, 0x165667b4, 0xb2ae3d00, 0x0, 0xb56949f0, 0xbff3e310,
           0x0, 0xbff3e310, 0xbff29cf7, 0x135edcd1, 0x135e4627, 0x643394b, 0x6433f08);
  }

  lemma A8Third()
    ensures Fn3(0x1000000e052, 8) == 0x6b017854
  {
    HashIs(0x1000000e052, 8, 0, PRIME3, 0x100, 0xe052, 0x165667b9, 0xb2ae3d00, 0xb5b12f8a, 0xb57349f0, 0xefc9e310,
           0x9934b4f1, 0x115a733f, 0x115a518b, 0x66ec959d, 0x66efa2f9, 0x6b011355, 0x6b017854);
  }

  // The number of a word from its bytes.
  lemma FourBytes(x: bv32, y: bv32, z: bv32, w: bv32, a: nat, b: nat, c: nat, d: nat)
    requires Shifted(x, 8) == y && Shifted(y, 8) == z && Shifted(z, 8) == w
    requires Num(x, 8) == a && Num(y, 8) == b && Num(z, 8) == c && Num(w, 8) == d
    ensures Num(x, 32) == a + 256 * b + 65536 * c + 16777216 * d
  {
    hide Half, Odd, Num, Shifted, Pow2;
    NextByte(x, 24);
    NextByte(y, 16);
    NextByte(z, 8);
  }

  lemma NextByte(x: bv32, k: nat)
    ensures Num(x, 8 + k) == Num(x, 8) + 256 * Num(Shifted(x, 8), k)
  {
    hide Half, Odd, Num, Shifted;
    NumSplit(x, 8, k);
    assert Pow2(8) == 256;
  }

  // A fingerprint with its highest bit set.
  lemma A3Print()
    ensures Print(CodeHashes(14), At(A, 3)) == 0x33f08
  {
    hide CodeHashes, Print, PrefixWord, Top, Fn3, Num, Shifted;
    WordOfA();
    A3Third();
    PlacesOfKey(A, 3, 14);
    FirstBits();
    FourBytes(0x33f08, 0x33f, 0x3, 0x0, 0x08, 0x3f, 0x03, 0);
  }

  lemma FirstBits()
    ensures Shifted(0x33f08, 8) == 0x33f && Shifted(0x33f, 8) == 0x3 && Shifted(0x3, 8) == 0x0
    ensures Num(0x33f08, 8) == 0x08 && Num(0x33f, 8) == 0x3f && Num(0x3, 8) == 0x03 && Num(0x0, 8) == 0
  {
  }
}
