// The hash of key prefixes: the scalar functions and the vector routine that computes all
// eighteen of them at once. Registers are modelled lane by lane.
module XxHash {
  import opened HashWord

  const SEED1: bv32 := 1192827283
  const SEED2: bv32 := 534897851
  const PRIME1: bv32 := 2654435761
  const PRIME2: bv32 := 2246822519
  const PRIME3: bv32 := 3266489917
  const PRIME4: bv32 := 668265263
  const PRIME5: bv32 := 374761393

  // Operations on 32-bit words; the proofs below use only that both sides apply the same ones.
  function Mul(a: bv32, b: bv32): bv32 { a * b }

  function Xor(a: bv32, b: bv32): bv32 { a ^ b }

  function Or(a: bv32, b: bv32): bv32 { a | b }

  function And(a: bv32, b: bv32): bv32 { a & b }

  function Shl(a: bv32, n: nat): bv32
    requires n < 32
  {
    a << n
  }

  function Shr(a: bv32, n: nat): bv32
    requires n < 32
  {
    a >> n
  }

  function Rotl17(x: bv32): bv32 {
    Or(Shl(x, 17), Shr(x, 15))
  }

  function Avalanche(h: bv32): bv32 {
    var h1 := Mul(Xor(h, Shr(h, 15)), PRIME2);
    var h2 := Mul(Xor(h1, Shr(h1, 13)), PRIME3);
    Xor(h2, Shr(h2, 16))
  }

  // The casts to 32 bits of a key and of its upper half.
  function Low(key: bv64): bv32 {
    (key & 0xffff_ffff) as bv32
  }

  function High(key: bv64): bv32 {
    (key >> 32) as bv32
  }

  // The key with the bytes past the first len cleared: shifted right and back by 8 - len bytes.
  // The index uses prefix lengths from 3 on only.
  function Truncated(key: bv64, len: nat): bv64
    requires 3 <= len <= 8
  {
    match len
    case 3 => Truncated3(key)
    case 4 => Truncated4(key)
    case 5 => Truncated5(key)
    case 6 => Truncated6(key)
    case 7 => Truncated7(key)
    case _ => key
  }

  function Truncated3(key: bv64): bv64 { (key >> 40) << 40 }

  function Truncated4(key: bv64): bv64 { (key >> 32) << 32 }

  function Truncated5(key: bv64): bv64 { (key >> 24) << 24 }

  function Truncated6(key: bv64): bv64 { (key >> 16) << 16 }

  function Truncated7(key: bv64): bv64 { (key >> 8) << 8 }

  // The initial value of a hash.
  function Start(seed: bv32, len: nat): bv32
    requires len <= 8
  {
    PRIME5 + seed + len as bv32
  }

  // XXH32_CoreLogic
  function CoreLogic(key: bv64, len: nat, seed: bv32, multiplier: bv32): bv32
    requires 3 <= len <= 8
  {
    var k := Truncated(key, len);
    var h1 := Mul(Rotl17(Xor(Start(seed, len), Mul(High(k), multiplier))), PRIME4);
    var h2 := if len > 4 then Mul(Rotl17(Xor(h1, Mul(Low(k), multiplier))), PRIME4) else h1;
    Avalanche(h2)
  }

  function Fn1(key: bv64, len: nat): bv32
    requires 3 <= len <= 8
  {
    CoreLogic(key, len, SEED1, PRIME1)
  }

  function Fn2(key: bv64, len: nat): bv32
    requires 3 <= len <= 8
  {
    CoreLogic(key, len, SEED2, PRIME3)
  }

  function Fn3(key: bv64, len: nat): bv32
    requires 3 <= len <= 8
  {
    CoreLogic(key, len, 0, PRIME3)
  }

  // The hashes depend on the prefix only.
  lemma PrefixDecides(a: bv64, b: bv64, len: nat)
    requires 3 <= len <= 8 && Truncated(a, len) == Truncated(b, len)
    ensures Fn1(a, len) == Fn1(b, len) && Fn2(a, len) == Fn2(b, len) && Fn3(a, len) == Fn3(b, len)
  {
    hide Mul, Xor, Or, And, Shl, Shr, Start, Low, High, Rotl17, Avalanche, Truncated;
  }

  // ---------- 128-bit registers ----------

  datatype M128 = M128(l0: bv32, l1: bv32, l2: bv32, l3: bv32)

  // _mm_set_epi32 lists the lanes from high to low.
  function Set(e3: bv32, e2: bv32, e1: bv32, e0: bv32): M128 {
    M128(e0, e1, e2, e3)
  }

  function Set1(x: bv32): M128 {
    M128(x, x, x, x)
  }

  function XorLanes(a: M128, b: M128): M128 {
    M128(Xor(a.l0, b.l0), Xor(a.l1, b.l1), Xor(a.l2, b.l2), Xor(a.l3, b.l3))
  }

  function AndLanes(a: M128, b: M128): M128 {
    M128(And(a.l0, b.l0), And(a.l1, b.l1), And(a.l2, b.l2), And(a.l3, b.l3))
  }

  function OrLanes(a: M128, b: M128): M128 {
    M128(Or(a.l0, b.l0), Or(a.l1, b.l1), Or(a.l2, b.l2), Or(a.l3, b.l3))
  }

  function MulLanes(a: M128, b: M128): M128 {
    M128(Mul(a.l0, b.l0), Mul(a.l1, b.l1), Mul(a.l2, b.l2), Mul(a.l3, b.l3))
  }

  function ShlLanes(a: M128, n: nat): M128
    requires n < 32
  {
    M128(Shl(a.l0, n), Shl(a.l1, n), Shl(a.l2, n), Shl(a.l3, n))
  }

  function ShrLanes(a: M128, n: nat): M128
    requires n < 32
  {
    M128(Shr(a.l0, n), Shr(a.l1, n), Shr(a.l2, n), Shr(a.l3, n))
  }

  method RotlAndMult(data: M128) returns (r: M128)
    ensures r == M128(Mul(Rotl17(data.l0), PRIME4), Mul(Rotl17(data.l1), PRIME4), Mul(Rotl17(data.l2), PRIME4),
                      Mul(Rotl17(data.l3), PRIME4))
  {
    hide Mul, Xor, Or, Shl, Shr;
    var tmp := ShrLanes(data, 15);
    r := ShlLanes(data, 17);
    r := OrLanes(r, tmp);
    r := MulLanes(r, Set1(PRIME4));
  }

  method AvalancheAll(data: M128) returns (r: M128)
    ensures r == M128(Avalanche(data.l0), Avalanche(data.l1), Avalanche(data.l2), Avalanche(data.l3))
  {
    hide Mul, Xor, Or, Shl, Shr;
    var tmp := ShrLanes(data, 15);
    r := XorLanes(data, tmp);
    r := MulLanes(r, Set1(PRIME2));
    tmp := ShrLanes(r, 13);
    r := XorLanes(r, tmp);
    r := MulLanes(r, Set1(PRIME3));
    tmp := ShrLanes(r, 16);
    r := XorLanes(r, tmp);
  }

  // A hash of five bytes or more from x, the product of the upper half, and the rest low of the
  // lower half; a hash of three or four bytes from x alone.
  function Long(x: bv32, low: bv32, seed: bv32, len: nat, multiplier: bv32): bv32
    requires len <= 8
  {
    Avalanche(Mul(Rotl17(Xor(Mul(Rotl17(Xor(x, Start(seed, len))), PRIME4), Mul(low, multiplier))), PRIME4))
  }

  function Short(x: bv32, seed: bv32, len: nat): bv32
    requires len <= 8
  {
    Avalanche(Mul(Rotl17(Xor(x, Start(seed, len))), PRIME4))
  }

  // One register for lengths 5 to 8; the source interleaves three of these.
  method LongLanes(x: bv32, low: bv32, seed: bv32, multiplier: bv32) returns (out: M128)
    ensures out == M128(Long(x, And(low, 0xff000000), seed, 5, multiplier),
                        Long(x, And(low, 0xffff0000), seed, 6, multiplier),
                        Long(x, And(low, 0xffffff00), seed, 7, multiplier), Long(x, And(low, 0xffffffff), seed, 8,
                             multiplier))
  {
    hide Mul, Xor, Or, And, Shl, Shr, Rotl17, Avalanche, Start;
    out := XorLanes(Set1(x), Set(Start(seed, 8), Start(seed, 7), Start(seed, 6), Start(seed, 5)));
    out := RotlAndMult(out);
    var v := AndLanes(Set1(low), Set(0xffffffff, 0xffffff00, 0xffff0000, 0xff000000));
    out := RotlAndMult(XorLanes(out, MulLanes(v, Set1(multiplier))));
    out := AvalancheAll(out);
  }

  // XXHashArray. Lane i of out1, out2, out3 is for length i + 5; out4 holds, from high to low,
  // the first hash for lengths 4 and 3 and the second for 4 and 3; h34 and h33 are the third.
  method XXHashArray(key: bv64) returns (out1: M128, out2: M128, out3: M128, out4: M128, h34: bv32, h33: bv32)
    ensures out1 == M128(Fn1(key, 5), Fn1(key, 6), Fn1(key, 7), Fn1(key, 8))
    ensures out2 == M128(Fn2(key, 5), Fn2(key, 6), Fn2(key, 7), Fn2(key, 8))
    ensures out3 == M128(Fn3(key, 5), Fn3(key, 6), Fn3(key, 7), Fn3(key, 8))
    ensures out4 == M128(Fn2(key, 3), Fn2(key, 4), Fn1(key, 3), Fn1(key, 4))
    ensures h34 == Fn3(key, 4) && h33 == Fn3(key, 3)
  {
    hide Mul, Xor, Or, And, Shl, Shr, Rotl17, Avalanche, Low, High, Start, CoreLogic, Long;
    Core(key, SEED1, PRIME1);
    Core(key, SEED2, PRIME3);
    Core(key, 0, PRIME3);
    Starts();
    var low, high := Low(key), High(key);
    var x1, x2 := Mul(high, PRIME1), Mul(high, PRIME3);
    out1 := LongLanes(x1, low, SEED1, PRIME1);
    out2 := LongLanes(x2, low, SEED2, PRIME3);
    out3 := LongLanes(x2, low, 0, PRIME3);

    var high3byte := And(high, 0xffffff00);
    var high3byteP1, high3byteP3 := Mul(high3byte, PRIME1), Mul(high3byte, PRIME3);
    out4 := XorLanes(Set(x1, high3byteP1, x2, high3byteP3),
                     Set(Start(SEED1, 4), Start(SEED1, 3), Start(SEED2, 4), Start(SEED2, 3)));
    out4 := RotlAndMult(out4);
    out4 := AvalancheAll(out4);

    h34 := Avalanche(Mul(Rotl17(Xor(PRIME5 + 4, x2)), PRIME4));
    h33 := Avalanche(Mul(Rotl17(Xor(PRIME5 + 3, high3byteP3)), PRIME4));
    XorCommutes(x2, high3byteP3);
  }

  lemma Core(key: bv64, seed: bv32, multiplier: bv32)
    ensures var x, l := Mul(High(key), multiplier), Low(key);
            && CoreLogic(key, 8, seed, multiplier) == Long(x, And(l, 0xffffffff), seed, 8, multiplier)
            && CoreLogic(key, 7, seed, multiplier) == Long(x, And(l, 0xffffff00), seed, 7, multiplier)
            && CoreLogic(key, 6, seed, multiplier) == Long(x, And(l, 0xffff0000), seed, 6, multiplier)
            && CoreLogic(key, 5, seed, multiplier) == Long(x, And(l, 0xff000000), seed, 5, multiplier)
            && CoreLogic(key, 4, seed, multiplier) == Short(x, seed, 4)
            && CoreLogic(key, 3, seed, multiplier) == Short(Mul(And(High(key), 0xffffff00), multiplier), seed, 3)
  {
    hide Mul, Xor, Or, And, Shl, Shr, Rotl17, Avalanche, Low, High, Truncated, Start;
    Halves(key);
    XorCommutes(Mul(High(key), multiplier), Mul(And(High(key), 0xffffff00), multiplier));
  }

  lemma XorCommutes(x: bv32, y: bv32)
    ensures forall a :: Xor(x, a) == Xor(a, x) && Xor(y, a) == Xor(a, y)
  {
  }

  lemma Starts()
    ensures Start(0, 4) == PRIME5 + 4 && Start(0, 3) == PRIME5 + 3
  {
  }

  // What clearing the trailing bytes leaves of the two halves of a key.
  lemma Halves(key: bv64)
    ensures High(Truncated(key, 3)) == And(High(key), 0xffffff00) && High(Truncated(key, 4)) == High(key)
    ensures High(Truncated(key, 5)) == High(key) && Low(Truncated(key, 5)) == And(Low(key), 0xff000000)
    ensures High(Truncated(key, 6)) == High(key) && Low(Truncated(key, 6)) == And(Low(key), 0xffff0000)
    ensures High(Truncated(key, 7)) == High(key) && Low(Truncated(key, 7)) == And(Low(key), 0xffffff00)
    ensures High(Truncated(key, 8)) == High(key) && Low(Truncated(key, 8)) == And(Low(key), 0xffffffff)
  {
    hide High, Low, And, Truncated3, Truncated4, Truncated5, Truncated6, Truncated7;
    Half3(key);
    Half4(key);
    Half5(key);
    Half6(key);
    Half7(key);
    Half8(key);
  }

  lemma Half3(key: bv64)
    ensures High(Truncated3(key)) == And(High(key), 0xffffff00)
  {
    Shift3(key);
    Mask3(key >> 32);
  }

  lemma Shift3(key: bv64)
    ensures ((key >> 40) << 40) >> 32 == (key >> 32) & 0xffffff00
  {
  }

  lemma Mask3(k: bv64)
    requires k < 0x1_0000_0000
    ensures (k & 0xffffff00) as bv32 == (k as bv32) & 0xffffff00
  {
  }

  lemma Half4(key: bv64)
    ensures High(Truncated4(key)) == High(key)
  {
  }

  lemma Half5(key: bv64)
    ensures High(Truncated5(key)) == High(key) && Low(Truncated5(key)) == And(Low(key), 0xff000000)
  {
  }

  lemma Half6(key: bv64)
    ensures High(Truncated6(key)) == High(key) && Low(Truncated6(key)) == And(Low(key), 0xffff0000)
  {
  }

  lemma Half7(key: bv64)
    ensures High(Truncated7(key)) == High(key) && Low(Truncated7(key)) == And(Low(key), 0xffffff00)
  {
  }

  lemma Half8(key: bv64)
    ensures Low(key) == And(Low(key), 0xffffffff)
  {
  }

  // ---------- the layout QueryLCP builds ----------

  // The candidate positions and the expected hash words of every prefix length, as arrays
  // indexed by length - 1; the mask is the table size minus one.
  method Positions(key: bv64, htMask: bv32) returns (pos1: seq<bv32>, pos2: seq<bv32>, expected: seq<bv32>)
    ensures |pos1| == |pos2| == |expected| == 8
    ensures pos1[2..] == [And(Fn1(key, 3), htMask), And(Fn1(key, 4), htMask), And(Fn1(key, 5), htMask),
                          And(Fn1(key, 6), htMask), And(Fn1(key, 7), htMask), And(Fn1(key, 8), htMask)]
    ensures pos2[2..] == [And(Fn2(key, 3), htMask), And(Fn2(key, 4), htMask), And(Fn2(key, 5), htMask),
                          And(Fn2(key, 6), htMask), And(Fn2(key, 7), htMask), And(Fn2(key, 8), htMask)]
    ensures expected[2..] == [Expected(key, 3), Expected(key, 4), Expected(key, 5), Expected(key, 6), Expected(key, 7),
                              Expected(key, 8)]
  {
    hide Fn1, Fn2, Fn3, ExpectedHash, Fingerprint, And, Or;
    var h1, h2, h3, h4, h34, h33 := XXHashArray(key);
    h1, h2, h4 := AndLanes(h1, Set1(htMask)), AndLanes(h2, Set1(htMask)), AndLanes(h4, Set1(htMask));
    pos1 := [h4.l0, h4.l1, h4.l2, h4.l3, h1.l0, h1.l1, h1.l2, h1.l3];
    pos2 := [0, 0, pos1[0], pos1[1], h2.l0, h2.l1, h2.l2, h2.l3];
    var expect1 := AndLanes(h3, Set1(0x3ffff));
    expect1 := OrLanes(expect1,
                       Set(0x80000000 | (7 << 27), 0x80000000 | (6 << 27), 0x80000000 | (5 << 27),
                           0x80000000 | (4 << 27)));
    var e33, e34 := Or(And(h33, 0x3ffff), 0x80000000 | (2 << 27)), Or(And(h34, 0x3ffff), 0x80000000 | (3 << 27));
    expected := [0, 0, e33, e34, expect1.l0, expect1.l1, expect1.l2, expect1.l3];
    SameOr(h33, 3, 0x80000000 | (2 << 27));
    SameOr(h34, 4, 0x80000000 | (3 << 27));
    SameOr(h3.l0, 5, 0x80000000 | (4 << 27));
    SameOr(h3.l1, 6, 0x80000000 | (5 << 27));
    SameOr(h3.l2, 7, 0x80000000 | (6 << 27));
    SameOr(h3.l3, 8, 0x80000000 | (7 << 27));
  }

  // What Insert and Lookup expect in the hash word of the node of this prefix length.
  function Expected(key: bv64, len: nat): bv32
    requires 3 <= len <= 8
  {
    ExpectedHash(Length(len), Fingerprint(Fn3(key, len)))
  }

  function Fingerprint(h: bv32): (r: bv32)
    ensures r < 0x40000
  {
    h & 0x3ffff
  }

  function Length(len: nat): (r: bv32)
    requires 3 <= len <= 8
    ensures 1 <= r <= 8
  {
    match len
    case 3 => 3
    case 4 => 4
    case 5 => 5
    case 6 => 6
    case 7 => 7
    case _ => 8
  }

  lemma SameOr(h: bv32, ilen: bv32, mask: bv32)
    requires 1 <= ilen <= 8 && mask == 0x80000000 | ((ilen - 1) << 27)
    ensures Or(And(h, 0x3ffff), mask) == ExpectedHash(ilen, Fingerprint(h))
  {
  }
}
