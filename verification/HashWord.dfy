// The packed 32-bit `hash` word of a slot: occupancy flag (2 bits), index length, full key
// length, child map kind (3 bits each), child count or stolen bitmap bits (3 bits), fingerprint
// (18 bits).
module HashWord {

  function Flag(h: bv32): bv32 { h >> 30 }

  function IndexKeyLen(h: bv32): bv32 { 1 + ((h >> 27) & 7) }

  function FullKeyLen(h: bv32): bv32 { 1 + ((h >> 24) & 7) }

  // 0 an internal list, 4 a pointer to a bitmap, else 4 plus the offset of the bitmap slot
  function MapKind(h: bv32): bv32 { (h >> 21) & 7 }

  function ChildNum(h: bv32): bv32 { 1 + ((h >> 18) & 7) }

  function Hash18(h: bv32): bv32 { h & 0x3ffff }

  // Bits 94 and 95 of a bitmap whose slot's own bits there hold the occupancy flag.
  predicate StolenBit(h: bv32, child: bv32)
    requires child == 94 || child == 95
  {
    if child == 94 then h & 0x40000 != 0 else h & 0x80000 != 0
  }

  // A word is its six fields put back together.
  lemma Repack(h: bv32)
    ensures h == (Flag(h) << 30) | ((IndexKeyLen(h) - 1) << 27) | ((FullKeyLen(h) - 1) << 24) | (MapKind(h) << 21)
                 | ((ChildNum(h) - 1) << 18) | Hash18(h)
  {
  }

  // The six fields are all there is to a word.
  lemma FieldsDetermineWord(g: bv32, h: bv32)
    requires Flag(g) == Flag(h) && IndexKeyLen(g) == IndexKeyLen(h) && FullKeyLen(g) == FullKeyLen(h)
    requires MapKind(g) == MapKind(h) && ChildNum(g) == ChildNum(h) && Hash18(g) == Hash18(h)
    ensures g == h
  {
    hide *;
    Repack(g);
    Repack(h);
  }

  // ---------- writers ----------

  function Init(ilen: bv32, dlen: bv32, hash18: bv32): (h: bv32)
    requires 1 <= ilen <= 8 && 1 <= dlen <= 8 && hash18 < 0x40000
    ensures Flag(h) == 2 && IndexKeyLen(h) == ilen && FullKeyLen(h) == dlen
    ensures MapKind(h) == 0 && ChildNum(h) == 1 && Hash18(h) == hash18
  {
    0x80000000 | ((ilen - 1) << 27) | ((dlen - 1) << 24) | hash18
  }

  function AlterIndexKeyLen(h: bv32, len: bv32): (r: bv32)
    requires 1 <= len <= 8
    ensures IndexKeyLen(r) == len
    ensures Flag(r) == Flag(h) && FullKeyLen(r) == FullKeyLen(h) && MapKind(r) == MapKind(h)
    ensures ChildNum(r) == ChildNum(h) && Hash18(r) == Hash18(h)
  {
    (h & 0xc7ffffff) | ((len - 1) << 27)
  }

  function AlterHash18bit(h: bv32, hash18: bv32): (r: bv32)
    requires hash18 < 0x40000
    ensures Hash18(r) == hash18
    ensures Flag(r) == Flag(h) && IndexKeyLen(r) == IndexKeyLen(h) && FullKeyLen(r) == FullKeyLen(h)
    ensures MapKind(r) == MapKind(h) && ChildNum(r) == ChildNum(h)
  {
    (h & 0xfffc0000) | hash18
  }

  function SetChildNum(h: bv32, k: bv32): (r: bv32)
    requires 1 <= k <= 8
    ensures ChildNum(r) == k
    ensures Flag(r) == Flag(h) && IndexKeyLen(r) == IndexKeyLen(h) && FullKeyLen(r) == FullKeyLen(h)
    ensures MapKind(r) == MapKind(h) && Hash18(r) == Hash18(h)
  {
    (h & 0xffe3ffff) | ((k - 1) << 18)
  }

  // ExtendToBitMap: the child count makes room for the stolen bits, both clear.
  function ExtendToBitMap(h: bv32, kind: bv32): (r: bv32)
    requires 1 <= kind <= 7
    ensures MapKind(r) == kind && ChildNum(r) == 1 && !StolenBit(r, 94) && !StolenBit(r, 95)
    ensures Flag(r) == Flag(h) && IndexKeyLen(r) == IndexKeyLen(h) && FullKeyLen(r) == FullKeyLen(h)
            && Hash18(r) == Hash18(h)
  {
    (h & 0xff03ffff) | (kind << 21)
  }

  // MoveNode: the bitmap is elsewhere, the stolen bits stay.
  function RebaseBitMap(h: bv32, kind: bv32): (r: bv32)
    requires kind <= 7
    ensures MapKind(r) == kind && ChildNum(r) == ChildNum(h)
    ensures StolenBit(r, 94) == StolenBit(h, 94) && StolenBit(r, 95) == StolenBit(h, 95)
    ensures Flag(r) == Flag(h) && IndexKeyLen(r) == IndexKeyLen(h) && FullKeyLen(r) == FullKeyLen(h)
            && Hash18(r) == Hash18(h)
  {
    (h & 0xff1fffff) | (kind << 21)
  }

  // RelocateBitMap writes its mask with nine hexadecimal digits; on the 32-bit word it acts as
  // the mask of MoveNode all the same.
  function RelocateBitMap(h: bv32, kind: bv32): bv32
    requires kind <= 7
  {
    (((h as bv64) & 0xfff1fffff) & 0xffffffff) as bv32 | (kind << 21)
  }

  lemma RelocateMaskIsRight(h: bv32, kind: bv32)
    requires kind <= 7
    ensures RelocateBitMap(h, kind) == RebaseBitMap(h, kind)
  {
    assert ((((h as bv64) & 0xfff1fffff) & 0xffffffff) as bv32) == h & 0xff1fffff;
  }

  // BitMapSet for the two stolen bits.
  function SetStolenBit(h: bv32, child: bv32): (r: bv32)
    requires child == 94 || child == 95
    ensures StolenBit(r, 94) == (child == 94 || StolenBit(h, 94))
            && StolenBit(r, 95) == (child == 95 || StolenBit(h, 95))
    ensures Flag(r) == Flag(h) && IndexKeyLen(r) == IndexKeyLen(h) && FullKeyLen(r) == FullKeyLen(h)
    ensures MapKind(r) == MapKind(h) && Hash18(r) == Hash18(h)
  {
    h | (if child == 94 then 1 << 18 else 1 << 19)
  }

  // ---------- comparisons ----------

  // `hash18bit | (ilen - 1) << 27 | 0x80000000`, what a lookup expects
  function ExpectedHash(ilen: bv32, hash18: bv32): bv32
    requires 1 <= ilen <= 8 && hash18 < 0x40000
  {
    hash18 | ((ilen - 1) << 27) | 0x80000000
  }

  lemma MaskKeepsFields(h: bv32)
    ensures Flag(h & 0xf803ffff) == Flag(h) && IndexKeyLen(h & 0xf803ffff) == IndexKeyLen(h)
            && Hash18(h & 0xf803ffff) == Hash18(h)
    ensures h & 0xf803ffff == (Flag(h) << 30) | ((IndexKeyLen(h) - 1) << 27) | Hash18(h)
  {
  }

  lemma ExpectedFields(ilen: bv32, hash18: bv32)
    requires 1 <= ilen <= 8 && hash18 < 0x40000
    ensures var e := ExpectedHash(ilen, hash18);
            Flag(e) == 2 && IndexKeyLen(e) == ilen && Hash18(e) == hash18
            && e == (2 << 30) | ((ilen - 1) << 27) | hash18
  {
  }

  // The masked comparison of IsEqual is exactly: a node, of this index length, with this fingerprint.
  lemma MaskedEqualIs(h: bv32, ilen: bv32, hash18: bv32)
    requires 1 <= ilen <= 8 && hash18 < 0x40000
    ensures h & 0xf803ffff == ExpectedHash(ilen, hash18)
            <==> Flag(h) == 2 && IndexKeyLen(h) == ilen && Hash18(h) == hash18
  {
    hide *;
    MaskKeepsFields(h);
    ExpectedFields(ilen, hash18);
  }

  // The masked comparison of IsEqualNoHash is exactly: a node of this index length.
  lemma MaskedLengthIs(h: bv32, len: bv32)
    requires 1 <= len <= 8
    ensures h & 0xf8000000 == 0x80000000 | ((len - 1) << 27) <==> Flag(h) == 2 && IndexKeyLen(h) == len
  {
  }

  // An unused or bitmap slot never compares equal, whatever its other bits.
  lemma OnlyNodesMatch(h: bv32, ilen: bv32, hash18: bv32)
    requires 1 <= ilen <= 8 && hash18 < 0x40000 && Flag(h) != 2
    ensures h & 0xf803ffff != ExpectedHash(ilen, hash18)
  {
    MaskedEqualIs(h, ilen, hash18);
  }
}
