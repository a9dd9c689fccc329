// The three representations of a node's child set: a sorted list of at most eight bytes
// packed in one word, a 256-bit bitmap spread over the owner and a neighbouring slot, and
// an external 256-bit bitmap.
module ChildMap {
  import opened Bits
  import opened Keys

  // Near: bits 0..63 live in the owner's childMap word, bits 64..255 in the 24 bytes of the
  // slot `offset` away. Bits 94 and 95 of the set coincide with the occupancy flag of that
  // slot, so they are kept in the owner's hash word instead (b94, b95).
  type Words = ws: seq<Word> | |ws| == 4 witness [0, 0, 0, 0]

  datatype Kids =
    | Inline(packed: Word, num: nat)
    | Near(offset: int, low: Word, b94: bool, b95: bool)
    | External(words: Words)

  // ---------- words and bitmaps ----------

  function SetBit(w: Word, i: nat): Word
    requires i < 64
  {
    Pow2Of64();
    WithBitBound(w, i, true, 64);
    WithBit(w, i, true)
  }

  predicate BitmapHas(words: seq<Word>, c: nat)
    requires |words| == 4 && c < 256
  {
    Bit(words[c / 64], c % 64)
  }

  function BitmapSet(words: seq<Word>): set<nat>
    requires |words| == 4
  {
    set c | 0 <= c < 256 && BitmapHas(words, c)
  }

  // `ptr[c / 64] |= 1 << (c % 64)`
  function BitmapAdd(words: seq<Word>, c: nat): (r: seq<Word>)
    requires |words| == 4 && c < 256
    ensures |r| == 4
  {
    words[c / 64 := SetBit(words[c / 64], c % 64)]
  }

  lemma BitmapAddHas(words: seq<Word>, c: nat, d: nat)
    requires |words| == 4 && c < 256 && d < 256
    ensures BitmapHas(BitmapAdd(words, c), d) <==> BitmapHas(words, d) || c == d
  {
    BitWithBit(words[c / 64], c % 64, true, d % 64);
  }

  // r is the least member of s that is at least c, or -1 when there is none.
  ghost predicate IsLowerBound(s: set<nat>, c: nat, r: int) {
    if r == -1 then forall d :: d in s ==> d < c
    else r in s && c <= r && forall d :: d in s && c <= d ==> r <= d
  }

  // Scan of whole words from word i on, shared by every bitmap search.
  method FirstBitFromWord(words: seq<Word>, i: nat) returns (r: int)
    requires |words| == 4 && i <= 4
    ensures IsLowerBound(BitmapSet(words), 64 * i, r)
  {
    var idx := i;
    while idx < 4
      invariant i <= idx <= 4
      invariant forall c :: 64 * i <= c < 64 * idx ==> !BitmapHas(words, c)
    {
      ShrCtz(words[idx], 0);
      if words[idx] != 0 {
        r := Ctz(words[idx]) + idx * 64;
        assert r / 64 == idx && r % 64 == Ctz(words[idx]);
        assert BitmapHas(words, r);
        forall d | 64 * i <= d < r ensures !BitmapHas(words, d) {
          if 64 * idx <= d { assert d / 64 == idx; }
        }
        return;
      }
      forall c | 64 * idx <= c < 64 * (idx + 1) ensures !BitmapHas(words, c) {
        assert c / 64 == idx;
        assert !Bit(words[idx], c % 64);
      }
      idx := idx + 1;
    }
    r := -1;
  }

  method Bitmap256LowerBound(ptr: seq<Word>, child: nat) returns (r: int)
    requires |ptr| == 4 && child < 256
    ensures IsLowerBound(BitmapSet(ptr), child, r)
  {
    var idx := child / 64;
    var x := Shr(ptr[idx], child % 64);
    ShrCtz(ptr[idx], child % 64);
    if x != 0 {
      r := Ctz(x) + child;
      LowestInWord(ptr, child, r);
      return;
    }
    r := FirstBitFromWord(ptr, idx + 1);
    ResumeAtNextWord(ptr, child, r);
  }

  lemma LowestInWord(words: seq<Word>, c: nat, r: nat)
    requires |words| == 4 && c < 256
    requires c <= r && IsLowestFrom(words[c / 64], c % 64, r - c + c % 64)
    ensures IsLowerBound(BitmapSet(words), c, r)
  {
    var base := 64 * (c / 64);
    assert r / 64 == c / 64 && r % 64 == r - c + c % 64;
    assert BitmapHas(words, r);
    forall d | d in BitmapSet(words) && c <= d ensures r <= d {
      if d < base + 64 {
        assert d / 64 == c / 64 && Bit(words[c / 64], d % 64);
      }
    }
  }

  lemma ResumeAtNextWord(words: seq<Word>, c: nat, r: int)
    requires |words| == 4 && c < 256
    requires forall i :: c % 64 <= i < 64 ==> !Bit(words[c / 64], i)
    requires IsLowerBound(BitmapSet(words), 64 * (c / 64 + 1), r)
    ensures IsLowerBound(BitmapSet(words), c, r)
  {
    forall d | c <= d < 64 * (c / 64 + 1) ensures d !in BitmapSet(words) {
      assert d / 64 == c / 64;
    }
  }

  // ---------- the bitmap in a neighbouring slot ----------

  // Word 64..127 of the set as the code rebuilds it:
  // `(ptr[0] & 0xffffffff3fffffff) | ((hash >> 18) & 3) << 30`.
  function Patched(w0: Word, b94: bool, b95: bool): Word {
    Pow2Of64();
    WithBitBound(w0, 30, b94, 64);
    WithBitBound(WithBit(w0, 30, b94), 31, b95, 64);
    WithBit(WithBit(w0, 30, b94), 31, b95)
  }

  lemma PatchedBit(w0: Word, b94: bool, b95: bool, i: nat)
    ensures Bit(Patched(w0, b94, b95), i) == (if i == 30 then b94 else if i == 31 then b95 else Bit(w0, i))
  {
    BitWithBit(w0, 30, b94, i);
    BitWithBit(WithBit(w0, 30, b94), 31, b95, i);
  }

  // The four words of the set a Near node describes, given the 24 bytes of its bitmap slot.
  function NearWords(k: Kids, w0: Word, w1: Word, w2: Word): (r: seq<Word>)
    requires k.Near?
    ensures |r| == 4
  {
    [k.low, Patched(w0, k.b94, k.b95), w1, w2]
  }

  // Where BitMapSet puts child c of a Near node: the owner's word, one of its two stolen bits,
  // or a word of the bitmap slot.
  function NearAddKids(k: Kids, c: nat): (r: Kids)
    requires k.Near? && c < 256
    ensures r.Near? && r.offset == k.offset
  {
    if c < 64 then k.(low := SetBit(k.low, c))
    else if c == 94 then k.(b94 := true)
    else if c == 95 then k.(b95 := true)
    else k
  }

  function NearAddWord(w: Word, i: nat, c: nat): Word
    requires c < 256
  {
    if c / 64 == i + 1 && c != 94 && c != 95 then SetBit(w, c % 64) else w
  }

  // BitMapSet adds exactly c, and never touches bits 30 and 31 of the bitmap slot's first word,
  // where the occupancy flag is.
  lemma NearAdd(k: Kids, w0: Word, w1: Word, w2: Word, c: nat)
    requires k.Near? && c < 256
    ensures BitmapSet(NearWords(NearAddKids(k, c), NearAddWord(w0, 0, c), NearAddWord(w1, 1, c), NearAddWord(w2, 2, c)))
         == BitmapSet(NearWords(k, w0, w1, w2)) + {c}
    ensures Bit(NearAddWord(w0, 0, c), 30) == Bit(w0, 30) && Bit(NearAddWord(w0, 0, c), 31) == Bit(w0, 31)
  {
    var k', v0, v1, v2 := NearAddKids(k, c), NearAddWord(w0, 0, c), NearAddWord(w1, 1, c), NearAddWord(w2, 2, c);
    forall d | 0 <= d < 256
      ensures BitmapHas(NearWords(k', v0, v1, v2), d) <==> BitmapHas(NearWords(k, w0, w1, w2), d) || d == c
    {
      NearAddHas(k, w0, w1, w2, c, d);
    }
    BitWithBit(w0, c % 64, true, 30);
    BitWithBit(w0, c % 64, true, 31);
  }

  lemma NearAddHas(k: Kids, w0: Word, w1: Word, w2: Word, c: nat, d: nat)
    requires k.Near? && c < 256 && d < 256
    ensures BitmapHas(NearWords(NearAddKids(k, c), NearAddWord(w0, 0, c), NearAddWord(w1, 1, c), NearAddWord(w2, 2, c)),
                      d)
            <==> BitmapHas(NearWords(k, w0, w1, w2), d) || d == c
  {
    hide Bit, WithBit, Patched;
    var k', v0 := NearAddKids(k, c), NearAddWord(w0, 0, c);
    if d / 64 == 0 {
      BitWithBit(k.low, c % 64, true, d);
    } else if d / 64 == 1 {
      BitWithBit(w0, c % 64, true, d - 64);
      PatchedBit(w0, k.b94, k.b95, d - 64);
      PatchedBit(v0, k'.b94, k'.b95, d - 64);
    } else if d / 64 == 2 {
      BitWithBit(w1, c % 64, true, d - 128);
    } else {
      BitWithBit(w2, c % 64, true, d - 192);
    }
  }

  // The members of a child set; w0, w1, w2 matter for the Near form only.
  function Members(k: Kids, w0: Word, w1: Word, w2: Word): set<nat>
  {
    match k
    case Inline(packed, num) => set c | c in Unpack(packed, num)
    case Near(_, _, _, _) => BitmapSet(NearWords(k, w0, w1, w2))
    case External(words) => BitmapSet(words)
  }

  // ---------- the packed sorted list ----------

  function Unpack(packed: nat, num: nat): (s: seq<nat>)
    ensures |s| == num && forall i :: 0 <= i < num ==> s[i] < 256
  {
    if num == 0 then [] else [packed % 256] + Unpack(packed / 256, num - 1)
  }

  ghost predicate Sorted(s: seq<nat>) {
    forall i, j :: 0 <= i < j < |s| ==> s[i] < s[j]
  }

  // Well-formed inline list: 1..8 bytes, strictly increasing, nothing above the last one.
  ghost predicate InlineOk(packed: nat, num: nat) {
    1 <= num <= 8 && packed < Pow256(num) && Sorted(Unpack(packed, num))
  }

  // Bit i of the lane mask: lane i is at most t (`max(t, z) == t`).
  function LaneMask(s: seq<nat>, t: nat): nat {
    if s == [] then 0 else (if s[0] <= t then 1 else 0) + 2 * LaneMask(s[1..], t)
  }

  // `ffs(mask + 1) - 1`: the first lane greater than t.
  function FirstGreater(s: seq<nat>, t: nat): nat {
    Ctz(LaneMask(s, t) + 1)
  }

  lemma {:induction false} FirstGreaterSpec(s: seq<nat>, t: nat)
    ensures FirstGreater(s, t) <= |s|
    ensures forall i :: 0 <= i < FirstGreater(s, t) ==> s[i] <= t
    ensures FirstGreater(s, t) < |s| ==> s[FirstGreater(s, t)] > t
  {
    if s != [] {
      FirstGreaterSpec(s[1..], t);
      var m := LaneMask(s, t);
      if s[0] <= t {
        assert (m + 1) / 2 == LaneMask(s[1..], t) + 1;
        assert FirstGreater(s, t) == 1 + FirstGreater(s[1..], t);
      } else {
        assert FirstGreater(s, t) == 0;
      }
    }
  }

  // `x << (8 * p)`, before truncation to 64 bits
  function ShlBytes(x: nat, p: nat): nat {
    if p == 0 then x else 256 * ShlBytes(x, p - 1)
  }

  // `x >> (8 * p)`
  function ShrBytes(x: nat, p: nat): nat {
    if p == 0 then x else ShrBytes(x / 256, p - 1)
  }

  // `x & ((1 << (8 * p)) - 1)`
  function LowBytes(x: nat, p: nat): nat {
    if p == 0 then 0 else x % 256 + 256 * LowBytes(x / 256, p - 1)
  }

  // The packed word after inserting byte b at lane p: `smaller | b << (8 * p) | larger`,
  // three numbers without common bits. A shift by 64 is avoided when p is 7.
  function InsertLane(packed: nat, p: nat, b: nat): nat {
    var smaller := LowBytes(packed, p);
    var larger := if p == 7 then 0 else ShlBytes(ShrBytes(packed, p), p + 1);
    smaller + ShlBytes(b, p) + larger
  }

  // The same insertion, one lane at a time.
  function InsertLaneStep(packed: nat, p: nat, b: nat): nat {
    if p == 0 then b + 256 * packed else packed % 256 + 256 * InsertLaneStep(packed / 256, p - 1, b)
  }

  lemma {:induction false} NothingAbove(x: nat, p: nat)
    requires x < Pow256(p)
    ensures ShrBytes(x, p) == 0
  {
    if p != 0 {
      assert x / 256 < Pow256(p - 1);
      NothingAbove(x / 256, p - 1);
    }
  }

  lemma {:induction false} ShlOfZero(p: nat)
    ensures ShlBytes(0, p) == 0
  {
    if p != 0 {
      ShlOfZero(p - 1);
    }
  }

  lemma InsertLaneIsStep(packed: nat, p: nat, b: nat)
    requires p <= 7 && (p == 7 ==> packed < Pow256(7))
    ensures InsertLane(packed, p, b) == InsertLaneStep(packed, p, b)
  {
    ShiftsAreStep(packed, p, b);
    if p == 7 {
      NothingAbove(packed, 7);
      ShlOfZero(8);
    }
  }

  lemma {:induction false} ShiftsAreStep(packed: nat, p: nat, b: nat)
    ensures LowBytes(packed, p) + ShlBytes(b, p) + ShlBytes(ShrBytes(packed, p), p + 1)
         == InsertLaneStep(packed, p, b)
  {
    if p == 0 {
      assert ShlBytes(packed, 1) == 256 * ShlBytes(packed, 0);
    } else {
      ShiftsAreStep(packed / 256, p - 1, b);
    }
  }

  // The shifts and masks insert b at place p of the list.
  lemma InsertLaneUnpack(packed: nat, num: nat, p: nat, b: nat)
    requires p <= num && p <= 7 && b < 256 && (p == 7 ==> packed < Pow256(7))
    ensures Unpack(InsertLane(packed, p, b), num + 1) == Unpack(packed, num)[..p] + [b] + Unpack(packed, num)[p..]
  {
    InsertLaneIsStep(packed, p, b);
    StepUnpack(packed, num, p, b);
  }

  lemma {:induction false} StepUnpack(packed: nat, num: nat, p: nat, b: nat)
    requires p <= num && b < 256
    ensures Unpack(InsertLaneStep(packed, p, b), num + 1)
         == Unpack(packed, num)[..p] + [b] + Unpack(packed, num)[p..]
  {
    if p == 0 {
      assert (b + 256 * packed) / 256 == packed;
    } else {
      var y := InsertLaneStep(packed / 256, p - 1, b);
      StepUnpack(packed / 256, num - 1, p - 1, b);
      assert (packed % 256 + 256 * y) / 256 == y;
      var s := Unpack(packed / 256, num - 1);
      assert Unpack(packed, num)[..p] == [packed % 256] + s[..p - 1];
      assert Unpack(packed, num)[p..] == s[p - 1..];
    }
  }

  lemma {:induction false} InsertLaneBound(packed: nat, num: nat, p: nat, b: nat)
    requires packed < Pow256(num) && p <= num && b < 256
    ensures InsertLaneStep(packed, p, b) < Pow256(num + 1)
  {
    if p != 0 {
      assert packed / 256 < Pow256(num - 1);
      InsertLaneBound(packed / 256, num - 1, p - 1, b);
    }
  }

  lemma {:induction false} Pow256Monotone(m: nat, n: nat)
    requires m <= n
    ensures Pow256(m) <= Pow256(n)
  {
    if m < n {
      Pow256Monotone(m, n - 1);
    }
  }

  // Fewer than eight children: the sorted shift-insert of AddChild.
  function InlineAdd(k: Kids, child: nat): (r: Kids)
    requires k.Inline? && k.num < 8 && InlineOk(k.packed, k.num) && child < 256
    ensures r.Inline?
  {
    var p := FirstGreater(Unpack(k.packed, k.num), child);
    assert InsertLane(k.packed, p, child) < 0x1_0000_0000_0000_0000 by {
      InlineAddBound(k.packed, k.num, child);
    }
    Inline(InsertLane(k.packed, p, child), k.num + 1)
  }

  lemma InlineAddBound(packed: nat, num: nat, child: nat)
    requires num < 8 && packed < Pow256(num) && child < 256
    ensures var p := FirstGreater(Unpack(packed, num), child);
            p <= num && InsertLane(packed, p, child) == InsertLaneStep(packed, p, child) < Pow256(num + 1)
    ensures Pow256(num + 1) <= 0x1_0000_0000_0000_0000
  {
    var p := FirstGreater(Unpack(packed, num), child);
    FirstGreaterSpec(Unpack(packed, num), child);
    InsertLaneIsStep(packed, p, child);
    InsertLaneBound(packed, num, p, child);
    Pow256Table();
    Pow256Monotone(num + 1, 8);
  }

  // The shift-insert adds exactly one member and keeps the list sorted.
  lemma InlineAddSpec(k: Kids, child: nat, w0: Word, w1: Word, w2: Word)
    requires k.Inline? && k.num < 8 && InlineOk(k.packed, k.num) && child < 256
    requires child !in Members(k, w0, w1, w2)
    ensures var r := InlineAdd(k, child);
            InlineOk(r.packed, r.num) && Members(r, w0, w1, w2) == Members(k, w0, w1, w2) + {child}
  {
    var s := Unpack(k.packed, k.num);
    var p := FirstGreater(s, child);
    FirstGreaterSpec(s, child);
    InlineAddBound(k.packed, k.num, child);
    InsertLaneUnpack(k.packed, k.num, p, child);
    SortedInsert(s, p, child);
  }

  lemma SortedInsert(s: seq<nat>, p: nat, c: nat)
    requires Sorted(s) && p <= |s| && c !in s
    requires forall i :: 0 <= i < p ==> s[i] <= c
    requires p < |s| ==> c < s[p]
    ensures Sorted(s[..p] + [c] + s[p..])
    ensures forall d :: d in s[..p] + [c] + s[p..] <==> d in s || d == c
  {
    var t := s[..p] + [c] + s[p..];
    forall i, j | 0 <= i < j < |t| ensures t[i] < t[j] {
      assert i < p ==> t[i] == s[i] && s[i] in s;
      assert j > p ==> t[j] == s[j - 1] && s[p] <= s[j - 1];
    }
    assert s == s[..p] + s[p..];
  }

  // ---------- the read operations ----------

  method ExistChild(k: Kids, w0: Word, w1: Word, w2: Word, child: nat) returns (b: bool)
    requires child < 256
    ensures b <==> child in Members(k, w0, w1, w2)
  {
    match k {
      case Inline(packed, num) =>
        b := child in Unpack(packed, num);
      case External(words) =>
        b := Bit(words[child / 64], child % 64);
        assert b == BitmapHas(words, child);
      case Near(_, low, b94, b95) =>
        if child < 64 {
          b := Bit(low, child);
        } else if child == 94 || child == 95 {
          b := if child == 94 then b94 else b95;
        } else {
          b := Bit([w0, w1, w2][child / 64 - 1], child % 64);
        }
        PatchedBit(w0, b94, b95, child % 64);
        assert b == BitmapHas(NearWords(k, w0, w1, w2), child);
    }
  }

  method LowerBoundChild(k: Kids, w0: Word, w1: Word, w2: Word, child: nat) returns (r: int)
    requires child < 256
    requires k.Inline? ==> InlineOk(k.packed, k.num)
    ensures IsLowerBound(Members(k, w0, w1, w2), child, r)
  {
    match k {
      case Inline(packed, num) =>
        ghost var s := Unpack(packed, num);
        if child == 0 {
          assert s[0] == packed % 256;
          return packed % 256;
        }
        var p := FirstGreater(Unpack(packed, num), child - 1);
        FirstGreaterSpec(s, child - 1);
        if p == num {
          return -1;
        }
        r := Unpack(packed, num)[p];
      case External(words) =>
        r := Bitmap256LowerBound(words, child);
      case Near(_, _, _, _) =>
        r := NearLowerBound(k, w0, w1, w2, child);
    }
  }

  method NearLowerBound(k: Kids, w0: Word, w1: Word, w2: Word, child: nat) returns (r: int)
    requires child < 256 && k.Near?
    ensures IsLowerBound(Members(k, w0, w1, w2), child, r)
  {
    var ptr := NearWords(k, w0, w1, w2);
    var idx := child / 64;
    ShrCtz(ptr[idx], child % 64);
    var x;
    if child < 64 {
      x := Shr(k.low, child);
    } else if child < 128 {
      x := Shr(Patched(w0, k.b94, k.b95), child - 64);
    } else {
      x := Shr([w1, w2][idx - 2], child % 64);
    }
    assert x == Shr(ptr[idx], child % 64);
    if x != 0 {
      r := Ctz(x) + child;
      LowestInWord(ptr, child, r);
      return;
    }
    r := FirstBitFromWord(ptr, idx + 1);
    ResumeAtNextWord(ptr, child, r);
  }
}
