// The top three levels of the trie: one bit per 1-, 2- and 3-byte prefix.
module FlatLevels {
  import opened Bits
  import opened Keys
  import opened ChildMap
  import opened Trie

  // Bit p of a flat level, `a[p / 64] & (1 << (p % 64))`.
  predicate HasBit(a: seq<Word>, p: nat) {
    p / 64 < |a| && Bit(a[p / 64], p % 64)
  }

  // The flat level of length l holds exactly the l-byte prefixes of the keys.
  ghost predicate LevelInv(a: seq<Word>, l: nat, keys: set<Key>)
    requires l <= 3
  {
    |a| == Pow256(l) / 64 && forall p :: 0 <= p < Pow256(l) ==> (HasBit(a, p) <==> HasPrefix(keys, l, p))
  }

  // b is a with bit p added.
  ghost predicate BitAdded(a: seq<Word>, b: seq<Word>, p: nat) {
    |b| == |a| && forall q: nat :: HasBit(b, q) <==> HasBit(a, q) || q == p
  }

  // `a[p / 64] |= 1 << (p % 64)`
  method SetLevelBit(a: array<Word>, p: nat)
    requires p / 64 < a.Length
    modifies a
    ensures BitAdded(old(a[..]), a[..], p)
  {
    ghost var s := a[..];
    a[p / 64] := SetBit(a[p / 64], p % 64);
    forall q: nat ensures HasBit(a[..], q) <==> HasBit(s, q) || q == p {
      BitWithBit(s[p / 64], p % 64, true, q % 64);
    }
  }

  // The 256-bit group of prefix hi, searched from child on.
  method LevelLowerBound(a: array<Word>, hi: nat, child: nat) returns (r: int)
    requires hi * 4 + 4 <= a.Length && child < 256
    ensures r == -1 ==> forall p: nat :: hi * 256 + child <= p < hi * 256 + 256 ==> !HasBit(a[..], p)
    ensures r != -1 ==> child <= r < 256 && HasBit(a[..], hi * 256 + r)
    ensures r != -1 ==> forall p: nat :: hi * 256 + child <= p < hi * 256 + r ==> !HasBit(a[..], p)
  {
    var ptr := a[hi * 4..hi * 4 + 4];
    r := Bitmap256LowerBound(ptr, child);
    ghost var s := a[..];
    forall p: nat | hi * 256 <= p < hi * 256 + 256
      ensures HasBit(s, p) <==> p - hi * 256 in BitmapSet(ptr)
    {
      GroupBit(hi, p - hi * 256);
    }
  }

  lemma GroupBit(hi: nat, c: nat)
    requires c < 256
    ensures (hi * 256 + c) / 64 == hi * 4 + c / 64 && (hi * 256 + c) % 64 == c % 64
  {
  }

  lemma LevelSizes()
    ensures Pow256(1) / 64 == 4 && Pow256(2) / 64 == 1024 && Pow256(3) / 64 == 262144
  {
    Pow256Table();
  }

  lemma EmptyLevel(a: seq<Word>, l: nat)
    requires l <= 3 && |a| == Pow256(l) / 64 && forall i :: 0 <= i < |a| ==> a[i] == 0
    ensures LevelInv(a, l, {})
  {
    forall p | 0 <= p < Pow256(l) ensures !HasBit(a, p) {
      NoBitOfZero(p % 64);
    }
  }

  lemma BitOfPrefix(a: seq<Word>, l: nat, keys: set<Key>, key: Key)
    requires l <= 3 && LevelInv(a, l, keys)
    ensures HasBit(a, Top(key, l)) <==> HasPrefix(keys, l, Top(key, l))
  {
    TopBound(key, l);
  }

  // Recording the prefix of a new key, or finding it recorded, keeps a level exact.
  lemma LevelGrows(a: seq<Word>, b: seq<Word>, l: nat, keys: set<Key>, key: Key)
    requires l <= 3 && LevelInv(a, l, keys)
    requires BitAdded(a, b, Top(key, l)) || (b == a && HasPrefix(keys, l, Top(key, l)))
    ensures LevelInv(b, l, keys + {key})
  {
    forall p | 0 <= p < Pow256(l) ensures HasBit(b, p) <==> HasPrefix(keys + {key}, l, p) {
      if HasPrefix(keys, l, p) {
        var x :| x in keys && Top(x, l) == p;
        assert x in keys + {key};
      }
      if HasPrefix(keys + {key}, l, p) {
        var x :| x in keys + {key} && Top(x, l) == p;
        assert x in keys || x == key;
      }
      if p == Top(key, l) {
        assert key in keys + {key};
      }
    }
  }

  // No stored key has an l-byte prefix strictly between lo and hi.
  ghost predicate PrefixGap(keys: set<Key>, l: nat, lo: int, hi: int)
    requires l <= 8
  {
    forall p: nat :: lo < p < hi ==> !HasPrefix(keys, l, p)
  }

  // A gap between prefixes is a gap between their extensions.
  lemma GapExtends(keys: set<Key>, l: nat, lo: int, hi: int)
    requires l < 8 && PrefixGap(keys, l, lo, hi)
    ensures PrefixGap(keys, l + 1, lo * 256 + 255, hi * 256)
  {
    var m := l + 1;
    forall p: nat | lo * 256 + 255 < p < hi * 256 ensures !HasPrefix(keys, m, p) {
      if HasPrefix(keys, m, p) {
        PrefixShortens(keys, l, p);
      }
    }
  }

  lemma GapsJoin(keys: set<Key>, l: nat, a: int, b: int, c: int)
    requires l <= 8 && PrefixGap(keys, l, a, b) && PrefixGap(keys, l, b - 1, c)
    ensures PrefixGap(keys, l, a, c)
  {
  }

  // The least l-byte prefix hi * 256 + r with r >= child, or -1.
  method SearchLevel(a: array<Word>, ghost l: nat, ghost keys: set<Key>, hi: nat, child: nat) returns (r: int)
    requires 1 <= l <= 3 && LevelInv(a[..], l, keys) && hi * 256 + 256 <= Pow256(l) && child < 256
    ensures r == -1 ==> PrefixGap(keys, l, hi * 256 + child - 1, hi * 256 + 256)
    ensures r != -1 ==> child <= r < 256 && HasPrefix(keys, l, hi * 256 + r)
    ensures r != -1 ==> PrefixGap(keys, l, hi * 256 + child - 1, hi * 256 + r)
  {
    hide HasBit, HasPrefix;
    LevelSizes();
    Pow256Table();
    assert l == 1 || l == 2 || l == 3;
    assert hi * 4 + 4 <= a.Length;
    r := LevelLowerBound(a, hi, child);
    ghost var end := hi * 256 + if r == -1 then 256 else r;
    forall p: nat | hi * 256 + child - 1 < p < end ensures !HasPrefix(keys, l, p) {
      assert !HasBit(a[..], p);
    }
  }

  lemma PrefixBound(keys: set<Key>, l: nat, p: nat)
    requires l <= 8 && HasPrefix(keys, l, p)
    ensures p < Pow256(l)
  {
    var x :| x in keys && Top(x, l) == p;
    TopBound(x, l);
  }

  // The 64-bit key whose first three bytes are q and the rest zero.
  function KeyOfPrefix(q: nat): (k: Key)
    requires q < 0x100_0000
    ensures Top(k, 3) == q
  {
    var k := q * 0x100_0000_0000;
    assert Top(k, 7) == q * 0x1_0000_0000;
    assert Top(k, 5) == q * 0x1_0000;
    k
  }
}
