// 64-bit keys read as eight bytes, most significant first. A trie node is indexed by
// the first l bytes of a key, which the code obtains as `key >> (64 - 8 * l)`.
module Keys {

  type Key = k: nat | k < 0x1_0000_0000_0000_0000
  const MAX_KEY: Key := 0xffff_ffff_ffff_ffff

  // The first l bytes of k as a number: `k >> (64 - 8 * l)`.
  function Top(k: nat, l: nat): nat
    requires l <= 8
    decreases 8 - l
  {
    if l == 8 then k else Top(k, l + 1) / 256
  }

  // Byte number l of k, counted from the left: `(k >> (56 - 8 * l)) & 255`.
  function ByteOf(k: nat, l: nat): (b: nat)
    requires l < 8
    ensures b < 256
    ensures Top(k, l + 1) == Top(k, l) * 256 + b
  {
    Top(k, l + 1) % 256
  }

  function Pow256(n: nat): (p: nat)
    ensures p >= 1
  {
    if n == 0 then 1 else 256 * Pow256(n - 1)
  }

  lemma Pow256Table()
    ensures Pow256(0) == 1 && Pow256(1) == 256 && Pow256(2) == 0x1_0000 && Pow256(3) == 0x100_0000
    ensures Pow256(7) == 0x100_0000_0000_0000 && Pow256(8) == 0x1_0000_0000_0000_0000
  {
    assert Pow256(3) == 0x100_0000;
    assert Pow256(5) == 0x100_0000_0000;
  }

  lemma {:induction false} TopBound(k: Key, l: nat)
    requires l <= 8
    ensures Top(k, l) < Pow256(l)
    decreases 8 - l
  {
    if l == 8 {
      Pow256Table();
    } else {
      TopBound(k, l + 1);
    }
  }

  lemma WholeKey(k: nat)
    ensures Top(k, 8) == k
  {
  }

  // A longer common prefix contains every shorter one.
  lemma {:induction false} AgreeShorter(a: nat, b: nat, l: nat, m: nat)
    requires l <= m <= 8 && Top(a, m) == Top(b, m)
    ensures Top(a, l) == Top(b, l)
    decreases m - l
  {
    if l < m {
      AgreeShorter(a, b, l, m - 1);
    }
  }

  lemma {:induction false} TopMonotone(a: nat, b: nat, l: nat)
    requires l <= 8 && a <= b
    ensures Top(a, l) <= Top(b, l)
    decreases 8 - l
  {
    if l < 8 {
      TopMonotone(a, b, l + 1);
    }
  }

  // Order is decided by the first differing prefix.
  lemma TopLess(a: nat, b: nat, l: nat)
    requires l <= 8 && Top(a, l) < Top(b, l)
    ensures a < b
  {
    if b <= a {
      TopMonotone(b, a, l);
    }
  }

  // The number of leading bytes a and b share, i.e. `clz(a ^ b) / 8`, and 8 when a == b.
  function Lcp(a: nat, b: nat): (l: nat)
    ensures l <= 8
  {
    LcpFrom(a, b, 8)
  }

  function LcpFrom(a: nat, b: nat, l: nat): (r: nat)
    requires l <= 8
    ensures r <= l
  {
    if l == 0 || Top(a, l) == Top(b, l) then l else LcpFrom(a, b, l - 1)
  }

  lemma {:induction false} LcpFromSpec(a: nat, b: nat, l: nat, m: nat)
    requires l <= 8 && m <= l && Top(a, 0) == Top(b, 0)
    ensures Top(a, m) == Top(b, m) <==> m <= LcpFrom(a, b, l)
  {
    if Top(a, l) == Top(b, l) {
      AgreeShorter(a, b, m, l);
    } else if m < l {
      LcpFromSpec(a, b, l - 1, m);
    }
  }

  // The longest common prefix, characterised: prefixes agree exactly up to it.
  lemma LcpSpec(a: Key, b: Key, m: nat)
    requires m <= 8
    ensures Top(a, m) == Top(b, m) <==> m <= Lcp(a, b)
  {
    TopBound(a, 0);
    TopBound(b, 0);
    LcpFromSpec(a, b, 8, m);
  }

  // Past the common prefix the next bytes differ and decide the order.
  lemma LcpByte(a: Key, b: Key)
    requires a != b
    ensures Lcp(a, b) < 8
    ensures Top(a, Lcp(a, b)) == Top(b, Lcp(a, b))
    ensures ByteOf(a, Lcp(a, b)) != ByteOf(b, Lcp(a, b))
    ensures a < b <==> ByteOf(a, Lcp(a, b)) < ByteOf(b, Lcp(a, b))
  {
    var l := Lcp(a, b);
    LcpSpec(a, b, 8);
    LcpSpec(a, b, l);
    LcpSpec(a, b, l + 1);
    if ByteOf(a, l) < ByteOf(b, l) {
      TopLess(a, b, l + 1);
    } else {
      TopLess(b, a, l + 1);
    }
  }

  // `k & ~(255 << (56 - 8 * d)) | b << (56 - 8 * d)`: byte d of k replaced by b.
  function WithByte(k: nat, d: nat, b: nat): nat
    requires d < 8
    decreases 8 - d
  {
    if d == 7 then k / 256 * 256 + b else WithByte(k / 256, d + 1, b) * 256 + k % 256
  }

  lemma {:induction false} TopShift(k: nat, l: nat)
    requires l < 8
    ensures Top(k, l) == Top(k / 256, l + 1)
    decreases 8 - l
  {
    if l < 7 {
      TopShift(k, l + 1);
    }
  }

  // The key handed to the next lookup has the prefix of k up to d followed by b.
  lemma {:induction false} TopWithByte(k: nat, d: nat, b: nat)
    requires d < 8 && b < 256
    ensures Top(WithByte(k, d, b), d + 1) == Top(k, d) * 256 + b
    decreases 8 - d
  {
    var w := WithByte(k, d, b);
    if d == 7 {
      assert Top(w, 8) == w && Top(k, 7) == Top(k, 8) / 256;
    } else {
      var q := WithByte(k / 256, d + 1, b);
      assert w / 256 == q;
      TopShift(w, d + 1);
      TopWithByte(k / 256, d + 1, b);
      TopShift(k, d);
    }
  }

  lemma {:induction false} WithByteBound(k: nat, d: nat, b: nat, n: nat)
    requires d < 8 && b < 256 && n + d >= 8 && k < Pow256(n)
    ensures WithByte(k, d, b) < Pow256(n)
    decreases 8 - d
  {
    var p := Pow256(n - 1);
    assert k / 256 < p;
    if d == 7 {
      assert WithByte(k, d, b) == k / 256 * 256 + b;
    } else {
      WithByteBound(k / 256, d + 1, b, n - 1);
      assert WithByte(k, d, b) == WithByte(k / 256, d + 1, b) * 256 + k % 256;
    }
  }

  // Two 64-bit keys with different prefixes of one length: which way the order goes.
  lemma ByteOrder(a: nat, b: nat, d: nat)
    requires d < 8 && Top(a, d) == Top(b, d)
    ensures ByteOf(a, d) < ByteOf(b, d) ==> a < b
    ensures a <= b ==> ByteOf(a, d) <= ByteOf(b, d)
  {
    TopMonotone(if a <= b then a else b, if a <= b then b else a, d + 1);
  }
}
