// The path-compressed byte trie as a map from index to node contents, and how it represents
// a set of keys.
module Trie {
  import opened Keys
  import opened ChildMap
  import opened Slots
  import opened CuckooTable

  // x lies below the node with index k.
  predicate Under(k: Index, x: Key) {
    k.len <= 8 && Top(x, k.len) == k.prefix
  }

  // What the node with index k says about the key set: minKey is its subtree's minimum, its
  // whole subtree agrees on the first dlen bytes, no node lies inside that compressed path, and
  // its children are exactly the next bytes, each leading to a node of length dlen + 1.
  ghost predicate NodeInv(m: map<Index, Info>, keys: set<Key>, k: Index)
    requires k in m
  {
    var n := m[k];
    && 3 <= k.len <= n.dlen <= 8
    && n.minKey in keys && Under(k, n.minKey)
    && (forall x :: x in keys && Under(k, x) ==> n.minKey <= x && Top(x, n.dlen) == Top(n.minKey, n.dlen))
    && (forall l :: k.len < l <= n.dlen ==> At(n.minKey, l) !in m)
    && (if n.dlen == 8 then n.children == {}
        else
          && (forall x :: x in keys && Under(k, x) ==> ByteOf(x, n.dlen) in n.children)
          && (forall c :: c in n.children ==> c < 256 && Child(n, c) in m))
  }

  function Child(n: Info, c: nat): Index
    requires n.dlen < 8
  {
    Index(n.dlen + 1, Top(n.minKey, n.dlen) * 256 + c)
  }

  ghost predicate TrieInv(m: map<Index, Info>, keys: set<Key>) {
    && (forall k :: k in m ==> NodeInv(m, keys, k))
    && (forall x :: x in keys ==> At(x, 3) in m)
  }

  lemma NodeOf(m: map<Index, Info>, keys: set<Key>, k: Index)
    requires TrieInv(m, keys) && k in m
    ensures NodeInv(m, keys, k)
  {
  }

  lemma RootOf(m: map<Index, Info>, keys: set<Key>, x: Key)
    requires TrieInv(m, keys) && x in keys
    ensures At(x, 3) in m
  {
  }

  // The node on the path of key at length l is the parent of the one at the next stored length.
  lemma ParentEndsAbove(m: map<Index, Info>, keys: set<Key>, key: Key, l: nat, next: nat)
    requires TrieInv(m, keys) && l < next <= 8
    requires At(key, l) in m && At(key, next) in m
    requires forall j :: l < j < next ==> At(key, j) !in m
    ensures m[At(key, l)].dlen == next - 1
    ensures Top(m[At(key, l)].minKey, next - 1) == Top(key, next - 1)
    ensures ByteOf(key, next - 1) in m[At(key, l)].children
  {
    hide TrieInv, Top;
    var a, y := m[At(key, l)], m[At(key, next)].minKey;
    NodeOf(m, keys, At(key, l));
    NodeOf(m, keys, At(key, next));
    AgreeShorter(key, y, l, next);
    var inside := At(a.minKey, next);
    if next <= a.dlen {
      AgreeShorter(y, a.minKey, next, a.dlen);
      assert false;
    }
    AgreeShorter(key, y, a.dlen + 1, next);
    AgreeShorter(key, y, a.dlen, next);
    assert Child(a, ByteOf(y, a.dlen)) == At(key, a.dlen + 1);
  }

  // ---------- membership ----------

  // The common prefix with the deepest node decides membership.
  lemma DeepestDecides(m: map<Index, Info>, keys: set<Key>, key: Key, l: nat)
    requires TrieInv(m, keys) && Deepest(m, key, l)
    ensures var n := m[At(key, l)]; var lcp := Lcp(key, n.minKey);
            l <= lcp <= n.dlen <= 8 && (lcp == 8 <==> key in keys)
    ensures m[At(key, l)].dlen < 8 && Lcp(key, m[At(key, l)].minKey) == m[At(key, l)].dlen
            ==> ByteOf(key, m[At(key, l)].dlen) !in m[At(key, l)].children
  {
    hide TrieInv, Top;
    var n := m[At(key, l)];
    var z := n.minKey;
    var lcp := Lcp(key, z);
    NodeOf(m, keys, At(key, l));
    LcpSpec(key, z, l);
    LcpSpec(key, z, n.dlen);
    if n.dlen < 8 {
      LcpSpec(key, z, n.dlen + 1);
      assert Child(n, ByteOf(z, n.dlen)) == At(z, n.dlen + 1);
      assert Top(key, n.dlen) == Top(z, n.dlen) ==> Child(n, ByteOf(key, n.dlen)) == At(key, n.dlen + 1);
    }
    LcpSpec(key, z, 8);
    WholeKey(key);
    WholeKey(z);
    assert key in keys ==> Under(At(key, l), key);
  }

  lemma NoNodeNoKey(m: map<Index, Info>, keys: set<Key>, key: Key)
    requires TrieInv(m, keys) && NoneDeeper(m, key, 2)
    ensures forall x :: x in keys ==> Top(x, 3) != Top(key, 3)
    ensures key !in keys
  {
    hide TrieInv, Top;
    forall x | x in keys ensures Top(x, 3) != Top(key, 3) {
      RootOf(m, keys, x);
      assert At(key, 3) !in m;
    }
  }

  lemma ChildByte(m: map<Index, Info>, keys: set<Key>, k: Index, c: nat)
    requires TrieInv(m, keys) && k in m && c in m[k].children
    ensures c < 256
  {
    NodeOf(m, keys, k);
  }

  // ---------- lower bound ----------

  ghost predicate IsLeast(keys: set<Key>, key: Key, r: Key) {
    r in keys && key <= r && forall x :: x in keys && key <= x ==> r <= x
  }

  lemma FoundItself(m: map<Index, Info>, keys: set<Key>, key: Key, l: nat)
    requires TrieInv(m, keys) && Deepest(m, key, l) && Lcp(key, m[At(key, l)].minKey) == 8
    ensures m[At(key, l)].minKey == key && IsLeast(keys, key, key)
  {
    hide TrieInv, Top, Lcp;
    NodeOf(m, keys, At(key, l));
    LcpSpec(key, m[At(key, l)].minKey, 8);
    WholeKey(key);
    WholeKey(m[At(key, l)].minKey);
  }

  // No key from `key` on shares its first l bytes.
  ghost predicate NoneFrom(keys: set<Key>, key: Key, l: nat)
    requires l <= 8
  {
    forall x :: x in keys && key <= x ==> Top(x, l) != Top(key, l)
  }

  // Keys outside the subtree of a prefix of `key` come after the whole subtree.
  lemma OutsideIsLater(key: Key, x: Key, y: Key, l: nat)
    requires l <= 8 && key <= x && Top(x, l) != Top(key, l) && Top(y, l) == Top(key, l)
    ensures y < x
  {
    TopMonotone(key, x, l);
    TopLess(y, x, l);
  }

  // Taking the least child r past the byte of `key` at a node whose path matches `key`.
  lemma NextChildIsLeast(m: map<Index, Info>, keys: set<Key>, key: Key, l: nat, r: nat)
    requires TrieInv(m, keys) && 3 <= l <= 8 && At(key, l) in m
    requires var n := m[At(key, l)]; n.dlen < 8 && Top(key, n.dlen) == Top(n.minKey, n.dlen)
                                     && r in n.children && ByteOf(key, n.dlen) < r
    requires forall x :: x in keys && key <= x && Top(x, l) == Top(key, l)
                         ==> r <= ByteOf(x, m[At(key, l)].dlen)
    ensures Child(m[At(key, l)], r) in m && IsLeast(keys, key, m[Child(m[At(key, l)], r)].minKey)
  {
    hide TrieInv, Top;
    var n := m[At(key, l)];
    NodeOf(m, keys, At(key, l));
    var k := Child(n, r);
    NodeOf(m, keys, k);
    var y := m[k].minKey;
    assert Top(y, n.dlen + 1) == Top(y, n.dlen) * 256 + ByteOf(y, n.dlen);
    assert Top(y, n.dlen) == Top(key, n.dlen) && ByteOf(y, n.dlen) == r;
    AgreeShorter(y, key, l, n.dlen);
    ByteOrder(key, y, n.dlen);
    forall x | x in keys && key <= x ensures y <= x {
      if Top(x, l) == Top(key, l) {
        assert Under(At(key, l), x);
        if ByteOf(x, n.dlen) == r {
          assert Under(k, x);
        } else {
          ByteOrder(y, x, n.dlen);
        }
      } else {
        OutsideIsLater(key, x, y, l);
      }
    }
  }

  // At the deepest node, when its path is a prefix of key: the lower bound on its children.
  lemma DeepestChildStep(m: map<Index, Info>, keys: set<Key>, key: Key, l: nat, r: int)
    requires TrieInv(m, keys) && Deepest(m, key, l)
    requires var n := m[At(key, l)];
             n.dlen < 8 && Lcp(key, n.minKey) == n.dlen && IsLowerBound(n.children, ByteOf(key, n.dlen), r)
    ensures r == -1 ==> NoneFrom(keys, key, l)
    ensures r != -1 ==> Child(m[At(key, l)], r) in m && IsLeast(keys, key, m[Child(m[At(key, l)], r)].minKey)
  {
    hide TrieInv, Top;
    var n := m[At(key, l)];
    NodeOf(m, keys, At(key, l));
    DeepestDecides(m, keys, key, l);
    LcpSpec(key, n.minKey, n.dlen);
    forall x | x in keys && key <= x && Top(x, l) == Top(key, l)
      ensures r != -1 && r <= ByteOf(x, n.dlen)
    {
      assert Under(At(key, l), x);
      ByteOrder(key, x, n.dlen);
    }
    if r != -1 {
      NextChildIsLeast(m, keys, key, l, r);
    }
  }

  // At the deepest node, when key leaves its compressed path: all or nothing of its subtree.
  lemma DeepestPathStep(m: map<Index, Info>, keys: set<Key>, key: Key, l: nat)
    requires TrieInv(m, keys) && Deepest(m, key, l)
    requires var n := m[At(key, l)]; Lcp(key, n.minKey) < n.dlen
    ensures key < m[At(key, l)].minKey ==> IsLeast(keys, key, m[At(key, l)].minKey)
    ensures key >= m[At(key, l)].minKey ==> NoneFrom(keys, key, l)
  {
    hide TrieInv, Top;
    var n := m[At(key, l)];
    var z := n.minKey;
    var c := Lcp(key, z);
    NodeOf(m, keys, At(key, l));
    LcpSpec(key, z, 8);
    LcpByte(key, z);
    if key < z {
      forall x | x in keys && key <= x ensures z <= x {
        if Top(x, l) != Top(key, l) {
          OutsideIsLater(key, x, z, l);
        } else {
          assert Under(At(key, l), x);
        }
      }
    } else {
      forall x | x in keys && Top(x, l) == Top(key, l) ensures x < key {
        assert Under(At(key, l), x);
        AgreeShorter(x, z, c + 1, n.dlen);
        TopLess(x, key, c + 1);
      }
    }
  }

  // One step of the parent walk: from the node at length `next` to its parent at length l.
  lemma ParentStep(m: map<Index, Info>, keys: set<Key>, key: Key, l: nat, next: nat, r: int)
    requires TrieInv(m, keys) && 3 <= l < next <= 8
    requires At(key, l) in m && At(key, next) in m
    requires forall j :: l < j < next ==> At(key, j) !in m
    requires NoneFrom(keys, key, next)
    requires var b := ByteOf(key, next - 1);
             if b == 255 then r == -1 else IsLowerBound(m[At(key, l)].children, b + 1, r)
    ensures m[At(key, l)].dlen == next - 1
    ensures r == -1 ==> NoneFrom(keys, key, l)
    ensures r != -1 ==> Child(m[At(key, l)], r) in m && IsLeast(keys, key, m[Child(m[At(key, l)], r)].minKey)
  {
    hide TrieInv, Top;
    var n := m[At(key, l)];
    ParentEndsAbove(m, keys, key, l, next);
    NodeOf(m, keys, At(key, l));
    forall x | x in keys && key <= x && Top(x, l) == Top(key, l)
      ensures r != -1 && r <= ByteOf(x, n.dlen)
    {
      assert Under(At(key, l), x);
      ByteOrder(key, x, n.dlen);
      assert ByteOf(x, n.dlen) != ByteOf(key, n.dlen);
    }
    if r != -1 {
      NextChildIsLeast(m, keys, key, l, r);
    }
  }

  // The walk ends at length 3: every stored path starts there.
  lemma PathStartsAtThree(m: map<Index, Info>, keys: set<Key>, key: Key, l: nat)
    requires TrieInv(m, keys) && 3 <= l <= 8 && At(key, l) in m
    ensures At(key, 3) in m
  {
    hide TrieInv, Top;
    NodeOf(m, keys, At(key, l));
    var z := m[At(key, l)].minKey;
    AgreeShorter(key, z, 3, l);
    RootOf(m, keys, z);
  }

  // ---------- the flat levels ----------

  // Prefix p of l bytes occurs in the set: the bit the flat level l keeps for p.
  ghost predicate HasPrefix(keys: set<Key>, l: nat, p: nat)
    requires l <= 8
  {
    exists x :: x in keys && Top(x, l) == p
  }

  // q is the least 3-byte prefix after that of key.
  ghost predicate NextPrefix(keys: set<Key>, key: Key, q: nat) {
    HasPrefix(keys, 3, q) && Top(key, 3) < q && forall p :: Top(key, 3) < p && HasPrefix(keys, 3, p) ==> q <= p
  }

  // The first key of the next 3-byte prefix is the lower bound.
  lemma NextPrefixIsLeast(m: map<Index, Info>, keys: set<Key>, key: Key, q: nat)
    requires TrieInv(m, keys) && NoneFrom(keys, key, 3) && NextPrefix(keys, key, q)
    ensures Index(3, q) in m && IsLeast(keys, key, m[Index(3, q)].minKey)
  {
    hide TrieInv, Top;
    var w :| w in keys && Top(w, 3) == q;
    RootOf(m, keys, w);
    var y := m[Index(3, q)].minKey;
    NodeOf(m, keys, Index(3, q));
    TopLess(key, y, 3);
    forall x | x in keys && key <= x ensures y <= x {
      TopMonotone(key, x, 3);
      assert HasPrefix(keys, 3, Top(x, 3));
      if Top(x, 3) == q {
        assert Under(Index(3, q), x);
      } else {
        TopLess(y, x, 3);
      }
    }
  }

  lemma NoNextPrefix(keys: set<Key>, key: Key)
    requires NoneFrom(keys, key, 3)
    requires forall p :: Top(key, 3) < p ==> !HasPrefix(keys, 3, p)
    ensures forall x :: x in keys ==> x < key
  {
    forall x | x in keys ensures x < key {
      if key <= x {
        TopMonotone(key, x, 3);
        assert HasPrefix(keys, 3, Top(x, 3));
        assert false;
      }
    }
  }

  // A prefix occurs iff one of its one-byte extensions does.
  lemma PrefixExtends(keys: set<Key>, l: nat, p: nat) returns (c: nat)
    requires l < 8 && HasPrefix(keys, l, p)
    ensures c < 256 && HasPrefix(keys, l + 1, p * 256 + c)
  {
    var x :| x in keys && Top(x, l) == p;
    c := ByteOf(x, l);
  }

  lemma PrefixShortens(keys: set<Key>, l: nat, p: nat)
    requires l < 8 && HasPrefix(keys, l + 1, p)
    ensures HasPrefix(keys, l, p / 256)
  {
    var x :| x in keys && Top(x, l + 1) == p;
    assert Top(x, l) == p / 256;
  }
}
