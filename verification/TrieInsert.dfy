// What an insertion does to the trie: the three shapes of update and why each of them yields
// the trie of the set with the new key.
module TrieInsert {
  import opened Keys
  import opened Slots
  import opened CuckooTable
  import opened Trie

  function Leaf(key: Key): Info {
    Info(8, key, {})
  }

  function Lower(n: Info, key: Key): Info {
    if key < n.minKey then n.(minKey := key) else n
  }

  // The minKey walk: nodes on the path of key, of length lo or more, take key as minimum if smaller.
  function Lowered(m: map<Index, Info>, key: Key, lo: nat): (r: map<Index, Info>)
    ensures r.Keys == m.Keys
  {
    map k | k in m :: if lo <= k.len && Under(k, key) then Lower(m[k], key) else m[k]
  }

  // Node At(key, l) gets the next byte of key as a child.
  function WithChild(m: map<Index, Info>, key: Key, l: nat): map<Index, Info>
    requires l <= 8 && At(key, l) in m && m[At(key, l)].dlen < 8
  {
    var n := m[At(key, l)];
    m[At(key, l) := n.(children := n.children + {ByteOf(key, n.dlen)})]
  }

  // Node At(key, l) is cut after c bytes: its lower part becomes a node of its own and key
  // branches off.
  function WithSplit(m: map<Index, Info>, key: Key, l: nat, c: nat): map<Index, Info>
    requires l <= 8 && c < 8 && At(key, l) in m
  {
    var n := m[At(key, l)];
    (m - {At(key, l)})[At(n.minKey, c + 1) := n]
      [At(key, l) := Info(c, if key < n.minKey then key else n.minKey, {ByteOf(n.minKey, c)} + {ByteOf(key, c)})]
  }

  // What an insertion makes of the deepest node on its path: one more child if the whole
  // compressed path matches, else a cut.
  function Reshaped(m: map<Index, Info>, key: Key, l: nat): map<Index, Info>
    requires l <= 8 && At(key, l) in m && Lcp(key, m[At(key, l)].minKey) < 8
  {
    var c := Lcp(key, m[At(key, l)].minKey);
    if m[At(key, l)].dlen == c then WithChild(m, key, l) else WithSplit(m, key, l, c)
  }

  lemma ReshapedKeys(m: map<Index, Info>, key: Key, l: nat)
    requires l <= 8 && At(key, l) in m && Lcp(key, m[At(key, l)].minKey) < 8
    ensures forall k :: k in m ==> k in Reshaped(m, key, l)
  {
  }

  // m' extends m by nodes of length c + 1 on the paths of key and z only.
  ghost predicate NewNodesAt(m: map<Index, Info>, m': map<Index, Info>, key: Key, z: Key, c: nat) {
    && c < 8 && Top(z, c) == Top(key, c)
    && (forall k :: k in m ==> k in m')
    && (forall k :: k in m' && k !in m ==> k == At(key, c + 1) || k == At(z, c + 1))
  }

  // Nodes off the path of key are not affected.
  lemma OffPath(m: map<Index, Info>, m': map<Index, Info>, keys: set<Key>, key: Key, z: Key, c: nat, k: Index)
    requires TrieInv(m, keys) && NewNodesAt(m, m', key, z, c)
    requires k in m && !Under(k, key) && m'[k] == m[k]
    ensures NodeInv(m', keys + {key}, k)
  {
    hide TrieInv, Top;
    NodeOf(m, keys, k);
    var n := m[k];
    forall l | k.len < l <= n.dlen ensures At(n.minKey, l) !in m' {
      if At(n.minKey, l) == At(key, c + 1) {
        AgreeShorter(n.minKey, key, k.len, l);
      } else if At(n.minKey, l) == At(z, c + 1) {
        AgreeShorter(n.minKey, z, k.len, l);
        AgreeShorter(z, key, k.len, c);
      }
    }
  }

  // Ancestors of the node where key arrives only have their minimum lowered.
  lemma Ancestor(m: map<Index, Info>, m': map<Index, Info>, keys: set<Key>, key: Key, z: Key, c: nat, l: nat, k: Index)
    requires TrieInv(m, keys) && NewNodesAt(m, m', key, z, c)
    requires 3 <= l <= c && At(key, l) in m
    requires k in m && Under(k, key) && k.len < l && m'[k] == Lower(m[k], key)
    ensures NodeInv(m', keys + {key}, k)
  {
    hide TrieInv, Top;
    NodeOf(m, keys, k);
    NodeOf(m, keys, At(key, l));
    var n, n' := m[k], m'[k];
    var y := m[At(key, l)].minKey;
    AgreeShorter(y, key, k.len, l);
    var inside := At(n.minKey, l);
    if l <= n.dlen {
      AgreeShorter(y, n.minKey, l, n.dlen);
      assert false;
    }
    AgreeShorter(y, key, n.dlen, l);
    AgreeShorter(y, key, n.dlen + 1, l);
    assert Top(n'.minKey, n.dlen) == Top(n.minKey, n.dlen);
    forall j | k.len < j <= n.dlen ensures At(n'.minKey, j) !in m' {
      AgreeShorter(n'.minKey, n.minKey, j, n.dlen);
      assert At(n'.minKey, j) == At(n.minKey, j);
    }
  }

  lemma NewLeaf(m': map<Index, Info>, keys: set<Key>, key: Key, l: nat)
    requires 3 <= l <= 8 && At(key, l) in m' && m'[At(key, l)] == Leaf(key)
    requires forall x :: x in keys ==> Top(x, l) != Top(key, l)
    requires forall j :: l < j <= 8 ==> At(key, j) !in m'
    ensures NodeInv(m', keys + {key}, At(key, l))
  {
    hide Top;
  }

  // ---------- no node on the path of key ----------

  lemma InsertAtRoot(m: map<Index, Info>, keys: set<Key>, key: Key)
    requires TrieInv(m, keys) && NoneDeeper(m, key, 2)
    ensures TrieInv(m[At(key, 3) := Leaf(key)], keys + {key})
  {
    var m' := m[At(key, 3) := Leaf(key)];
    NoNodeNoKey(m, keys, key);
    forall k | k in m' ensures NodeInv(m', keys + {key}, k) {
      if k == At(key, 3) {
        NewLeaf(m', keys, key, 3);
      } else {
        NotOnPath(m, keys, key, k);
        OffPath(m, m', keys, key, key, 2, k);
      }
    }
    forall x | x in keys + {key} ensures At(x, 3) in m' {
      if x in keys { RootOf(m, keys, x); }
    }
  }

  lemma NotOnPath(m: map<Index, Info>, keys: set<Key>, key: Key, k: Index)
    requires TrieInv(m, keys) && NoneDeeper(m, key, 2) && k in m
    ensures !Under(k, key)
  {
    hide TrieInv, Top;
    NodeOf(m, keys, k);
    assert Under(k, key) ==> k == At(key, k.len);
  }

  // ---------- below an existing node ----------

  // Every node on the path of key is the deepest one or an ancestor of it.
  lemma OnPathIsShorter(m: map<Index, Info>, keys: set<Key>, key: Key, l: nat, k: Index)
    requires TrieInv(m, keys) && Deepest(m, key, l) && k in m && Under(k, key)
    ensures k == At(key, l) || k.len < l
  {
    hide TrieInv, Top;
    NodeOf(m, keys, k);
    assert k == At(key, k.len);
  }

  ghost predicate IsChildAdded(m: map<Index, Info>, m': map<Index, Info>, key: Key, l: nat)
    requires l <= 8 && At(key, l) in m && m[At(key, l)].dlen < 8
  {
    var n := m[At(key, l)];
    && NewNodesAt(m, m', key, key, n.dlen)
    && At(key, n.dlen + 1) in m' && m'[At(key, n.dlen + 1)] == Leaf(key)
    && m'[At(key, l)] == Lower(n.(children := n.children + {ByteOf(key, n.dlen)}), key)
    && forall k :: k in m && k != At(key, l) ==> m'[k] == if Under(k, key) then Lower(m[k], key) else m[k]
  }

  function ChildMap(m: map<Index, Info>, key: Key, l: nat): map<Index, Info>
    requires l <= 8 && At(key, l) in m && m[At(key, l)].dlen < 8
  {
    Lowered(WithChild(m, key, l), key, 3)[At(key, m[At(key, l)].dlen + 1) := Leaf(key)]
  }

  lemma ChildMapIsChildAdded(m: map<Index, Info>, key: Key, l: nat)
    requires 3 <= l <= 8 && At(key, l) in m && m[At(key, l)].dlen < 8 && l <= m[At(key, l)].dlen
    requires var n := m[At(key, l)]; Top(n.minKey, n.dlen) == Top(key, n.dlen) && At(key, n.dlen + 1) !in m
    requires forall k :: k in m ==> 3 <= k.len
    ensures IsChildAdded(m, ChildMap(m, key, l), key, l)
  {
    hide Top;
  }

  lemma InsertChild(m: map<Index, Info>, keys: set<Key>, key: Key, l: nat)
    requires TrieInv(m, keys) && Deepest(m, key, l)
    requires var n := m[At(key, l)]; n.dlen < 8 && Lcp(key, n.minKey) == n.dlen
    ensures TrieInv(ChildMap(m, key, l), keys + {key})
  {
    hide TrieInv, Top, Lcp, ChildMap;
    var n := m[At(key, l)];
    NodeOf(m, keys, At(key, l));
    DeepestDecides(m, keys, key, l);
    LcpSpec(key, n.minKey, n.dlen);
    forall k | k in m ensures 3 <= k.len {
      NodeOf(m, keys, k);
    }
    ChildMapIsChildAdded(m, key, l);
    var m' := ChildMap(m, key, l);
    forall k | k in m' ensures NodeInv(m', keys + {key}, k) {
      ChildEntry(m, m', keys, key, l, k);
    }
    RootsKept(m, m', keys, key, l);
  }

  lemma ChildEntry(m: map<Index, Info>, m': map<Index, Info>, keys: set<Key>, key: Key, l: nat, k: Index)
    requires TrieInv(m, keys) && Deepest(m, key, l)
    requires var n := m[At(key, l)]; l <= n.dlen < 8 && Top(key, n.dlen) == Top(n.minKey, n.dlen)
                                     && ByteOf(key, n.dlen) !in n.children
    requires IsChildAdded(m, m', key, l) && k in m'
    ensures NodeInv(m', keys + {key}, k)
  {
    hide TrieInv, Top, NodeInv;
    var n := m[At(key, l)];
    var c := n.dlen;
    if k == At(key, c + 1) {
      forall x | x in keys ensures Top(x, c + 1) != Top(key, c + 1) {
        if Top(x, c + 1) == Top(key, c + 1) {
          AgreeShorter(x, key, l, c + 1);
          BelowHasChild(m, keys, key, l, x);
          assert false;
        }
      }
      NewLeaf(m', keys, key, c + 1);
    } else if k == At(key, l) {
      ChildNode(m, m', keys, key, l);
    } else if Under(k, key) {
      OnPathIsShorter(m, keys, key, l, k);
      Ancestor(m, m', keys, key, key, c, l, k);
    } else {
      OffPath(m, m', keys, key, key, c, k);
    }
  }

  lemma BelowHasChild(m: map<Index, Info>, keys: set<Key>, key: Key, l: nat, x: Key)
    requires TrieInv(m, keys) && l <= 8 && At(key, l) in m && m[At(key, l)].dlen < 8
    requires x in keys && Top(x, l) == Top(key, l)
    ensures ByteOf(x, m[At(key, l)].dlen) in m[At(key, l)].children
  {
    NodeOf(m, keys, At(key, l));
    assert Under(At(key, l), x);
  }

  // The node that gained a child.
  lemma ChildNode(m: map<Index, Info>, m': map<Index, Info>, keys: set<Key>, key: Key, l: nat)
    requires TrieInv(m, keys) && Deepest(m, key, l)
    requires var n := m[At(key, l)]; n.dlen < 8 && Top(key, n.dlen) == Top(n.minKey, n.dlen)
                                     && NewNodesAt(m, m', key, key, n.dlen) && At(key, n.dlen + 1) in m'
                                     && m'[At(key, l)] == Lower(n.(children := n.children + {ByteOf(key, n.dlen)}), key)
    ensures NodeInv(m', keys + {key}, At(key, l))
  {
    hide TrieInv, Top;
    NodeOf(m, keys, At(key, l));
    var n, n' := m[At(key, l)], m'[At(key, l)];
    assert Child(n', ByteOf(key, n.dlen)) == At(key, n.dlen + 1);
    assert forall c :: c in n.children ==> Child(n', c) == Child(n, c);
    forall j | l < j <= n.dlen ensures At(n'.minKey, j) !in m' {
      AgreeShorter(n'.minKey, n.minKey, j, n.dlen);
      assert At(n'.minKey, j) == At(n.minKey, j);
    }
  }

  lemma RootsKept(m: map<Index, Info>, m': map<Index, Info>, keys: set<Key>, key: Key, l: nat)
    requires TrieInv(m, keys) && 3 <= l <= 8 && At(key, l) in m
    requires forall k :: k in m ==> k in m'
    requires forall k :: k in m' ==> NodeInv(m', keys + {key}, k)
    ensures TrieInv(m', keys + {key})
  {
    hide TrieInv, NodeInv, Top;
    PathStartsAtThree(m, keys, key, l);
    forall x | x in keys + {key} ensures At(x, 3) in m' {
      if x in keys { RootOf(m, keys, x); }
    }
    TrieIs(m', keys + {key});
  }

  lemma TrieIs(m: map<Index, Info>, keys: set<Key>)
    requires (forall k :: k in m ==> NodeInv(m, keys, k)) && forall x :: x in keys ==> At(x, 3) in m
    ensures TrieInv(m, keys)
  {
    hide NodeInv, Top;
  }

  // ---------- inside a compressed path ----------

  // The map after a split, entry by entry.
  ghost predicate IsSplit(m: map<Index, Info>, m': map<Index, Info>, key: Key, l: nat, z: Key, c: nat)
    requires l <= 8 && At(key, l) in m
  {
    && NewNodesAt(m, m', key, z, c)
    && At(key, c + 1) in m' && m'[At(key, c + 1)] == Leaf(key)
    && At(z, c + 1) in m' && m'[At(z, c + 1)] == m[At(key, l)]
    && m'[At(key, l)] == Info(c, if key < z then key else z, {ByteOf(z, c)} + {ByteOf(key, c)})
    && forall k :: k in m && k != At(key, l) ==> m'[k] == if Under(k, key) then Lower(m[k], key) else m[k]
  }

  function SplitMap(m: map<Index, Info>, key: Key, l: nat, c: nat): map<Index, Info>
    requires l <= 8 && c < 8 && At(key, l) in m
  {
    Lowered(WithSplit(m, key, l, c), key, 3)[At(key, c + 1) := Leaf(key)]
  }

  lemma SplitMapIsSplit(m: map<Index, Info>, key: Key, l: nat, z: Key, c: nat)
    requires 3 <= l <= c < 8 && At(key, l) in m && z == m[At(key, l)].minKey
    requires Top(z, c) == Top(key, c) && Top(z, c + 1) != Top(key, c + 1) && Top(z, l) == Top(key, l)
    requires At(key, c + 1) !in m && At(z, c + 1) !in m
    requires forall k :: k in m ==> 3 <= k.len
    ensures IsSplit(m, SplitMap(m, key, l, c), key, l, z, c)
  {
    hide Top;
    assert !Under(At(z, c + 1), key);
  }

  lemma InsertSplit(m: map<Index, Info>, keys: set<Key>, key: Key, l: nat)
    requires TrieInv(m, keys) && Deepest(m, key, l)
    requires Lcp(key, m[At(key, l)].minKey) < m[At(key, l)].dlen
    ensures var c := Lcp(key, m[At(key, l)].minKey);
            c < 8 && TrieInv(SplitMap(m, key, l, c), keys + {key})
  {
    hide TrieInv, Top, Lcp, SplitMap;
    var n := m[At(key, l)];
    var z := n.minKey;
    var c := Lcp(key, z);
    NodeOf(m, keys, At(key, l));
    DeepestDecides(m, keys, key, l);
    LcpSpec(key, z, 8);
    LcpSpec(key, z, l);
    LcpByte(key, z);
    var m' := SplitMap(m, key, l, c);
    assert At(z, c + 1) !in m;
    forall k | k in m ensures 3 <= k.len {
      NodeOf(m, keys, k);
    }
    SplitMapIsSplit(m, key, l, z, c);
    forall k | k in m' ensures NodeInv(m', keys + {key}, k) {
      SplitEntry(m, m', keys, key, l, z, c, k);
    }
    RootsKept(m, m', keys, key, l);
  }

  lemma SplitEntry(m: map<Index, Info>, m': map<Index, Info>, keys: set<Key>, key: Key, l: nat, z: Key, c: nat,
                   k: Index)
    requires TrieInv(m, keys) && Deepest(m, key, l) && l <= c < m[At(key, l)].dlen <= 8
    requires z == m[At(key, l)].minKey && ByteOf(key, c) != ByteOf(z, c)
    requires IsSplit(m, m', key, l, z, c) && k in m'
    ensures NodeInv(m', keys + {key}, k)
  {
    hide TrieInv, Top, NodeInv;
    if k == At(key, c + 1) {
      LeavesPath(m, keys, key, l, c);
      NewLeaf(m', keys, key, c + 1);
    } else if k == At(key, l) {
      CutNode(m, m', keys, key, l, c);
    } else if k == At(z, c + 1) {
      LowerPart(m, m', keys, key, l, z, c);
    } else if Under(k, key) {
      OnPathIsShorter(m, keys, key, l, k);
      Ancestor(m, m', keys, key, z, c, l, k);
    } else {
      OffPath(m, m', keys, key, z, c, k);
    }
  }

  // No stored key follows `key` where it leaves the compressed path.
  lemma LeavesPath(m: map<Index, Info>, keys: set<Key>, key: Key, l: nat, c: nat)
    requires TrieInv(m, keys) && l <= c < 8 && At(key, l) in m
    requires c < m[At(key, l)].dlen && ByteOf(key, c) != ByteOf(m[At(key, l)].minKey, c)
    ensures forall x :: x in keys ==> Top(x, c + 1) != Top(key, c + 1)
  {
    hide TrieInv, Top;
    NodeOf(m, keys, At(key, l));
    forall x | x in keys ensures Top(x, c + 1) != Top(key, c + 1) {
      if Under(At(key, l), x) {
        AgreeShorter(x, m[At(key, l)].minKey, c + 1, m[At(key, l)].dlen);
      } else if Top(x, c + 1) == Top(key, c + 1) {
        AgreeShorter(x, key, l, c + 1);
        assert false;
      }
    }
  }

  // The upper part of the split node: it ends where key branches off.
  lemma CutNode(m: map<Index, Info>, m': map<Index, Info>, keys: set<Key>, key: Key, l: nat, c: nat)
    requires TrieInv(m, keys) && Deepest(m, key, l)
    requires var n := m[At(key, l)];
             l <= c < n.dlen <= 8 && NewNodesAt(m, m', key, n.minKey, c)
             && At(key, c + 1) in m' && At(n.minKey, c + 1) in m'
             && m'[At(key, l)] == Info(c, if key < n.minKey then key else n.minKey,
                                       {ByteOf(n.minKey, c)} + {ByteOf(key, c)})
    ensures NodeInv(m', keys + {key}, At(key, l))
  {
    hide TrieInv, Top;
    NodeOf(m, keys, At(key, l));
    var n, n' := m[At(key, l)], m'[At(key, l)];
    forall x | x in keys + {key} && Under(At(key, l), x)
      ensures Top(x, c) == Top(key, c) && ByteOf(x, c) in n'.children && n'.minKey <= x
    {
      if x in keys {
        AgreeShorter(x, n.minKey, c, n.dlen);
        AgreeShorter(x, n.minKey, c + 1, n.dlen);
      }
    }
    assert Child(n', ByteOf(key, c)) == At(key, c + 1) && Child(n', ByteOf(n.minKey, c)) == At(n.minKey, c + 1);
    forall j | l < j <= c ensures At(n'.minKey, j) !in m' {
      AgreeShorter(n'.minKey, n.minKey, j, c);
      assert At(n'.minKey, j) == At(n.minKey, j);
    }
  }

  // The lower part: the old node under its new, longer index.
  lemma LowerPart(m: map<Index, Info>, m': map<Index, Info>, keys: set<Key>, key: Key, l: nat, z: Key, c: nat)
    requires TrieInv(m, keys) && Deepest(m, key, l) && z == m[At(key, l)].minKey
    requires l <= c < m[At(key, l)].dlen <= 8 && NewNodesAt(m, m', key, z, c)
    requires At(z, c + 1) in m' && m'[At(z, c + 1)] == m[At(key, l)] && Top(key, c + 1) != Top(z, c + 1)
    ensures NodeInv(m', keys + {key}, At(z, c + 1))
  {
    hide TrieInv, Top;
    NodeOf(m, keys, At(key, l));
    var n := m[At(key, l)];
    forall x | x in keys + {key} && Under(At(z, c + 1), x)
      ensures x in keys && Under(At(key, l), x)
    {
      AgreeShorter(x, z, l, c + 1);
    }
    forall j | c + 1 < j <= n.dlen ensures At(z, j) !in m' {
      assert At(z, j) !in m;
    }
  }

  // ---------- the early end of the minKey walk ----------

  // Once an ancestor's minimum is not above key, no shorter node on the path needs lowering.
  lemma WalkMayStop(m: map<Index, Info>, keys: set<Key>, key: Key, l: nat, k: Index)
    requires TrieInv(m, keys) && l <= 8 && At(key, l) in m && m[At(key, l)].minKey <= key
    requires k in m && Under(k, key) && k.len <= l
    ensures m[k].minKey <= key
  {
    hide TrieInv, Top;
    NodeOf(m, keys, At(key, l));
    NodeOf(m, keys, k);
    AgreeShorter(m[At(key, l)].minKey, key, k.len, l);
  }

  // One step of the walk.
  lemma LoweredStep(m: map<Index, Info>, key: Key, l: nat)
    requires l <= 8
    ensures Lowered(m, key, l)
         == if At(key, l) in m then Lowered(m, key, l + 1)[At(key, l) := Lower(m[At(key, l)], key)]
            else Lowered(m, key, l + 1)
  {
    hide Top;
    assert forall k :: Under(k, key) && k.len == l ==> k == At(key, l);
  }

  // The walk may stop at length l: everything shorter is low enough already.
  lemma LoweredDone(m0: map<Index, Info>, m1: map<Index, Info>, keys: set<Key>, key: Key, l: nat, ilen: nat)
    requires TrieInv(m0, keys) && 3 <= l <= ilen <= 8 && At(key, l) in m0 && m0[At(key, l)].minKey <= key
    requires AncestorsAgree(m0, m1, key, ilen)
    ensures Lowered(m1, key, l) == Lowered(m1, key, 3)
    ensures l < ilen ==> Lowered(m1, key, l + 1) == Lowered(m1, key, 3)
  {
    hide TrieInv, Top;
    forall k | k in m1 && Under(k, key) && k.len <= l && k.len < ilen
      ensures Lower(m1[k], key) == m1[k]
    {
      WalkMayStop(m0, keys, key, l, k);
    }
    var a, b, c := Lowered(m1, key, l), Lowered(m1, key, l + 1), Lowered(m1, key, 3);
    forall k | k in m1 ensures a[k] == c[k] && (l < ilen ==> b[k] == c[k]) {
      assert 3 <= k.len || k.len < 3;
    }
    assert a.Keys == m1.Keys && b.Keys == m1.Keys && c.Keys == m1.Keys;
  }

  // m1 differs from m0 at length ilen and beyond only, as far as the path of key goes.
  ghost predicate AncestorsAgree(m0: map<Index, Info>, m1: map<Index, Info>, key: Key, ilen: nat) {
    forall k :: k in m1 && Under(k, key) && k.len < ilen ==> k in m0 && m1[k] == m0[k]
  }

  // Before the walk only the deepest node has been lowered.
  lemma LoweredDeepest(m1: map<Index, Info>, key: Key, ilen: nat)
    requires ilen <= 8 && At(key, ilen) in m1
    requires forall k :: k in m1 && Under(k, key) ==> k.len <= ilen
    ensures Lowered(m1, key, ilen) == m1[At(key, ilen) := Lower(m1[At(key, ilen)], key)]
  {
    hide Top;
    assert forall k :: Under(k, key) && k.len == ilen ==> k == At(key, ilen);
  }

  lemma ChildAncestors(m: map<Index, Info>, keys: set<Key>, key: Key, l: nat)
    requires TrieInv(m, keys) && l <= 8 && At(key, l) in m && m[At(key, l)].dlen < 8
    ensures AncestorsAgree(m, WithChild(m, key, l), key, l)
  {
  }

  lemma SplitAncestors(m: map<Index, Info>, keys: set<Key>, key: Key, l: nat, c: nat)
    requires TrieInv(m, keys) && l <= c < 8 && At(key, l) in m
    ensures AncestorsAgree(m, WithSplit(m, key, l, c), key, l)
  {
  }

  lemma SplitIndexIsNew(m: map<Index, Info>, keys: set<Key>, key: Key, l: nat)
    requires TrieInv(m, keys) && Deepest(m, key, l) && Lcp(key, m[At(key, l)].minKey) < m[At(key, l)].dlen <= 8
    ensures var z := m[At(key, l)].minKey; var c := Lcp(key, z);
            l <= c && At(z, c + 1) !in m && !Under(At(z, c + 1), key) && z != key
    ensures Top(m[At(key, l)].minKey, l) == Top(key, l)
  {
    hide TrieInv, Top, Lcp;
    var z := m[At(key, l)].minKey;
    NodeOf(m, keys, At(key, l));
    DeepestDecides(m, keys, key, l);
    LcpSpec(key, z, Lcp(key, z) + 1);
    LcpSpec(key, z, 8);
  }
}
