// What queries find at the moments of an insertion, when the trie is between two sets.
module Served {
  import opened Keys
  import opened Slots
  import opened CuckooTable
  import opened Trie
  import opened TrieInsert
  import opened MlpSet
  import opened Snapshot
  import opened Versioned

  // The deepest node on the path of x is a leaf with x as its minimum.
  ghost predicate HasLeaf(m: map<Index, Info>, x: Key) {
    exists l :: Deepest(m, x, l) && m[At(x, l)].minKey == x && m[At(x, l)].dlen == 8
  }

  // A query on m finds every key of lo and no key outside hi.
  ghost predicate Serves(m: map<Index, Info>, lo: set<Key>, hi: set<Key>) {
    (forall k :: k in m ==> m[k].minKey in hi) && forall x :: x in lo ==> HasLeaf(m, x)
  }

  // A query for x whose deepest node has length l.
  lemma ServedQuery(m: map<Index, Info>, lo: set<Key>, hi: set<Key>, x: Key, l: nat)
    requires Serves(m, lo, hi) && Deepest(m, x, l)
    ensures x in lo ==> Lcp(x, m[At(x, l)].minKey) == 8
    ensures Lcp(x, m[At(x, l)].minKey) == 8 ==> x in hi
  {
    hide Top, Lcp;
    LcpSpec(x, m[At(x, l)].minKey, 8);
    WholeKey(x);
    WholeKey(m[At(x, l)].minKey);
    if x in lo {
      var j :| Deepest(m, x, j) && m[At(x, j)].minKey == x;
      assert j == l;
    }
  }

  lemma {:induction false} DeepestExists(m: map<Index, Info>, x: Key, j: nat) returns (l: nat)
    requires 3 <= j <= 8 && At(x, j) in m
    ensures j <= l && Deepest(m, x, l)
    decreases 8 - j
  {
    hide Top;
    if i: nat :| j < i <= 8 && At(x, i) in m {
      l := DeepestExists(m, x, i);
    } else {
      l := j;
    }
  }

  // The trie of a set serves it.
  lemma TrieServes(m: map<Index, Info>, keys: set<Key>)
    requires TrieInv(m, keys)
    ensures Serves(m, keys, keys)
  {
    hide TrieInv, Top, Lcp;
    forall k | k in m ensures m[k].minKey in keys {
      NodeOf(m, keys, k);
    }
    forall x | x in keys ensures HasLeaf(m, x) {
      RootOf(m, keys, x);
      var l := DeepestExists(m, x, 3);
      NodeOf(m, keys, At(x, l));
      DeepestDecides(m, keys, x, l);
      var y := m[At(x, l)].minKey;
      LcpSpec(x, y, 8);
      WholeKey(x);
      WholeKey(y);
    }
  }

  lemma ServesLess(m: map<Index, Info>, lo: set<Key>, hi: set<Key>, lo': set<Key>, hi': set<Key>)
    requires Serves(m, lo, hi) && lo' <= lo && hi <= hi'
    ensures Serves(m, lo', hi')
  {
    hide HasLeaf;
  }

  // Below the leaf of a stored key there is no node, and above it no leaf.
  lemma NoLeafOnPath(m: map<Index, Info>, keys: set<Key>, value: Key, l: nat, k: Index)
    requires TrieInv(m, keys) && 3 <= l <= 8 && At(value, l) in m && k in m && Under(k, value) && k.len < l
    ensures m[k].dlen < 8
  {
    hide TrieInv, Top;
    NodeOf(m, keys, k);
    NodeOf(m, keys, At(value, l));
    var y, z := m[k].minKey, m[At(value, l)].minKey;
    var below := At(y, l);
    AgreeShorter(z, value, k.len, l);
    WholeKey(y);
    WholeKey(z);
    assert Under(k, z);
  }

  // ---------- the steps of an insertion ----------

  // Lowering minima on the path of value changes no leaf.
  lemma LoweredServes(m: map<Index, Info>, lo: set<Key>, hi: set<Key>, value: Key, j: nat)
    requires Serves(m, lo, hi) && value in hi
    requires forall k :: k in m && Under(k, value) ==> m[k].dlen < 8
    ensures Serves(Lowered(m, value, j), lo, hi)
  {
    hide Top;
    var r := Lowered(m, value, j);
    forall x | x in lo ensures HasLeaf(r, x) {
      var l :| Deepest(m, x, l) && m[At(x, l)].minKey == x && m[At(x, l)].dlen == 8;
      assert r[At(x, l)] == m[At(x, l)] && Deepest(r, x, l);
    }
  }

  // One more child of a node.
  lemma ChildServes(m: map<Index, Info>, keys: set<Key>, value: Key, l: nat, j: nat)
    requires TrieInv(m, keys) && Deepest(m, value, l) && m[At(value, l)].dlen < 8
    ensures Serves(Lowered(WithChild(m, value, l), value, j), keys, keys + {value})
  {
    hide TrieInv, Top;
    var r := WithChild(m, value, l);
    TrieServes(m, keys);
    forall x | x in keys ensures HasLeaf(r, x) {
      var i :| Deepest(m, x, i) && m[At(x, i)].minKey == x && m[At(x, i)].dlen == 8;
      assert Deepest(r, x, i) && r[At(x, i)].minKey == x && r[At(x, i)].dlen == 8;
    }
    forall k | k in r && Under(k, value) ensures r[k].dlen < 8 {
      OnPathIsShorter(m, keys, value, l, k);
      if k.len < l {
        NoLeafOnPath(m, keys, value, l, k);
      }
    }
    LoweredServes(r, keys, keys + {value}, value, j);
  }

  // The node with index k taken out and put back under a longer prefix of its minimum.
  function Reindexed(m: map<Index, Info>, value: Key, l: nat): map<Index, Info>
    requires l <= 8 && At(value, l) in m && Lcp(value, m[At(value, l)].minKey) < 8
  {
    var n := m[At(value, l)];
    (m - {At(value, l)})[At(n.minKey, Lcp(value, n.minKey) + 1) := n]
  }

  // Below the node that is cut, every stored key lies below its lower part, and the deepest node of
  // a stored key is the one it was, or that lower part.
  lemma BelowTheCut(m: map<Index, Info>, keys: set<Key>, value: Key, l: nat, x: Key, i: nat)
    requires TrieInv(m, keys) && SplitsAt(m, value, l) && x in keys && Deepest(m, x, i) && m[At(x, i)].dlen == 8
    ensures var k := SplitIndex(m, value, l);
            && k !in m && l < k.len <= 8
            && (At(x, l) == At(value, l) ==> Under(k, x) && (i == l || k.len < i))
            && (Under(k, x) ==> At(x, l) == At(value, l))
  {
    hide TrieInv, Top, Lcp;
    SplitIndexIsNew(m, keys, value, l);
    DeepestDecides(m, keys, value, l);
    NodeOf(m, keys, At(value, l));
    var n, k := m[At(value, l)], SplitIndex(m, value, l);
    if Under(k, x) {
      AgreeShorter(x, n.minKey, l, k.len);
    }
    if At(x, l) == At(value, l) {
      assert Under(At(value, l), x);
      AgreeShorter(x, n.minKey, k.len, n.dlen);
      if l < i <= n.dlen {
        AgreeShorter(x, n.minKey, i, n.dlen);
        assert At(n.minKey, i) == At(x, i);
      }
    }
  }

  lemma ReindexedServes(m: map<Index, Info>, keys: set<Key>, value: Key, l: nat)
    requires TrieInv(m, keys) && SplitsAt(m, value, l)
    ensures Serves(Reindexed(m, value, l), keys, keys)
  {
    hide TrieInv, Top, Lcp;
    TrieServes(m, keys);
    DeepestDecides(m, keys, value, l);
    var r, k := Reindexed(m, value, l), SplitIndex(m, value, l);
    forall x | x in keys ensures HasLeaf(r, x) {
      var i :| Deepest(m, x, i) && m[At(x, i)].minKey == x && m[At(x, i)].dlen == 8;
      BelowTheCut(m, keys, value, l, x, i);
      var j := if At(x, i) == At(value, l) then k.len else i;
      assert At(x, i) == At(value, l) ==> At(x, j) == k;
      assert forall d :: j < d <= 8 ==> At(x, d) !in m && At(x, d) != k;
      assert Deepest(r, x, j);
    }
  }

  // The whole cut, with any minima lowered.
  lemma SplitServes(m: map<Index, Info>, keys: set<Key>, value: Key, l: nat, j: nat)
    requires TrieInv(m, keys) && SplitsAt(m, value, l)
    ensures Lcp(value, m[At(value, l)].minKey) < 8
    ensures Serves(Lowered(WithSplit(m, value, l, Lcp(value, m[At(value, l)].minKey)), value, j), keys, keys + {value})
  {
    hide TrieInv, Top, Lcp;
    DeepestDecides(m, keys, value, l);
    SplitIndexIsNew(m, keys, value, l);
    var c, k := Lcp(value, m[At(value, l)].minKey), SplitIndex(m, value, l);
    var r := WithSplit(m, value, l, c);
    TrieServes(m, keys);
    forall x | x in keys ensures HasLeaf(r, x) {
      var i :| Deepest(m, x, i) && m[At(x, i)].minKey == x && m[At(x, i)].dlen == 8;
      BelowTheCut(m, keys, value, l, x, i);
      var d := if At(x, i) == At(value, l) then k.len else i;
      assert At(x, i) == At(value, l) ==> At(x, d) == k;
      assert forall e :: d < e <= 8 ==> At(x, e) !in m && At(x, e) != k && At(x, e) != At(value, l);
      assert Deepest(r, x, d);
    }
    forall y | y in r && Under(y, value) ensures r[y].dlen < 8 {
      if y in m && y != At(value, l) {
        OnPathIsShorter(m, keys, value, l, y);
        NoLeafOnPath(m, keys, value, l, y);
      }
    }
    LoweredServes(r, keys, keys + {value}, value, j);
  }

  // However far the minima on the path of value have been lowered.
  ghost predicate ServesLow(m: map<Index, Info>, value: Key, lo: set<Key>, hi: set<Key>) {
    forall j: nat :: Serves(Lowered(m, value, j), lo, hi)
  }

  lemma LowServes(m: map<Index, Info>, value: Key, j: nat, lo: set<Key>, hi: set<Key>)
    requires ServesLow(m, value, lo, hi)
    ensures Serves(Lowered(m, value, j), lo, hi)
  {
    hide Serves;
  }

  lemma ChildServesLow(m: map<Index, Info>, keys: set<Key>, value: Key, l: nat)
    requires TrieInv(m, keys) && Deepest(m, value, l) && m[At(value, l)].dlen < 8
    ensures ServesLow(WithChild(m, value, l), value, keys, keys + {value})
  {
    hide TrieInv, Serves, WithChild, Lowered, Top, NoneDeeper;
    forall j: nat ensures Serves(Lowered(WithChild(m, value, l), value, j), keys, keys + {value}) {
      ChildServes(m, keys, value, l, j);
    }
  }

  lemma SplitServesLow(m: map<Index, Info>, keys: set<Key>, value: Key, l: nat)
    requires TrieInv(m, keys) && SplitsAt(m, value, l) && Lcp(value, m[At(value, l)].minKey) < 8
    ensures ServesLow(WithSplit(m, value, l, Lcp(value, m[At(value, l)].minKey)), value, keys, keys + {value})
  {
    hide TrieInv, Serves, WithSplit, Lowered, Top, NoneDeeper, Lcp;
    var c := Lcp(value, m[At(value, l)].minKey);
    forall j: nat ensures Serves(Lowered(WithSplit(m, value, l, c), value, j), keys, keys + {value}) {
      SplitServes(m, keys, value, l, j);
    }
  }

  // ---------- moments ----------

  // A query on the slots s finds every key of lo and no key outside hi.
  ghost predicate ShownAt(s: seq<Slot>, h: Hashes, lo: set<Key>, hi: set<Key>) {
    exists m :: TableInv(s, h, m) && Serves(m, lo, hi)
  }

  // So it does at every moment from t on.
  ghost predicate Shows(hist: seq<Snap>, t: nat, h: Hashes, lo: set<Key>, hi: set<Key>) {
    forall u :: t <= u < |hist| ==> ShownAt(hist[u].slots, h, lo, hi)
  }

  lemma ShowsOn(a: seq<Snap>, b: seq<Snap>, t: nat, h: Hashes, lo: set<Key>, hi: set<Key>)
    requires a <= b && t < |a| && Shows(a, t, h, lo, hi) && Shows(b, |a| - 1, h, lo, hi)
    ensures Shows(b, t, h, lo, hi)
  {
    hide ShownAt;
    forall u | t <= u < |b| ensures ShownAt(b[u].slots, h, lo, hi) {
      assert u < |a| ==> b[u] == a[u];
    }
  }

  // A history in three parts, each disciplined or not, each showing the two sets.
  lemma ThreeParts(a: seq<Snap>, b: seq<Snap>, c: seq<Snap>, d: seq<Snap>, h: Hashes, lo: set<Key>, hi: set<Key>)
    requires |a| > 0 && a <= b <= c <= d
    requires Shows(b, |a| - 1, h, lo, hi) && Shows(c, |b| - 1, h, lo, hi) && Shows(d, |c| - 1, h, lo, hi)
    ensures Shows(d, |a| - 1, h, lo, hi)
    ensures Disciplined(d, |a| - 1)
            <==> Disciplined(b, |a| - 1) && Disciplined(c, |b| - 1) && Disciplined(d, |c| - 1)
  {
    hide Shows, Disciplined;
    ShowsOn(b, c, |a| - 1, h, lo, hi);
    ShowsOn(c, d, |a| - 1, h, lo, hi);
    DisciplineSplits(b, c, |a| - 1);
    DisciplineSplits(c, d, |a| - 1);
  }

  lemma KeptShows(hist: seq<Snap>, t: nat, h: Hashes, m: map<Index, Info>, lo: set<Key>, hi: set<Key>)
    requires Keeps(hist, t, h, m) && Serves(m, lo, hi)
    ensures Shows(hist, t, h, lo, hi)
  {
    hide TableInv, Serves;
  }

  lemma StepShows(hist: seq<Snap>, t: nat, h: Hashes, s: seq<Slot>, r: seq<Slot>, m: map<Index, Info>,
                  n: map<Index, Info>, lo: set<Key>, hi: set<Key>)
    requires OneOf(hist, t, s, r) && TableInv(s, h, m) && Serves(m, lo, hi) && TableInv(r, h, n) && Serves(n, lo, hi)
    ensures Shows(hist, t, h, lo, hi)
  {
    hide TableInv, Serves;
  }
}
