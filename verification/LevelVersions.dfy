// The version protocol of the flat levels: each of the three has a version of its own, 32 bits wide,
// that is to be odd while a bit of the level is set.
module LevelVersions {
  import opened Bits
  import opened Keys
  import opened Slots
  import opened CuckooTable
  import opened Trie
  import opened TrieInsert
  import opened FlatLevels

  type Wide = v: nat | v < 0x1_0000_0000

  function PlusWide(v: Wide, d: nat): (r: Wide)
    requires d <= 1
    ensures d == 0 ==> r == v
    ensures d == 1 ==> r == (v + 1) % 0x1_0000_0000 && (r % 2 == 1 <==> v % 2 == 0)
  {
    if v + d == 0x1_0000_0000 then 0 else v + d
  }

  // One moment: the versions of the three levels, their words, and the nodes of the table.
  datatype Levels = Levels(ver: seq<nat>, words: seq<seq<Word>>, nodes: map<Index, Info>)

  // One step of the writer on level i: its words change under an odd version that stays.
  ghost predicate LevelStep(a: Levels, b: Levels, i: nat) {
    i < |a.ver| == |a.words| == |b.ver| == |b.words|
    && (a.words[i] != b.words[i] ==> a.ver[i] % 2 == 1 && b.ver[i] == a.ver[i])
  }

  // The writer keeps to that on level i from moment lo on.
  ghost predicate LevelKept(tops: seq<Levels>, lo: nat, i: nat) {
    forall t :: lo <= t < |tops| - 1 ==> LevelStep(tops[t], tops[t + 1], i)
  }

  // From one moment to the next every version stays or is one more.
  ghost predicate LevelCount(a: Levels, b: Levels) {
    && |a.ver| == |a.words| == |b.ver| == |b.words| == 3
    && forall i :: 0 <= i < 3 ==> b.ver[i] == a.ver[i] || b.ver[i] == (a.ver[i] + 1) % 0x1_0000_0000
  }

  ghost predicate LevelsCounted(tops: seq<Levels>) {
    forall t :: 0 <= t < |tops| - 1 ==> LevelCount(tops[t], tops[t + 1])
  }

  // Every version is n more.
  ghost predicate CountedUp(a: seq<nat>, b: seq<nat>, n: nat) {
    |a| == |b| && forall i :: 0 <= i < |a| ==> b[i] == (a[i] + n) % 0x1_0000_0000
  }

  lemma CountedTwice(a: seq<nat>, b: seq<nat>, c: seq<nat>)
    requires CountedUp(a, b, 1) && CountedUp(b, c, 1)
    ensures CountedUp(a, c, 2)
  {
    forall i | 0 <= i < |a| ensures c[i] == (a[i] + 2) % 0x1_0000_0000 {
      OneMoreWide(a[i] + 1);
    }
  }

  // The bits of the third level, words, are the three-byte prefixes that have a node.
  ghost predicate BitsAreNodes(words: seq<Word>, m: map<Index, Info>) {
    forall p: nat :: HasBit(words, p) <==> Index(3, p) in m
  }

  // All but the bit of prefix q, whose node is there first.
  ghost predicate BitsAreNodesBut(words: seq<Word>, m: map<Index, Info>, q: nat) {
    forall p: nat :: HasBit(words, p) || p == q <==> Index(3, p) in m
  }

  lemma BitMakesNode(a: seq<Word>, b: seq<Word>, m: map<Index, Info>, q: nat)
    requires BitsAreNodesBut(a, m, q) && BitAdded(a, b, q) && !HasBit(a, q)
    ensures BitsAreNodes(b, m) && a != b
  {
    hide HasBit;
    assert HasBit(b, q);
  }

  ghost predicate LevelsExact(tops: seq<Levels>) {
    forall t :: 0 <= t < |tops| ==> |tops[t].words| == 3 && BitsAreNodes(tops[t].words[2], tops[t].nodes)
  }

  lemma OneMoreExact(tops: seq<Levels>, s: Levels)
    requires LevelsExact(tops) && |s.words| == 3 && BitsAreNodes(s.words[2], s.nodes)
    ensures LevelsExact(tops + [s])
  {
    hide BitsAreNodes;
  }

  lemma BitIsPrefix(words: seq<Word>, keys: set<Key>, p: nat)
    requires LevelInv(words, 3, keys)
    ensures HasBit(words, p) <==> HasPrefix(keys, 3, p)
  {
    LevelSizes();
    if HasPrefix(keys, 3, p) {
      PrefixBound(keys, 3, p);
    }
  }

  lemma NodeIsPrefix(m: map<Index, Info>, keys: set<Key>, p: nat)
    requires TrieInv(m, keys)
    ensures Index(3, p) in m <==> HasPrefix(keys, 3, p)
  {
    hide Top;
    if Index(3, p) in m {
      NodeOf(m, keys, Index(3, p));
    }
  }

  // Between insertions.
  lemma LevelHasNodes(words: seq<Word>, m: map<Index, Info>, keys: set<Key>)
    requires LevelInv(words, 3, keys) && TrieInv(m, keys)
    ensures BitsAreNodes(words, m)
  {
    hide LevelInv, TrieInv, HasBit, HasPrefix;
    forall p: nat ensures HasBit(words, p) <==> Index(3, p) in m {
      BitIsPrefix(words, keys, p);
      NodeIsPrefix(m, keys, p);
    }
  }

  // Before and after the leaf of value, at length l, is put in.
  lemma LeafBits(words: seq<Word>, m: map<Index, Info>, keys: set<Key>, value: Key, l: nat)
    requires LevelInv(words, 3, keys) && 3 <= l <= 8 && TrieInv(m[At(value, l) := Leaf(value)], keys + {value})
    requires At(value, l) !in m && (l > 3 <==> HasPrefix(keys, 3, Top(value, 3)))
    ensures BitsAreNodes(words, m)
    ensures l == 3 ==> BitsAreNodesBut(words, m[At(value, l) := Leaf(value)], Top(value, 3))
  {
    hide LevelInv, TrieInv, HasBit, Top;
    var m' := m[At(value, l) := Leaf(value)];
    forall p: nat
      ensures HasBit(words, p) <==> Index(3, p) in m
      ensures l == 3 ==> (HasBit(words, p) || p == Top(value, 3) <==> Index(3, p) in m')
    {
      BitIsPrefix(words, keys, p);
      NodeIsPrefix(m', keys + {value}, p);
      PrefixOfMore(keys, value, p);
    }
  }

  lemma PrefixOfMore(keys: set<Key>, value: Key, p: nat)
    ensures HasPrefix(keys + {value}, 3, p) <==> HasPrefix(keys, 3, p) || p == Top(value, 3)
  {
    hide Top;
    if HasPrefix(keys, 3, p) {
      var x :| x in keys && Top(x, 3) == p;
      assert x in keys + {value};
    }
    assert value in keys + {value};
  }

  lemma LevelKeptSplits(a: seq<Levels>, b: seq<Levels>, lo: nat, i: nat)
    requires a <= b && lo < |a|
    ensures LevelKept(b, lo, i) <==> LevelKept(a, lo, i) && LevelKept(b, |a| - 1, i)
  {
    if LevelKept(b, lo, i) {
      forall t | lo <= t < |a| - 1 ensures LevelStep(a[t], a[t + 1], i) {
        assert LevelStep(b[t], b[t + 1], i);
      }
    }
    if LevelKept(a, lo, i) && LevelKept(b, |a| - 1, i) {
      forall t | lo <= t < |b| - 1 ensures LevelStep(b[t], b[t + 1], i) {
        if t < |a| - 1 {
          assert LevelStep(a[t], a[t + 1], i);
        }
      }
    }
  }

  lemma NoLevelStep(tops: seq<Levels>, i: nat)
    requires |tops| > 0
    ensures LevelKept(tops, |tops| - 1, i)
  {
  }

  lemma OneLevelStep(tops: seq<Levels>, s: Levels, i: nat)
    requires |tops| > 0
    ensures LevelKept(tops + [s], |tops| - 1, i) <==> LevelStep(tops[|tops| - 1], s, i)
  {
    var b, l := tops + [s], |tops| - 1;
    assert b[l] == tops[l] && b[l + 1] == s;
    assert LevelKept(b, l, i) ==> LevelStep(b[l], b[l + 1], i);
  }

  lemma OneLevelCount(tops: seq<Levels>, s: Levels)
    requires |tops| > 0 && LevelsCounted(tops) && LevelCount(tops[|tops| - 1], s)
    ensures LevelsCounted(tops + [s])
  {
    var b, l := tops + [s], |tops| - 1;
    forall t | 0 <= t < |b| - 1 ensures LevelCount(b[t], b[t + 1]) {
      if t < l {
        assert LevelCount(tops[t], tops[t + 1]);
      }
    }
  }

  // While a level keeps one even version its words stay, so a reader that takes an even version before
  // it reads the level and finds that version again has read the words of one moment, unless the writer
  // counted all of 32 bits in between.
  lemma QuietLevel(tops: seq<Levels>, lo: nat, i: nat, c: nat, v: nat, u: nat)
    requires LevelKept(tops, lo, i) && LevelsCounted(tops) && lo <= c <= u <= v < |tops| && i < 3
    requires (forall t :: c <= t <= v ==> |tops[t].ver| == |tops[t].words| == 3) && tops[c].ver[i] < 0x1_0000_0000
    requires tops[c].ver[i] % 2 == 0 && tops[v].ver[i] == tops[c].ver[i]
    requires LevelIncrements(tops, i, c, v) < 0x1_0000_0000
    ensures tops[u].words[i] == tops[c].words[i]
  {
    LevelVersionIs(tops, i, c, v);
    LevelIncrementsGrow(tops, i, c, u, v);
    SmallCount(tops[c].ver[i], LevelIncrements(tops, i, c, v));
    StillLevel(tops, lo, i, c, u);
  }

  lemma SmallCount(v: nat, n: nat)
    requires v < 0x1_0000_0000 && n < 0x1_0000_0000 && (v + n) % 0x1_0000_0000 == v
    ensures n == 0
  {
  }

  // How often the version of level i was counted up between moments c and t.
  ghost function LevelIncrements(tops: seq<Levels>, i: nat, c: nat, t: nat): nat
    requires c <= t < |tops| && forall s :: c <= s <= t ==> i < |tops[s].ver|
    decreases t - c
  {
    if c == t then 0
    else LevelIncrements(tops, i, c, t - 1) + if tops[t].ver[i] == tops[t - 1].ver[i] then 0 else 1
  }

  lemma {:induction false} LevelVersionIs(tops: seq<Levels>, i: nat, c: nat, t: nat)
    requires LevelsCounted(tops) && c <= t < |tops| && i < 3 && forall s :: c <= s <= t ==> |tops[s].ver| == 3
    requires tops[c].ver[i] < 0x1_0000_0000
    ensures tops[t].ver[i] == (tops[c].ver[i] + LevelIncrements(tops, i, c, t)) % 0x1_0000_0000
    decreases t - c
  {
    if c < t {
      LevelVersionIs(tops, i, c, t - 1);
      assert LevelCount(tops[t - 1], tops[t - 1 + 1]);
      OneMoreWide(tops[c].ver[i] + LevelIncrements(tops, i, c, t - 1));
    }
  }

  lemma OneMoreWide(x: nat)
    ensures (x % 0x1_0000_0000 + 1) % 0x1_0000_0000 == (x + 1) % 0x1_0000_0000
  {
  }

  lemma {:induction false} LevelIncrementsGrow(tops: seq<Levels>, i: nat, c: nat, s: nat, t: nat)
    requires c <= s <= t < |tops| && forall r :: c <= r <= t ==> i < |tops[r].ver|
    ensures LevelIncrements(tops, i, c, s) <= LevelIncrements(tops, i, c, t)
    decreases t - s
  {
    if s < t {
      LevelIncrementsGrow(tops, i, c, s, t - 1);
    }
  }

  lemma {:induction false} StillLevel(tops: seq<Levels>, lo: nat, i: nat, c: nat, u: nat)
    requires LevelKept(tops, lo, i) && lo <= c <= u < |tops| && i < 3
    requires forall t :: c <= t <= u ==> |tops[t].ver| == |tops[t].words| == 3
    requires tops[c].ver[i] % 2 == 0 && LevelIncrements(tops, i, c, u) == 0
    ensures tops[u].words[i] == tops[c].words[i] && tops[u].ver[i] == tops[c].ver[i]
    decreases u - c
  {
    if c < u {
      StillLevel(tops, lo, i, c, u - 1);
      assert LevelStep(tops[u - 1], tops[u - 1 + 1], i);
    }
  }
}
