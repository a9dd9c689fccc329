// The cuckoo hash table that stores the trie nodes of depth 3 and more.
module CuckooTable {
  import opened Bits
  import opened Keys
  import opened ChildMap
  import opened Slots

  // The three hash functions, each applied to a prefix length and that prefix: the code hashes
  // the key after clearing the bytes past the prefix.
  datatype Hashes = Hashes(h1: (nat, nat) -> nat, h2: (nat, nat) -> nat, h3: (nat, nat) -> nat)

  // The two candidate positions of an index in an array of length size, and its fingerprint.
  function Place1(h: Hashes, size: nat, k: Index): (p: int)
    requires 2 * GAP < size
    ensures GAP <= p < size - GAP
  {
    GAP + h.h1(k.len, k.prefix) % (size - 2 * GAP)
  }

  function Place2(h: Hashes, size: nat, k: Index): (p: int)
    requires 2 * GAP < size
    ensures GAP <= p < size - GAP
  {
    GAP + h.h2(k.len, k.prefix) % (size - 2 * GAP)
  }

  function Print(h: Hashes, k: Index): nat {
    h.h3(k.len, k.prefix) % 0x4_0000
  }

  function IndexOf(x: Slot): Index
    requires x.Node? && x.ilen <= 8
  {
    Index(x.ilen, Top(x.minKey, x.ilen))
  }

  function InfoAt(s: seq<Slot>, i: int): Info
    requires IsNode(s, i)
  {
    Info(s[i].dlen, s[i].minKey, Children(s, i))
  }

  // Slot i holds the node with index k.
  predicate HoldsIndex(s: seq<Slot>, i: int, k: Index) {
    IsNode(s, i) && s[i].ilen <= 8 && IndexOf(s[i]) == k
  }

  predicate Placed(s: seq<Slot>, h: Hashes, i: int)
    requires 2 * GAP < |s| && IsNode(s, i) && s[i].ilen <= 8
  {
    var k := IndexOf(s[i]);
    (i == Place1(h, |s|, k) || i == Place2(h, |s|, k)) && s[i].fp == Print(h, k)
  }

  // Every node is at one of its two positions, no index occurs twice, and m is what the nodes
  // say, index by index.
  ghost predicate TableInv(s: seq<Slot>, h: Hashes, m: map<Index, Info>) {
    && Shape(s)
    && (forall i :: IsNode(s, i) ==> Placed(s, h, i))
    && (forall i, j :: IsNode(s, i) && IsNode(s, j) && IndexOf(s[i]) == IndexOf(s[j]) ==> i == j)
    && (forall i :: IsNode(s, i) ==> IndexOf(s[i]) in m && m[IndexOf(s[i])] == InfoAt(s, i))
    && (forall k :: k in m ==> exists i :: HoldsIndex(s, i, k))
  }

  // An index is stored iff one of its two positions holds it.
  lemma Located(s: seq<Slot>, h: Hashes, m: map<Index, Info>, k: Index)
    requires TableInv(s, h, m)
    ensures k in m <==> HoldsIndex(s, Place1(h, |s|, k), k) || HoldsIndex(s, Place2(h, |s|, k), k)
    ensures forall i :: HoldsIndex(s, i, k) ==> k in m && m[k] == InfoAt(s, i)
  {
    if k in m {
      var i :| HoldsIndex(s, i, k);
      assert Placed(s, h, i);
    }
  }

  lemma RearrangedInv(s: seq<Slot>, r: seq<Slot>, h: Hashes, m: map<Index, Info>, owner: int)
    requires TableInv(s, h, m) && Rearranged(s, r, owner)
    ensures TableInv(r, h, m)
  {
    forall k | k in m ensures exists i :: HoldsIndex(r, i, k) {
      var i :| HoldsIndex(s, i, k);
      assert HoldsIndex(r, i, k);
    }
    forall i | IsNode(r, i)
      ensures IsNode(s, i) && SameNode(s, i, r, i)
    {
    }
  }

  // A node moved between its two positions leaves the stored map as it was.
  lemma MovedInv(s: seq<Slot>, r: seq<Slot>, h: Hashes, m: map<Index, Info>, from: int, to: int)
    requires TableInv(s, h, m) && IsNode(s, from) && 0 <= to < |s| && s[to] == Empty && Moved(s, r, from, to)
    requires to == Place1(h, |s|, IndexOf(s[from])) || to == Place2(h, |s|, IndexOf(s[from]))
    ensures TableInv(r, h, m)
  {
    hide Shape, Children, NodeOk;
    NodesAreOk(s, h, m);
    NodesAreOkShape(r);
    forall k | k in m ensures exists i :: HoldsIndex(r, i, k) {
      var i :| HoldsIndex(s, i, k);
      assert HoldsIndex(r, if i == from then to else i, k);
    }
    forall i | IsNode(r, i)
      ensures Placed(r, h, i) && IndexOf(r[i]) in m && m[IndexOf(r[i])] == InfoAt(r, i)
      ensures var o := if i == to then from else i; IsNode(s, o) && IndexOf(s[o]) == IndexOf(r[i])
    {
      var o := if i == to then from else i;
      NodePlaced(s, h, m, o);
      assert SameNode(s, o, r, i);
    }
  }

  const FLAG_WORD: Word := 0xc000_0000

  // The first word of a fresh bitmap slot holds the flag 0b11 and nothing else.
  lemma FlagWordBits(i: nat)
    ensures Bit(FLAG_WORD, i) <==> i == 30 || i == 31
  {
    assert Pow2(10) == 0x400;
    assert Pow2(20) == 0x10_0000;
    assert Pow2(30) == 0x4000_0000;
    if i < 30 {
      LowBitsClear(3, 30, i);
    } else {
      ShiftedBits(3, 30, i - 30);
      if i > 31 {
        NoBitPast(3, 2, i - 30);
      }
    }
  }

  lemma FreshBitmapIsEmpty(k: Kids)
    requires k == External([0, 0, 0, 0]) || (k.Near? && k.low == 0 && !k.b94 && !k.b95)
    ensures k.External? ==> Members(k, 0, 0, 0) == {}
    ensures k.Near? ==> Members(k, FLAG_WORD, 0, 0) == {}
  {
    var words := if k.External? then k.words else NearWords(k, FLAG_WORD, 0, 0);
    forall c | 0 <= c < 256 ensures !BitmapHas(words, c) {
      NoBitOfZero(c % 64);
      PatchedBit(FLAG_WORD, false, false, c % 64);
      FlagWordBits(c % 64);
    }
  }

  lemma NearChildren(s: seq<Slot>, r: seq<Slot>, i: int, b: int, c: nat)
    requires Shape(s) && Owns(s, i, b) && s[i].dlen < 8 && c < 256 && |r| == |s|
    requires 0 <= b < |s| && s[b].Bitmap?
    requires IsNode(r, i) && r[i] == s[i].(kids := NearAddKids(s[i].kids, c))
    requires r[b] == Bitmap(NearAddWord(s[b].w0, 0, c), NearAddWord(s[b].w1, 1, c), NearAddWord(s[b].w2, 2, c))
    ensures Children(r, i) == Children(s, i) + {c}
  {
    hide BitmapSet, Shape;
    NearAdd(s[i].kids, s[b].w0, s[b].w1, s[b].w2, c);
  }

  // ---------- the displacement chain ----------

  // The other position of the node at p.
  function Other(s: seq<Slot>, h: Hashes, p: int): int
    requires 2 * GAP < |s| && IsNode(s, p) && s[p].ilen <= 8
  {
    var k := IndexOf(s[p]);
    if Place1(h, |s|, k) == p then Place2(h, |s|, k) else Place1(h, |s|, k)
  }

  // The slots a displacement starting at p vacates, in order of visit; None when the chain
  // does not end within `rounds` slots.
  function Chain(s: seq<Slot>, h: Hashes, p: int, rounds: nat): (c: Option<seq<int>>)
    requires 2 * GAP < |s| && (forall i :: IsNode(s, i) ==> s[i].ilen <= 8)
    ensures c.Some? ==> 0 < |c.value| <= rounds && c.value[0] == p
    decreases rounds
  {
    if rounds == 0 then None
    else if !IsNode(s, p) then Some([p])
    else
      var q := Other(s, h, p);
      if s[q] == Empty then Some([p])
      else match Chain(s, h, q, rounds - 1)
           case None => None
           case Some(rest) => Some([p] + rest)
  }

  datatype Option<T> = None | Some(value: T)

  // The slots after the displacement that starts at p.
  ghost function AfterDisplacement(s: seq<Slot>, h: Hashes, p: int, rounds: nat): (r: seq<Slot>)
    requires 2 * GAP < |s| && (forall i :: IsNode(s, i) ==> s[i].ilen <= 8)
    ensures |r| == |s| && (forall i :: IsNode(r, i) ==> r[i].ilen <= 8)
    decreases rounds
  {
    if rounds == 0 then s
    else if !IsNode(s, p) then AfterRelocation(s, OwnerOf(s, p))
    else
      var q := Other(s, h, p);
      AfterMove(if s[q] == Empty then s else AfterDisplacement(s, h, q, rounds - 1), p, q)
  }

  lemma {:induction false} ChainFromAnyLink(s: seq<Slot>, h: Hashes, p: int, f: nat, k: nat, g: nat)
    requires 2 * GAP < |s| && (forall i :: IsNode(s, i) ==> s[i].ilen <= 8)
    requires var c := Chain(s, h, p, f); c.Some? && k < |c.value|
    requires Chain(s, h, Chain(s, h, p, f).value[k], g).Some?
    ensures Chain(s, h, Chain(s, h, p, f).value[k], g).value == Chain(s, h, p, f).value[k..]
    decreases f, g
  {
    var c := Chain(s, h, p, f).value;
    if k > 0 {
      ChainFromAnyLink(s, h, c[1], f - 1, k - 1, g);
      assert c == [p] + c[1..];
    } else if |c| > 1 {
      var d := Chain(s, h, p, g).value;
      assert c == [p] + c[1..] && d == [p] + d[1..];
      ChainFromAnyLink(s, h, c[1], f - 1, 0, g - 1);
      assert c[1..][0..] == c[1..];
    }
  }

  // A chain that ends visits no slot twice.
  lemma {:induction false} ChainHasNoRepeat(s: seq<Slot>, h: Hashes, p: int, f: nat)
    requires 2 * GAP < |s| && (forall i :: IsNode(s, i) ==> s[i].ilen <= 8)
    requires Chain(s, h, p, f).Some?
    ensures var c := Chain(s, h, p, f).value; forall i, j :: 0 <= i < j < |c| ==> c[i] != c[j]
    decreases f
  {
    var c := Chain(s, h, p, f).value;
    if |c| > 1 {
      ChainHasNoRepeat(s, h, c[1], f - 1);
      assert c == [p] + c[1..];
      forall j | 1 <= j < |c| ensures c[j] != p {
        if c[j] == p {
          ChainFromAnyLink(s, h, p, f, j, f);
          assert false;
        }
      }
    }
  }

  // t is s after the displacement along the chain from p: nodes off the chain stay put, nodes
  // on the chain are at their other position.
  ghost predicate ChainMoved(s: seq<Slot>, t: seq<Slot>, h: Hashes, p: int, rounds: nat)
    requires Shape(s) && Chain(s, h, p, rounds).Some?
  {
    && (forall j :: IsNode(s, j) && j !in Chain(s, h, p, rounds).value ==> SameNode(s, j, t, j))
    && (forall j :: IsNode(s, j) && j in Chain(s, h, p, rounds).value ==> HoldsIndex(t, Other(s, h, j), IndexOf(s[j])))
  }

  lemma InvShape(s: seq<Slot>, h: Hashes, m: map<Index, Info>)
    requires TableInv(s, h, m)
    ensures Shape(s)
  {
  }

  lemma IndexIsUnique(s: seq<Slot>, h: Hashes, m: map<Index, Info>)
    requires TableInv(s, h, m)
    ensures forall i :: IsNode(s, i) ==> s[i].ilen <= 8
    ensures forall i, j :: IsNode(s, i) && IsNode(s, j) && IndexOf(s[i]) == IndexOf(s[j]) ==> i == j
  {
  }

  lemma ChainUnfold(s: seq<Slot>, h: Hashes, p: int, rounds: nat)
    requires Shape(s) && IsNode(s, p) && rounds > 0 && s[Other(s, h, p)] != Empty
    ensures Chain(s, h, p, rounds) == None <==> Chain(s, h, Other(s, h, p), rounds - 1) == None
  {
  }

  lemma ChainOfNone(s: seq<Slot>, h: Hashes, p: int)
    requires 2 * GAP < |s| && forall i :: IsNode(s, i) ==> s[i].ilen <= 8
    ensures Chain(s, h, p, 0) == None
  {
  }

  // A chain that starts at a bitmap ends there.
  lemma BitmapVictim(s: seq<Slot>, r: seq<Slot>, h: Hashes, p: int, rounds: nat)
    requires Shape(s) && (forall i :: IsNode(s, i) ==> s[i].ilen <= 8) && 0 <= p < |s| && s[p].Bitmap? && rounds > 0
    requires Rearranged(s, r, OwnerOf(s, p)) && r == AfterRelocation(s, OwnerOf(s, p))
    ensures Chain(s, h, p, rounds).Some? && ChainMoved(s, r, h, p, rounds) && r == AfterDisplacement(s, h, p, rounds)
  {
    hide Shape, SameNode, OthersKept, AfterRelocation, OwnerOf;
  }

  lemma DisplacementUnfold(s: seq<Slot>, h: Hashes, m: map<Index, Info>, p: int, rounds: nat)
    requires TableInv(s, h, m) && IsNode(s, p) && rounds > 0
    ensures 2 * GAP < |s| && (forall i :: IsNode(s, i) ==> s[i].ilen <= 8) && 0 <= Other(s, h, p) < |s|
    ensures AfterDisplacement(s, h, p, rounds)
         == AfterMove(if s[Other(s, h, p)] == Empty then s else AfterDisplacement(s, h, Other(s, h, p), rounds - 1), p,
                      Other(s, h, p))
  {
    NodesAreOk(s, h, m);
  }

  lemma OtherIsOther(s: seq<Slot>, h: Hashes, m: map<Index, Info>, p: int)
    requires TableInv(s, h, m) && IsNode(s, p)
    ensures NodeOk(s[p]) && Inside(s, Other(s, h, p))
    ensures var k := IndexOf(s[p]);
            (p == Place1(h, |s|, k) && Other(s, h, p) == Place2(h, |s|, k))
            || (p == Place2(h, |s|, k) && Other(s, h, p) == Place1(h, |s|, k))
  {
    assert Placed(s, h, p);
  }

  // Vacating the rest of the chain leaves the node at p where it is.
  lemma NodeStillThere(s: seq<Slot>, t: seq<Slot>, h: Hashes, p: int, rounds: nat)
    requires Shape(s) && IsNode(s, p) && rounds > 0 && s[Other(s, h, p)] != Empty
    requires var q := Other(s, h, p); Chain(s, h, q, rounds - 1).Some? && ChainMoved(s, t, h, q, rounds - 1)
    ensures SameNode(s, p, t, p)
  {
    var c := Chain(s, h, p, rounds).value;
    var rest := Chain(s, h, Other(s, h, p), rounds - 1).value;
    ChainHasNoRepeat(s, h, p, rounds);
    assert c == [p] + rest;
    forall i | 0 <= i < |rest| ensures rest[i] != p {
      assert c[i + 1] == rest[i] && c[0] == p;
    }
  }

  // One more link: after the rest of the chain, p itself moves to the slot just freed.
  lemma ChainStep(s: seq<Slot>, t: seq<Slot>, r: seq<Slot>, h: Hashes, p: int, rounds: nat)
    requires Shape(s) && Shape(t) && IsNode(s, p) && rounds > 0 && SameNode(s, p, t, p)
    requires var q := Other(s, h, p);
             if s[q] == Empty then t == s
             else Chain(s, h, q, rounds - 1).Some? && ChainMoved(s, t, h, q, rounds - 1)
    requires 0 <= Other(s, h, p) < |t| && t[Other(s, h, p)] == Empty && Moved(t, r, p, Other(s, h, p))
    requires forall i, j :: IsNode(t, i) && IsNode(t, j) && IndexOf(t[i]) == IndexOf(t[j]) ==> i == j
    requires forall i, j :: IsNode(s, i) && IsNode(s, j) && IndexOf(s[i]) == IndexOf(s[j]) ==> i == j
    ensures Chain(s, h, p, rounds).Some? && ChainMoved(s, r, h, p, rounds)
  {
    hide Shape, Children, NodeOk;
    NodesAreOkShape(s);
    NodesAreOkShape(t);
    var q := Other(s, h, p);
    var c := Chain(s, h, p, rounds).value;
    ChainCons(s, h, p, rounds);
    forall j | IsNode(s, j) && j !in c ensures SameNode(s, j, r, j) {
      assert SameNode(s, j, t, j) && SameNode(t, j, r, j);
    }
    forall j | IsNode(s, j) && j in c ensures HoldsIndex(r, Other(s, h, j), IndexOf(s[j])) {
      var i := Other(s, h, j);
      if j == p {
        assert SameNode(t, p, r, q);
      } else {
        assert HoldsIndex(t, i, IndexOf(s[j]));
        assert IndexOf(s[j]) != IndexOf(s[p]);
        assert i != p && i != q;
        assert SameNode(t, i, r, i);
      }
    }
  }

  lemma ChainCons(s: seq<Slot>, h: Hashes, p: int, rounds: nat)
    requires Shape(s) && IsNode(s, p) && rounds > 0
    requires s[Other(s, h, p)] == Empty || Chain(s, h, Other(s, h, p), rounds - 1).Some?
    ensures Chain(s, h, p, rounds).Some?
    ensures var q, c := Other(s, h, p), Chain(s, h, p, rounds).value;
            if s[q] == Empty then c == [p]
            else forall j :: j in c <==> j == p || j in Chain(s, h, q, rounds - 1).value
    ensures s[Other(s, h, p)] != Empty ==> Other(s, h, p) in Chain(s, h, Other(s, h, p), rounds - 1).value
  {
    var q := Other(s, h, p);
    if s[q] != Empty {
      var rest := Chain(s, h, q, rounds - 1).value;
      assert rest[0] == q;
    }
  }

  lemma MovedToOther(s: seq<Slot>, t: seq<Slot>, r: seq<Slot>, h: Hashes, m: map<Index, Info>, p: int)
    requires TableInv(s, h, m) && TableInv(t, h, m) && |t| == |s| && IsNode(s, p) && SameNode(s, p, t, p)
    requires 0 <= Other(s, h, p) < |t| && t[Other(s, h, p)] == Empty && Moved(t, r, p, Other(s, h, p))
    ensures TableInv(r, h, m)
  {
    OtherIsOther(s, h, m, p);
    MovedInv(t, r, h, m, p, Other(s, h, p));
  }

  // A link added to a displacement, with the table invariant.
  lemma LinkAdded(s: seq<Slot>, t: seq<Slot>, r: seq<Slot>, h: Hashes, m: map<Index, Info>, p: int, rounds: nat)
    requires TableInv(s, h, m) && TableInv(t, h, m) && |t| == |s| && IsNode(s, p) && rounds > 0
    requires Shape(s) && Shape(t) && NodeOk(s[p]) && SameNode(s, p, t, p)
             && (forall i :: IsNode(s, i) ==> s[i].ilen <= 8)
    requires var q := Other(s, h, p);
             if s[q] == Empty then t == s
             else Chain(s, h, q, rounds - 1).Some? && ChainMoved(s, t, h, q, rounds - 1)
    requires 0 <= Other(s, h, p) < |t| && t[Other(s, h, p)] == Empty && Moved(t, r, p, Other(s, h, p))
    ensures Chain(s, h, p, rounds).Some? && ChainMoved(s, r, h, p, rounds) && TableInv(r, h, m)
  {
    hide TableInv, Moved, Shape, SameNode, ChainMoved, Chain, NodeOk, Other;
    IndexIsUnique(s, h, m);
    IndexIsUnique(t, h, m);
    ChainStep(s, t, r, h, p, rounds);
    MovedToOther(s, t, r, h, m, p);
  }

  // ---------- changes of one node ----------

  // Node i of r may tell something new about its index; every other node stays as in s.
  lemma OneNodeChanged(s: seq<Slot>, r: seq<Slot>, h: Hashes, m: map<Index, Info>, i: int)
    requires TableInv(s, h, m) && IsNode(s, i) && |r| == |s| && Shape(r) && IsNode(r, i)
    requires s[i].ilen <= 8 && r[i].ilen <= 8 && IndexOf(r[i]) == IndexOf(s[i]) && r[i].fp == s[i].fp
    requires forall j :: IsNode(s, j) && j != i ==> SameNode(s, j, r, j)
    requires forall j :: IsNode(r, j) ==> IsNode(s, j)
    ensures TableInv(r, h, m[IndexOf(s[i]) := InfoAt(r, i)])
  {
    hide Shape, NodeOk, Children;
    InvShape(s, h, m);
    NodesAreOk(s, h, m);
    NodesAreOkShape(r);
    var n := m[IndexOf(s[i]) := InfoAt(r, i)];
    forall j | IsNode(r, j)
      ensures Placed(r, h, j) && IndexOf(r[j]) == IndexOf(s[j]) && n[IndexOf(r[j])] == InfoAt(r, j)
    {
      assert Placed(s, h, j);
      assert j != i ==> SameNode(s, j, r, j);
    }
    forall k | k in n ensures exists j :: HoldsIndex(r, j, k) {
      var j :| HoldsIndex(s, j, k);
      assert HoldsIndex(r, j, k);
    }
  }

  lemma NodesAreOk(s: seq<Slot>, h: Hashes, m: map<Index, Info>)
    requires TableInv(s, h, m)
    ensures Shape(s) && forall i :: IsNode(s, i) ==> NodeOk(s[i]) && s[i].ilen <= 8 && Inside(s, i)
  {
  }

  lemma NodePlaced(s: seq<Slot>, h: Hashes, m: map<Index, Info>, i: int)
    requires TableInv(s, h, m) && IsNode(s, i)
    ensures s[i].ilen <= 8 && Placed(s, h, i)
  {
  }

  lemma NodesAreOkShape(s: seq<Slot>)
    requires Shape(s)
    ensures 2 * GAP < |s| && forall i :: IsNode(s, i) ==> NodeOk(s[i]) && s[i].ilen <= 8 && Inside(s, i)
  {
  }

  // Every node is still in its slot.
  ghost predicate SameIndices(s: seq<Slot>, r: seq<Slot>) {
    |r| == |s|
    && forall i, k ::
         HoldsIndex(s, i, k) ==> HoldsIndex(r, i, k) && r[i].dlen == s[i].dlen && r[i].ilen == s[i].ilen
  }

  // Owners stay owners when a node keeps its child map.
  lemma OwnersKept(s: seq<Slot>, r: seq<Slot>, i: int)
    requires SameElsewhere(s, r, {i}) && IsNode(s, i) && IsNode(r, i) && r[i].kids == s[i].kids
    ensures forall a, j :: Owns(r, j, a) <==> Owns(s, j, a)
  {
  }

  lemma NewMinKeyShape(s: seq<Slot>, r: seq<Slot>, i: int)
    requires Shape(s) && IsNode(s, i) && SameElsewhere(s, r, {i}) && r[i].Node? && r[i] == s[i].(minKey := r[i].minKey)
    ensures Shape(r) && Children(r, i) == Children(s, i) && OthersKept(s, r, {i})
    ensures forall j :: IsNode(s, j) && j != i ==> SameNode(s, j, r, j)
  {
    hide SameNode, OthersKept;
    OwnersKept(s, r, i);
    OthersUntouched(s, r, {i}, {});
  }

  // A node with a new index put in a free slot at one of its positions.
  lemma FreshNode(s: seq<Slot>, r: seq<Slot>, h: Hashes, m: map<Index, Info>, i: int)
    requires TableInv(s, h, m) && Inside(s, i) && s[i] == Empty && SameElsewhere(s, r, {i})
    requires IsNode(r, i) && NodeOk(r[i]) && r[i].kids.Inline? && IndexOf(r[i]) !in m && Placed(r, h, i)
    ensures TableInv(r, h, m[IndexOf(r[i]) := InfoAt(r, i)]) && OthersKept(s, r, {i})
  {
    NodesAreOk(s, h, m);
    FreshShape(s, r, i);
    NodesAreOkShape(r);
    hide NodeOk, Children, Shape;
    var n := m[IndexOf(r[i]) := InfoAt(r, i)];
    forall j | IsNode(r, j)
      ensures Placed(r, h, j) && IndexOf(r[j]) in n && n[IndexOf(r[j])] == InfoAt(r, j)
    {
      if j != i {
        NodePlaced(s, h, m, j);
        assert SameNode(s, j, r, j);
      }
    }
    forall k | k in n ensures exists j :: HoldsIndex(r, j, k) {
      if k in m {
        var j :| HoldsIndex(s, j, k);
        assert HoldsIndex(r, j, k);
      } else {
        assert HoldsIndex(r, i, k);
      }
    }
  }

  lemma FreshShape(s: seq<Slot>, r: seq<Slot>, i: int)
    requires Shape(s) && Inside(s, i) && s[i] == Empty && SameElsewhere(s, r, {i})
    requires IsNode(r, i) && NodeOk(r[i]) && r[i].kids.Inline?
    ensures Shape(r) && OthersKept(s, r, {i})
    ensures forall j :: IsNode(s, j) && j != i ==> SameNode(s, j, r, j)
  {
    assert forall a, j :: Owns(r, j, a) <==> Owns(s, j, a);
    OthersUntouched(s, r, {i}, {});
  }

  lemma MovedFacts(s: seq<Slot>, q: seq<Slot>, pos: int, x: int)
    requires Shape(s) && IsNode(s, pos) && 0 <= x < |s| && s[x] == Empty && Moved(s, q, pos, x)
    ensures |q| == |s| && IsNode(q, x) && q[x].ilen == s[pos].ilen && q[x].dlen == s[pos].dlen
            && q[x].minKey == s[pos].minKey && NodeOk(q[x])
  {
  }

  lemma SplitOffPlaced(q: seq<Slot>, r: seq<Slot>, h: Hashes, x: int, len: nat)
    requires 2 * GAP < |q| == |r| && IsNode(q, x) && len <= 8
             && r[x] == q[x].(ilen := len, fp := Print(h, At(q[x].minKey, len)))
    requires x == Place1(h, |q|, At(q[x].minKey, len)) || x == Place2(h, |q|, At(q[x].minKey, len))
    ensures Placed(r, h, x)
  {
    hide Top, Place1, Place2, Print;
  }

  lemma SplitOffKeeps(s: seq<Slot>, q: seq<Slot>, r: seq<Slot>, pos: int, x: int)
    requires Shape(s) && IsNode(s, pos) && 0 <= x < |s| && s[x] == Empty && Moved(s, q, pos, x)
    requires SameElsewhere(q, r, {x}) && r[x].Node? && IsNode(q, x)
    requires r[x] == q[x].(ilen := r[x].ilen, fp := r[x].fp) && 1 <= r[x].ilen <= q[x].dlen
    ensures OthersKept(s, r, {pos, x})
  {
    hide NodeView;
    ReindexedShape(q, r, x);
  }

  // The node at pos moved to x and re-indexed there with a longer prefix of its minimum key.
  lemma SplitOffInv(s: seq<Slot>, q: seq<Slot>, r: seq<Slot>, h: Hashes, m: map<Index, Info>, pos: int, x: int,
                    len: nat)
    requires TableInv(s, h, m) && IsNode(s, pos) && 0 <= x < |s| && s[x] == Empty && Moved(s, q, pos, x)
    requires s[pos].ilen < len <= s[pos].dlen && At(s[pos].minKey, len) !in m
    requires SameElsewhere(q, r, {x}) && r[x] == q[x].(ilen := len, fp := Print(h, At(s[pos].minKey, len)))
    requires Placed(r, h, x)
    ensures TableInv(r, h, (m - {IndexOf(s[pos])})[At(s[pos].minKey, len) := m[IndexOf(s[pos])]])
    ensures r[pos] == Empty
  {
    NodesAreOk(s, h, m);
    var kOld, kNew := IndexOf(s[pos]), At(s[pos].minKey, len);
    var n := (m - {kOld})[kNew := m[kOld]];
    ReindexedShape(q, r, x);
    NodesAreOkShape(r);
    hide Shape, NodeOk, Children, Top, Place1, Place2, Moved;
    forall j | IsNode(r, j)
      ensures Placed(r, h, j) && IndexOf(r[j]) in n && n[IndexOf(r[j])] == InfoAt(r, j)
      ensures j == x || (IsNode(s, j) && IndexOf(s[j]) == IndexOf(r[j]) && j != pos)
    {
      NodeAfterSplitOff(s, q, r, h, m, pos, x, len, j);
    }
    forall k | k in n ensures exists j :: HoldsIndex(r, j, k) {
      if k == kNew {
        assert HoldsIndex(r, x, k);
      } else {
        var j :| HoldsIndex(s, j, k);
        StaysIndexed(s, q, r, pos, x, j, k);
      }
    }
    MovedLeaves(s, q, pos, x);
  }

  lemma MovedLeaves(s: seq<Slot>, q: seq<Slot>, pos: int, x: int)
    requires Shape(s) && IsNode(s, pos) && Moved(s, q, pos, x)
    ensures |q| == |s| && q[pos] == Empty && pos != x
  {
  }

  lemma NodeAfterSplitOff(s: seq<Slot>, q: seq<Slot>, r: seq<Slot>, h: Hashes, m: map<Index, Info>, pos: int, x: int,
                          len: nat, j: int)
    requires TableInv(s, h, m) && IsNode(s, pos) && 0 <= x < |s| && s[x] == Empty && Moved(s, q, pos, x)
    requires s[pos].ilen < len <= s[pos].dlen <= 8 && At(s[pos].minKey, len) !in m
    requires SameElsewhere(q, r, {x}) && r[x] == q[x].(ilen := len, fp := Print(h, At(s[pos].minKey, len)))
    requires Placed(r, h, x) && Children(r, x) == Children(q, x)
    requires IsNode(r, j) && r[j].ilen <= 8 && (IsNode(q, j) && j != x ==> NodeOk(q[j]) && SameNode(q, j, r, j))
    ensures j == x || (IsNode(s, j) && s[j].ilen <= 8 && IndexOf(s[j]) == IndexOf(r[j]) && j != pos)
    ensures s[pos].ilen <= 8 && IndexOf(s[pos]) in m && 2 * GAP < |r|
    ensures Placed(r, h, j)
    ensures var n := (m - {IndexOf(s[pos])})[At(s[pos].minKey, len) := m[IndexOf(s[pos])]];
            IndexOf(r[j]) in n && n[IndexOf(r[j])] == InfoAt(r, j)
  {
    NodesAreOk(s, h, m);
    hide Shape, NodeOk, Children, Top, Place1, Place2;
    if j != x {
      assert SameNode(s, j, q, j) && Placed(s, h, j);
    }
  }

  lemma StaysIndexed(s: seq<Slot>, q: seq<Slot>, r: seq<Slot>, pos: int, x: int, j: int, k: Index)
    requires Shape(s) && IsNode(s, pos) && Moved(s, q, pos, x) && HoldsIndex(s, j, k) && k != IndexOf(s[pos])
    requires IsNode(q, j) && j != x ==> NodeOk(q[j]) && SameNode(q, j, r, j)
    requires 0 <= x < |s| && s[x] == Empty
    ensures HoldsIndex(r, j, k)
  {
    hide NodeOk, Children, Top;
    assert SameNode(s, j, q, j);
  }

  lemma ReindexedShape(q: seq<Slot>, r: seq<Slot>, x: int)
    requires Shape(q) && IsNode(q, x) && SameElsewhere(q, r, {x}) && r[x].Node?
    requires r[x] == q[x].(ilen := r[x].ilen, fp := r[x].fp) && 1 <= r[x].ilen <= q[x].dlen
    ensures Shape(r) && NodeOk(r[x]) && Children(r, x) == Children(q, x) && OthersKept(q, r, {x})
    ensures forall j :: IsNode(q, j) && j != x ==> SameNode(q, j, r, j)
  {
    hide SameNode, OthersKept;
    OwnersKept(q, r, x);
    OthersUntouched(q, r, {x}, {});
  }

  // The slots vacated to make room for index k: none when one of its positions is free.
  function Vacated(s: seq<Slot>, h: Hashes, k: Index, coin: bool): Option<seq<int>>
    requires 2 * GAP < |s| && forall i :: IsNode(s, i) ==> s[i].ilen <= 8
  {
    var h1, h2 := Place1(h, |s|, k), Place2(h, |s|, k);
    if s[h1] == Empty || s[h2] == Empty then Some([])
    else Chain(s, h, if coin then h1 else h2, 1000)
  }

  // The slot a reservation for index k hands out, and the slots after it.
  function ReservedAt(s: seq<Slot>, h: Hashes, k: Index, coin: bool): (p: int)
    requires 2 * GAP < |s|
    ensures 0 <= p < |s|
  {
    var h1, h2 := Place1(h, |s|, k), Place2(h, |s|, k);
    if s[h1] == Empty then h1 else if s[h2] == Empty then h2 else if coin then h1 else h2
  }

  ghost function AfterReservation(s: seq<Slot>, h: Hashes, k: Index, coin: bool): (r: seq<Slot>)
    requires 2 * GAP < |s| && (forall i :: IsNode(s, i) ==> s[i].ilen <= 8)
    ensures |r| == |s| && (forall i :: IsNode(r, i) ==> r[i].ilen <= 8)
  {
    if s[ReservedAt(s, h, k, coin)] == Empty then s else AfterDisplacement(s, h, ReservedAt(s, h, k, coin), 1000)
  }

  // r is s after a node with index k was put in the slot reserved for it.
  ghost predicate NodePut(s: seq<Slot>, r: seq<Slot>, h: Hashes, k: Index, coin: bool)
    requires 2 * GAP < |s| == |r| && (forall i :: IsNode(s, i) ==> s[i].ilen <= 8)
  {
    var p := ReservedAt(s, h, k, coin);
    HoldsIndex(r, p, k) && r == AfterReservation(s, h, k, coin)[p := r[p]]
  }

  // No slot can be freed for index k.
  predicate NoRoom(s: seq<Slot>, h: Hashes, k: Index, coin: bool)
    requires 2 * GAP < |s| && forall i :: IsNode(s, i) ==> s[i].ilen <= 8
  {
    Vacated(s, h, k, coin) == None
  }

  // The place reached from p after i times taking the other position of the node that is there.
  function Hop(s: seq<Slot>, h: Hashes, p: int, i: nat): (q: int)
    requires 2 * GAP < |s| && (forall j :: IsNode(s, j) ==> s[j].ilen <= 8) && 0 <= p < |s|
    ensures 0 <= q < |s|
    decreases i
  {
    if i == 0 || !IsNode(s, p) then p else Hop(s, h, Other(s, h, p), i - 1)
  }

  // The first n of these places hold nodes.
  ghost predicate AllNodes(s: seq<Slot>, h: Hashes, p: int, n: nat)
    requires 2 * GAP < |s| && (forall j :: IsNode(s, j) ==> s[j].ilen <= 8) && 0 <= p < |s|
  {
    forall i: nat :: i < n ==> IsNode(s, Hop(s, h, p, i))
  }

  // No slot can be freed exactly if both positions are taken and, from the one the coin chooses, a
  // thousand times there is a node to move and the place after the last of them is not free.
  lemma NoRoomIs(s: seq<Slot>, h: Hashes, k: Index, coin: bool)
    requires 2 * GAP < |s| && forall i :: IsNode(s, i) ==> s[i].ilen <= 8
    ensures var h1, h2 := Place1(h, |s|, k), Place2(h, |s|, k);
            var q := if coin then h1 else h2;
            NoRoom(s, h, k, coin) <==>
            s[h1] != Empty && s[h2] != Empty && AllNodes(s, h, q, 1000) && s[Hop(s, h, q, 1000)] != Empty
  {
    hide Place1, Place2, Chain, Hop, AllNodes;
    var q := if coin then Place1(h, |s|, k) else Place2(h, |s|, k);
    if s[q] != Empty {
      ChainIsHops(s, h, q, 1000);
    }
  }

  lemma {:induction false} ChainIsHops(s: seq<Slot>, h: Hashes, p: int, n: nat)
    requires 2 * GAP < |s| && (forall i :: IsNode(s, i) ==> s[i].ilen <= 8) && 0 <= p < |s| && s[p] != Empty
    ensures Chain(s, h, p, n) == None <==> AllNodes(s, h, p, n) && s[Hop(s, h, p, n)] != Empty
    decreases n
  {
    hide Place1, Place2, Top;
    assert Hop(s, h, p, 0) == p;
    if n > 0 && IsNode(s, p) {
      var q := Other(s, h, p);
      HopsFromNext(s, h, p, n);
      assert Hop(s, h, q, 0) == q;
      if s[q] != Empty {
        ChainIsHops(s, h, q, n - 1);
      }
    }
  }

  lemma HopsFromNext(s: seq<Slot>, h: Hashes, p: int, n: nat)
    requires 2 * GAP < |s| && (forall i :: IsNode(s, i) ==> s[i].ilen <= 8) && IsNode(s, p) && n > 0
    ensures var q := Other(s, h, p);
            Hop(s, h, p, n) == Hop(s, h, q, n - 1) && (AllNodes(s, h, p, n) <==> AllNodes(s, h, q, n - 1))
  {
    hide Place1, Place2, Top;
    var q := Other(s, h, p);
    assert Hop(s, h, p, 0) == p;
    forall i: nat | 0 < i < n ensures Hop(s, h, p, i) == Hop(s, h, q, i - 1) {
    }
    if AllNodes(s, h, p, n) {
      forall i: nat | i < n - 1 ensures IsNode(s, Hop(s, h, q, i)) {
        assert Hop(s, h, p, i + 1) == Hop(s, h, q, i);
      }
    }
  }

  // t is s after room was made for index k: nodes outside the vacated slots stay put, the
  // vacated ones are at their other position.
  ghost predicate RoomMade(s: seq<Slot>, t: seq<Slot>, h: Hashes, k: Index, coin: bool)
    requires Shape(s)
  {
    var v := Vacated(s, h, k, coin);
    && v.Some?
    && (forall j :: IsNode(s, j) && j !in v.value ==> SameNode(s, j, t, j))
    && (forall j :: IsNode(s, j) && j in v.value ==> HoldsIndex(t, Other(s, h, j), IndexOf(s[j])))
  }

  // A node is no longer in its slot exactly when that slot was vacated.
  lemma DisplacedIffVacated(s: seq<Slot>, t: seq<Slot>, h: Hashes, m: map<Index, Info>, k: Index, coin: bool, j: int)
    requires TableInv(s, h, m) && TableInv(t, h, m) && IsNode(s, j) && RoomMade(s, t, h, k, coin)
    ensures HoldsIndex(t, j, IndexOf(s[j])) <==> j !in Vacated(s, h, k, coin).value
  {
    hide Shape, Children, Placed;
    NodesAreOk(s, h, m);
    var v := Vacated(s, h, k, coin).value;
    if j in v {
      OtherDiffers(s, h, k, coin, j);
      IndexIsUnique(t, h, m);
    }
  }

  lemma OtherDiffers(s: seq<Slot>, h: Hashes, k: Index, coin: bool, j: int)
    requires Shape(s) && Vacated(s, h, k, coin).Some? && IsNode(s, j) && j in Vacated(s, h, k, coin).value
    ensures Other(s, h, j) != j
  {
    var p := if coin then Place1(h, |s|, k) else Place2(h, |s|, k);
    ChainLinksMove(s, h, p, 1000, j);
  }

  // A chain through a node whose two positions coincide never ends.
  lemma {:induction false} ChainLinksMove(s: seq<Slot>, h: Hashes, p: int, rounds: nat, j: int)
    requires 2 * GAP < |s| && (forall i :: IsNode(s, i) ==> s[i].ilen <= 8)
    requires Chain(s, h, p, rounds).Some? && IsNode(s, j) && j in Chain(s, h, p, rounds).value
    ensures Other(s, h, j) != j
    decreases rounds
  {
    if j == p {
      if Other(s, h, p) == p {
        SelfLoop(s, h, p, rounds);
        assert false;
      }
    } else {
      ChainLinksMove(s, h, Other(s, h, p), rounds - 1, j);
    }
  }

  lemma {:induction false} SelfLoop(s: seq<Slot>, h: Hashes, p: int, rounds: nat)
    requires 2 * GAP < |s| && (forall i :: IsNode(s, i) ==> s[i].ilen <= 8)
    requires IsNode(s, p) && Other(s, h, p) == p
    ensures Chain(s, h, p, rounds) == None
  {
    if rounds != 0 {
      SelfLoop(s, h, p, rounds - 1);
    }
  }

  lemma SameAsItself(s: seq<Slot>)
    requires Shape(s)
    ensures forall j :: IsNode(s, j) ==> NodeOk(s[j]) && SameNode(s, j, s, j)
  {
  }

  lemma OneChild(packed: Word)
    ensures packed < 256 ==> InlineOk(packed, 1) && Members(Inline(packed, 1), 0, 0, 0) == {packed}
  {
    assert Unpack(packed, 1) == [packed % 256];
  }

  // ---------- layouts ----------

  // What the search for room sees of a slot: free, a bitmap, or the index of a node.
  datatype Cell = Free | Words | Holds(k: Index)

  function CellOf(x: Slot): Cell {
    match x
    case Empty => Free
    case Bitmap(_, _, _) => Words
    case Node(ilen, _, _, minKey, _) => Holds(Index(ilen, if ilen <= 8 then Top(minKey, ilen) else 0))
  }

  ghost predicate SameLayout(s: seq<Slot>, t: seq<Slot>) {
    |s| == |t| && forall i :: 0 <= i < |s| ==> CellOf(s[i]) == CellOf(t[i])
  }

  lemma LayoutTrans(s: seq<Slot>, t: seq<Slot>, u: seq<Slot>)
    requires SameLayout(s, t) && SameLayout(t, u)
    ensures SameLayout(s, u)
  {
  }

  lemma {:induction false} ChainByLayout(s: seq<Slot>, t: seq<Slot>, h: Hashes, p: int, rounds: nat)
    requires 2 * GAP < |s| && (forall i :: IsNode(s, i) ==> s[i].ilen <= 8)
             && (forall i :: IsNode(t, i) ==> t[i].ilen <= 8)
    requires SameLayout(s, t)
    ensures Chain(s, h, p, rounds) == Chain(t, h, p, rounds)
    decreases rounds
  {
    hide Top, Place1, Place2;
    assert 0 <= p < |s| ==> CellOf(s[p]) == CellOf(t[p]);
    if rounds != 0 && IsNode(s, p) {
      var q := Other(s, h, p);
      assert CellOf(s[q]) == CellOf(t[q]);
      if s[q] != Empty {
        ChainByLayout(s, t, h, q, rounds - 1);
      }
    }
  }

  // Whether there is room for an index, and where, depends on the layout only.
  lemma RoomByLayout(s: seq<Slot>, t: seq<Slot>, h: Hashes, k: Index, coin: bool)
    requires 2 * GAP < |s| && (forall i :: IsNode(s, i) ==> s[i].ilen <= 8)
             && (forall i :: IsNode(t, i) ==> t[i].ilen <= 8)
    requires SameLayout(s, t)
    ensures NoRoom(s, h, k, coin) <==> NoRoom(t, h, k, coin)
    ensures ReservedAt(s, h, k, coin) == ReservedAt(t, h, k, coin)
  {
    hide Chain, Place1, Place2;
    var h1, h2 := Place1(h, |s|, k), Place2(h, |s|, k);
    assert CellOf(s[h1]) == CellOf(t[h1]) && CellOf(s[h2]) == CellOf(t[h2]);
    ChainByLayout(s, t, h, if coin then h1 else h2, 1000);
  }

  // The layout after AddChild at node i: the ninth child may take a slot for the bitmap.
  function AfterChild(s: seq<Slot>, i: int): (r: seq<Slot>)
    requires 2 * GAP < |s|
    ensures |r| == |s|
    ensures (forall j :: IsNode(s, j) ==> s[j].ilen <= 8) ==> forall j :: IsNode(r, j) ==> r[j].ilen <= 8
  {
    if IsNode(s, i) && Inside(s, i) && s[i].kids.Inline? && s[i].kids.num == 8 then AfterBitMap(s, i) else s
  }

  function AfterBitMap(s: seq<Slot>, i: int): (r: seq<Slot>)
    requires 2 * GAP < |s| && Inside(s, i)
    ensures |r| == |s|
    ensures (forall j :: IsNode(s, j) ==> s[j].ilen <= 8) ==> forall j :: IsNode(r, j) ==> r[j].ilen <= 8
  {
    if FreeOffset(s, i) == 0 then s else s[i + FreeOffset(s, i) := Bitmap(FLAG_WORD, 0, 0)]
  }

  // The layout after a split: the node at pos moves to x under its index of length len, and a
  // node with its old index takes its place.
  function AfterSplit(s: seq<Slot>, pos: int, x: int, len: nat): (r: seq<Slot>)
    requires 2 * GAP < |s| && len <= 8
    ensures |r| == |s|
    ensures (forall j :: IsNode(s, j) ==> s[j].ilen <= 8) ==> forall j :: IsNode(r, j) ==> r[j].ilen <= 8
  {
    var t := AfterMove(s, pos, x);
    if !IsNode(s, pos) || !IsNode(t, x) then s
    else t[x := t[x].(ilen := len)][pos := s[pos].(kids := Inline(0, 2))]
  }

  // ---------- lookups ----------

  // The index of length len on the path of key.
  function At(key: Key, len: nat): Index
    requires len <= 8
  {
    Index(len, Top(key, len))
  }

  // LookupMustExistPromise: a known slot, or two candidate slots still to be compared.
  datatype Promise =
    | Invalid
    | Direct(h1: int)
    | Search(h1: int, h2: int, len: nat, fp: nat, prefix: nat)

  // What a promise resolves to: the first candidate slot is taken if it matches, else the second
  // without another look.
  function Resolved(s: seq<Slot>, p: Promise): Option<Key> {
    match p
    case Invalid => None
    case Direct(i) => if IsNode(s, i) then Some(s[i].minKey) else None
    case Search(h1, h2, len, fp, prefix) =>
      var i := if Matches(s, h1, len, fp, prefix) then h1 else h2;
      if IsNode(s, i) then Some(s[i].minKey) else None
  }

  // `IsEqual`: the packed word matches and so does the prefix.
  predicate Matches(s: seq<Slot>, i: int, len: nat, fp: nat, prefix: nat) {
    IsNode(s, i) && len <= 8 && s[i].ilen == len && s[i].fp == fp && Top(s[i].minKey, len) == prefix
  }

  // p is a promise for index k: the slot that holds it, or its two positions.
  predicate IsPromiseFor(s: seq<Slot>, h: Hashes, p: Promise, k: Index) {
    match p
    case Invalid => false
    case Direct(i) => HoldsIndex(s, i, k)
    case Search(_, _, _, _, _) =>
      2 * GAP < |s| && p == Search(Place1(h, |s|, k), Place2(h, |s|, k), k.len, Print(h, k), k.prefix)
  }

  // A promise for a stored index resolves to the minimum key of its node.
  lemma PromiseResolves(s: seq<Slot>, h: Hashes, m: map<Index, Info>, p: Promise, k: Index)
    requires TableInv(s, h, m) && k in m && IsPromiseFor(s, h, p, k)
    ensures Resolved(s, p) == Some(m[k].minKey)
  {
    NodesAreOk(s, h, m);
    hide TableInv, Top, Print, Place1, Place2, Children, Shape;
    Located(s, h, m, k);
    PrintMatches(s, h, m);
    var h1, h2 := Place1(h, |s|, k), Place2(h, |s|, k);
    if p.Search? && !HoldsIndex(s, h1, k) {
      assert HoldsIndex(s, h2, k);
      assert !Matches(s, h1, k.len, Print(h, k), k.prefix);
    }
  }

  // A stored node carries the fingerprint of its index.
  lemma PrintMatches(s: seq<Slot>, h: Hashes, m: map<Index, Info>)
    requires TableInv(s, h, m)
    ensures forall i :: IsNode(s, i) ==> s[i].ilen <= 8 && s[i].fp == Print(h, IndexOf(s[i]))
  {
    forall i | IsNode(s, i) ensures s[i].ilen <= 8 && s[i].fp == Print(h, IndexOf(s[i])) {
      assert Placed(s, h, i);
    }
  }

  // No node longer than l lies on the path of key.
  ghost predicate NoneDeeper(m: map<Index, Info>, key: Key, l: nat) {
    forall j :: l < j <= 8 ==> At(key, j) !in m
  }

  // The deepest node on the path of key has index length l.
  ghost predicate Deepest(m: map<Index, Info>, key: Key, l: nat) {
    3 <= l <= 8 && At(key, l) in m && NoneDeeper(m, key, l)
  }

  // Up to length n, pos1 and pos2 still hold the two candidate positions of each prefix of key.
  ghost predicate Candidates(h: Hashes, size: nat, key: Key, n: int, pos1: seq<int>, pos2: seq<int>)
    requires 2 * GAP < size
  {
    |pos1| == 8 && |pos2| == 8
    && forall i :: 0 <= i < n && i < 8 ==>
         pos1[i] == Place1(h, size, At(key, i + 1)) && pos2[i] == Place2(h, size, At(key, i + 1))
  }

  lemma FoundLcp(key: Key, minKey: Key, l: nat)
    requires 3 <= l <= 8 && Top(minKey, l) == Top(key, l)
    ensures Lcp(key, minKey) >= l
  {
    LcpSpec(key, minKey, l);
  }

  // ---------- the table ----------

  ghost function Elements(list: seq<nat>): set<nat> {
    set c | c in list
  }

  // The children of an inline list, and none before the first.
  lemma InlineElements(s: seq<Slot>, i: int)
    requires Shape(s) && IsNode(s, i) && s[i].dlen < 8 && s[i].kids.Inline?
    ensures Children(s, i) == Elements(Unpack(s[i].kids.packed, s[i].kids.num)) && Elements([]) == {}
  {
  }

  // The next of eight packed bytes.
  lemma NextElement(list: seq<nat>, j: nat, packed: nat)
    requires j < |list| && Unpack(packed, |list| - j) == list[j..]
    ensures Elements(list[..j + 1]) == Elements(list[..j]) + {packed % 256}
    ensures packed % 256 < 256 && Unpack(packed / 256, |list| - j - 1) == list[j + 1..]
  {
    assert list[j] == packed % 256 && list[..j + 1] == list[..j] + [list[j]];
  }

  class CuckooHashTable {
    const ht: array<Slot>
    const h: Hashes
    // What the nodes in the table say, by index.
    ghost var nodes: map<Index, Info>

    ghost predicate Valid()
      reads this, ht
    {
      TableInv(ht[..], h, nodes)
    }

    constructor (size: nat, hashes: Hashes)
      requires 0 < size
      ensures Valid() && fresh(ht) && h == hashes
      ensures nodes == map[] && ht.Length == size + 2 * GAP && forall i :: 0 <= i < ht.Length ==> ht[i] == Empty
    {
      ht := new Slot[size + 2 * GAP](_ => Empty);
      h := hashes;
      nodes := map[];
    }

    // Address bits of slot i: the reachable part of the array starts on a 128-byte boundary.
    function LowBits(i: int): int {
      24 * (i - GAP) % 64
    }

    method FindNeighboringEmptySlot(i: int) returns (off: int)
      requires Inside(ht[..], i)
      ensures off == FreeOffset(ht[..], i)
    {
      if LowBits(i) < 32 {
        if ht[i + 1] == Empty {
          return 1;
        } else if ht[i - 1] == Empty {
          return -1;
        }
      }
      var d := 1;
      while d <= 3
        invariant 1 <= d <= 4
        invariant forall j :: i - d < j < i + d && j != i ==> ht[j] != Empty
        invariant LowBits(i) < 32 ==> ht[i + 1] != Empty && ht[i - 1] != Empty
      {
        if ht[i + d] == Empty {
          return d;
        }
        if ht[i - d] == Empty {
          return -d;
        }
        d := d + 1;
      }
      return 0;
    }

    method CopyToExternalBitMap(i: int) returns (k: Kids)
      requires IsNode(ht[..], i) && ht[i].kids.Near? && ht[i].dlen < 8
      requires var b := i + ht[i].kids.offset; 0 <= b < ht.Length && ht[b].Bitmap?
      ensures k.External? && Members(k, 0, 0, 0) == Children(ht[..], i)
      ensures k == ExternalCopy(ht[..], i)
    {
      var b := i + ht[i].kids.offset;
      k := External([ht[i].kids.low, Patched(ht[b].w0, ht[i].kids.b94, ht[i].kids.b95), ht[b].w1, ht[b].w2]);
    }

    method MoveNode(from: int, to: int)
      requires Shape(ht[..]) && IsNode(ht[..], from) && Inside(ht[..], to) && ht[to] == Empty
      modifies ht
      ensures Moved(old(ht[..]), ht[..], from, to)
      ensures ht[..] == AfterMove(old(ht[..]), from, to) && ht[from] == Empty
    {
      hide Moved, Children, Patched;
      ghost var s := ht[..];
      MoveNodeMoves(s, from, to);
      ht[to] := ht[from];
      if !ht[from].kids.Near? {
        ht[from] := Empty;
        assert ht[..] == AfterMove(s, from, to);
        return;
      }
      var b := from + ht[from].kids.offset;
      BitmapOwner(s, from, b);
      var off := FindNeighboringEmptySlot(to);
      assert off == FreeOffset(s, to);
      if off != 0 {
        ht[to] := ht[to].(kids := ht[to].kids.(offset := off));
        ht[to + off] := ht[b];
      } else {
        var k := CopyToExternalBitMap(from);
        ht[to] := ht[to].(kids := k);
      }
      ht[from] := Empty;
      ht[b] := Empty;
      assert ht[..] == AfterMove(s, from, to);
    }

    method RelocateBitMap(i: int)
      requires Shape(ht[..]) && IsNode(ht[..], i) && ht[i].kids.Near?
      modifies ht
      ensures Rearranged(old(ht[..]), ht[..], i)
      ensures forall b :: Owns(old(ht[..]), i, b) ==> 0 <= b < ht.Length && ht[b] == Empty
      ensures ht[..] == AfterRelocation(old(ht[..]), i)
    {
      hide Rearranged, Children, Patched;
      ghost var s := ht[..];
      RelocationRearranges(s, i);
      var b := i + ht[i].kids.offset;
      BitmapOwner(s, i, b);
      var off := FindNeighboringEmptySlot(i);
      if off == 0 {
        var k := CopyToExternalBitMap(i);
        ht[i] := ht[i].(kids := k);
      } else {
        ht[i + off] := ht[b];
        ht[i] := ht[i].(kids := ht[i].kids.(offset := off));
      }
      ht[b] := Empty;
      assert ht[..] == AfterRelocation(s, i);
    }

    method BitMapSet(i: int, child: nat)
      requires Shape(ht[..]) && IsNode(ht[..], i) && ht[i].dlen < 8 && !ht[i].kids.Inline? && child < 256
      modifies ht
      ensures ChildAdded(old(ht[..]), ht[..], i, child)
      ensures !ht[i].kids.Inline? && SameLayout(old(ht[..]), ht[..])
    {
      ghost var s := ht[..];
      var k := ht[i].kids;
      if k.External? {
        ht[i] := ht[i].(kids := External(BitmapAdd(k.words, child)));
        forall d | 0 <= d < 256
          ensures BitmapHas(ht[i].kids.words, d) <==> BitmapHas(k.words, d) || d == child
        {
          BitmapAddHas(k.words, child, d);
        }
        ReplaceKids(s, ht[..], i, ht[i].kids);
      } else {
        NearBitMapSet(i, child);
      }
    }

    method NearBitMapSet(i: int, child: nat)
      requires Shape(ht[..]) && IsNode(ht[..], i) && ht[i].dlen < 8 && ht[i].kids.Near? && child < 256
      modifies ht
      ensures ChildAdded(old(ht[..]), ht[..], i, child)
      ensures !ht[i].kids.Inline? && SameLayout(old(ht[..]), ht[..])
    {
      ghost var s := ht[..];
      var k := ht[i].kids;
      var b := i + k.offset;
      BitmapOwner(s, i, b);
      NearAdd(k, ht[b].w0, ht[b].w1, ht[b].w2, child);
      if child < 64 || child == 94 || child == 95 {
        ht[i] := ht[i].(kids := NearAddKids(k, child));
      } else {
        ht[b] := Bitmap(NearAddWord(ht[b].w0, 0, child), NearAddWord(ht[b].w1, 1, child),
                        NearAddWord(ht[b].w2, 2, child));
      }
      ReplaceBitmapWords(s, ht[..], i, b);
      NearChildren(s, ht[..], i, b, child);
    }

    // Gives node i an empty bitmap: in a free neighbour if there is one, else external.
    method StartBitMap(i: int)
      requires Shape(ht[..]) && IsNode(ht[..], i) && ht[i].dlen < 8 && ht[i].kids.Inline?
      modifies ht
      ensures OnlyChildrenOf(old(ht[..]), ht[..], i) && Children(ht[..], i) == {}
      ensures !ht[i].kids.Inline? && Inside(old(ht[..]), i) && SameLayout(AfterBitMap(old(ht[..]), i), ht[..])
    {
      ghost var s := ht[..];
      var off := FindNeighboringEmptySlot(i);
      if off == 0 {
        ht[i] := ht[i].(kids := External([0, 0, 0, 0]));
        ReplaceKids(s, ht[..], i, ht[i].kids);
      } else {
        ht[i] := ht[i].(kids := Near(off, 0, false, false));
        ht[i + off] := Bitmap(FLAG_WORD, 0, 0);
        FlagWordBits(30);
        FlagWordBits(31);
        TakeBitmapSlot(s, ht[..], i, i + off);
      }
      FreshBitmapIsEmpty(ht[i].kids);
    }

    // Eight inline children become a bitmap.
    method ExtendToBitMap(i: int)
      requires Shape(ht[..]) && IsNode(ht[..], i) && ht[i].dlen < 8 && ht[i].kids.Inline? && ht[i].kids.num == 8
      modifies ht
      ensures OnlyChildrenOf(old(ht[..]), ht[..], i) && Children(ht[..], i) == Children(old(ht[..]), i)
      ensures !ht[i].kids.Inline? && Inside(old(ht[..]), i) && SameLayout(AfterBitMap(old(ht[..]), i), ht[..])
    {
      hide SameNode, Shape, OthersKept, SameLayout, AfterBitMap, Unpack, Elements, Children;
      ghost var s := ht[..];
      ghost var list := Unpack(ht[i].kids.packed, 8);
      InlineElements(s, i);
      var children: nat := ht[i].kids.packed;
      StartBitMap(i);
      var j := 0;
      while j < 8
        invariant 0 <= j <= 8
        invariant OnlyChildrenOf(s, ht[..], i) && !ht[i].kids.Inline?
        invariant Inside(s, i) && SameLayout(AfterBitMap(s, i), ht[..])
        invariant Unpack(children, 8 - j) == list[j..]
        invariant Children(ht[..], i) == Elements(list[..j])
      {
        ghost var t := ht[..];
        var child := children % 256;
        NextElement(list, j, children);
        children := children / 256;
        BitMapSet(i, child);
        OnlyChildrenTrans(s, t, ht[..], i);
        LayoutTrans(AfterBitMap(s, i), t, ht[..]);
        j := j + 1;
      }
      assert list[..8] == list;
    }

    method AddChild(i: int, child: nat)
      requires Shape(ht[..]) && IsNode(ht[..], i) && ht[i].dlen < 8 && child < 256
      requires child !in Children(ht[..], i)
      modifies ht
      ensures ChildAdded(old(ht[..]), ht[..], i, child) && SameLayout(AfterChild(old(ht[..]), i), ht[..])
    {
      hide SameNode, OthersKept, AfterBitMap;
      ghost var s := ht[..];
      if ht[i].kids.Inline? {
        if ht[i].kids.num < 8 {
          InlineAddSpec(ht[i].kids, child, 0, 0, 0);
          ht[i] := ht[i].(kids := InlineAdd(ht[i].kids, child));
          ReplaceKids(s, ht[..], i, ht[i].kids);
          return;
        }
        ExtendToBitMap(i);
      } else {
        OnlyChildrenSelf(s, i);
      }
      ghost var t := ht[..];
      BitMapSet(i, child);
      OnlyChildrenTrans(s, t, ht[..], i);
      LayoutTrans(AfterChild(s, i), t, ht[..]);
    }

    // Vacates slot `victim`, moving nodes along the chain of their other positions.
    method HashTableCuckooDisplacement(victim: int, rounds: nat) returns (failed: bool)
      requires Valid() && 1 <= rounds <= 1001
      requires Inside(ht[..], victim) && ht[victim] != Empty
      modifies ht
      ensures Valid()
      ensures failed <==> Chain(old(ht[..]), h, victim, 1001 - rounds) == None
      ensures failed ==> ht[..] == old(ht[..])
      ensures !failed ==> ht[victim] == Empty
      ensures !failed ==> ChainMoved(old(ht[..]), ht[..], h, victim, 1001 - rounds)
      ensures !failed ==> ht[..] == AfterDisplacement(old(ht[..]), h, victim, 1001 - rounds)
      decreases 1001 - rounds, 1
    {
      hide TableInv, Shape, Chain, ChainMoved, AfterDisplacement, AfterRelocation, Rearranged, OwnerOf;
      ghost var s := ht[..];
      NodesAreOk(s, h, nodes);
      if rounds > 1000 {
        ChainOfNone(s, h, victim);
        return true;
      }
      if ht[victim].Node? {
        failed := DisplaceNode(victim, rounds);
      } else {
        RelocateVictimBitMap(victim);
        BitmapVictim(s, ht[..], h, victim, 1001 - rounds);
        failed := false;
      }
    }

    // The victim is a node: free its other position, then move it there.
    method DisplaceNode(victim: int, rounds: nat) returns (failed: bool)
      requires Valid() && 1 <= rounds <= 1000
      requires IsNode(ht[..], victim)
      modifies ht
      ensures Valid()
      ensures failed <==> Chain(old(ht[..]), h, victim, 1001 - rounds) == None
      ensures failed ==> ht[..] == old(ht[..])
      ensures !failed ==> ht[victim] == Empty
      ensures !failed ==> ChainMoved(old(ht[..]), ht[..], h, victim, 1001 - rounds)
      ensures !failed ==> ht[..] == AfterDisplacement(old(ht[..]), h, victim, 1001 - rounds)
      decreases 1001 - rounds, 0
    {
      hide TableInv, Moved, Shape, SameNode, ChainMoved, Chain, AfterMove, AfterDisplacement, NodeOk;
      ghost var s := ht[..];
      DisplacementUnfold(s, h, nodes, victim, 1001 - rounds);
      InvShape(s, h, nodes);
      OtherIsOther(s, h, nodes, victim);
      var k := IndexOf(ht[victim]);
      var h1 := Place1(h, ht.Length, k);
      var h2 := Place2(h, ht.Length, k);
      if h1 == victim {
        h1, h2 := h2, h1;
      }
      assert h2 == victim && h1 == Other(s, h, victim);
      if ht[h1] != Empty {
        failed := HashTableCuckooDisplacement(h1, rounds + 1);
        if failed {
          ChainUnfold(s, h, victim, 1001 - rounds);
          return;
        }
        NodeStillThere(s, ht[..], h, victim, 1001 - rounds);
      }
      ghost var t := ht[..];
      InvShape(t, h, nodes);
      MoveNode(victim, h1);
      SameAsItself(s);
      LinkAdded(s, t, ht[..], h, nodes, victim, 1001 - rounds);
      failed := false;
    }

    // The node whose bitmap lies in slot victim.
    method FindOwner(victim: int) returns (owner: int)
      requires Shape(ht[..]) && Inside(ht[..], victim) && ht[victim].Bitmap?
      ensures Owns(ht[..], owner, victim) && owner == OwnerOf(ht[..], victim)
    {
      ghost var s := ht[..];
      ghost var j :| Owns(s, j, victim);
      OwnerIsNear(s, victim, j);
      owner := victim - 3;
      while !(ht[owner].Node? && ht[owner].kids.Near? && owner + ht[owner].kids.offset == victim)
        invariant victim - 3 <= owner <= j
        decreases j - owner
      {
        owner := owner + 1;
      }
      TheOwner(s, owner, victim);
    }

    // The victim is a bitmap: its owner has it moved elsewhere.
    method RelocateVictimBitMap(victim: int)
      requires Valid() && Inside(ht[..], victim) && ht[victim].Bitmap?
      modifies ht
      ensures Valid() && ht[victim] == Empty
      ensures Rearranged(old(ht[..]), ht[..], OwnerOf(old(ht[..]), victim))
      ensures ht[..] == AfterRelocation(old(ht[..]), OwnerOf(old(ht[..]), victim))
    {
      ghost var s := ht[..];
      var owner := FindOwner(victim);
      RelocateBitMap(owner);
      RearrangedInv(s, ht[..], h, nodes, owner);
    }

    // ---------- insertion ----------

    // A slot for a node with index k. Without a free position one of the two nodes in the way
    // is displaced; coin stands for `rand() % 2`.
    method ReservePositionForInsert(len: nat, key: Key, coin: bool) returns (pos: int, exist: bool, failed: bool)
      requires Valid() && 1 <= len <= 8
      modifies ht
      ensures Valid()
      ensures exist <==> At(key, len) in nodes
      ensures failed <==> !exist && NoRoom(old(ht[..]), h, At(key, len), coin)
      ensures exist || failed ==> ht[..] == old(ht[..])
      ensures !exist && !failed ==> Inside(ht[..], pos) && ht[pos] == Empty
      ensures !exist && !failed ==>
              pos == Place1(h, ht.Length, At(key, len)) || pos == Place2(h, ht.Length, At(key, len))
      ensures !exist && !failed ==> RoomMade(old(ht[..]), ht[..], h, At(key, len), coin)
      ensures !exist && !failed ==>
              pos == ReservedAt(old(ht[..]), h, At(key, len), coin)
              && ht[..] == AfterReservation(old(ht[..]), h, At(key, len), coin)
    {
      hide TableInv, Shape, Children, Place1, Place2, NodeOk, Chain, SameNode, AfterDisplacement;
      NodesAreOk(ht[..], h, nodes);
      var k := At(key, len);
      Located(ht[..], h, nodes, k);
      PrintMatches(ht[..], h, nodes);
      exist, failed := false, false;
      var h1 := Place1(h, ht.Length, k);
      var h2 := Place2(h, ht.Length, k);
      if IsEqual(h1, len, Print(h, k), k.prefix) {
        return h1, true, false;
      }
      if IsEqual(h2, len, Print(h, k), k.prefix) {
        return h2, true, false;
      }
      SameAsItself(ht[..]);
      if ht[h1] == Empty {
        return h1, false, false;
      }
      if ht[h2] == Empty {
        return h2, false, false;
      }
      pos := if coin then h1 else h2;
      failed := HashTableCuckooDisplacement(pos, 1);
    }

    // `CuckooHashTableNode::Init`; firstChild is -1 for a leaf.
    method Init(pos: int, len: nat, dlen: nat, key: Key, firstChild: int)
      requires Valid() && Inside(ht[..], pos) && ht[pos] == Empty
      requires 1 <= len <= dlen <= 8 && -1 <= firstChild < 256 && (firstChild == -1 <==> dlen == 8)
      requires At(key, len) !in nodes
      requires pos == Place1(h, ht.Length, At(key, len)) || pos == Place2(h, ht.Length, At(key, len))
      modifies this`nodes, ht
      ensures Valid() && HoldsIndex(ht[..], pos, At(key, len))
      ensures OthersKept(old(ht[..]), ht[..], {pos})
      ensures ht[..] == old(ht[..])[pos := ht[pos]] && ht[pos].kids.Inline? && ht[pos].kids.num == 1
      ensures nodes == old(nodes)[At(key, len) := Info(dlen, key, if dlen == 8 then {} else {firstChild})]
    {
      hide TableInv;
      ghost var s := ht[..];
      NodesAreOk(s, h, nodes);
      var packed: Word := if firstChild == -1 then MAX_KEY else firstChild;
      ht[pos] := Node(len, dlen, Print(h, At(key, len)), key, Inline(packed, 1));
      OneChild(packed);
      FreshNode(s, ht[..], h, nodes, pos);
      nodes := nodes[At(key, len) := InfoAt(ht[..], pos)];
    }

    method Insert(len: nat, dlen: nat, key: Key, firstChild: int, coin: bool)
      returns (pos: int, exist: bool, failed: bool)
      requires Valid()
      requires 1 <= len <= dlen <= 8 && -1 <= firstChild < 256 && (firstChild == -1 <==> dlen == 8)
      modifies this`nodes, ht
      ensures Valid()
      ensures exist <==> At(key, len) in old(nodes)
      ensures failed <==> !exist && NoRoom(old(ht[..]), h, At(key, len), coin)
      ensures exist || failed ==> nodes == old(nodes) && ht[..] == old(ht[..])
      ensures !exist && !failed ==>
              nodes == old(nodes)[At(key, len) := Info(dlen, key, if dlen == 8 then {} else {firstChild})]
      ensures !exist && !failed ==> NodePut(old(ht[..]), ht[..], h, At(key, len), coin)
    {
      pos, exist, failed := ReservePositionForInsert(len, key, coin);
      if !exist && !failed {
        Init(pos, len, dlen, key, firstChild);
      }
    }

    // ---------- changes made by the trie on top ----------

    // AddChild of the node with index k, which is in slot pos.
    method AddChildOf(pos: int, child: nat, ghost k: Index)
      requires Valid() && HoldsIndex(ht[..], pos, k) && ht[pos].dlen < 8 && child < 256
      requires child !in nodes[k].children
      modifies this`nodes, ht
      ensures Valid() && SameIndices(old(ht[..]), ht[..])
      ensures OthersKept(old(ht[..]), ht[..], {pos})
      ensures SameLayout(AfterChild(old(ht[..]), pos), ht[..])
      ensures nodes == old(nodes)[k := old(nodes)[k].(children := old(nodes)[k].children + {child})]
    {
      hide TableInv;
      ghost var s := ht[..];
      NodesAreOk(s, h, nodes);
      Located(s, h, nodes, k);
      AddChild(pos, child);
      OneNodeChanged(s, ht[..], h, nodes, pos);
      nodes := nodes[k := InfoAt(ht[..], pos)];
    }

    // `ht[pos].minKey = key`, for a key below that node.
    method SetMinKey(pos: int, key: Key, ghost k: Index)
      requires Valid() && HoldsIndex(ht[..], pos, k) && Top(key, ht[pos].ilen) == k.prefix
      modifies this`nodes, ht
      ensures Valid() && SameIndices(old(ht[..]), ht[..])
      ensures OthersKept(old(ht[..]), ht[..], {pos})
      ensures SameLayout(old(ht[..]), ht[..])
      ensures nodes == old(nodes)[k := old(nodes)[k].(minKey := key)]
    {
      hide TableInv, Top;
      ghost var s := ht[..];
      NodesAreOk(s, h, nodes);
      Located(s, h, nodes, k);
      ht[pos] := ht[pos].(minKey := key);
      NewMinKeyShape(s, ht[..], pos);
      OneNodeChanged(s, ht[..], h, nodes, pos);
      nodes := nodes[k := InfoAt(ht[..], pos)];
    }

    // The node at pos moves to the reserved slot x and becomes the node of a longer prefix:
    // MoveNode, AlterIndexKeyLen and AlterHash18bit.
    method SplitOff(pos: int, x: int, len: nat, ghost k: Index)
      requires Valid() && HoldsIndex(ht[..], pos, k) && Inside(ht[..], x) && ht[x] == Empty
      requires ht[pos].ilen < len <= ht[pos].dlen && len <= 8
      requires var kNew := At(ht[pos].minKey, len);
               kNew !in nodes && (x == Place1(h, ht.Length, kNew) || x == Place2(h, ht.Length, kNew))
      modifies this`nodes, ht
      ensures Valid() && ht[pos] == Empty && IsNode(ht[..], x)
      ensures OthersKept(old(ht[..]), ht[..], {pos, x})
      ensures var t := AfterMove(old(ht[..]), pos, x);
              IsNode(t, x) && ht[..] == t[x := ht[x]] && CellOf(ht[x]) == Holds(At(old(ht[pos]).minKey, len))
      ensures nodes == (old(nodes) - {k})[At(old(ht[pos]).minKey, len) := old(nodes)[k]]
    {
      hide TableInv, Moved, Shape, Children, NodeOk, Top, Place1, Place2, Print, OthersKept, AfterMove;
      ghost var s := ht[..];
      InvShape(s, h, nodes);
      NodesAreOk(s, h, nodes);
      Located(s, h, nodes, k);
      var minKey := ht[pos].minKey;
      MoveNode(pos, x);
      ghost var q := ht[..];
      MovedFacts(s, q, pos, x);
      ht[x] := ht[x].(ilen := len, fp := Print(h, At(minKey, len)));
      SplitOffPlaced(q, ht[..], h, x, len);
      SplitOffInv(s, q, ht[..], h, nodes, pos, x, len);
      SplitOffKeeps(s, q, ht[..], pos, x);
      nodes := (nodes - {k})[At(minKey, len) := nodes[k]];
    }

    // ---------- lookup ----------

    predicate IsEqual(i: int, len: nat, fp: nat, prefix: nat)
      requires len <= 8 && 0 <= i < ht.Length
      reads ht
    {
      Matches(ht[..], i, len, fp, prefix)
    }

    // `IsEqualNoHash`
    predicate IsEqualNoHash(i: int, key: Key, len: nat)
      requires len <= 8 && 0 <= i < ht.Length
      reads ht
    {
      ht[i].Node? && ht[i].ilen == len && Top(ht[i].minKey, len) == Top(key, len)
    }

    method Lookup(len: nat, key: Key) returns (pos: int, found: bool)
      requires Valid() && 1 <= len <= 8
      ensures found <==> At(key, len) in nodes
      ensures found ==> HoldsIndex(ht[..], pos, At(key, len))
    {
      hide TableInv;
      InvShape(ht[..], h, nodes);
      var k := At(key, len);
      Located(ht[..], h, nodes, k);
      PrintMatches(ht[..], h, nodes);
      var h1 := Place1(h, ht.Length, k);
      var h2 := Place2(h, ht.Length, k);
      if IsEqual(h1, len, Print(h, k), k.prefix) {
        return h1, true;
      }
      if IsEqual(h2, len, Print(h, k), k.prefix) {
        return h2, true;
      }
      return -1, false;
    }

    // A promise to be resolved later, as long as the table is in order then.
    method GetLookupMustExistPromise(len: nat, key: Key) returns (p: Promise)
      requires Valid() && 1 <= len <= 8
      ensures IsPromiseFor(ht[..], h, p, At(key, len))
      ensures At(key, len) in nodes ==> Resolved(ht[..], p) == Some(nodes[At(key, len)].minKey)
    {
      hide TableInv;
      InvShape(ht[..], h, nodes);
      var k := At(key, len);
      p := Search(Place1(h, ht.Length, k), Place2(h, ht.Length, k), len, Print(h, k), k.prefix);
      if k in nodes {
        PromiseResolves(ht[..], h, nodes, p, k);
      }
    }

    // The minimum key of the node with the index k that was promised: read from the first slot if
    // that one matches, else from the second without another look.
    method Resolve(p: Promise, ghost k: Index) returns (minKey: Key)
      requires Valid() && k in nodes && IsPromiseFor(ht[..], h, p, k)
      ensures minKey == nodes[k].minKey
    {
      hide TableInv;
      PromiseResolves(ht[..], h, nodes, p, k);
      match p {
        case Direct(i) => minKey := ht[i].minKey;
        case Search(h1, h2, len, fp, prefix) =>
          if Matches(ht[..], h1, len, fp, prefix) {
            minKey := ht[h1].minKey;
          } else {
            minKey := ht[h2].minKey;
          }
      }
    }

    // The least child of the node in slot i that is at least `child`, or -1.
    method LowerBoundChild(i: int, child: nat) returns (r: int)
      requires Shape(ht[..]) && IsNode(ht[..], i) && ht[i].dlen < 8 && child < 256
      ensures IsLowerBound(Children(ht[..], i), child, r)
    {
      var k := ht[i].kids;
      if k.Near? {
        var b := i + k.offset;
        BitmapOwner(ht[..], i, b);
        r := ChildMap.LowerBoundChild(k, ht[b].w0, ht[b].w1, ht[b].w2, child);
      } else {
        r := ChildMap.LowerBoundChild(k, 0, 0, 0, child);
      }
    }

    // ---------- QueryLCP ----------

    // The deepest stored node whose index is a prefix of key, and the number of bytes key
    // shares with that node's minimum key; 2 when there is no such node.
    method QueryLCP(key: Key) returns (lcp: nat, idxLen: nat, pos1: seq<int>, pos2: seq<int>)
      requires Valid()
      ensures lcp == 2 ==> NoneDeeper(nodes, key, 2)
      ensures lcp != 2 ==> Deepest(nodes, key, idxLen) && lcp == Lcp(key, nodes[At(key, idxLen)].minKey)
      ensures lcp != 2 ==> |pos1| == 8 && HoldsIndex(ht[..], pos1[idxLen - 1], At(key, idxLen))
      ensures lcp != 2 ==> Candidates(h, ht.Length, key, idxLen - 1, pos1, pos2)
      ensures lcp != 2 ==> |pos2| == 8 && pos2[idxLen - 1] == Place2(h, ht.Length, At(key, idxLen))
    {
      hide TableInv, Shape, Top, Lcp, Print, Place1, Place2, Children, NodeOk;
      ghost var s := ht[..];
      InvShape(s, h, nodes);
      PrintMatches(s, h, nodes);
      pos1 := seq(8, i requires 0 <= i < 8 => Place1(h, ht.Length, At(key, i + 1)));
      pos2 := seq(8, i requires 0 <= i < 8 => Place2(h, ht.Length, At(key, i + 1)));
      idxLen := 0;
      var len: int := 7;
      while len >= 2
        invariant 1 <= len <= 7
        invariant |pos1| == 8 && Candidates(h, |s|, key, len + 1, pos1, pos2)
        invariant forall i :: len < i < 8 ==> pos1[i] == GAP
        invariant forall i :: 0 <= i < 8 ==> pos2[i] == Place2(h, |s|, At(key, i + 1))
        invariant NoneDeeper(nodes, key, len + 1)
      {
        var fp := Print(h, At(key, len + 1));
        Located(s, h, nodes, At(key, len + 1));
        if ht[pos1[len]].Node? && ht[pos1[len]].ilen == len + 1 && ht[pos1[len]].fp == fp {
          break;
        }
        if ht[pos2[len]].Node? && ht[pos2[len]].ilen == len + 1 && ht[pos2[len]].fp == fp {
          pos1 := pos1[len := pos2[len]];
          break;
        } else {
          pos1 := pos1[len := GAP];
        }
        len := len - 1;
      }
      if len < 2 {
        return 2, 0, pos1, pos2;
      }
      if Top(ht[pos1[len]].minKey, len + 1) == Top(key, len + 1) {
        idxLen := len + 1;
        assert HoldsIndex(s, pos1[len], At(key, idxLen));
        Located(s, h, nodes, At(key, idxLen));
        lcp := Lcp(key, ht[pos1[len]].minKey);
        FoundLcp(key, ht[pos1[len]].minKey, idxLen);
        return;
      }
      lcp, idxLen, pos1 := SlowPath(key, len, pos1, pos2);
    }

    // After a fingerprint collision: every length again, comparing keys instead of
    // fingerprints. The source writes the six rounds out.
    method SlowPath(key: Key, len: nat, p1: seq<int>, pos2: seq<int>) returns (lcp: nat, idxLen: nat, pos1: seq<int>)
      requires Valid() && 2 <= len <= 7 && |p1| == 8
      requires Candidates(h, ht.Length, key, len, p1, pos2)
      requires forall i :: len < i < 8 ==> p1[i] == GAP
      requires |pos2| == 8 && forall i :: 0 <= i < 8 ==> pos2[i] == Place2(h, ht.Length, At(key, i + 1))
      requires NoneDeeper(nodes, key, len + 1)
      requires Inside(ht[..], p1[len])
      requires HoldsIndex(ht[..], Place1(h, ht.Length, At(key, len + 1)), At(key, len + 1))
               ==> p1[len] == Place1(h, ht.Length, At(key, len + 1))
      ensures lcp == 2 ==> NoneDeeper(nodes, key, 2)
      ensures lcp != 2 ==> Deepest(nodes, key, idxLen) && lcp == Lcp(key, nodes[At(key, idxLen)].minKey)
      ensures lcp != 2 ==> |pos1| == 8 && HoldsIndex(ht[..], pos1[idxLen - 1], At(key, idxLen))
      ensures lcp != 2 ==> Candidates(h, ht.Length, key, idxLen - 1, pos1, pos2)
    {
      hide TableInv, Shape, Top, Lcp, Print, Place1, Place2, Children, NodeOk;
      ghost var s := ht[..];
      InvShape(s, h, nodes);
      pos1 := p1;
      idxLen := 8;
      while idxLen >= 3
        invariant 2 <= idxLen <= 8
        invariant pos1 == p1
        invariant NoneDeeper(nodes, key, idxLen)
      {
        Located(s, h, nodes, At(key, idxLen));
        if IsEqualNoHash(pos1[idxLen - 1], key, idxLen) {
          assert HoldsIndex(s, pos1[idxLen - 1], At(key, idxLen));
          break;
        }
        if IsEqualNoHash(pos2[idxLen - 1], key, idxLen) {
          pos1 := pos1[idxLen - 1 := pos2[idxLen - 1]];
          assert HoldsIndex(s, pos1[idxLen - 1], At(key, idxLen));
          break;
        }
        idxLen := idxLen - 1;
      }
      if idxLen < 3 {
        return 2, 0, pos1;
      }
      lcp := Lcp(key, ht[pos1[idxLen - 1]].minKey);
      FoundLcp(key, ht[pos1[idxLen - 1]].minKey, idxLen);
    }
  }
}
