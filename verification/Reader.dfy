// A whole lookup beside a writer: what QueryLCP answers from the fields it read, each at a moment
// of its own, when its version check passes.
module Reader {
  import opened Keys
  import opened Slots
  import opened CuckooTable
  import opened Trie
  import opened Snapshot
  import opened Served

  // What the packed word of a slot shows to a comparison: index length and fingerprint of a node.
  datatype Mark = NoMark | Mark(ilen: nat, fp: nat)

  function MarkOf(v: View): Mark {
    if v.ANode? && v.node.Node? then Mark(v.node.ilen, v.node.fp) else NoMark
  }

  function KeyIn(v: View): Key {
    if v.ANode? && v.node.Node? then v.node.minKey else 0
  }

  // What the attempt read from the candidate slots, by lane: in the first pass the packed word,
  // then the minimum key when prefixes are compared, and once more for the answer; the same after
  // a fingerprint collision, and by index what the slow path read from slot 0 of the table.
  datatype Reads = Reads(mark: (int, int) -> Mark, prefix: (int, int) -> Key, key: (int, int) -> Key,
                         mark2: (int, int) -> Mark, prefix2: (int, int) -> Key, key2: (int, int) -> Key,
                         mark0: int -> Mark, prefix0: int -> Key, key0: int -> Key)

  // x was read as a field of slot q at some moment from lo to hi.
  ghost predicate ReadFrom<T>(hist: seq<Snap>, q: nat, lo: nat, hi: nat, field: View -> T, x: T) {
    exists u: nat :: lo <= u <= hi && u < |hist| && CanRead(hist, u, q, field, x)
  }

  // All of it was read after the collect loop: from a lane before its version was checked again,
  // from slot 0 by moment last.
  ghost predicate IsRead(hist: seq<Snap>, a: Attempt, last: nat, r: Reads) {
    && (forall i, k :: Lane(i, k) ==>
          var q, e, c := a.slot(i, k), a.end, a.checked(i, k);
          && ReadFrom(hist, q, e, c, MarkOf, r.mark(i, k)) && ReadFrom(hist, q, e, c, MarkOf, r.mark2(i, k))
          && ReadFrom(hist, q, e, c, KeyIn, r.prefix(i, k)) && ReadFrom(hist, q, e, c, KeyIn, r.prefix2(i, k))
          && ReadFrom(hist, q, e, c, KeyIn, r.key(i, k)) && ReadFrom(hist, q, e, c, KeyIn, r.key2(i, k)))
    && forall i :: 2 <= i <= 7 ==>
         && ReadFrom(hist, GAP, a.end, last, MarkOf, r.mark0(i))
            && ReadFrom(hist, GAP, a.end, last, KeyIn, r.prefix0(i))
         && ReadFrom(hist, GAP, a.end, last, KeyIn, r.key0(i))
  }

  // The lanes are the candidate slots of the prefixes of key.
  ghost predicate LooksUp(a: Attempt, h: Hashes, n: nat, key: Key)
    requires 2 * GAP < n
  {
    forall i :: 2 <= i <= 7 ==>
      a.slot(i, 0) == Place1(h, n, At(key, i + 1)) && a.slot(i, 1) == Place2(h, n, At(key, i + 1))
  }

  // Stray is an answer that stands on slot 0 of the table.
  datatype Answer = Nothing | Found(len: nat, lcp: nat) | Stray(len: nat, lcp: nat)

  // The first pass, from index i down: the lane whose packed word matches.
  function FirstMatch(r: Reads, h: Hashes, key: Key, i: int): (m: Option<(int, int)>)
    requires i <= 7
    ensures m.Some? ==> Lane(m.value.0, m.value.1) && m.value.0 <= i
    decreases i
  {
    if i < 2 then None
    else if r.mark(i, 0) == Mark(i + 1, Print(h, At(key, i + 1))) then Some((i, 0))
    else if r.mark(i, 1) == Mark(i + 1, Print(h, At(key, i + 1))) then Some((i, 1))
    else FirstMatch(r, h, key, i - 1)
  }

  // The slow path, from index i down; lane (len, c) is where the fingerprints collided. Above len
  // the first candidate was replaced by slot 0.
  function SlowAnswer(r: Reads, key: Key, len: int, c: int, i: int): Answer
    requires i <= 7
    decreases i
  {
    if i < 2 then Nothing
    else
      var k := if i == len then c else 0;
      if i > len && SameIndex(r.mark0(i), r.prefix0(i), key, i) then Stray(i + 1, Lcp(key, r.key0(i)))
      else if i <= len && SameIndex(r.mark2(i, k), r.prefix2(i, k), key, i) then Found(i + 1, Lcp(key, r.key2(i, k)))
      else if SameIndex(r.mark2(i, 1), r.prefix2(i, 1), key, i) then Found(i + 1, Lcp(key, r.key2(i, 1)))
      else SlowAnswer(r, key, len, c, i - 1)
  }

  // `IsEqualNoHash`
  predicate SameIndex(mark: Mark, minKey: Key, key: Key, i: int)
    requires 2 <= i <= 7
  {
    mark.Mark? && mark.ilen == i + 1 && Top(minKey, i + 1) == Top(key, i + 1)
  }

  // The answer of the attempt.
  function Answered(r: Reads, h: Hashes, key: Key): Answer {
    match FirstMatch(r, h, key, 7)
    case None => Nothing
    case Some((i, k)) =>
      if Top(r.prefix(i, k), i + 1) == Top(key, i + 1) then Found(i + 1, Lcp(key, r.key(i, k)))
      else SlowAnswer(r, key, i, k, 7)
  }

  // ---------- one table ----------

  // What the lanes up to index top gave is what slots s hold.
  ghost predicate ReadOff(s: seq<Slot>, a: Attempt, r: Reads, top: int) {
    forall i, k :: Lane(i, k) && i <= top ==>
      var v := NodeView(s, a.slot(i, k));
      && r.mark(i, k) == r.mark2(i, k) == MarkOf(v)
      && r.prefix(i, k) == r.prefix2(i, k) == r.key(i, k) == r.key2(i, k) == KeyIn(v)
  }

  // The same for slot 0.
  ghost predicate ZeroReadOff(s: seq<Slot>, r: Reads) {
    forall i :: 2 <= i <= 7 ==> r.mark0(i) == MarkOf(NodeView(s, GAP)) && r.prefix0(i) == KeyIn(NodeView(s, GAP))
  }

  // The version of slot q is even at moment c and stays as it is up to moment v.
  ghost predicate Steady(hist: seq<Snap>, q: nat, c: nat, v: nat) {
    && c <= v < |hist| && (forall t :: 0 <= t < |hist| ==> q < |hist[t].ver|)
    && hist[c].ver[q] % 2 == 0 && forall t :: c <= t <= v ==> hist[t].ver[q] == hist[c].ver[q]
  }

  // The versions of the lanes up to index top are steady from when they were collected to when they
  // are checked again.
  ghost predicate LanesSteady(hist: seq<Snap>, a: Attempt, top: int) {
    forall i, k :: Lane(i, k) && i <= top ==> Steady(hist, a.slot(i, k), a.collected(i, k), a.checked(i, k))
  }

  // An attempt that passes has steady lanes up to index 6, unless a version returned.
  lemma PassingIsSteady(hist: seq<Snap>, n: nat, a: Attempt)
    requires SameSize(hist, n) && WellTimed(hist, n, a) && Passes(hist, n, a)
    requires forall i, k :: Lane(i, k) && i <= 6 ==> NoReturn(hist, a.slot(i, k), a.collected(i, k), a.checked(i, k))
    ensures LanesSteady(hist, a, 6)
  {
  }

  // A field read from a slot whose version is steady from moment c on is what it held at moment e.
  lemma SteadyField<T>(hist: seq<Snap>, n: nat, q: nat, c: nat, e: nat, v: nat, field: View -> T, x: T)
    requires SameSize(hist, n) && Disciplined(hist, 0) && q < n && c <= e <= v && Steady(hist, q, c, v)
    requires ReadFrom(hist, q, e, v, field, x)
    ensures x == field(NodeView(hist[e].slots, q))
  {
    var u: nat :| e <= u <= v && u < |hist| && CanRead(hist, u, q, field, x);
    QuietSlot(hist, n, q, c, u);
    QuietSlot(hist, n, q, c, e);
    var t :| SeenAfter(hist, u, t) && x == field(NodeView(t, q));
    if u + 1 < |hist| {
      assert StepOk(hist[u], hist[u + 1]);
      TornStep(hist[u], hist[u + 1], t, q);
    }
  }

  lemma ReadsAreOfOneMoment(hist: seq<Snap>, n: nat, a: Attempt, last: nat, r: Reads, top: int)
    requires SameSize(hist, n) && Disciplined(hist, 0) && WellTimed(hist, n, a) && LanesSteady(hist, a, top)
    requires IsRead(hist, a, last, r)
    ensures ReadOff(hist[a.end].slots, a, r, top)
  {
    hide Disciplined, CanRead, Steady, ReadFrom;
    forall i, k | Lane(i, k) && i <= top
      ensures var v := NodeView(hist[a.end].slots, a.slot(i, k));
              && r.mark(i, k) == r.mark2(i, k) == MarkOf(v)
              && r.prefix(i, k) == r.prefix2(i, k) == r.key(i, k) == r.key2(i, k) == KeyIn(v)
    {
      var q, c, e, v := a.slot(i, k), a.collected(i, k), a.end, a.checked(i, k);
      SteadyField(hist, n, q, c, e, v, MarkOf, r.mark(i, k));
      SteadyField(hist, n, q, c, e, v, MarkOf, r.mark2(i, k));
      SteadyField(hist, n, q, c, e, v, KeyIn, r.prefix(i, k));
      SteadyField(hist, n, q, c, e, v, KeyIn, r.prefix2(i, k));
      SteadyField(hist, n, q, c, e, v, KeyIn, r.key(i, k));
      SteadyField(hist, n, q, c, e, v, KeyIn, r.key2(i, k));
    }
  }

  lemma ZeroIsOfOneMoment(hist: seq<Snap>, n: nat, a: Attempt, last: nat, r: Reads)
    requires SameSize(hist, n) && Disciplined(hist, 0) && GAP < n && Steady(hist, GAP, a.end, last)
    requires IsRead(hist, a, last, r)
    ensures ZeroReadOff(hist[a.end].slots, r)
  {
    hide Disciplined, CanRead, ReadFrom;
    forall i | 2 <= i <= 7
      ensures var v := NodeView(hist[a.end].slots, GAP); r.mark0(i) == MarkOf(v) && r.prefix0(i) == KeyIn(v)
    {
      SteadyField(hist, n, GAP, a.end, a.end, last, MarkOf, r.mark0(i));
      SteadyField(hist, n, GAP, a.end, a.end, last, KeyIn, r.prefix0(i));
    }
  }

  // ---------- the answer on one table ----------

  // At one moment, lane i finds its prefix by packed word and key exactly if it is stored.
  lemma LaneDecides(s: seq<Slot>, h: Hashes, m: map<Index, Info>, key: Key, a: Attempt, r: Reads, top: int, i: int)
    requires TableInv(s, h, m) && 2 * GAP < |s| && LooksUp(a, h, |s|, key) && ReadOff(s, a, r, top)
    requires 2 <= i <= top && i <= 7
    ensures At(key, i + 1) in m ==>
              exists k :: Lane(i, k) && r.mark(i, k) == Mark(i + 1, Print(h, At(key, i + 1)))
                          && SameIndex(r.mark2(i, k), r.prefix2(i, k), key, i)
    ensures forall k :: Lane(i, k) && SameIndex(r.mark2(i, k), r.prefix2(i, k), key, i) ==>
              At(key, i + 1) in m && r.key(i, k) == r.key2(i, k) == m[At(key, i + 1)].minKey
              && r.mark(i, k) == Mark(i + 1, Print(h, At(key, i + 1)))
  {
    hide TableInv, Top, Place1, Place2, Print, Children;
    Located(s, h, m, At(key, i + 1));
    PrintMatches(s, h, m);
    assert Lane(i, 0) && Lane(i, 1);
    forall k | Lane(i, k)
      ensures HoldsIndex(s, a.slot(i, k), At(key, i + 1)) <==> SameIndex(r.mark2(i, k), r.prefix2(i, k), key, i)
    {
      assert k == 0 || k == 1;
    }
  }

  // Slot 0 holds a prefix only if it is stored.
  lemma ZeroDecides(s: seq<Slot>, h: Hashes, m: map<Index, Info>, key: Key, r: Reads, i: int)
    requires TableInv(s, h, m) && ZeroReadOff(s, r) && 2 <= i <= 7 && SameIndex(r.mark0(i), r.prefix0(i), key, i)
    ensures At(key, i + 1) in m
  {
    hide TableInv, Top, Children;
    assert HoldsIndex(s, GAP, At(key, i + 1));
    Located(s, h, m, At(key, i + 1));
  }

  ghost predicate NoneBetween(m: map<Index, Info>, key: Key, lo: int, hi: int) {
    forall j: nat :: lo < j <= hi && j <= 8 ==> At(key, j) !in m
  }

  // The deepest node of length hi or less on the path of key.
  ghost predicate IsAnswer(m: map<Index, Info>, key: Key, x: Answer, hi: int) {
    match x
    case Nothing => NoneBetween(m, key, 2, hi)
    case Found(len, lcp) =>
      3 <= len <= 8 && At(key, len) in m && NoneBetween(m, key, len, hi) && lcp == Lcp(key, m[At(key, len)].minKey)
    case Stray(_, _) => false
  }

  function Min(a: int, b: int): int {
    if a <= b then a else b
  }

  lemma {:induction false} FirstMatchDecides(s: seq<Slot>, h: Hashes, m: map<Index, Info>, key: Key, a: Attempt,
                                             r: Reads,
                                             top: int, i: int)
    requires TableInv(s, h, m) && 2 * GAP < |s| && LooksUp(a, h, |s|, key) && ReadOff(s, a, r, top) && i <= 7
    ensures match FirstMatch(r, h, key, i)
            case None => NoneBetween(m, key, 2, Min(i, top) + 1)
            case Some((l, k)) =>
              && NoneBetween(m, key, l + 1, Min(i, top) + 1)
              && r.mark(l, k) == Mark(l + 1, Print(h, At(key, l + 1)))
              && (k == 1 ==> r.mark(l, 0) != Mark(l + 1, Print(h, At(key, l + 1))))
    decreases i
  {
    hide TableInv, Top, Print, LooksUp, ReadOff, NoneBetween;
    if i < 2 {
      NoneYet(m, key);
    } else if FirstMatch(r, h, key, i) == FirstMatch(r, h, key, i - 1) {
      FirstMatchDecides(s, h, m, key, a, r, top, i - 1);
      if i <= top {
        NoMatchNoNode(s, h, m, key, a, r, top, i);
        OneMore(m, key, i);
      }
    } else {
      NoneAtAll(m, key, i + 1, Min(i, top) + 1);
    }
  }

  lemma NoMatchNoNode(s: seq<Slot>, h: Hashes, m: map<Index, Info>, key: Key, a: Attempt, r: Reads, top: int, i: int)
    requires TableInv(s, h, m) && 2 * GAP < |s| && LooksUp(a, h, |s|, key) && ReadOff(s, a, r, top)
    requires 2 <= i <= top && i <= 7 && forall k :: Lane(i, k) ==> r.mark(i, k) != Mark(i + 1, Print(h, At(key, i + 1)))
    ensures At(key, i + 1) !in m
  {
    hide TableInv, Top, Print, LooksUp, ReadOff;
    LaneDecides(s, h, m, key, a, r, top, i);
  }

  lemma NoneYet(m: map<Index, Info>, key: Key)
    ensures forall hi: int :: hi <= 2 ==> NoneBetween(m, key, 2, hi)
  {
  }

  lemma OneMore(m: map<Index, Info>, key: Key, i: int)
    requires 2 <= i <= 7 && At(key, i + 1) !in m
    ensures forall lo: int :: NoneBetween(m, key, lo, i) ==> NoneBetween(m, key, lo, i + 1)
  {
    hide Top;
  }

  lemma NoneAtAll(m: map<Index, Info>, key: Key, lo: int, hi: int)
    requires hi <= lo
    ensures NoneBetween(m, key, lo, hi)
  {
  }

  // After a collision at lane (len, c): the slow path finds the deepest node all the same. What it
  // takes from an unprotected lane or slot 0 is excepted.
  lemma {:induction false} SlowAnswerDecides(s: seq<Slot>, h: Hashes, m: map<Index, Info>, key: Key, a: Attempt,
                                             r: Reads,
                                             top: int, len: int, c: int, i: int)
    requires TableInv(s, h, m) && 2 * GAP < |s| && LooksUp(a, h, |s|, key) && ReadOff(s, a, r, top) && 1 <= i <= 7
    requires Lane(len, c) && NoneBetween(m, key, len + 1, top + 1) && 6 <= top <= 7
    requires len <= top ==> !SameIndex(r.mark2(len, c), r.prefix2(len, c), key, len)
    requires c == 1 ==> r.mark(len, 0) != Mark(len + 1, Print(h, At(key, len + 1)))
    ensures var x := SlowAnswer(r, key, len, c, i);
            x.Stray? || (x.Found? && x.len > top + 1) || IsAnswer(m, key, x, Min(i, top) + 1)
    ensures ZeroReadOff(s, r) && top == 7 ==> !SlowAnswer(r, key, len, c, i).Stray?
    decreases i
  {
    hide TableInv, Top, Print, LooksUp, ReadOff, Lcp, SameIndex, ZeroReadOff;
    if i >= 2 {
      SlowAnswerDecides(s, h, m, key, a, r, top, len, c, i - 1);
      if i <= top {
        LaneDecides(s, h, m, key, a, r, top, i);
        assert Lane(i, 0) && Lane(i, 1) && Lane(i, c);
      }
      if i > len && top == 7 && ZeroReadOff(s, r) && SameIndex(r.mark0(i), r.prefix0(i), key, i) {
        ZeroDecides(s, h, m, key, r, i);
        assert false;
      }
    }
  }

  lemma AnswerOnOneTable(s: seq<Slot>, h: Hashes, m: map<Index, Info>, key: Key, a: Attempt, r: Reads, top: int)
    requires TableInv(s, h, m) && 2 * GAP < |s| && LooksUp(a, h, |s|, key) && ReadOff(s, a, r, top) && 6 <= top <= 7
    ensures var x := Answered(r, h, key); x.Stray? || (x.Found? && x.len > top + 1) || IsAnswer(m, key, x, top + 1)
    ensures ZeroReadOff(s, r) && top == 7 ==> !Answered(r, h, key).Stray?
  {
    hide TableInv, Top, Print, Lcp, LooksUp, ReadOff, SameIndex, ZeroReadOff;
    FirstMatchDecides(s, h, m, key, a, r, top, 7);
    if FirstMatch(r, h, key, 7).Some? {
      var (i, k) := FirstMatch(r, h, key, 7).value;
      if i <= top {
        LaneDecides(s, h, m, key, a, r, top, i);
        SameReadings(s, a, r, top, i, k, key);
      }
      if Top(r.prefix(i, k), i + 1) != Top(key, i + 1) {
        SlowAnswerDecides(s, h, m, key, a, r, top, i, k, 7);
      }
    }
  }

  lemma SameReadings(s: seq<Slot>, a: Attempt, r: Reads, top: int, i: int, k: int, key: Key)
    requires ReadOff(s, a, r, top) && Lane(i, k) && i <= top
    ensures r.key(i, k) == r.key2(i, k)
    ensures r.mark(i, k).Mark? && r.mark(i, k).ilen == i + 1 ==>
              (Top(r.prefix(i, k), i + 1) == Top(key, i + 1) <==> SameIndex(r.mark2(i, k), r.prefix2(i, k), key, i))
  {
  }

  // ---------- beside a writer ----------

  // An attempt that passes answers, up to prefix length 7, what the table held at the end of its
  // collect loop: the deepest node on the path of the key and what the key shares with its minimum.
  lemma AnswerIsOfOneMoment(hist: seq<Snap>, n: nat, a: Attempt, last: nat, r: Reads, h: Hashes, m: map<Index, Info>,
                            key: Key)
    requires SameSize(hist, n) && Disciplined(hist, 0) && WellTimed(hist, n, a) && Passes(hist, n, a)
    requires forall i, k :: Lane(i, k) && i <= 6 ==> NoReturn(hist, a.slot(i, k), a.collected(i, k), a.checked(i, k))
    requires IsRead(hist, a, last, r) && 2 * GAP < n && LooksUp(a, h, n, key) && TableInv(hist[a.end].slots, h, m)
    ensures var x := Answered(r, h, key); x.Stray? || (x.Found? && x.len == 8) || IsAnswer(m, key, x, 7)
  {
    hide Disciplined, NoReturn, Passes, TableInv, IsRead, LooksUp, ReadOff;
    PassingIsSteady(hist, n, a);
    ReadsAreOfOneMoment(hist, n, a, last, r, 6);
    AnswerOnOneTable(hist[a.end].slots, h, m, key, a, r, 6);
    AnswerLength(r, h, key);
  }

  lemma AnswerLength(r: Reads, h: Hashes, key: Key)
    ensures var x := Answered(r, h, key); x.Found? ==> x.len <= 8
  {
    if FirstMatch(r, h, key, 7).Some? {
      SlowLength(r, key, FirstMatch(r, h, key, 7).value.0, FirstMatch(r, h, key, 7).value.1, 7);
    }
  }

  lemma {:induction false} SlowLength(r: Reads, key: Key, len: int, c: int, i: int)
    requires i <= 7
    ensures var x := SlowAnswer(r, key, len, c, i); x.Found? ==> x.len <= 8
    decreases i
  {
    if i >= 2 {
      SlowLength(r, key, len, c, i - 1);
    }
  }

  // If the versions of the whole-key slots and of slot 0, which the code does not check, were steady
  // as well, the answer is that of QueryLCP on the table at the end of the collect loop.
  lemma SteadyAnswerIsQuery(hist: seq<Snap>, n: nat, a: Attempt, last: nat, r: Reads, h: Hashes, m: map<Index, Info>,
                            key: Key)
    requires SameSize(hist, n) && Disciplined(hist, 0) && WellTimed(hist, n, a) && LanesSteady(hist, a, 7)
    requires Steady(hist, GAP, a.end, last)
    requires IsRead(hist, a, last, r) && 2 * GAP < n && LooksUp(a, h, n, key) && TableInv(hist[a.end].slots, h, m)
    ensures match Answered(r, h, key)
            case Nothing => NoneDeeper(m, key, 2)
            case Found(len, lcp) => Deepest(m, key, len) && lcp == Lcp(key, m[At(key, len)].minKey)
            case Stray(_, _) => false
  {
    hide Disciplined, TableInv, IsRead, LooksUp, ReadOff, Steady, ZeroReadOff;
    ReadsAreOfOneMoment(hist, n, a, last, r, 7);
    ZeroIsOfOneMoment(hist, n, a, last, r);
    AnswerOnOneTable(hist[a.end].slots, h, m, key, a, r, 7);
    AnswerLength(r, h, key);
  }

  // The own node of key is stored besides the node of length len, which has another minimum.
  ghost predicate Overlooked(m: map<Index, Info>, key: Key, len: nat) {
    At(key, 8) in m && len <= 8 && At(key, len) in m && m[At(key, len)].minKey != key
  }

  // Exist takes an LCP of 8 for membership. On a trie, with the deepest node up to length 7 as the
  // answer, it is wrong exactly if the key's own node was stored and another key is the minimum of
  // the node found; without any node the key is not in the set.
  lemma ExistDecides(m: map<Index, Info>, keys: set<Key>, key: Key, x: Answer)
    requires TrieInv(m, keys) && IsAnswer(m, key, x, 7)
    ensures x == Nothing ==> key !in keys
    ensures x.Found? ==> ((x.lcp == 8 <==> key in keys) <==> !Overlooked(m, key, x.len))
  {
    hide TrieInv, Top, Lcp;
    WholeKey(key);
    if x == Nothing {
      if key in keys {
        RootOf(m, keys, key);
      }
    } else {
      var n := m[At(key, x.len)];
      LcpSpec(key, n.minKey, 8);
      WholeKey(n.minKey);
      if At(key, 8) in m {
        NodeOf(m, keys, At(key, 8));
        WholeKey(m[At(key, 8)].minKey);
      } else {
        DeepestDecides(m, keys, key, x.len);
      }
    }
  }

  // So a passing Exist that stands on a checked slot is exact about the set at the end of its collect
  // loop, but for that one case.
  lemma ExistIsOfOneMoment(hist: seq<Snap>, n: nat, a: Attempt, last: nat, r: Reads, h: Hashes, m: map<Index, Info>,
                           keys: set<Key>, key: Key)
    requires SameSize(hist, n) && Disciplined(hist, 0) && WellTimed(hist, n, a) && Passes(hist, n, a)
    requires forall i, k :: Lane(i, k) && i <= 6 ==> NoReturn(hist, a.slot(i, k), a.collected(i, k), a.checked(i, k))
    requires IsRead(hist, a, last, r) && 2 * GAP < n && LooksUp(a, h, n, key)
    requires TableInv(hist[a.end].slots, h, m) && TrieInv(m, keys)
    ensures var x := Answered(r, h, key);
            && (x == Nothing ==> key !in keys)
            && (x.Found? && x.len <= 7 ==> ((x.lcp == 8 <==> key in keys) <==> !Overlooked(m, key, x.len)))
  {
    hide Disciplined, NoReturn, Passes, TableInv, TrieInv, IsRead, LooksUp, Lcp, Top, Answered, NoneBetween;
    var x := Answered(r, h, key);
    AnswerIsOfOneMoment(hist, n, a, last, r, h, m, key);
    if IsAnswer(m, key, x, 7) {
      ExistDecides(m, keys, key, x);
    }
  }

  // It is exact in that case too, wherever the answer stands, if the unchecked slots were steady.
  lemma SteadyExistIsExact(hist: seq<Snap>, n: nat, a: Attempt, last: nat, r: Reads, h: Hashes, m: map<Index, Info>,
                           keys: set<Key>, key: Key)
    requires SameSize(hist, n) && Disciplined(hist, 0) && WellTimed(hist, n, a) && LanesSteady(hist, a, 7)
    requires Steady(hist, GAP, a.end, last)
    requires IsRead(hist, a, last, r) && 2 * GAP < n && LooksUp(a, h, n, key)
    requires TableInv(hist[a.end].slots, h, m) && TrieInv(m, keys)
    ensures var x := Answered(r, h, key); x.Found? && x.lcp == 8 <==> key in keys
  {
    hide Disciplined, TableInv, TrieInv, IsRead, LooksUp, Lcp, Top, Answered, LanesSteady, Steady;
    var x := Answered(r, h, key);
    SteadyAnswerIsQuery(hist, n, a, last, r, h, m, key);
    if x == Nothing {
      NoNodeNoKey(m, keys, key);
    } else {
      DeepestDecides(m, keys, key, x.len);
    }
  }

  // ---------- beside an insertion ----------

  // On a table that serves the sets lo and hi, the answer up to length 7 takes no key from outside hi
  // for a member, and misses a key of lo only if that key has its own node.
  lemma ServedAnswer(m: map<Index, Info>, lo: set<Key>, hi: set<Key>, key: Key, x: Answer)
    requires Serves(m, lo, hi) && IsAnswer(m, key, x, 7)
    ensures x.Found? && x.lcp == 8 ==> key in hi
    ensures key in lo && !(x.Found? && x.lcp == 8) ==> At(key, 8) in m
  {
    hide Top, Lcp;
    if x.Found? {
      LcpSpec(key, m[At(key, x.len)].minKey, 8);
      WholeKey(key);
      WholeKey(m[At(key, x.len)].minKey);
    }
    if key in lo && At(key, 8) !in m {
      var l :| Deepest(m, key, l) && m[At(key, l)].minKey == key;
      assert l <= 7;
      assert x.Found? && x.len == l;
    }
  }

  // An Exist that passes beside VersionedSet.Insert, whose every moment shows the sets lo and hi
  // before and after it: what stands on a checked slot is right about one of the two, but for a key
  // whose own node is overlooked.
  lemma ExistBesideInsert(hist: seq<Snap>, n: nat, a: Attempt, last: nat, r: Reads, h: Hashes, lo: set<Key>,
                          hi: set<Key>, key: Key)
    requires SameSize(hist, n) && Disciplined(hist, 0) && WellTimed(hist, n, a) && Passes(hist, n, a)
    requires forall i, k :: Lane(i, k) && i <= 6 ==> NoReturn(hist, a.slot(i, k), a.collected(i, k), a.checked(i, k))
    requires IsRead(hist, a, last, r) && 2 * GAP < n && LooksUp(a, h, n, key) && ShownAt(hist[a.end].slots, h, lo, hi)
    ensures var x := Answered(r, h, key);
            !x.Stray? && !(x.Found? && x.len == 8) ==>
              && (x.Found? && x.lcp == 8 ==> key in hi)
              && (key in lo && !(x.Found? && x.lcp == 8) ==> exists i :: HoldsIndex(hist[a.end].slots, i, At(key, 8)))
  {
    hide Disciplined, NoReturn, Passes, TableInv, IsRead, LooksUp, Lcp, Top, Answered, NoneBetween, Serves;
    var x := Answered(r, h, key);
    var m :| TableInv(hist[a.end].slots, h, m) && Serves(m, lo, hi);
    AnswerIsOfOneMoment(hist, n, a, last, r, h, m, key);
    if IsAnswer(m, key, x, 7) {
      ServedAnswer(m, lo, hi, key, x);
      Located(hist[a.end].slots, h, m, At(key, 8));
    }
  }

  // With the unchecked slots steady as well it is right about one of the two.
  lemma SteadyExistBesideInsert(hist: seq<Snap>, n: nat, a: Attempt, last: nat, r: Reads, h: Hashes, lo: set<Key>,
                                hi: set<Key>, key: Key)
    requires SameSize(hist, n) && Disciplined(hist, 0) && WellTimed(hist, n, a) && LanesSteady(hist, a, 7)
    requires Steady(hist, GAP, a.end, last)
    requires IsRead(hist, a, last, r) && 2 * GAP < n && LooksUp(a, h, n, key) && ShownAt(hist[a.end].slots, h, lo, hi)
    ensures var x := Answered(r, h, key);
            (key in lo ==> x.Found? && x.lcp == 8) && (x.Found? && x.lcp == 8 ==> key in hi)
  {
    hide Disciplined, TableInv, IsRead, LooksUp, Lcp, Top, Answered, LanesSteady, Steady, Serves, NoneDeeper;
    var m :| TableInv(hist[a.end].slots, h, m) && Serves(m, lo, hi);
    SteadyAnswerIsQuery(hist, n, a, last, r, h, m, key);
    var x := Answered(r, h, key);
    if x.Found? {
      ServedQuery(m, lo, hi, key, x.len);
    } else {
      NotServed(m, lo, hi, key);
    }
  }

  lemma NotServed(m: map<Index, Info>, lo: set<Key>, hi: set<Key>, key: Key)
    requires Serves(m, lo, hi) && NoneDeeper(m, key, 2)
    ensures key !in lo
  {
    hide Top;
  }
}
