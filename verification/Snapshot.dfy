// The reader side of the version protocol: what a lookup that passes its final version check
// has seen, in any interleaving with the writer.
module Snapshot {
  import opened Slots

  // One moment of the shared table: the 8-bit version of every slot, and the slots.
  datatype Snap = Snap(ver: seq<nat>, slots: seq<Slot>)

  ghost predicate SameSize(hist: seq<Snap>, n: nat) {
    forall t :: 0 <= t < |hist| ==> |hist[t].ver| == n && |hist[t].slots| == n
  }

  // One step of the writer: a slot where a reader finds something else afterwards, in the node's
  // own words or in the bitmap it points at, had an odd version, and versions stay as they are
  // when contents change.
  ghost predicate StepOk(a: Snap, b: Snap) {
    && |a.ver| == |a.slots| == |b.ver| == |b.slots|
    && forall p :: 0 <= p < |a.slots| && NodeView(a.slots, p) != NodeView(b.slots, p)
                   ==> a.ver[p] % 2 == 1 && b.ver[p] == a.ver[p]
  }

  // The writer keeps to the discipline from moment lo on.
  ghost predicate Disciplined(hist: seq<Snap>, lo: nat) {
    forall t :: lo <= t < |hist| - 1 ==> StepOk(hist[t], hist[t + 1])
  }

  // The slots of the table part of the way through a step: the writer has been at some of the
  // slots that the step changes, and may have left any words there, but a slot that holds no
  // node before and after does not look like one in between: its two flag bits share a byte.
  ghost predicate Between(a: seq<Slot>, b: seq<Slot>, t: seq<Slot>) {
    && |t| == |a| == |b|
    && (forall i :: 0 <= i < |t| && a[i] == b[i] ==> t[i] == a[i])
    && (forall i :: 0 <= i < |t| && !a[i].Node? && !b[i].Node? ==> !t[i].Node?)
  }

  // In the middle of a step too, a slot with an even version shows what it showed before: the
  // discipline on whole steps is one on single writes.
  lemma TornStep(a: Snap, b: Snap, t: seq<Slot>, q: nat)
    requires StepOk(a, b) && Between(a.slots, b.slots, t) && q < |a.ver| && a.ver[q] % 2 == 0
    ensures NodeView(t, q) == NodeView(a.slots, q)
  {
    assert NodeView(a.slots, q) == NodeView(b.slots, q);
  }

  // ---------- one slot ----------

  // While the version of slot q keeps one even value, the slot says the same.
  lemma {:induction false} QuietSlot(hist: seq<Snap>, n: nat, q: nat, c: nat, u: nat)
    requires SameSize(hist, n) && Disciplined(hist, 0) && q < n && c <= u < |hist|
    requires hist[c].ver[q] % 2 == 0
    requires forall t :: c <= t <= u ==> hist[t].ver[q] == hist[c].ver[q]
    ensures NodeView(hist[u].slots, q) == NodeView(hist[c].slots, q)
    decreases u - c
  {
    if c < u {
      QuietSlot(hist, n, q, c, u - 1);
      assert StepOk(hist[u - 1], hist[u - 1 + 1]);
    }
  }

  // The version of q does not leave its value of moment c and come back to it by moment v.
  ghost predicate NoReturn(hist: seq<Snap>, q: nat, c: nat, v: nat)
    requires c <= v < |hist| && forall t :: 0 <= t < |hist| ==> q < |hist[t].ver|
  {
    hist[v].ver[q] == hist[c].ver[q] ==> forall t :: c <= t <= v ==> hist[t].ver[q] == hist[c].ver[q]
  }

  // ---------- a lookup attempt ----------

  // The six prefix lengths, as indices 2..7, times two candidate positions.
  predicate Lane(i: int, k: int) {
    2 <= i <= 7 && 0 <= k <= 1
  }

  // When and where a lookup attempt reads: candidate slots, the moments their versions are
  // collected, the end of the collect loop, the moment each version is checked again.
  datatype Attempt = Attempt(slot: (int, int) -> nat, collected: (int, int) -> nat, end: nat,
                             checked: (int, int) -> nat)

  ghost predicate WellTimed(hist: seq<Snap>, n: nat, a: Attempt) {
    && a.end < |hist|
    && forall i, k :: Lane(i, k) ==> a.slot(i, k) < n && a.collected(i, k) <= a.end <= a.checked(i, k) < |hist|
  }

  // The attempt does not retry: every collected version is even, and ValidateVersion, which
  // looks at indices 2 to 6 only, finds them unchanged.
  ghost predicate Passes(hist: seq<Snap>, n: nat, a: Attempt)
    requires SameSize(hist, n) && WellTimed(hist, n, a)
  {
    && (forall i, k :: Lane(i, k) ==> hist[a.collected(i, k)].ver[a.slot(i, k)] % 2 == 0)
    && (forall i, k :: Lane(i, k) && i <= 6
                       ==> hist[a.checked(i, k)].ver[a.slot(i, k)] == hist[a.collected(i, k)].ver[a.slot(i, k)])
  }

  // The slots after moment u, when the writer is part of the way to the next one.
  ghost predicate SeenAfter(hist: seq<Snap>, u: nat, t: seq<Slot>)
    requires u < |hist|
  {
    if u + 1 < |hist| then Between(hist[u].slots, hist[u + 1].slots, t) else t == hist[u].slots
  }

  // x can be what a reader gets when it reads one field of slot q after moment u.
  ghost predicate CanRead<T>(hist: seq<Snap>, u: nat, q: nat, field: View -> T, x: T)
    requires u < |hist|
  {
    exists t :: SeenAfter(hist, u, t) && x == field(NodeView(t, q))
  }

  // Every field a passing attempt reads, each at a moment of its own between the end of its
  // collect loop and its check, from the candidate slots of prefix lengths 3 to 7, is what that
  // slot held at the end of the loop.
  lemma SnapshotOfOneMoment<T>(hist: seq<Snap>, n: nat, a: Attempt, i: int, k: int, u: nat, field: View -> T, x: T)
    requires SameSize(hist, n) && Disciplined(hist, 0) && WellTimed(hist, n, a) && Passes(hist, n, a)
    requires Lane(i, k) && i <= 6 && NoReturn(hist, a.slot(i, k), a.collected(i, k), a.checked(i, k))
    requires a.end <= u <= a.checked(i, k) && CanRead(hist, u, a.slot(i, k), field, x)
    ensures x == field(NodeView(hist[a.end].slots, a.slot(i, k)))
  {
    var q, c := a.slot(i, k), a.collected(i, k);
    QuietSlot(hist, n, q, c, u);
    QuietSlot(hist, n, q, c, a.end);
    var t :| SeenAfter(hist, u, t) && x == field(NodeView(t, q));
    if u + 1 < |hist| {
      assert StepOk(hist[u], hist[u + 1]);
      TornStep(hist[u], hist[u + 1], t, q);
    }
  }

  // With no writer active - nothing moves and every version is even - an attempt passes.
  lemma QuietAttemptPasses(hist: seq<Snap>, n: nat, a: Attempt)
    requires SameSize(hist, n) && WellTimed(hist, n, a)
    requires forall t :: 0 <= t < |hist| ==> hist[t] == hist[0]
    requires forall p :: 0 <= p < n ==> hist[0].ver[p] % 2 == 0
    ensures Passes(hist, n, a)
  {
    assert |hist| > 0;
    forall i, k | Lane(i, k)
      ensures hist[a.collected(i, k)].ver[a.slot(i, k)] % 2 == 0
      ensures hist[a.checked(i, k)].ver[a.slot(i, k)] == hist[a.collected(i, k)].ver[a.slot(i, k)]
    {
      assert hist[a.collected(i, k)] == hist[0] && hist[a.checked(i, k)] == hist[0];
    }
  }

  // ---------- when a version can return ----------

  // How often the version of q was incremented between moments c and t.
  ghost function Increments(hist: seq<Snap>, n: nat, q: nat, c: nat, t: nat): nat
    requires SameSize(hist, n) && q < n && c <= t < |hist|
    decreases t - c
  {
    if c == t then 0
    else Increments(hist, n, q, c, t - 1) + if hist[t].ver[q] == hist[t - 1].ver[q] then 0 else 1
  }

  // From one moment to the next, t, every version stays, or is one more (modulo 256), or is set to 1
  // by Init, which resets has noted.
  ghost predicate CountStep(a: seq<nat>, b: seq<nat>, t: nat, resets: set<(nat, int)>) {
    |a| == |b|
    && forall p :: 0 <= p < |a| ==>
         a[p] < 256 && (b[p] == a[p] || b[p] == (a[p] + 1) % 256 || (b[p] == 1 && (t, p) in resets))
  }

  // So it is from moment lo on.
  ghost predicate Counted(hist: seq<Snap>, lo: nat, resets: set<(nat, int)>) {
    forall t :: lo <= t < |hist| - 1 ==> CountStep(hist[t].ver, hist[t + 1].ver, t + 1, resets)
  }

  lemma CountedOneMore(a: seq<Snap>, s: Snap, resets: set<(nat, int)>, more: set<(nat, int)>)
    requires Counted(a, 0, resets) && |a| > 0 && resets <= more && CountStep(a[|a| - 1].ver, s.ver, |a|, more)
    ensures Counted(a + [s], 0, more)
  {
    var b := a + [s];
    forall t | 0 <= t < |b| - 1 ensures CountStep(b[t].ver, b[t + 1].ver, t + 1, more) {
      if t < |a| - 1 {
        assert b[t] == a[t] && b[t + 1] == a[t + 1];
        assert CountStep(a[t].ver, a[t + 1].ver, t + 1, resets);
      }
    }
  }

  lemma {:induction false} VersionIsCount(hist: seq<Snap>, n: nat, q: nat, c: nat, t: nat)
    requires SameSize(hist, n) && q < n && c <= t < |hist| && hist[c].ver[q] < 256
    requires forall s :: c <= s < t ==>
             hist[s + 1].ver[q] == hist[s].ver[q] || hist[s + 1].ver[q] == (hist[s].ver[q] + 1) % 256
    ensures hist[t].ver[q] == (hist[c].ver[q] + Increments(hist, n, q, c, t)) % 256
    decreases t - c
  {
    if c < t {
      VersionIsCount(hist, n, q, c, t - 1);
      var s := t - 1;
      assert hist[s + 1].ver[q] == hist[s].ver[q] || hist[s + 1].ver[q] == (hist[s].ver[q] + 1) % 256;
      var a := hist[c].ver[q] + Increments(hist, n, q, c, s);
      NextModulo(a);
      assert hist[s].ver[q] == a % 256;
      assert hist[s].ver[q] != (hist[s].ver[q] + 1) % 256;
    }
  }

  lemma NextModulo(a: nat)
    ensures (a % 256 + 1) % 256 == (a + 1) % 256
  {
  }

  lemma {:induction false} IncrementsGrow(hist: seq<Snap>, n: nat, q: nat, c: nat, s: nat, t: nat)
    requires SameSize(hist, n) && q < n && c <= s <= t < |hist|
    ensures Increments(hist, n, q, c, s) <= Increments(hist, n, q, c, t)
    decreases t - s
  {
    if s < t {
      IncrementsGrow(hist, n, q, c, s, t - 1);
    }
  }

  // A slot that no Init resets returns to a recorded version exactly when its version was
  // incremented a positive multiple of 256 times.
  lemma ReturnNeedsWrap(hist: seq<Snap>, n: nat, q: nat, c: nat, v: nat)
    requires SameSize(hist, n) && q < n && c <= v < |hist| && hist[c].ver[q] < 256
    requires forall s :: c <= s < v ==>
             hist[s + 1].ver[q] == hist[s].ver[q] || hist[s + 1].ver[q] == (hist[s].ver[q] + 1) % 256
    ensures NoReturn(hist, q, c, v) <==> Increments(hist, n, q, c, v) == 0 || Increments(hist, n, q, c, v) % 256 != 0
  {
    var k := Increments(hist, n, q, c, v);
    VersionIsCount(hist, n, q, c, v);
    WrapsAround(hist[c].ver[q], k);
    if k == 0 {
      forall t | c <= t <= v ensures hist[t].ver[q] == hist[c].ver[q] {
        VersionIsCount(hist, n, q, c, t);
        IncrementsGrow(hist, n, q, c, t, v);
      }
    } else if k % 256 == 0 {
      var t := FirstIncrement(hist, n, q, c, v);
      assert hist[t].ver[q] != hist[c].ver[q];
    }
  }

  // After Init's last reset, at moment r, the version counts on from 1, whatever was recorded before:
  // it returns exactly when the increments since then make up the recorded value.
  lemma ReturnAfterReset(hist: seq<Snap>, n: nat, q: nat, c: nat, r: nat, v: nat)
    requires SameSize(hist, n) && q < n && c < r <= v < |hist| && hist[r].ver[q] == 1 != hist[r - 1].ver[q]
    requires forall s :: r <= s < v ==>
             hist[s + 1].ver[q] == hist[s].ver[q] || hist[s + 1].ver[q] == (hist[s].ver[q] + 1) % 256
    ensures NoReturn(hist, q, c, v) <==> (1 + Increments(hist, n, q, r, v)) % 256 != hist[c].ver[q]
  {
    VersionIsCount(hist, n, q, r, v);
    assert hist[r].ver[q] != hist[r - 1].ver[q];
  }

  // In a counted history, when a version returns: without a reset exactly after a positive multiple of
  // 256 increments, else exactly if the increments since the last reset make up the recorded value.
  lemma {:induction false} ReturnOfCounted(hist: seq<Snap>, n: nat, q: nat, c: nat, v: nat, resets: set<(nat, int)>)
    returns (r: nat)
    requires SameSize(hist, n) && q < n && c <= v < |hist| && hist[c].ver[q] < 256 && Counted(hist, 0, resets)
    ensures c <= r <= v && (r > c ==> (r, q) in resets && hist[r].ver[q] == 1 != hist[r - 1].ver[q])
    ensures forall s :: r <= s < v ==> OneOrNone(hist, q, s)
    ensures r == c ==>
            (NoReturn(hist, q, c, v) <==> Increments(hist, n, q, c, v) == 0 || Increments(hist, n, q, c, v) % 256 != 0)
    ensures r > c ==> (NoReturn(hist, q, c, v) <==> (1 + Increments(hist, n, q, r, v)) % 256 != hist[c].ver[q])
    decreases v - c
  {
    r := LastReset(hist, n, q, c, v, resets);
    assert forall s :: r <= s < v && OneOrNone(hist, q, s) ==>
             hist[s + 1].ver[q] == hist[s].ver[q] || hist[s + 1].ver[q] == (hist[s].ver[q] + 1) % 256;
    if r == c {
      ReturnNeedsWrap(hist, n, q, c, v);
    } else {
      ReturnAfterReset(hist, n, q, c, r, v);
    }
  }

  // The version of q stays or is one more at moment s + 1.
  ghost predicate OneOrNone(hist: seq<Snap>, q: nat, s: nat)
    requires s + 1 < |hist| && q < |hist[s].ver| && q < |hist[s + 1].ver|
  {
    hist[s + 1].ver[q] == hist[s].ver[q] || hist[s + 1].ver[q] == (hist[s].ver[q] + 1) % 256
  }

  // The last moment from c to v at which the version of q was reset, or c.
  lemma {:induction false} LastReset(hist: seq<Snap>, n: nat, q: nat, c: nat, v: nat, resets: set<(nat, int)>)
    returns (r: nat)
    requires SameSize(hist, n) && q < n && c <= v < |hist| && Counted(hist, 0, resets)
    ensures c <= r <= v && (r > c ==> (r, q) in resets && hist[r].ver[q] == 1 != hist[r - 1].ver[q])
    ensures forall s :: r <= s < v ==> OneOrNone(hist, q, s)
    decreases v - c
  {
    if c == v {
      r := c;
    } else {
      var s := v - 1;
      assert CountStep(hist[s].ver, hist[s + 1].ver, s + 1, resets);
      if OneOrNone(hist, q, s) {
        r := LastReset(hist, n, q, c, s, resets);
      } else {
        r := v;
      }
    }
  }

  // Counting k on from a comes back to a iff k is a multiple of 256.
  lemma WrapsAround(a: nat, k: nat)
    requires a < 256
    ensures (a + k) % 256 == a <==> k % 256 == 0
  {
    var q, r := k / 256, k % 256;
    assert a + k == 256 * q + (a + r);
  }

  lemma {:induction false} FirstIncrement(hist: seq<Snap>, n: nat, q: nat, c: nat, v: nat) returns (t: nat)
    requires SameSize(hist, n) && q < n && c <= v < |hist| && Increments(hist, n, q, c, v) > 0
    ensures c <= t <= v && hist[t].ver[q] != hist[c].ver[q]
    decreases v - c
  {
    if hist[v].ver[q] != hist[c].ver[q] {
      t := v;
    } else if Increments(hist, n, q, c, v - 1) > 0 {
      t := FirstIncrement(hist, n, q, c, v - 1);
    } else {
      NoIncrementNoChange(hist, n, q, c, v - 1);
      t := v;
    }
  }

  lemma {:induction false} NoIncrementNoChange(hist: seq<Snap>, n: nat, q: nat, c: nat, v: nat)
    requires SameSize(hist, n) && q < n && c <= v < |hist| && Increments(hist, n, q, c, v) == 0
    ensures hist[v].ver[q] == hist[c].ver[q]
    decreases v - c
  {
    if c < v {
      NoIncrementNoChange(hist, n, q, c, v - 1);
    }
  }
}
