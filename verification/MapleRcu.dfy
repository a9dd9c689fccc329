// A lock-free lookup in the maple tree while a writer replaces leaves by copies and slots of leaves
// in place. The writer is alone (it holds the tree lock), nodes are never reused, and memory is
// sequentially consistent.
module MapleRcu {
  import opened MapleLeaf

  // A node as readers see it. Leaves have level 0 and entries in their slots; the slots of other
  // nodes hold nodes one level below. The pivot of the last slot is stored in ended nodes only.
  datatype Node = Node(level: nat, p: seq<nat>, s: seq<nat>, ended: bool, dead: bool)

  // Where the link to a leaf is stored.
  datatype Place = Root | Slot(parent: nat, offset: nat)

  datatype Tree = Tree(nodes: map<nat, Node>, root: nat)

  // The writer marks the old leaf dead, publishes the copy, and marks the old leaf dead again.
  datatype Writer = Idle | Marked(leaf: nat, place: Place) | Published(leaf: nat)

  // The reader before it loads the root, before the first and before the second test of a node,
  // and when it is done.
  datatype Reader = Begin | Enter(node: nat) | Choose(node: nat) | Check(node: nat, next: nat) | Done(value: nat)

  datatype World = World(tree: Tree, writer: Writer, reader: Reader)

  // ---------- the tree ----------

  // A node with a single slot has its pivot.
  ghost predicate NodeOk(n: Node) {
    |n.s| == |n.p| + 1 && Increasing(n.p) && (n.p == [] ==> n.ended)
  }

  // Links lead one level down, and only leaves can be dead: inner nodes stay.
  ghost predicate TreeOk(t: Tree) {
    && t.root in t.nodes
    && (forall i :: i in t.nodes ==> NodeOk(t.nodes[i]) && (t.nodes[i].level > 0 ==> !t.nodes[i].dead))
    && (forall i, j :: i in t.nodes && t.nodes[i].level > 0 && 0 <= j < |t.nodes[i].s| ==>
          t.nodes[i].s[j] in t.nodes && t.nodes[t.nodes[i].s[j]].level == t.nodes[i].level - 1)
  }

  // The slot of node n that index falls into.
  function Next(n: Node, index: nat): nat
    requires |n.s| == |n.p| + 1
  {
    n.s[Find(n.p, index)]
  }

  // Where the search loop of a lookup stops: it looks at one pivot at least and runs past a single
  // slot without one, as MapleStore.LookupOffset does.
  function Offset(n: Node, index: nat): nat
    requires |n.s| == |n.p| + 1
  {
    if n.p == [] && !n.ended then 1 else Find(n.p, index)
  }

  // The node of a given level on the path of index.
  ghost function OnPath(t: Tree, index: nat, level: nat): (n: nat)
    requires TreeOk(t) && level <= t.nodes[t.root].level
    ensures n in t.nodes && t.nodes[n].level == level
    decreases t.nodes[t.root].level - level
  {
    if level == t.nodes[t.root].level then t.root else Next(t.nodes[OnPath(t, index, level + 1)], index)
  }

  // The entry the map has for index.
  ghost function MapValue(t: Tree, index: nat): nat
    requires TreeOk(t)
  {
    Next(t.nodes[OnPath(t, index, 0)], index)
  }

  ghost predicate Holds(t: Tree, place: Place, leaf: nat) {
    && leaf in t.nodes && t.nodes[leaf].level == 0
    && match place
       case Root => t.root == leaf
       case Slot(q, i) => q in t.nodes && t.nodes[q].level == 1 && i < |t.nodes[q].s| && t.nodes[q].s[i] == leaf
  }

  function Kill(t: Tree, leaf: nat): Tree
    requires leaf in t.nodes
  {
    t.(nodes := t.nodes[leaf := t.nodes[leaf].(dead := true)])
  }

  ghost function Link(t: Tree, place: Place, leaf: nat, copy: nat, n: Node): Tree
    requires Holds(t, place, leaf)
  {
    match place
    case Root => Tree(t.nodes[copy := n], copy)
    case Slot(q, i) => t.(nodes := t.nodes[copy := n][q := t.nodes[q].(s := t.nodes[q].s[i := copy])])
  }

  // One slot of a leaf replaced: a single write.
  function Put(t: Tree, leaf: nat, i: nat, entry: nat): Tree
    requires leaf in t.nodes && i < |t.nodes[leaf].s|
  {
    t.(nodes := t.nodes[leaf := t.nodes[leaf].(s := t.nodes[leaf].s[i := entry])])
  }

  // ---------- steps ----------

  ghost predicate WriterStep(a: World, b: World) {
    && b.reader == a.reader
    && match a.writer
       case Idle =>
         || (exists leaf, place ::
               Holds(a.tree, place, leaf) && b.tree == Kill(a.tree, leaf) && b.writer == Marked(leaf, place))
         || (b.writer == Idle && exists leaf, place, i: nat, entry ::
               Holds(a.tree, place, leaf) && i < |a.tree.nodes[leaf].s| && b.tree == Put(a.tree, leaf, i, entry))
       case Marked(leaf, place) =>
         exists copy, n: Node ::
           && Holds(a.tree, place, leaf) && copy !in a.tree.nodes && n.level == 0 && !n.dead && NodeOk(n)
           && b.tree == Link(a.tree, place, leaf, copy, n) && b.writer == Published(leaf)
       case Published(leaf) =>
         leaf in a.tree.nodes && b.tree == Kill(a.tree, leaf) && b.writer == Idle
  }

  ghost predicate ReaderStep(a: World, b: World, index: nat) {
    && b.tree == a.tree && b.writer == a.writer
    && match a.reader
       case Begin => b.reader == Enter(a.tree.root)
       case Enter(n) => n in a.tree.nodes && b.reader == if a.tree.nodes[n].dead then Begin else Choose(n)
       case Choose(n) =>
         n in a.tree.nodes
         && var x := a.tree.nodes[n];
            |x.s| == |x.p| + 1 && Offset(x, index) < |x.s| && b.reader == Check(n, x.s[Offset(x, index)])
       case Check(n, next) =>
         n in a.tree.nodes
         && b.reader == if a.tree.nodes[n].dead then Begin
                        else if a.tree.nodes[n].level == 0 then Done(next)
                        else Enter(next)
       case Done(_) => false
  }

  ghost predicate Step(a: World, b: World, index: nat) {
    WriterStep(a, b) || ReaderStep(a, b, index)
  }

  // ---------- what holds in every state ----------

  // If n is not dead, it is on the path of index now.
  ghost predicate StillThere(t: Tree, index: nat, n: nat)
    requires TreeOk(t)
  {
    n in t.nodes && t.nodes[n].level <= t.nodes[t.root].level
    && (!t.nodes[n].dead ==> OnPath(t, index, t.nodes[n].level) == n)
  }

  ghost predicate Inv(w: World, index: nat) {
    && TreeOk(w.tree)
    && (match w.writer
        case Idle => true
        case Marked(leaf, place) => Holds(w.tree, place, leaf) && w.tree.nodes[leaf].dead
        case Published(leaf) => leaf in w.tree.nodes && w.tree.nodes[leaf].level == 0 && w.tree.nodes[leaf].dead)
    && (match w.reader
        case Begin => true
        case Enter(n) => StillThere(w.tree, index, n)
        case Choose(n) => StillThere(w.tree, index, n)
        case Check(n, next) =>
          StillThere(w.tree, index, n) && (w.tree.nodes[n].level > 0 ==> StillThere(w.tree, index, next))
        case Done(_) => true)
  }

  // Changing a leaf's mark changes no path.
  lemma {:induction false} KillKeepsPaths(t: Tree, leaf: nat, index: nat, level: nat)
    requires TreeOk(t) && leaf in t.nodes && t.nodes[leaf].level == 0 && level <= t.nodes[t.root].level
    ensures TreeOk(Kill(t, leaf)) && OnPath(Kill(t, leaf), index, level) == OnPath(t, index, level)
    decreases t.nodes[t.root].level - level
  {
    if level < t.nodes[t.root].level {
      KillKeepsPaths(t, leaf, index, level + 1);
    }
  }

  lemma LinkOk(t: Tree, place: Place, leaf: nat, copy: nat, n: Node)
    requires TreeOk(t) && Holds(t, place, leaf) && copy !in t.nodes && n.level == 0 && !n.dead && NodeOk(n)
    ensures TreeOk(Link(t, place, leaf, copy, n))
    ensures var u := Link(t, place, leaf, copy, n); u.nodes[u.root].level == t.nodes[t.root].level
  {
    var u := Link(t, place, leaf, copy, n);
    forall i, j | i in u.nodes && u.nodes[i].level > 0 && 0 <= j < |u.nodes[i].s|
      ensures u.nodes[i].s[j] in u.nodes && u.nodes[u.nodes[i].s[j]].level == u.nodes[i].level - 1
    {
      assert i in t.nodes;
    }
  }

  // Publishing a copy changes a path only where it led to the replaced leaf.
  lemma {:induction false} LinkKeepsPaths(t: Tree, place: Place, leaf: nat, copy: nat, n: Node, index: nat, level: nat)
    requires TreeOk(t) && Holds(t, place, leaf) && copy !in t.nodes && n.level == 0 && !n.dead && NodeOk(n)
    requires TreeOk(Link(t, place, leaf, copy, n)) && level <= t.nodes[t.root].level
    requires var u := Link(t, place, leaf, copy, n); u.nodes[u.root].level == t.nodes[t.root].level
    ensures OnPath(t, index, level) == leaf
            || OnPath(Link(t, place, leaf, copy, n), index, level) == OnPath(t, index, level)
    decreases t.nodes[t.root].level - level
  {
    hide TreeOk, Find;
    NodesAreOk(t, OnPath(t, index, level));
    if level < t.nodes[t.root].level {
      LinkKeepsPaths(t, place, leaf, copy, n, index, level + 1);
      var m := OnPath(t, index, level + 1);
      NodesAreOk(t, m);
      assert m != leaf;
      if place.Slot? && place.parent == m {
        assert place.offset == Find(t.nodes[m].p, index) ==> OnPath(t, index, level) == leaf;
      }
    }
  }

  lemma NodesAreOk(t: Tree, i: nat)
    requires TreeOk(t) && i in t.nodes
    ensures t.root in t.nodes && NodeOk(t.nodes[i])
  {
  }

  lemma WriterKeepsInv(a: World, b: World, index: nat)
    requires Inv(a, index) && WriterStep(a, b)
    ensures Inv(b, index)
  {
    hide Find, OnPath, TreeOk, StillThere, NodeOk;
    var t := a.tree;
    match a.writer
    case Idle =>
      if leaf, place :| Holds(t, place, leaf) && b.tree == Kill(t, leaf) && b.writer == Marked(leaf, place) {
        KillKeepsStill(t, leaf, index);
      } else {
        var leaf, place, i: nat, entry :|
          Holds(t, place, leaf) && i < |t.nodes[leaf].s| && b.tree == Put(t, leaf, i, entry);
        PutKeepsStill(t, leaf, i, entry, index);
      }
    case Marked(leaf, place) =>
      var copy, n: Node :| Holds(t, place, leaf) && copy !in t.nodes && n.level == 0 && !n.dead && NodeOk(n)
                           && b.tree == Link(t, place, leaf, copy, n) && b.writer == Published(leaf);
      LinkOk(t, place, leaf, copy, n);
      LinkKeepsStill(t, place, leaf, copy, n, index);
    case Published(leaf) =>
      KillKeepsStill(t, leaf, index);
  }

  // Nor does replacing an entry.
  lemma {:induction false} PutKeepsPaths(t: Tree, leaf: nat, i: nat, entry: nat, index: nat, level: nat)
    requires TreeOk(t) && leaf in t.nodes && t.nodes[leaf].level == 0 && i < |t.nodes[leaf].s|
    requires level <= t.nodes[t.root].level
    ensures TreeOk(Put(t, leaf, i, entry)) && OnPath(Put(t, leaf, i, entry), index, level) == OnPath(t, index, level)
    decreases t.nodes[t.root].level - level
  {
    if level < t.nodes[t.root].level {
      PutKeepsPaths(t, leaf, i, entry, index, level + 1);
    }
  }

  lemma PutKeepsStill(t: Tree, leaf: nat, i: nat, entry: nat, index: nat)
    requires TreeOk(t) && leaf in t.nodes && t.nodes[leaf].level == 0 && i < |t.nodes[leaf].s|
    ensures TreeOk(Put(t, leaf, i, entry))
    ensures forall n :: StillThere(t, index, n) ==>
              StillThere(Put(t, leaf, i, entry), index, n) && Put(t, leaf, i, entry).nodes[n].level == t.nodes[n].level
  {
    PutKeepsPaths(t, leaf, i, entry, index, t.nodes[t.root].level);
    forall n | StillThere(t, index, n) ensures StillThere(Put(t, leaf, i, entry), index, n) {
      PutKeepsPaths(t, leaf, i, entry, index, t.nodes[n].level);
    }
  }

  lemma KillKeepsStill(t: Tree, leaf: nat, index: nat)
    requires TreeOk(t) && leaf in t.nodes && t.nodes[leaf].level == 0
    ensures TreeOk(Kill(t, leaf))
    ensures forall n :: StillThere(t, index, n) ==>
              StillThere(Kill(t, leaf), index, n) && Kill(t, leaf).nodes[n].level == t.nodes[n].level
  {
    KillKeepsPaths(t, leaf, index, t.nodes[t.root].level);
    forall n | StillThere(t, index, n) ensures StillThere(Kill(t, leaf), index, n) {
      KillKeepsPaths(t, leaf, index, t.nodes[n].level);
    }
  }

  lemma LinkKeepsStill(t: Tree, place: Place, leaf: nat, copy: nat, n: Node, index: nat)
    requires TreeOk(t) && Holds(t, place, leaf) && t.nodes[leaf].dead && copy !in t.nodes && n.level == 0 && !n.dead
             && NodeOk(n)
    requires TreeOk(Link(t, place, leaf, copy, n))
    requires var u := Link(t, place, leaf, copy, n); u.nodes[u.root].level == t.nodes[t.root].level
    ensures var u := Link(t, place, leaf, copy, n);
            forall k :: StillThere(t, index, k) ==> StillThere(u, index, k) && u.nodes[k].level == t.nodes[k].level
  {
    hide OnPath, TreeOk, NodeOk, Find;
    var u := Link(t, place, leaf, copy, n);
    forall k | StillThere(t, index, k) ensures StillThere(u, index, k) {
      LinkKeepsPaths(t, place, leaf, copy, n, index, t.nodes[k].level);
    }
  }

  lemma ReaderKeepsInv(a: World, b: World, index: nat)
    requires Inv(a, index) && ReaderStep(a, b, index)
    ensures Inv(b, index)
    // The entry read from a leaf that is not dead is the one the map has at that very moment.
    ensures b.reader.Check? && b.tree.nodes[b.reader.node].level == 0 && !b.tree.nodes[b.reader.node].dead ==>
              b.reader.next == MapValue(b.tree, index)
  {
    var t := a.tree;
    match a.reader
    case Choose(n) =>
      assert Offset(t.nodes[n], index) == Find(t.nodes[n].p, index);
      if t.nodes[n].level > 0 {
        var l := t.nodes[n].level;
        assert OnPath(t, index, l) == n;
        assert OnPath(t, index, l - 1) == Next(t.nodes[n], index);
      }
    case _ =>
  }

  // Marks stay, and levels.
  lemma DeadStays(a: World, b: World, n: nat)
    requires WriterStep(a, b) && n in a.tree.nodes && a.tree.nodes[n].level == 0
    ensures n in b.tree.nodes && b.tree.nodes[n].level == 0 && (a.tree.nodes[n].dead ==> b.tree.nodes[n].dead)
  {
  }

  // ---------- whole runs ----------

  ghost predicate IsRun(run: seq<World>, index: nat) {
    && |run| > 0 && Inv(run[0], index) && run[0].reader == Begin
    && forall i, j :: 0 <= i && j == i + 1 && j < |run| ==> Step(run[i], run[j], index)
  }

  lemma {:induction false} RunKeepsInv(run: seq<World>, index: nat, k: nat)
    requires IsRun(run, index) && k < |run|
    ensures Inv(run[k], index)
    decreases k
  {
    hide Inv, WriterStep, ReaderStep;
    if k > 0 {
      RunKeepsInv(run, index, k - 1);
      assert Step(run[k - 1], run[k], index);
      if WriterStep(run[k - 1], run[k]) {
        WriterKeepsInv(run[k - 1], run[k], index);
      } else {
        ReaderKeepsInv(run[k - 1], run[k], index);
      }
    }
  }

  // An entry a reader holds for its last test was current when it read it, if its leaf is not dead.
  lemma {:induction false} ReadWasCurrent(run: seq<World>, index: nat, k: nat) returns (m: nat)
    requires IsRun(run, index) && k < |run| && run[k].reader.Check?
    requires var n, t := run[k].reader.node, run[k].tree; n in t.nodes && t.nodes[n].level == 0 && !t.nodes[n].dead
    ensures m <= k && TreeOk(run[m].tree) && run[k].reader.next == MapValue(run[m].tree, index)
    decreases k
  {
    hide OnPath, MapValue, Find;
    RunKeepsInv(run, index, k - 1);
    assert Step(run[k - 1], run[k], index);
    if ReaderStep(run[k - 1], run[k], index) {
      ReaderKeepsInv(run[k - 1], run[k], index);
      m := k;
    } else {
      var n := run[k].reader.node;
      assert StillThere(run[k - 1].tree, index, n);
      LevelStays(run[k - 1], run[k], n);
      DeadStays(run[k - 1], run[k], n);
      m := ReadWasCurrent(run, index, k - 1);
    }
  }

  lemma LevelStays(a: World, b: World, n: nat)
    requires WriterStep(a, b) && n in a.tree.nodes
    ensures n in b.tree.nodes && b.tree.nodes[n].level == a.tree.nodes[n].level
  {
  }

  // Linearizability: in every interleaving, what a lookup returns was the map's entry for the
  // index at some moment of the call - the moment it read the slot.
  lemma {:induction false} LookupIsLinearizable(run: seq<World>, index: nat, k: nat) returns (m: nat)
    requires IsRun(run, index) && k < |run| && run[k].reader.Done?
    ensures m <= k && TreeOk(run[m].tree) && run[k].reader.value == MapValue(run[m].tree, index)
    decreases k
  {
    hide OnPath, MapValue, Find;
    RunKeepsInv(run, index, k - 1);
    assert Step(run[k - 1], run[k], index);
    if run[k - 1].reader.Done? {
      assert !ReaderStep(run[k - 1], run[k], index);
      m := LookupIsLinearizable(run, index, k - 1);
    } else {
      m := ReadWasCurrent(run, index, k - 1);
    }
  }

  // ---------- progress ----------

  // The writer can replace any leaf: three steps, after which the copy is in its place and only the old
  // leaf is dead.
  lemma WriterReplaces(w: World, leaf: nat, place: Place, copy: nat, n: Node, index: nat)
    returns (a: World, b: World, c: World)
    requires Inv(w, index) && w.writer.Idle? && Holds(w.tree, place, leaf)
    requires copy !in w.tree.nodes && n.level == 0 && !n.dead && NodeOk(n)
    ensures WriterStep(w, a) && WriterStep(a, b) && WriterStep(b, c) && c.writer.Idle? && Inv(c, index)
    ensures Holds(c.tree, place, copy) && c.tree.nodes[copy] == n && c.tree.nodes[leaf].dead
    ensures forall i :: i in w.tree.nodes && i != leaf ==> c.tree.nodes[i].dead == w.tree.nodes[i].dead
  {
    hide Inv;
    a := w.(tree := Kill(w.tree, leaf), writer := Marked(leaf, place));
    WriterKeepsInv(w, a, index);
    b := a.(tree := Link(a.tree, place, leaf, copy, n), writer := Published(leaf));
    WriterKeepsInv(a, b, index);
    c := b.(tree := Kill(b.tree, leaf), writer := Idle);
    WriterKeepsInv(b, c, index);
  }

  // A lookup that is not done always has exactly one next step.
  lemma ReaderStepIsUnique(a: World, index: nat) returns (b: World)
    requires Inv(a, index) && !a.reader.Done?
    ensures ReaderStep(a, b, index) && Inv(b, index)
    ensures forall c :: ReaderStep(a, c, index) ==> c == b
  {
    var t := a.tree;
    var r := match a.reader
      case Begin => Enter(t.root)
      case Enter(n) => if t.nodes[n].dead then Begin else Choose(n)
      case Choose(n) =>
        assert NodeOk(t.nodes[n]);
        Check(n, t.nodes[n].s[Offset(t.nodes[n], index)])
      case Check(n, next) =>
        if t.nodes[n].dead then Begin else if t.nodes[n].level == 0 then Done(next) else Enter(next);
    b := a.(reader := r);
    ReaderKeepsInv(a, b, index);
  }

  // It starts over only from a dead node.
  lemma OnlyDeadNodesRetry(a: World, b: World, index: nat)
    requires ReaderStep(a, b, index) && b.reader == Begin
    ensures (a.reader.Enter? || a.reader.Check?) && a.reader.node in a.tree.nodes && a.tree.nodes[a.reader.node].dead
  {
  }

  // A lookup from its start while the writer pauses.
  ghost predicate SoloRun(run: seq<World>, index: nat) {
    && |run| > 0 && Inv(run[0], index) && run[0].reader == Begin
    && forall i, j :: 0 <= i && j == i + 1 && j < |run| ==> ReaderStep(run[i], run[j], index)
  }

  ghost function RootLevel(t: Tree): nat
    requires TreeOk(t)
  {
    t.nodes[t.root].level
  }

  // It comes to the node of level l on the path in three steps a level.
  lemma {:induction false} SoloAt(run: seq<World>, index: nat, l: nat, k: nat)
    requires SoloRun(run, index) && l <= RootLevel(run[0].tree) && k == 3 * (RootLevel(run[0].tree) - l) + 1 < |run|
    ensures run[k] == run[0].(reader := Enter(OnPath(run[0].tree, index, l)))
    decreases RootLevel(run[0].tree) - l
  {
    hide Find;
    if l < RootLevel(run[0].tree) {
      SoloAt(run, index, l + 1, k - 3);
      SoloNode(run, index, l + 1, k - 3);
      assert ReaderStep(run[k - 1], run[k], index);
    } else {
      assert ReaderStep(run[0], run[1], index);
    }
  }

  // A node that is not dead takes it three steps: it reads the slot of index and looks at the mark twice.
  lemma SoloNode(run: seq<World>, index: nat, l: nat, k: nat)
    requires SoloRun(run, index) && l <= RootLevel(run[0].tree) && k < |run|
    requires run[k] == run[0].(reader := Enter(OnPath(run[0].tree, index, l)))
    requires !run[0].tree.nodes[OnPath(run[0].tree, index, l)].dead
    ensures var n := OnPath(run[0].tree, index, l);
            && (k + 1 < |run| ==> run[k + 1] == run[0].(reader := Choose(n)))
            && (k + 2 < |run| ==>
                  run[k + 2] == run[0].(reader := Check(n, Next(run[0].tree.nodes[n], index))))
  {
    hide Find;
    assert NodeOk(run[0].tree.nodes[OnPath(run[0].tree, index, l)]);
    if k + 1 < |run| {
      assert ReaderStep(run[k], run[k + 1], index);
    }
    if k + 2 < |run| {
      assert ReaderStep(run[k + 1], run[k + 2], index);
    }
  }

  lemma GoesOn(run: seq<World>, index: nat, k: nat)
    requires SoloRun(run, index) && k + 1 < |run|
    ensures !run[k].reader.Done?
  {
    assert ReaderStep(run[k], run[k + 1], index);
  }

  // Where a lookup is after k steps, as long as the leaf on the path was not seen dead.
  lemma SoloIsOnItsWay(run: seq<World>, index: nat, k: nat)
    requires SoloRun(run, index) && k < |run|
    requires var l, leaf := RootLevel(run[0].tree), OnPath(run[0].tree, index, 0);
             k <= if run[0].tree.nodes[leaf].dead then 3 * l + 1 else 3 * l + 3
    ensures run[k].tree == run[0].tree && !run[k].reader.Done?
  {
    hide Find, OnPath;
    if k > 0 {
      var l := RootLevel(run[0].tree) - (k - 1) / 3;
      var i := k - (k - 1) % 3;
      SoloAt(run, index, l, i);
      if i < k {
        SoloNode(run, index, l, i);
      }
    }
  }

  // Wait-freedom while the writer pauses: with a live leaf on the path, every lookup is done after exactly
  // three steps for every level and one more, with the map's entry.
  lemma LookupTakes(run: seq<World>, index: nat)
    requires SoloRun(run, index) && !run[0].tree.nodes[OnPath(run[0].tree, index, 0)].dead
    ensures var steps, end := 3 * (RootLevel(run[0].tree) + 1) + 1, run[|run| - 1];
            && |run| - 1 <= steps
            && (if |run| - 1 < steps then !end.reader.Done? else end.reader == Done(MapValue(run[0].tree, index)))
  {
    hide Find, OnPath;
    var l := RootLevel(run[0].tree);
    if |run| <= 3 * l + 4 {
      SoloIsOnItsWay(run, index, |run| - 1);
    } else {
      SoloAt(run, index, 0, 3 * l + 1);
      SoloNode(run, index, 0, 3 * l + 1);
      assert ReaderStep(run[3 * l + 3], run[3 * l + 4], index);
      if 3 * l + 5 < |run| {
        GoesOn(run, index, 3 * l + 4);
      }
    }
  }

  // With a dead leaf on the path it is back at the start after 3 * level + 2 steps, and never done: the
  // writer that marked the leaf has to publish the copy first.
  lemma {:induction false} DeadLeafRetries(run: seq<World>, index: nat)
    requires SoloRun(run, index) && run[0].tree.nodes[OnPath(run[0].tree, index, 0)].dead
    ensures forall k :: 0 <= k < |run| ==> run[k].tree == run[0].tree && !run[k].reader.Done?
    ensures var steps := 3 * RootLevel(run[0].tree) + 2; steps < |run| ==> run[steps].reader == Begin
    decreases |run|
  {
    hide Find, OnPath;
    var steps := 3 * RootLevel(run[0].tree) + 2;
    forall k | 0 <= k < |run| && k < steps ensures run[k].tree == run[0].tree && !run[k].reader.Done? {
      SoloIsOnItsWay(run, index, k);
    }
    if steps < |run| {
      SoloAt(run, index, 0, steps - 1);
      assert ReaderStep(run[steps - 1], run[steps], index);
      var rest := run[steps..];
      assert rest[0] == run[steps];
      forall i, j | 0 <= i && j == i + 1 && j < |rest| ensures ReaderStep(rest[i], rest[j], index) {
        assert ReaderStep(run[steps + i], run[steps + j], index);
      }
      assert Inv(rest[0], index);
      DeadLeafRetries(rest, index);
      forall k | steps <= k < |run| ensures run[k].tree == run[0].tree && !run[k].reader.Done? {
        assert run[k] == rest[k - steps];
      }
    }
  }

  // And such a lookup exists: from every state before its start it can take all its steps.
  lemma {:induction false} LookupGetsThere(w: World, index: nat, k: nat) returns (run: seq<World>)
    requires Inv(w, index) && w.reader == Begin && !w.tree.nodes[OnPath(w.tree, index, 0)].dead
    requires k <= 3 * (RootLevel(w.tree) + 1) + 1
    ensures SoloRun(run, index) && run[0] == w && |run| == k + 1 && Inv(run[k], index)
    decreases k
  {
    hide Find, OnPath, ReaderStep, TreeOk, StillThere;
    if k == 0 {
      run := [w];
    } else {
      var first := LookupGetsThere(w, index, k - 1);
      LookupTakes(first, index);
      var next := ReaderStepIsUnique(first[k - 1], index);
      run := first + [next];
      forall i, j | 0 <= i && j == i + 1 && j < |run| ensures ReaderStep(run[i], run[j], index) {
        assert i < k - 1 ==> ReaderStep(first[i], first[j], index);
      }
    }
  }
}
