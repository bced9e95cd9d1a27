/** Lookups over whole runs, the rule for inserting below the root, and the lookup loop. */
module BeTreeTheorems {
  import opened Common
  import opened Upserts
  import opened Messages
  import opened Keys
  import opened BeTree
  import opened BeTreeSteps
  import opened BeTreeEffects

  /** Both answers of a binary search in sorted pivots name the child of the key. */
  lemma SearchFindsChild(pivots: seq<Key>, k: Key, i: nat)
    requires Sorted(pivots) && i <= |pivots|
    requires (i < |pivots| && pivots[i] == k)
          || ((forall j :: 0 <= j < i ==> Less(pivots[j], k)) && (forall j :: i <= j < |pivots| ==> Less(k, pivots[j])))
    ensures Idx(pivots, k) == i
  {
    if i < |pivots| {
      Irreflexive(k);
      if Less(k, pivots[i]) {
        LessIsAtMost(k, pivots[i]);
      }
    }
    IdxUnique(pivots, k, i);
  }

  // ------------------------------------------------------------------- inserting

  /** Walk d levels down and insert there. */
  function InsertAt(n: Node, d: nat, k: Key, m: Msg): Node
    decreases d
  {
    if d == 0 || n.Leaf? || Idx(n.pivots, k) >= |n.children| then Push(n, map[k := m])
    else
      var i := Idx(n.pivots, k);
      var c := n.children[i];
      Inner(n.pivots, n.children[i := Child(c.buffer, InsertAt(c.node, d - 1, k, m))])
  }

  /** No buffer passed on the way holds a message for the key. */
  predicate Clear(n: Node, d: nat, k: Key)
    decreases d
  {
    d == 0 || n.Leaf? || Idx(n.pivots, k) >= |n.children| ||
    (var c := n.children[Idx(n.pivots, k)]; k !in c.buffer && Clear(c.node, d - 1, k))
  }

  /** What the passed buffers make of a value, and the value below them. */
  function Over(n: Node, d: nat, k: Key, v: Value): Value
    decreases d
  {
    if d == 0 || n.Leaf? || Idx(n.pivots, k) >= |n.children| then v
    else
      var c := n.children[Idx(n.pivots, k)];
      Act(Find(c.buffer, k), Over(c.node, d - 1, k, v))
  }

  function Below(n: Node, d: nat, k: Key): Value
    decreases d
  {
    if d == 0 || n.Leaf? || Idx(n.pivots, k) >= |n.children| then Get(n, k)
    else Below(n.children[Idx(n.pivots, k)].node, d - 1, k)
  }

  lemma {:induction false} OverBelow(n: Node, d: nat, k: Key)
    ensures Get(n, k) == Over(n, d, k, Below(n, d, k))
    decreases d
  {
    var i := if n.Inner? then Idx(n.pivots, k) else 0;
    if d > 0 && n.Inner? && i < |n.children| {
      var c := n.children[i];
      OverBelow(c.node, d - 1, k);
      assert Over(n, d, k, Below(n, d, k)) == Act(Find(c.buffer, k), Over(c.node, d - 1, k, Below(n, d, k)));
    }
  }

  lemma {:induction false} InsertOver(n: Node, d: nat, k: Key, m: Msg, lo: Option<Key>, hi: Option<Key>, h: nat)
    requires WF(n, lo, hi, h)
    ensures Get(InsertAt(n, d, k, m), k) == Over(n, d, k, Apply(m, Below(n, d, k)))
    decreases d
  {
    if d == 0 || n.Leaf? {
      PushGet(n, map[k := m], lo, hi, h, k);
    } else {
      var i := Idx(n.pivots, k);
      assert ChildOk(n.children[i], Low(n.pivots, lo, i), High(n.pivots, hi, i), h - 1);
      InsertOver(n.children[i].node, d - 1, k, m, Low(n.pivots, lo, i), High(n.pivots, hi, i), h - 1);
    }
  }

  lemma {:induction false} ClearOver(n: Node, d: nat, k: Key, v: Value)
    requires Clear(n, d, k)
    ensures Over(n, d, k, v) == v
    decreases d
  {
    if d > 0 && n.Inner? && Idx(n.pivots, k) < |n.children| {
      ClearOver(n.children[Idx(n.pivots, k)].node, d - 1, k, v);
    }
  }

  /** A passed message decides alone whether there is a value. */
  lemma {:induction false} MaskedOver(n: Node, d: nat, k: Key, v: Value, w: Value)
    requires !Clear(n, d, k)
    ensures Over(n, d, k, v).None? == Over(n, d, k, w).None?
    decreases d
  {
    var c := n.children[Idx(n.pivots, k)];
    if k !in c.buffer {
      MaskedOver(c.node, d - 1, k, v, w);
    }
  }

  /** Inserting d levels down takes effect as the newest message, whatever the message, exactly if
      no buffer on the way holds a message for the key. */
  lemma InsertIsNewestIff(n: Node, d: nat, k: Key, lo: Option<Key>, hi: Option<Key>, h: nat)
    requires WF(n, lo, hi, h)
    ensures (forall m: Msg :: Get(InsertAt(n, d, k, m), k) == Apply(m, Get(n, k))) <==> Clear(n, d, k)
  {
    OverBelow(n, d, k);
    if Clear(n, d, k) {
      forall m: Msg
        ensures Get(InsertAt(n, d, k, m), k) == Apply(m, Get(n, k))
      {
        InsertOver(n, d, k, m, lo, hi, h);
        ClearOver(n, d, k, Apply(m, Below(n, d, k)));
        ClearOver(n, d, k, Below(n, d, k));
      }
    } else {
      var delete: Msg, insert: Msg := [DELETE], [INSERT];
      InsertOver(n, d, k, delete, lo, hi, h);
      InsertOver(n, d, k, insert, lo, hi, h);
      MaskedOver(n, d, k, Apply(delete, Below(n, d, k)), Apply(insert, Below(n, d, k)));
      assert Apply(delete, Get(n, k)).None? && Apply(insert, Get(n, k)).Some?;
    }
  }

  /** A message inserted below an older one is hidden by it. */
  lemma HiddenInsert(k: Key)
    ensures var n := Inner([], [Child(map[k := [INSERT, 7]], Leaf(map[]))]);
            WF(n, None, None, 1) && Get(InsertAt(n, 1, k, [INSERT, 8]), k) == Some([7])
  {
    var n := Inner([], [Child(map[k := [INSERT, 7]], Leaf(map[]))]);
    assert ChildOk(n.children[0], None, None, 0);
    assert Idx([], k) == 0;
    assert [INSERT, 7][1..] == [7];
  }

  lemma {:induction false} InsertElsewhere(n: Node, d: nat, k: Key, m: Msg, q: Key,
                                           lo: Option<Key>, hi: Option<Key>, h: nat)
    requires WF(n, lo, hi, h) && q != k
    ensures Get(InsertAt(n, d, k, m), q) == Get(n, q)
    decreases d
  {
    if d == 0 || n.Leaf? {
      PushGet(n, map[k := m], lo, hi, h, q);
    } else {
      var i := Idx(n.pivots, k);
      assert ChildOk(n.children[i], Low(n.pivots, lo, i), High(n.pivots, hi, i), h - 1);
      InsertElsewhere(n.children[i].node, d - 1, k, m, q, Low(n.pivots, lo, i), High(n.pivots, hi, i), h - 1);
    }
  }

  function ReplaceNode(n: Node, i: nat, c: Node): Node
    requires n.Inner? && i < |n.children|
  {
    Inner(n.pivots, n.children[i := Child(n.children[i].buffer, c)])
  }

  lemma ReplaceNodeWF(n: Node, i: nat, c: Node, lo: Option<Key>, hi: Option<Key>, h: nat)
    requires WF(n, lo, hi, h) && n.Inner? && i < |n.children|
    requires WF(c, Low(n.pivots, lo, i), High(n.pivots, hi, i), h - 1)
    ensures WF(ReplaceNode(n, i, c), lo, hi, h)
  {
    var m := ReplaceNode(n, i, c);
    forall j | 0 <= j < |m.children|
      ensures ChildOk(m.children[j], Low(m.pivots, lo, j), High(m.pivots, hi, j), h - 1)
    {
      assert ChildOk(n.children[j], Low(n.pivots, lo, j), High(n.pivots, hi, j), h - 1);
    }
  }

  lemma {:induction false} InsertWF(n: Node, d: nat, k: Key, m: Msg, lo: Option<Key>, hi: Option<Key>, h: nat)
    requires WF(n, lo, hi, h) && InRange(lo, hi, k)
    ensures WF(InsertAt(n, d, k, m), lo, hi, h)
    decreases d
  {
    if d == 0 || n.Leaf? {
      PushWF(n, map[k := m], lo, hi, h);
    } else {
      var i := Idx(n.pivots, k);
      RoutedInRange(n.pivots, lo, hi, k);
      assert ChildOk(n.children[i], Low(n.pivots, lo, i), High(n.pivots, hi, i), h - 1);
      InsertWF(n.children[i].node, d - 1, k, m, Low(n.pivots, lo, i), High(n.pivots, hi, i), h - 1);
      ReplaceNodeWF(n, i, InsertAt(n.children[i].node, d - 1, k, m), lo, hi, h);
    }
  }

  // ------------------------------------------------------- steps deep in the tree

  lemma ReplaceNodeGet(n: Node, i: nat, c: Node, k: Key)
    requires n.Inner? && i < |n.children| && Get(c, k) == Get(n.children[i].node, k)
    ensures Get(ReplaceNode(n, i, c), k) == Get(n, k)
  {
  }

  predicate CanDoAt(n: Node, path: seq<nat>, op: Op)
    decreases |path|
  {
    if path == [] then CanDo(n, op)
    else n.Inner? && path[0] < |n.children| && CanDoAt(n.children[path[0]].node, path[1..], op)
  }

  function DoAt(n: Node, path: seq<nat>, op: Op): Node
    requires CanDoAt(n, path, op)
    decreases |path|
  {
    if path == [] then Do(n, op)
    else ReplaceNode(n, path[0], DoAt(n.children[path[0]].node, path[1..], op))
  }

  function NodeAt(n: Node, path: seq<nat>): Option<Node>
    decreases |path|
  {
    if path == [] then Some(n)
    else if n.Inner? && path[0] < |n.children| then NodeAt(n.children[path[0]].node, path[1..])
    else None
  }

  /** One path leads through a place at which the other turned off. */
  predicate Diverge(a: seq<nat>, b: seq<nat>) {
    a != [] && b != [] && (a[0] != b[0] || Diverge(a[1..], b[1..]))
  }

  /** The step is done at the node that the path leads to, and nodes off the path stay. */
  lemma {:induction false} DoAtThere(n: Node, path: seq<nat>, op: Op, other: seq<nat>)
    requires CanDoAt(n, path, op)
    ensures NodeAt(n, path).Some? && CanDo(NodeAt(n, path).value, op)
    ensures NodeAt(DoAt(n, path, op), path) == Some(Do(NodeAt(n, path).value, op))
    ensures Diverge(path, other) ==> NodeAt(DoAt(n, path, op), other) == NodeAt(n, other)
    decreases |path|
  {
    if path != [] {
      DoAtThere(n.children[path[0]].node, path[1..], op, if other == [] then [] else other[1..]);
    }
  }

  lemma {:induction false} DoAtKeeps(n: Node, path: seq<nat>, op: Op, lo: Option<Key>, hi: Option<Key>, h: nat)
    requires WF(n, lo, hi, h) && CanDoAt(n, path, op)
    ensures WF(DoAt(n, path, op), lo, hi, h)
    ensures forall k :: Get(DoAt(n, path, op), k) == Get(n, k)
    decreases |path|
  {
    if path == [] {
      DoKeeps(n, op, lo, hi, h);
    } else {
      var i := path[0];
      assert ChildOk(n.children[i], Low(n.pivots, lo, i), High(n.pivots, hi, i), h - 1);
      DoAtKeeps(n.children[i].node, path[1..], op, Low(n.pivots, lo, i), High(n.pivots, hi, i), h - 1);
      ReplaceNodeWF(n, i, DoAt(n.children[i].node, path[1..], op), lo, hi, h);
      forall k
        ensures Get(DoAt(n, path, op), k) == Get(n, k)
      {
        ReplaceNodeGet(n, i, DoAt(n.children[i].node, path[1..], op), k);
      }
    }
  }

  /** `split_root_mut`: a new root with empty buffers over the two halves. */
  function SplitRoot(n: Node, p: Key): Node
    requires CanSplit(n, p)
  {
    Inner([p], [Child(map[], LeftPart(n, p)), Child(map[], RightPart(n, p))])
  }

  lemma SplitRootKeeps(n: Node, p: Key, h: nat)
    requires WF(n, None, None, h) && CanSplit(n, p)
    ensures WF(SplitRoot(n, p), None, None, h + 1)
    ensures forall k :: Get(SplitRoot(n, p), k) == Get(n, k)
  {
    LeftWF(n, p, None, None, h);
    RightWF(n, p, None, None, h);
    SplitIsParts(n, p, None, None, h);
    forall k
      ensures Idx([p], k) == if AtMost(k, p) then 0 else 1
    {
      assert [p][1..] == [];
    }
  }

  /** The new root has one pivot and the two halves under empty buffers. */
  lemma SplitRootCuts(n: Node, p: Key, h: nat)
    requires WF(n, None, None, h) && CanSplit(n, p)
    ensures var r := SplitRoot(n, p);
            && r.Inner? && r.pivots == [p] && |r.children| == 2
            && r.children[0].buffer == map[] && r.children[1].buffer == map[]
            && CutInTwo(n, r.children[0].node, r.children[1].node)
            && Parts(n, r.children[0].node, p, r.children[1].node)
  {
    SplitCuts(n, p);
    SplitIsParts(n, p, None, None, h);
  }

  // ------------------------------------------------------------------ whole runs

  datatype Step =
    | Insert(key: Key, msg: Msg, depth: nat)
    | Reshape(path: seq<nat>, op: Op)
    | GrowRoot(pivot: Key)

  predicate Enabled(n: Node, s: Step) {
    match s
    case Insert(k, _, d) => Clear(n, d, k)
    case Reshape(path, op) => CanDoAt(n, path, op)
    case GrowRoot(p) => CanSplit(n, p)
  }

  function Next(n: Node, s: Step): Node
    requires Enabled(n, s)
  {
    match s
    case Insert(k, m, d) => InsertAt(n, d, k, m)
    case Reshape(path, op) => DoAt(n, path, op)
    case GrowRoot(p) => SplitRoot(n, p)
  }

  predicate Runs(n: Node, run: seq<Step>)
    decreases |run|
  {
    run == [] || (Enabled(n, run[0]) && Runs(Next(n, run[0]), run[1..]))
  }

  function After(n: Node, run: seq<Step>): Node
    requires Runs(n, run)
    decreases |run|
  {
    if run == [] then n else After(Next(n, run[0]), run[1..])
  }

  function Levels(h: nat, run: seq<Step>): nat
    decreases |run|
  {
    if run == [] then h else Levels(if run[0].GrowRoot? then h + 1 else h, run[1..])
  }

  /** The messages for a key, one after the other. */
  function Replay(v: Value, run: seq<Step>, k: Key): Value
    decreases |run|
  {
    if run == [] then v
    else Replay(if run[0].Insert? && run[0].key == k then Apply(run[0].msg, v) else v, run[1..], k)
  }

  lemma StepMeaning(n: Node, s: Step, h: nat, k: Key)
    requires WF(n, None, None, h) && Enabled(n, s)
    ensures WF(Next(n, s), None, None, if s.GrowRoot? then h + 1 else h)
    ensures Get(Next(n, s), k) == if s.Insert? && s.key == k then Apply(s.msg, Get(n, k)) else Get(n, k)
  {
    match s {
      case Insert(q, m, d) =>
        InsertWF(n, d, q, m, None, None, h);
        InsertIsNewestIff(n, d, q, None, None, h);
        if q != k {
          InsertElsewhere(n, d, q, m, k, None, None, h);
        }
      case Reshape(path, op) => DoAtKeeps(n, path, op, None, None, h);
      case GrowRoot(p) => SplitRootKeeps(n, p, h);
    }
  }

  lemma {:induction false} ReplayOthers(v: Value, run: seq<Step>, k: Key)
    requires forall i :: 0 <= i < |run| && run[i].Insert? ==> run[i].key != k
    ensures Replay(v, run, k) == v
    decreases |run|
  {
    if run != [] {
      assert forall i :: 0 <= i < |run[1..]| ==> run[1..][i] == run[i + 1];
      ReplayOthers(v, run[1..], k);
    }
  }

  /** Over every run of inserts, flushes, splits, merges and rebalances, anywhere in the tree, a lookup yields
      what the inserted messages make of the first value, in the order of their insertion. */
  lemma {:induction false} LookupsReplayInserts(n: Node, run: seq<Step>, h: nat, k: Key)
    requires WF(n, None, None, h) && Runs(n, run)
    ensures WF(After(n, run), None, None, Levels(h, run))
    ensures Get(After(n, run), k) == Replay(Get(n, k), run, k)
    decreases |run|
  {
    if run != [] {
      StepMeaning(n, run[0], h, k);
      LookupsReplayInserts(Next(n, run[0]), run[1..], if run[0].GrowRoot? then h + 1 else h, k);
    }
  }

  /** A tree is created empty: a key reads as what its messages, and no others, make of nothing. */
  lemma LookupsFromEmpty(run: seq<Step>, k: Key)
    requires Runs(Leaf(map[]), run)
    ensures WF(After(Leaf(map[]), run), None, None, Levels(0, run))
    ensures Get(After(Leaf(map[]), run), k) == Replay(None, run, k)
    ensures (forall i :: 0 <= i < |run| && run[i].Insert? ==> run[i].key != k) ==>
              Get(After(Leaf(map[]), run), k) == None
  {
    LookupsReplayInserts(Leaf(map[]), run, 0, k);
    if forall i :: 0 <= i < |run| && run[i].Insert? ==> run[i].key != k {
      ReplayOthers(None, run, k);
    }
  }

  // ------------------------------------------------------------------- the methods

  /** Messages from the root downwards, replayed from the last to the first. */
  function ActMany(msgs: seq<Msg>, v: Value): Value
    decreases |msgs|
  {
    if msgs == [] then v else Apply(msgs[0], ActMany(msgs[1..], v))
  }

  lemma {:induction false} ActManyLast(msgs: seq<Msg>, m: Msg, v: Value)
    ensures ActMany(msgs + [m], v) == ActMany(msgs, Apply(m, v))
    decreases |msgs|
  {
    if msgs == [] {
      assert [m][1..] == [];
    } else {
      ActManyLast(msgs[1..], m, v);
      HeadFirst(msgs, [m]);
    }
  }

  lemma OneLevelDown(n: Node, k: Key, lo: Option<Key>, hi: Option<Key>, h: nat)
    requires WF(n, lo, hi, h) && n.Inner?
    ensures var i := Idx(n.pivots, k);
            && i < |n.children| && h > 0
            && WF(n.children[i].node, Low(n.pivots, lo, i), High(n.pivots, hi, i), h - 1)
            && var c := n.children[i];
            Get(n, k) == if k in c.buffer then Apply(c.buffer[k], Get(c.node, k)) else Get(c.node, k)
  {
    var i := Idx(n.pivots, k);
    assert ChildOk(n.children[i], Low(n.pivots, lo, i), High(n.pivots, hi, i), h - 1);
  }

  /** The messages applied from the last, which is the one next to the leaf, to the first. */
  method ApplyUpwards(msgs: seq<Msg>, data: Value) returns (v: Value)
    ensures v == ActMany(msgs, data)
  {
    v := data;
    var j := |msgs|;
    while j > 0
      invariant 0 <= j <= |msgs| && v == ActMany(msgs[j..], data)
    {
      j := j - 1;
      assert msgs[j..][1..] == msgs[j + 1..];
      v := ApplyMsg(msgs[j], v);
    }
    assert msgs[0..] == msgs;
  }

  /** `get_with_info`: collect messages on the way down, then apply them from the leaf upwards. */
  method GetWithInfo(root: Node, k: Key, ghost h: nat) returns (v: Value)
    requires WF(root, None, None, h)
    ensures v == Get(root, k)
  {
    var msgs: seq<Msg> := [];
    var node := root;
    ghost var lo: Option<Key>, hi: Option<Key>, level := None, None, h;
    while node.Inner?
      invariant WF(node, lo, hi, level)
      invariant Get(root, k) == ActMany(msgs, Get(node, k))
      decreases level
    {
      var i := Idx(node.pivots, k);
      OneLevelDown(node, k, lo, hi, level);
      var c := node.children[i];
      if k in c.buffer {
        ActManyLast(msgs, c.buffer[k], Get(c.node, k));
        msgs := msgs + [c.buffer[k]];
      }
      lo, hi, level := Low(node.pivots, lo, i), High(node.pivots, hi, i), level - 1;
      node := c.node;
    }
    v := ApplyUpwards(msgs, Find(node.data, k));
  }

  predicate Fanned(n: Node) {
    n.Inner? ==> |n.children| == |n.pivots| + 1
  }

  lemma SameMap<T>(a: map<Key, T>, b: map<Key, T>)
    requires forall k :: Find(a, k) == Find(b, k)
    ensures a == b
  {
    forall k
      ensures k in a <==> k in b
      ensures k in a ==> a[k] == b[k]
    {
      assert Find(a, k) == Find(b, k);
    }
  }

  lemma PushEmpty(n: Node)
    ensures Push(n, map[]) == n
  {
    if n.Leaf? {
      assert forall k :: Find(ActAll(map[], n.data), k) == Find(n.data, k);
      SameMap(ActAll(map[], n.data), n.data);
    } else {
      forall i | 0 <= i < |n.children|
        ensures Push(n, map[]).children[i] == n.children[i]
      {
        SameMap(Combine(Routed(map[], n.pivots, i), n.children[i].buffer), n.children[i].buffer);
      }
    }
  }

  lemma CombineMoreAt(pivots: seq<Key>, i: nat, low: map<Key, Msg>, done: map<Key, Msg>, k: Key, m: Msg, q: Key)
    requires k !in done
    ensures Find(Combine(Routed(map[k := m], pivots, i), Combine(Routed(done, pivots, i), low)), q)
         == Find(Combine(Routed(done[k := m], pivots, i), low), q)
  {
    var one, more, all := Routed(map[k := m], pivots, i), Routed(done, pivots, i), Routed(done[k := m], pivots, i);
    assert Find(Combine(one, Combine(more, low)), q)
        == Merged(Find(one, q), Merged(Find(more, q), Find(low, q)));
    assert Find(Combine(all, low), q) == Merged(Find(all, q), Find(low, q));
    assert if q == k then Find(more, q).None? && Find(all, q) == Find(one, q)
           else Find(one, q).None? && Find(all, q) == Find(more, q);
  }

  lemma CombineMore(pivots: seq<Key>, i: nat, low: map<Key, Msg>, done: map<Key, Msg>, k: Key, m: Msg)
    requires k !in done
    ensures Combine(Routed(map[k := m], pivots, i), Combine(Routed(done, pivots, i), low))
         == Combine(Routed(done[k := m], pivots, i), low)
  {
    var a := Combine(Routed(map[k := m], pivots, i), Combine(Routed(done, pivots, i), low));
    var b := Combine(Routed(done[k := m], pivots, i), low);
    forall q ensures Find(a, q) == Find(b, q) {
      CombineMoreAt(pivots, i, low, done, k, m, q);
    }
    SameMap(a, b);
  }

  lemma PushMore(n: Node, done: map<Key, Msg>, k: Key, m: Msg)
    requires k !in done
    ensures Push(Push(n, done), map[k := m]) == Push(n, done[k := m])
  {
    if n.Leaf? {
      SameMap(ActAll(map[k := m], ActAll(done, n.data)), ActAll(done[k := m], n.data));
    } else {
      var a, b := Push(Push(n, done), map[k := m]), Push(n, done[k := m]);
      forall i | 0 <= i < |n.children|
        ensures a.children[i] == b.children[i]
      {
        CombineMore(n.pivots, i, n.children[i].buffer, done, k, m);
      }
    }
  }

  lemma InsertedLeaf(data: map<Key, Bytes>, k: Key, m: Msg)
    ensures ActAll(map[k := m], data)
         == match Apply(m, Find(data, k)) case None => data - {k} case Some(b) => data[k := b]
  {
    SameMap(ActAll(map[k := m], data),
            match Apply(m, Find(data, k)) case None => data - {k} case Some(b) => data[k := b]);
  }

  function WithMsg(n: Node, i: nat, k: Key, m: Msg): Node
    requires n.Inner? && i < |n.children|
  {
    var c := n.children[i];
    Inner(n.pivots, n.children[i := Child(c.buffer[k := Merged(Some(m), Find(c.buffer, k)).value], c.node)])
  }

  lemma CombineNothing(low: map<Key, Msg>)
    ensures Combine(map[], low) == low
  {
    SameMap(Combine(map[], low), low);
  }

  lemma CombineOne(low: map<Key, Msg>, k: Key, m: Msg)
    ensures Combine(map[k := m], low) == low[k := Merged(Some(m), Find(low, k)).value]
  {
    SameMap(Combine(map[k := m], low), low[k := Merged(Some(m), Find(low, k)).value]);
  }

  lemma OneMsgCombined(pivots: seq<Key>, low: map<Key, Msg>, j: nat, k: Key, m: Msg)
    ensures Combine(Routed(map[k := m], pivots, j), low)
         == if j == Idx(pivots, k) then low[k := Merged(Some(m), Find(low, k)).value] else low
  {
    if j == Idx(pivots, k) {
      assert Routed(map[k := m], pivots, j) == map[k := m];
      CombineOne(low, k, m);
    } else {
      assert Routed(map[k := m], pivots, j) == map[];
      CombineNothing(low);
    }
  }

  lemma InsertedBuffer(n: Node, k: Key, m: Msg)
    requires n.Inner? && Idx(n.pivots, k) < |n.children|
    ensures Push(n, map[k := m]) == WithMsg(n, Idx(n.pivots, k), k, m)
  {
    var r, w := Push(n, map[k := m]), WithMsg(n, Idx(n.pivots, k), k, m);
    forall j | 0 <= j < |n.children|
      ensures r.children[j] == w.children[j]
    {
      OneMsgCombined(n.pivots, n.children[j].buffer, j, k, m);
    }
  }

  /** `Node::insert`: merge with the message or apply to the value already there. */
  method InsertMsg(n: Node, k: Key, m: Msg) returns (r: Node)
    requires Fanned(n)
    ensures r == Push(n, map[k := m])
  {
    match n {
      case Leaf(data) =>
        InsertedLeaf(data, k, m);
        var v := ApplyMsg(m, Find(data, k));
        if v.Some? {
          r := Leaf(data[k := v.value]);
        } else {
          r := Leaf(data - {k});
        }
      case Inner(pivots, children) =>
        var i := Idx(pivots, k);
        InsertedBuffer(n, k, m);
        var c := children[i];
        var msg := m;
        if k in c.buffer {
          MergeNotBlank(m, c.buffer[k]);
          msg := MergeMsgs(m, c.buffer[k]);
        }
        r := Inner(pivots, children[i := Child(c.buffer[k := msg], c.node)]);
    }
  }

  lemma PutBack<T>(m: map<Key, T>, rest: set<Key>, k: Key)
    requires k in rest && rest <= m.Keys
    ensures (m - rest)[k := m[k]] == m - (rest - {k})
  {
  }

  lemma PushNext(n: Node, buffer: map<Key, Msg>, rest: set<Key>, k: Key)
    requires k in rest && rest <= buffer.Keys
    ensures Push(Push(n, buffer - rest), map[k := buffer[k]]) == Push(n, buffer - (rest - {k}))
  {
    PutBack(buffer, rest, k);
    PushMore(n, buffer - rest, k, buffer[k]);
  }

  /** `insert_msg_buffer`: the messages go in one by one, in any order. */
  method InsertMsgBuffer(n: Node, buffer: map<Key, Msg>) returns (r: Node)
    requires Fanned(n)
    ensures r == Push(n, buffer)
  {
    r := n;
    var rest := buffer.Keys;
    PushEmpty(n);
    assert buffer - rest == map[];
    while rest != {}
      invariant rest <= buffer.Keys && r == Push(n, buffer - rest)
      decreases |rest|
    {
      var k :| k in rest;
      PushNext(n, buffer, rest, k);
      r := InsertMsg(r, k, buffer[k]);
      rest := rest - {k};
    }
    assert buffer - {} == buffer;
  }
}
