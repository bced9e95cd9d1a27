/** The B^epsilon-tree: nodes, message buffers, lookup, and the steps that move messages and
    reshape nodes. */
module BeTree {
  import opened Common
  import opened Upserts
  import opened Messages
  import opened Keys

  /** Messages that act the same whether merged or applied one by one. */
  type Msg = m: Message | !Blank(m) witness [DELETE]

  datatype Child = Child(buffer: map<Key, Msg>, node: Node)

  datatype Node =
    | Leaf(data: map<Key, Bytes>)
    | Inner(pivots: seq<Key>, children: seq<Child>)

  function Find<T>(m: map<Key, T>, k: Key): Option<T> {
    if k in m then Some(m[k]) else None
  }

  // --------------------------------------------------------------------- routing

  /** The child a key belongs to: pivots[i] is the largest key of child i. */
  function Idx(pivots: seq<Key>, k: Key): (i: nat)
    ensures i <= |pivots|
    decreases |pivots|
  {
    if pivots == [] || AtMost(k, pivots[0]) then 0 else 1 + Idx(pivots[1..], k)
  }

  predicate Sorted(pivots: seq<Key>) {
    forall i, j :: 0 <= i < j < |pivots| ==> Less(pivots[i], pivots[j])
  }

  predicate IsIdx(pivots: seq<Key>, k: Key, i: nat) {
    && i <= |pivots|
    && (forall j :: 0 <= j < i ==> Less(pivots[j], k))
    && (i < |pivots| ==> AtMost(k, pivots[i]))
  }

  lemma {:induction false} IdxIs(pivots: seq<Key>, k: Key)
    ensures IsIdx(pivots, k, Idx(pivots, k))
    decreases |pivots|
  {
    if pivots != [] && Less(pivots[0], k) {
      IdxIs(pivots[1..], k);
      var i := Idx(pivots, k);
      assert forall j :: 0 < j < i ==> pivots[j] == pivots[1..][j - 1];
    }
  }

  lemma IdxUnique(pivots: seq<Key>, k: Key, i: nat)
    requires IsIdx(pivots, k, i)
    ensures Idx(pivots, k) == i
  {
    IdxIs(pivots, k);
  }

  // --------------------------------------------------------------------- meaning

  function Act(m: Option<Msg>, v: Value): Value {
    if m.None? then v else Apply(m.value, v)
  }

  function ChildGet(c: Child, k: Key): Value {
    Act(Find(c.buffer, k), Get(c.node, k))
  }

  /** What a lookup yields: the messages on the way down, replayed from the leaf upwards. */
  function Get(n: Node, k: Key): Value {
    match n
    case Leaf(data) => Find(data, k)
    case Inner(pivots, children) =>
      var i := Idx(pivots, k);
      if i < |children| then ChildGet(children[i], k) else None
  }

  // ------------------------------------------------------------------ invariant

  predicate InRange(lo: Option<Key>, hi: Option<Key>, k: Key) {
    (lo.Some? ==> Less(lo.value, k)) && (hi.Some? ==> AtMost(k, hi.value))
  }

  /** A pivot that splits a range into two non-empty ones. */
  predicate Inside(lo: Option<Key>, hi: Option<Key>, p: Key) {
    (lo.Some? ==> Less(lo.value, p)) && (hi.Some? ==> Less(p, hi.value))
  }

  function Low(pivots: seq<Key>, lo: Option<Key>, i: nat): Option<Key>
    requires i <= |pivots|
  {
    if i == 0 then lo else Some(pivots[i - 1])
  }

  function High(pivots: seq<Key>, hi: Option<Key>, i: nat): Option<Key>
    requires i <= |pivots|
  {
    if i == |pivots| then hi else Some(pivots[i])
  }

  predicate KeysIn(keys: set<Key>, lo: Option<Key>, hi: Option<Key>) {
    forall k :: k in keys ==> InRange(lo, hi, k)
  }

  predicate PivotsIn(pivots: seq<Key>, lo: Option<Key>, hi: Option<Key>) {
    Sorted(pivots) && forall i :: 0 <= i < |pivots| ==> Inside(lo, hi, pivots[i])
  }

  predicate ChildOk(c: Child, lo: Option<Key>, hi: Option<Key>, h: nat)
    decreases h, 1
  {
    KeysIn(c.buffer.Keys, lo, hi) && WF(c.node, lo, hi, h)
  }

  /** Node n holds the keys of (lo, hi], and all its leaves are h levels below it. */
  predicate WF(n: Node, lo: Option<Key>, hi: Option<Key>, h: nat)
    decreases h, 0
  {
    match n
    case Leaf(data) => h == 0 && KeysIn(data.Keys, lo, hi)
    case Inner(pivots, children) =>
      && h > 0
      && |children| == |pivots| + 1
      && PivotsIn(pivots, lo, hi)
      && forall i :: 0 <= i < |children| ==>
           ChildOk(children[i], Low(pivots, lo, i), High(pivots, hi, i), h - 1)
  }

  // -------------------------------------------------------- pushing messages down

  lemma MergeNotBlank(upper: Msg, lower: Msg)
    ensures WellFormed(Merge(upper, lower)) && !Blank(Merge(upper, lower))
  {
    MergeWellFormed(upper, lower);
  }

  function Merged(upper: Option<Msg>, lower: Option<Msg>): Option<Msg> {
    if upper.None? then lower
    else if lower.None? then upper
    else
      MergeNotBlank(upper.value, lower.value);
      Some(Merge(upper.value, lower.value))
  }

  lemma MergedActs(upper: Option<Msg>, lower: Option<Msg>, v: Value)
    ensures Act(Merged(upper, lower), v) == Act(upper, Act(lower, v))
  {
    if upper.Some? && lower.Some? {
      MergeActs(upper.value, lower.value, v);
    }
  }

  /** The part of a buffer that belongs to child i. */
  function Routed(buffer: map<Key, Msg>, pivots: seq<Key>, i: nat): map<Key, Msg> {
    map k | k in buffer && Idx(pivots, k) == i :: buffer[k]
  }

  function Combine(upper: map<Key, Msg>, lower: map<Key, Msg>): (m: map<Key, Msg>)
    ensures forall k :: Find(m, k) == Merged(Find(upper, k), Find(lower, k))
  {
    map k | k in upper.Keys + lower.Keys :: Merged(Find(upper, k), Find(lower, k)).value
  }

  function ActAll(buffer: map<Key, Msg>, data: map<Key, Bytes>): (m: map<Key, Bytes>)
    ensures forall k :: Find(m, k) == Act(Find(buffer, k), Find(data, k))
  {
    map k | k in buffer.Keys + data.Keys && Act(Find(buffer, k), Find(data, k)).Some?
      :: Act(Find(buffer, k), Find(data, k)).value
  }

  /** `insert_msg_buffer`: every message meets the leaf entry or the message already there. */
  function Push(n: Node, buffer: map<Key, Msg>): Node {
    match n
    case Leaf(data) => Leaf(ActAll(buffer, data))
    case Inner(pivots, children) =>
      Inner(pivots, seq(|children|, i requires 0 <= i < |children| =>
        Child(Combine(Routed(buffer, pivots, i), children[i].buffer), children[i].node)))
  }

  lemma PushGet(n: Node, buffer: map<Key, Msg>, lo: Option<Key>, hi: Option<Key>, h: nat, k: Key)
    requires WF(n, lo, hi, h)
    ensures Get(Push(n, buffer), k) == Act(Find(buffer, k), Get(n, k))
  {
    if n.Inner? {
      var i := Idx(n.pivots, k);
      assert Find(Routed(buffer, n.pivots, i), k) == Find(buffer, k);
      MergedActs(Find(buffer, k), Find(n.children[i].buffer, k), Get(n.children[i].node, k));
    }
  }

  lemma RoutedInRange(pivots: seq<Key>, lo: Option<Key>, hi: Option<Key>, k: Key)
    requires InRange(lo, hi, k)
    ensures InRange(Low(pivots, lo, Idx(pivots, k)), High(pivots, hi, Idx(pivots, k)), k)
  {
    IdxIs(pivots, k);
  }

  lemma PushWF(n: Node, buffer: map<Key, Msg>, lo: Option<Key>, hi: Option<Key>, h: nat)
    requires WF(n, lo, hi, h) && KeysIn(buffer.Keys, lo, hi)
    ensures WF(Push(n, buffer), lo, hi, h)
  {
    if n.Inner? {
      var children := Push(n, buffer).children;
      forall i | 0 <= i < |children|
        ensures ChildOk(children[i], Low(n.pivots, lo, i), High(n.pivots, hi, i), h - 1)
      {
        forall k | k in children[i].buffer.Keys
          ensures InRange(Low(n.pivots, lo, i), High(n.pivots, hi, i), k)
        {
          if k in Routed(buffer, n.pivots, i) {
            RoutedInRange(n.pivots, lo, hi, k);
          } else {
            assert k in n.children[i].buffer.Keys;
          }
        }
        assert ChildOk(n.children[i], Low(n.pivots, lo, i), High(n.pivots, hi, i), h - 1);
      }
    } else {
      assert Push(n, buffer).data.Keys <= buffer.Keys + n.data.Keys;
    }
  }

  // ---------------------------------------------------------- splitting and merging

  /** The keys of a map up to and including p, and those above. */
  function UpTo<T>(m: map<Key, T>, p: Key): map<Key, T> {
    map k | k in m && AtMost(k, p) :: m[k]
  }

  function Above<T>(m: map<Key, T>, p: Key): map<Key, T> {
    map k | k in m && Less(p, k) :: m[k]
  }

  /** A leaf is split behind one of its keys that is not the last; an inner node in the middle. */
  predicate CanSplit(n: Node, p: Key) {
    match n
    case Leaf(data) => p in data && exists q :: q in data && Less(p, q)
    case Inner(pivots, children) =>
      |children| == |pivots| + 1 && |children| >= 4 && p == pivots[|children| / 2 - 1]
  }

  function LeftPart(n: Node, p: Key): Node
    requires CanSplit(n, p)
  {
    match n
    case Leaf(data) => Leaf(UpTo(data, p))
    case Inner(pivots, children) =>
      var at := |children| / 2;
      Inner(pivots[..at - 1], children[..at])
  }

  function RightPart(n: Node, p: Key): Node
    requires CanSplit(n, p)
  {
    match n
    case Leaf(data) => Leaf(Above(data, p))
    case Inner(pivots, children) =>
      var at := |children| / 2;
      Inner(pivots[at..], children[at..])
  }

  /** `Node::merge`: only siblings of one kind are merged. */
  function Joined(l: Node, p: Key, r: Node): Node
    requires l.Leaf? == r.Leaf?
  {
    if l.Leaf? then Leaf(l.data + r.data)
    else Inner(l.pivots + [p] + r.pivots, l.children + r.children)
  }

  // ------------------------------------------------------------ the steps at a node

  datatype Op =
    | Flush(i: nat)
    | SplitChild(i: nat, p: Key)
    | MergeChildren(i: nat)
    | Rebalance(i: nat, p: Key)

  function ReplaceOne(n: Node, i: nat, a: Child, p: Key, b: Child): Node
    requires n.Inner? && i < |n.children| && i <= |n.pivots|
  {
    Inner(n.pivots[..i] + [p] + n.pivots[i..], n.children[..i] + [a, b] + n.children[i + 1..])
  }

  function ReplaceTwo(n: Node, i: nat, c: Child): Node
    requires n.Inner? && i + 1 < |n.children| && i < |n.pivots|
  {
    Inner(n.pivots[..i] + n.pivots[i + 1..], n.children[..i] + [c] + n.children[i + 2..])
  }

  predicate CanDo(n: Node, op: Op) {
    && n.Inner?
    && |n.children| == |n.pivots| + 1
    && match op
       case Flush(i) => i < |n.children|
       case SplitChild(i, p) => i < |n.children| && CanSplit(n.children[i].node, p)
       case MergeChildren(i) =>
         i + 1 < |n.children| && n.children[i].node.Leaf? == n.children[i + 1].node.Leaf?
       // only leaves are rebalanced
       case Rebalance(i, p) =>
         && i + 1 < |n.children| && n.children[i].node.Leaf? && n.children[i + 1].node.Leaf?
         && CanSplit(Joined(n.children[i].node, n.pivots[i], n.children[i + 1].node), p)
  }

  function Do(n: Node, op: Op): Node
    requires CanDo(n, op)
  {
    match op
    case Flush(i) =>
      var c := n.children[i];
      Inner(n.pivots, n.children[i := Child(map[], Push(c.node, c.buffer))])
    case SplitChild(i, p) =>
      var c := n.children[i];
      ReplaceOne(n, i, Child(UpTo(c.buffer, p), LeftPart(c.node, p)), p,
                 Child(Above(c.buffer, p), RightPart(c.node, p)))
    case MergeChildren(i) =>
      var a, b := n.children[i], n.children[i + 1];
      ReplaceTwo(n, i, Child(a.buffer + b.buffer, Joined(a.node, n.pivots[i], b.node)))
    case Rebalance(i, p) =>
      var a, b := n.children[i], n.children[i + 1];
      var buffer, node := a.buffer + b.buffer, Joined(a.node, n.pivots[i], b.node);
      Inner(n.pivots[i := p], n.children[i := Child(UpTo(buffer, p), LeftPart(node, p))]
                                        [i + 1 := Child(Above(buffer, p), RightPart(node, p))])
  }
}
