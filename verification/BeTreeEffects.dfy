/** What flushing, splitting and merging change, child by child.  That lookups are kept is in
    `BeTreeSteps`; here is where the messages and the data are afterwards. */
module BeTreeEffects {
  import opened Common
  import opened Keys
  import opened BeTree
  import opened BeTreeSteps

  /** The keys of a child belong to its node. */
  lemma Nested(pivots: seq<Key>, lo: Option<Key>, hi: Option<Key>, i: nat, k: Key)
    requires i <= |pivots| && PivotsIn(pivots, lo, hi)
    requires InRange(Low(pivots, lo, i), High(pivots, hi, i), k)
    ensures InRange(lo, hi, k)
  {
    if i > 0 && lo.Some? {
      Transitive(lo.value, pivots[i - 1], k);
    }
    if i < |pivots| && hi.Some? {
      AtMostLess(k, pivots[i], hi.value);
      LessIsAtMost(k, hi.value);
    }
  }

  /** A node holds nothing for keys that do not belong to it. */
  lemma {:induction false} OutsideGet(n: Node, lo: Option<Key>, hi: Option<Key>, h: nat, k: Key)
    requires WF(n, lo, hi, h) && !InRange(lo, hi, k)
    ensures Get(n, k) == None
    decreases h
  {
    if n.Inner? {
      var i := Idx(n.pivots, k);
      assert ChildOk(n.children[i], Low(n.pivots, lo, i), High(n.pivots, hi, i), h - 1);
      if InRange(Low(n.pivots, lo, i), High(n.pivots, hi, i), k) {
        Nested(n.pivots, lo, hi, i, k);
      } else {
        OutsideGet(n.children[i].node, Low(n.pivots, lo, i), High(n.pivots, hi, i), h - 1, k);
      }
    }
  }

  lemma OutsideChild(c: Child, lo: Option<Key>, hi: Option<Key>, h: nat, k: Key)
    requires ChildOk(c, lo, hi, h) && !InRange(lo, hi, k)
    ensures ChildGet(c, k) == None
  {
    OutsideGet(c.node, lo, hi, h, k);
  }

  /** A flush empties the buffer of its child into the node below, which then answers alone as
      buffer and node did together; nothing else changes. */
  lemma FlushMovesMessages(n: Node, i: nat, lo: Option<Key>, hi: Option<Key>, h: nat)
    requires WF(n, lo, hi, h) && CanDo(n, Flush(i))
    ensures var n' := Do(n, Flush(i));
            && n'.Inner? && n'.pivots == n.pivots && |n'.children| == |n.children|
            && n'.children[i].buffer == map[]
            && (forall k :: Get(n'.children[i].node, k) == ChildGet(n.children[i], k))
            && forall j :: 0 <= j < |n.children| && j != i ==> n'.children[j] == n.children[j]
  {
    var c, n' := n.children[i], Do(n, Flush(i));
    var cl, ch := Low(n.pivots, lo, i), High(n.pivots, hi, i);
    assert ChildOk(c, cl, ch, h - 1);
    forall k ensures Get(n'.children[i].node, k) == ChildGet(c, k) {
      PushGet(c.node, c.buffer, cl, ch, h - 1, k);
    }
  }

  /** Of two neighbours under pivot p the left one answers for the keys up to p, the right one for
      those above, and neither for the other's. */
  ghost predicate Shared(one: Child, left: Child, p: Key, right: Child) {
    forall k :: if AtMost(k, p) then ChildGet(left, k) == ChildGet(one, k) && ChildGet(right, k) == None
                else ChildGet(left, k) == None && ChildGet(right, k) == ChildGet(one, k)
  }

  lemma HalvesShare(c: Child, p: Key, lo: Option<Key>, hi: Option<Key>, h: nat)
    requires ChildOk(c, lo, hi, h) && CanSplit(c.node, p)
    ensures Shared(c, Child(UpTo(c.buffer, p), LeftPart(c.node, p)), p,
                   Child(Above(c.buffer, p), RightPart(c.node, p)))
  {
    var l, r := Child(UpTo(c.buffer, p), LeftPart(c.node, p)), Child(Above(c.buffer, p), RightPart(c.node, p));
    Halves(c, p, lo, hi, h);
    forall k
      ensures if AtMost(k, p) then ChildGet(l, k) == ChildGet(c, k) && ChildGet(r, k) == None
              else ChildGet(l, k) == None && ChildGet(r, k) == ChildGet(c, k)
    {
      HalvesGet(c, p, lo, hi, h, k);
      if AtMost(k, p) {
        OutsideChild(r, Some(p), hi, h, k);
      } else {
        OutsideChild(l, lo, Some(p), h, k);
      }
    }
  }

  /** Where the two halves meet: an inner node is cut in the middle of its children, a leaf so that
      neither half is empty. */
  ghost predicate CutInTwo(whole: Node, left: Node, right: Node) {
    match whole
    case Leaf(_) => left.Leaf? && right.Leaf? && left.data != map[] && right.data != map[]
    case Inner(_, children) =>
      && left.Inner? && right.Inner? && left.children + right.children == children
      && |left.children| == |children| / 2
  }

  lemma SplitCuts(n: Node, p: Key)
    requires CanSplit(n, p)
    ensures CutInTwo(n, LeftPart(n, p), RightPart(n, p))
  {
    if n.Leaf? {
      Irreflexive(p);
      var q :| q in n.data && Less(p, q);
      assert p in LeftPart(n, p).data && q in RightPart(n, p).data;
    }
  }

  /** A split puts pivot p and two children in the place of one, which share its keys; nothing else
      changes. */
  lemma SplitSharesKeys(n: Node, i: nat, p: Key, lo: Option<Key>, hi: Option<Key>, h: nat)
    requires WF(n, lo, hi, h) && CanDo(n, SplitChild(i, p))
    ensures var n' := Do(n, SplitChild(i, p));
            && OneForTwo(n, n', i, p) && Shared(n.children[i], n'.children[i], p, n'.children[i + 1])
            && CutInTwo(n.children[i].node, n'.children[i].node, n'.children[i + 1].node)
  {
    SplitCuts(n.children[i].node, p);
    TwoOfChild(n, i, p);
    var cl, ch := Low(n.pivots, lo, i), High(n.pivots, hi, i);
    assert ChildOk(n.children[i], cl, ch, h - 1);
    HalvesShare(n.children[i], p, cl, ch, h - 1);
  }

  lemma SiblingsShare(a: Child, p: Key, b: Child, lo: Option<Key>, hi: Option<Key>, h: nat)
    requires ChildOk(a, lo, Some(p), h) && ChildOk(b, Some(p), hi, h) && Inside(lo, hi, p)
    requires a.node.Leaf? == b.node.Leaf?
    ensures Shared(Child(a.buffer + b.buffer, Joined(a.node, p, b.node)), a, p, b)
  {
    var one := Child(a.buffer + b.buffer, Joined(a.node, p, b.node));
    JoinedIsParts(a.node, p, b.node, lo, hi, h);
    forall k
      ensures if AtMost(k, p) then ChildGet(a, k) == ChildGet(one, k) && ChildGet(b, k) == None
              else ChildGet(a, k) == None && ChildGet(b, k) == ChildGet(one, k)
    {
      if AtMost(k, p) {
        assert k !in b.buffer;
        OutsideChild(b, Some(p), hi, h, k);
      } else {
        assert k !in a.buffer;
        OutsideChild(a, lo, Some(p), h, k);
      }
    }
  }

  /** A merge puts one child in the place of two and drops the pivot between them; the child answers
      for the keys of both. */
  lemma MergeSharesKeys(n: Node, i: nat, lo: Option<Key>, hi: Option<Key>, h: nat)
    requires WF(n, lo, hi, h) && CanDo(n, MergeChildren(i))
    ensures var n' := Do(n, MergeChildren(i));
            && OneForTwo(n', n, i, n.pivots[i])
            && Shared(n'.children[i], n.children[i], n.pivots[i], n.children[i + 1])
  {
    OneOfSiblings(n, i);
    SiblingFacts(n, i, lo, hi, h);
    var pivots := n.pivots[..i] + n.pivots[i + 1..];
    SiblingsShare(n.children[i], n.pivots[i], n.children[i + 1], Low(pivots, lo, i), High(pivots, hi, i), h - 1);
  }
}
