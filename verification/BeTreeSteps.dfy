/** Every step keeps the invariant and every lookup. */
module BeTreeSteps {
  import opened Common
  import opened Upserts
  import opened Keys
  import opened BeTree

  /** Two nodes with a pivot between them answer like one. */
  ghost predicate Parts(n: Node, l: Node, p: Key, r: Node) {
    forall k :: Get(n, k) == if AtMost(k, p) then Get(l, k) else Get(r, k)
  }

  // ------------------------------------------------------------------- one node

  lemma ConcatIdx(left: seq<Key>, p: Key, right: seq<Key>, k: Key)
    requires AtMost(k, p) || forall j :: 0 <= j < |left| ==> Less(left[j], k)
    ensures Idx(left + [p] + right, k) == if AtMost(k, p) then Idx(left, k) else |left| + 1 + Idx(right, k)
  {
    var all := left + [p] + right;
    IdxIs(left, k);
    IdxIs(right, k);
    var i := if AtMost(k, p) then Idx(left, k) else |left| + 1 + Idx(right, k);
    forall j | 0 <= j < i
      ensures Less(all[j], k)
    {
      if j > |left| {
        assert all[j] == right[j - |left| - 1];
      }
    }
    IdxUnique(all, k, i);
  }

  lemma BelowPivot(pivots: seq<Key>, lo: Option<Key>, p: Key, k: Key)
    requires PivotsIn(pivots, lo, Some(p)) && !AtMost(k, p)
    ensures forall j :: 0 <= j < |pivots| ==> Less(pivots[j], k)
  {
    forall j | 0 <= j < |pivots|
      ensures Less(pivots[j], k)
    {
      Transitive(pivots[j], p, k);
    }
  }

  lemma JoinedIsParts(l: Node, p: Key, r: Node, lo: Option<Key>, hi: Option<Key>, h: nat)
    requires WF(l, lo, Some(p), h) && WF(r, Some(p), hi, h)
    ensures Parts(Joined(l, p, r), l, p, r)
  {
    forall k
      ensures Get(Joined(l, p, r), k) == if AtMost(k, p) then Get(l, k) else Get(r, k)
    {
      if l.Inner? {
        if !AtMost(k, p) {
          BelowPivot(l.pivots, lo, p, k);
        }
        ConcatIdx(l.pivots, p, r.pivots, k);
        IdxIs(l.pivots, k);
        IdxIs(r.pivots, k);
      } else {
        assert k in l.data.Keys ==> InRange(lo, Some(p), k);
        assert k in r.data.Keys ==> InRange(Some(p), hi, k);
      }
    }
  }

  lemma JoinedSorted(left: seq<Key>, p: Key, right: seq<Key>, lo: Option<Key>, hi: Option<Key>)
    requires PivotsIn(left, lo, Some(p)) && PivotsIn(right, Some(p), hi) && Inside(lo, hi, p)
    ensures PivotsIn(left + [p] + right, lo, hi)
  {
    var all := left + [p] + right;
    forall i, j | 0 <= i < j < |all|
      ensures Less(all[i], all[j])
    {
      if i < |left| < j {
        Transitive(all[i], p, all[j]);
      }
    }
    forall i | 0 <= i < |all|
      ensures Inside(lo, hi, all[i])
    {
      if i < |left| && hi.Some? {
        Transitive(all[i], p, hi.value);
      }
      if i > |left| && lo.Some? {
        Transitive(lo.value, p, all[i]);
      }
    }
  }

  lemma Widen(lo: Option<Key>, hi: Option<Key>, p: Key, k: Key)
    requires Inside(lo, hi, p)
    ensures InRange(lo, Some(p), k) ==> InRange(lo, hi, k)
    ensures InRange(Some(p), hi, k) ==> InRange(lo, hi, k)
  {
    if InRange(lo, Some(p), k) && hi.Some? {
      AtMostLess(k, p, hi.value);
      LessIsAtMost(k, hi.value);
    }
    if InRange(Some(p), hi, k) && lo.Some? {
      Transitive(lo.value, p, k);
    }
  }

  lemma JoinedWF(l: Node, p: Key, r: Node, lo: Option<Key>, hi: Option<Key>, h: nat)
    requires WF(l, lo, Some(p), h) && WF(r, Some(p), hi, h) && Inside(lo, hi, p)
    ensures WF(Joined(l, p, r), lo, hi, h)
  {
    var n := Joined(l, p, r);
    if l.Inner? {
      JoinedSorted(l.pivots, p, r.pivots, lo, hi);
      forall i | 0 <= i < |n.children|
        ensures ChildOk(n.children[i], Low(n.pivots, lo, i), High(n.pivots, hi, i), h - 1)
      {
        if i < |l.children| {
          assert ChildOk(l.children[i], Low(l.pivots, lo, i), High(l.pivots, Some(p), i), h - 1);
        } else {
          var j := i - |l.children|;
          assert ChildOk(r.children[j], Low(r.pivots, Some(p), j), High(r.pivots, hi, j), h - 1);
        }
      }
    } else {
      forall k | k in n.data.Keys
        ensures InRange(lo, hi, k)
      {
        Widen(lo, hi, p, k);
      }
    }
  }

  lemma SplitPivotInside(n: Node, p: Key, lo: Option<Key>, hi: Option<Key>, h: nat)
    requires WF(n, lo, hi, h) && CanSplit(n, p)
    ensures Inside(lo, hi, p)
  {
    if n.Leaf? {
      var q :| q in n.data && Less(p, q);
      assert InRange(lo, hi, p) && InRange(lo, hi, q);
      if hi.Some? {
        LessAtMost(p, q, hi.value);
      }
    }
  }

  lemma CutPivots(pivots: seq<Key>, at: nat, lo: Option<Key>, hi: Option<Key>)
    requires PivotsIn(pivots, lo, hi) && at < |pivots|
    ensures PivotsIn(pivots[..at], lo, Some(pivots[at])) && PivotsIn(pivots[at + 1..], Some(pivots[at]), hi)
  {
    forall i | 0 <= i < |pivots|
      ensures i < at ==> Inside(lo, Some(pivots[at]), pivots[i])
      ensures i > at ==> Inside(Some(pivots[at]), hi, pivots[i])
    {
      assert Inside(lo, hi, pivots[i]);
    }
  }

  lemma CutEnds(pivots: seq<Key>, at: nat, lo: Option<Key>, hi: Option<Key>, i: nat)
    requires at < |pivots|
    ensures i <= at ==> Low(pivots[..at], lo, i) == Low(pivots, lo, i)
                        && High(pivots[..at], Some(pivots[at]), i) == High(pivots, hi, i)
    ensures i < |pivots| - at ==> Low(pivots[at + 1..], Some(pivots[at]), i) == Low(pivots, lo, at + 1 + i)
                                  && High(pivots[at + 1..], hi, i) == High(pivots, hi, at + 1 + i)
  {
  }

  lemma LeftChildren(n: Node, at: nat, lo: Option<Key>, hi: Option<Key>, h: nat)
    requires WF(n, lo, hi, h) && n.Inner? && at < |n.pivots|
    ensures WF(Inner(n.pivots[..at], n.children[..at + 1]), lo, Some(n.pivots[at]), h)
  {
    var l := Inner(n.pivots[..at], n.children[..at + 1]);
    CutPivots(n.pivots, at, lo, hi);
    forall i | 0 <= i < |l.children|
      ensures ChildOk(l.children[i], Low(l.pivots, lo, i), High(l.pivots, Some(n.pivots[at]), i), h - 1)
    {
      CutEnds(n.pivots, at, lo, hi, i);
      assert ChildOk(n.children[i], Low(n.pivots, lo, i), High(n.pivots, hi, i), h - 1);
    }
  }

  lemma LeftWF(n: Node, p: Key, lo: Option<Key>, hi: Option<Key>, h: nat)
    requires WF(n, lo, hi, h) && CanSplit(n, p)
    ensures WF(LeftPart(n, p), lo, Some(p), h)
  {
    if n.Inner? {
      LeftChildren(n, |n.children| / 2 - 1, lo, hi, h);
    }
  }

  lemma RightChildren(n: Node, at: nat, lo: Option<Key>, hi: Option<Key>, h: nat)
    requires WF(n, lo, hi, h) && n.Inner? && at < |n.pivots|
    ensures WF(Inner(n.pivots[at + 1..], n.children[at + 1..]), Some(n.pivots[at]), hi, h)
  {
    var r := Inner(n.pivots[at + 1..], n.children[at + 1..]);
    CutPivots(n.pivots, at, lo, hi);
    forall i | 0 <= i < |r.children|
      ensures ChildOk(r.children[i], Low(r.pivots, Some(n.pivots[at]), i), High(r.pivots, hi, i), h - 1)
    {
      CutEnds(n.pivots, at, lo, hi, i);
      var j := at + 1 + i;
      assert ChildOk(n.children[j], Low(n.pivots, lo, j), High(n.pivots, hi, j), h - 1);
    }
  }

  lemma RightWF(n: Node, p: Key, lo: Option<Key>, hi: Option<Key>, h: nat)
    requires WF(n, lo, hi, h) && CanSplit(n, p)
    ensures WF(RightPart(n, p), Some(p), hi, h)
  {
    if n.Inner? {
      RightChildren(n, |n.children| / 2 - 1, lo, hi, h);
    }
  }

  /** Splitting is undone by merging. */
  lemma SplitThenJoin(n: Node, p: Key)
    requires CanSplit(n, p)
    ensures LeftPart(n, p).Leaf? == RightPart(n, p).Leaf? && Joined(LeftPart(n, p), p, RightPart(n, p)) == n
  {
    if n.Leaf? {
      assert UpTo(n.data, p) + Above(n.data, p) == n.data;
    }
  }

  lemma SplitIsParts(n: Node, p: Key, lo: Option<Key>, hi: Option<Key>, h: nat)
    requires WF(n, lo, hi, h) && CanSplit(n, p)
    ensures Parts(n, LeftPart(n, p), p, RightPart(n, p))
  {
    LeftWF(n, p, lo, hi, h);
    RightWF(n, p, lo, hi, h);
    SplitThenJoin(n, p);
    JoinedIsParts(LeftPart(n, p), p, RightPart(n, p), lo, hi, h);
  }

  // ----------------------------------------------------------------- its parent

  /** One child against two with a pivot between them, in the same place. */
  predicate OneForTwo(one: Node, two: Node, i: nat, p: Key) {
    && one.Inner? && two.Inner?
    && |one.children| == |one.pivots| + 1 && i < |one.children|
    && |two.children| == |one.children| + 1
    && two.pivots == one.pivots[..i] + [p] + one.pivots[i..]
    && (forall j :: 0 <= j < i ==> two.children[j] == one.children[j])
    && (forall j :: i < j < |one.children| ==> two.children[j + 1] == one.children[j])
  }

  lemma OneForTwoIdx(pivots: seq<Key>, i: nat, p: Key, k: Key)
    requires i <= |pivots| && Sorted(pivots[..i] + [p] + pivots[i..])
    ensures var j := Idx(pivots, k);
            Idx(pivots[..i] + [p] + pivots[i..], k) == if j < i || (j == i && AtMost(k, p)) then j else j + 1
  {
    var all, j := pivots[..i] + [p] + pivots[i..], Idx(pivots, k);
    IdxIs(pivots, k);
    if j < i || (j == i && AtMost(k, p)) {
      IdxUnique(all, k, j);
    } else {
      if j > i {
        assert all[i] == p && all[i + 1] == pivots[i];
        Transitive(all[i], all[i + 1], k);
      }
      forall x | 0 <= x < j + 1
        ensures Less(all[x], k)
      {
        assert x > i ==> all[x] == pivots[x - 1];
      }
      assert j < |pivots| ==> all[j + 1] == pivots[j];
      IdxUnique(all, k, j + 1);
    }
  }

  lemma OneForTwoGet(one: Node, two: Node, i: nat, p: Key, k: Key)
    requires OneForTwo(one, two, i, p) && Sorted(two.pivots)
    requires ChildGet(one.children[i], k)
          == if AtMost(k, p) then ChildGet(two.children[i], k) else ChildGet(two.children[i + 1], k)
    ensures Get(one, k) == Get(two, k)
  {
    OneForTwoIdx(one.pivots, i, p, k);
  }

  lemma PivotsAdded(pivots: seq<Key>, lo: Option<Key>, hi: Option<Key>, i: nat, p: Key)
    requires i <= |pivots| && PivotsIn(pivots, lo, hi)
    requires Inside(Low(pivots, lo, i), High(pivots, hi, i), p)
    ensures PivotsIn(pivots[..i] + [p] + pivots[i..], lo, hi)
  {
    var left, right := pivots[..i], pivots[i..];
    assert PivotsIn(left, lo, Some(p)) by {
      forall j | 0 <= j < i
        ensures Inside(lo, Some(p), left[j])
      {
        assert Inside(lo, hi, pivots[j]);
        if j < i - 1 {
          Transitive(pivots[j], pivots[i - 1], p);
        }
      }
    }
    assert PivotsIn(right, Some(p), hi) by {
      forall j | 0 <= j < |right|
        ensures Inside(Some(p), hi, right[j])
      {
        assert Inside(lo, hi, pivots[i + j]);
        if j > 0 {
          Transitive(p, pivots[i], pivots[i + j]);
        }
      }
    }
    assert Inside(lo, hi, p) by {
      if i > 0 && lo.Some? {
        assert Inside(lo, hi, pivots[i - 1]);
        Transitive(lo.value, pivots[i - 1], p);
      }
      if i < |pivots| && hi.Some? {
        assert Inside(lo, hi, pivots[i]);
        Transitive(p, pivots[i], hi.value);
      }
    }
    JoinedSorted(left, p, right, lo, hi);
  }

  lemma OneForTwoPivots(pivots: seq<Key>, lo: Option<Key>, hi: Option<Key>, i: nat, p: Key)
    requires i <= |pivots|
    ensures PivotsIn(pivots, lo, hi) && Inside(Low(pivots, lo, i), High(pivots, hi, i), p)
       <==> PivotsIn(pivots[..i] + [p] + pivots[i..], lo, hi)
  {
    var all := pivots[..i] + [p] + pivots[i..];
    if PivotsIn(pivots, lo, hi) && Inside(Low(pivots, lo, i), High(pivots, hi, i), p) {
      PivotsAdded(pivots, lo, hi, i, p);
    }
    if PivotsIn(all, lo, hi) {
      assert forall x :: 0 <= x < |pivots| ==> pivots[x] == all[if x < i then x else x + 1];
      assert i > 0 ==> Less(all[i - 1], all[i]);
      assert i < |pivots| ==> Less(all[i], all[i + 1]);
      assert Inside(lo, hi, all[i]);
    }
  }

  // --------------------------------------------------------------- the four steps

  lemma FlushGet(n: Node, i: nat, lo: Option<Key>, hi: Option<Key>, h: nat, k: Key)
    requires WF(n, lo, hi, h) && CanDo(n, Flush(i))
    ensures Get(Do(n, Flush(i)), k) == Get(n, k)
  {
    var c := n.children[i];
    assert ChildOk(c, Low(n.pivots, lo, i), High(n.pivots, hi, i), h - 1);
    PushGet(c.node, c.buffer, Low(n.pivots, lo, i), High(n.pivots, hi, i), h - 1, k);
  }

  lemma FlushWF(n: Node, i: nat, lo: Option<Key>, hi: Option<Key>, h: nat)
    requires WF(n, lo, hi, h) && CanDo(n, Flush(i))
    ensures WF(Do(n, Flush(i)), lo, hi, h)
  {
    var c, m := n.children[i], Do(n, Flush(i));
    assert ChildOk(c, Low(n.pivots, lo, i), High(n.pivots, hi, i), h - 1);
    PushWF(c.node, c.buffer, Low(n.pivots, lo, i), High(n.pivots, hi, i), h - 1);
    forall j | 0 <= j < |m.children|
      ensures ChildOk(m.children[j], Low(m.pivots, lo, j), High(m.pivots, hi, j), h - 1)
    {
      assert ChildOk(n.children[j], Low(n.pivots, lo, j), High(n.pivots, hi, j), h - 1);
    }
  }

  lemma TwoOfChild(n: Node, i: nat, p: Key)
    requires CanDo(n, SplitChild(i, p))
    ensures var c, two := n.children[i], Do(n, SplitChild(i, p));
            && OneForTwo(n, two, i, p)
            && two.children[i] == Child(UpTo(c.buffer, p), LeftPart(c.node, p))
            && two.children[i + 1] == Child(Above(c.buffer, p), RightPart(c.node, p))
  {
  }

  lemma Halves(c: Child, p: Key, lo: Option<Key>, hi: Option<Key>, h: nat)
    requires ChildOk(c, lo, hi, h) && CanSplit(c.node, p)
    ensures Inside(lo, hi, p)
    ensures ChildOk(Child(UpTo(c.buffer, p), LeftPart(c.node, p)), lo, Some(p), h)
    ensures ChildOk(Child(Above(c.buffer, p), RightPart(c.node, p)), Some(p), hi, h)
  {
    SplitPivotInside(c.node, p, lo, hi, h);
    LeftWF(c.node, p, lo, hi, h);
    RightWF(c.node, p, lo, hi, h);
  }

  lemma HalvesGet(c: Child, p: Key, lo: Option<Key>, hi: Option<Key>, h: nat, k: Key)
    requires ChildOk(c, lo, hi, h) && CanSplit(c.node, p)
    ensures ChildGet(c, k) == if AtMost(k, p) then ChildGet(Child(UpTo(c.buffer, p), LeftPart(c.node, p)), k)
                              else ChildGet(Child(Above(c.buffer, p), RightPart(c.node, p)), k)
  {
    SplitIsParts(c.node, p, lo, hi, h);
  }

  lemma TwoSorted(pivots: seq<Key>, lo: Option<Key>, hi: Option<Key>, i: nat, p: Key)
    requires i <= |pivots| && PivotsIn(pivots, lo, hi) && Inside(Low(pivots, lo, i), High(pivots, hi, i), p)
    ensures Sorted(pivots[..i] + [p] + pivots[i..])
  {
    OneForTwoPivots(pivots, lo, hi, i, p);
  }

  lemma HalvedGet(one: Node, two: Node, i: nat, p: Key, lo: Option<Key>, hi: Option<Key>, h: nat, k: Key)
    requires OneForTwo(one, two, i, p) && WF(one, lo, hi, h) && CanSplit(one.children[i].node, p)
    requires var c := one.children[i];
             && two.children[i] == Child(UpTo(c.buffer, p), LeftPart(c.node, p))
             && two.children[i + 1] == Child(Above(c.buffer, p), RightPart(c.node, p))
    ensures Get(two, k) == Get(one, k)
  {
    var cl, ch := Low(one.pivots, lo, i), High(one.pivots, hi, i);
    assert ChildOk(one.children[i], cl, ch, h - 1);
    Halves(one.children[i], p, cl, ch, h - 1);
    HalvesGet(one.children[i], p, cl, ch, h - 1, k);
    TwoSorted(one.pivots, lo, hi, i, p);
    OneForTwoGet(one, two, i, p, k);
  }

  lemma SplitChildGet(n: Node, i: nat, p: Key, lo: Option<Key>, hi: Option<Key>, h: nat, k: Key)
    requires WF(n, lo, hi, h) && CanDo(n, SplitChild(i, p))
    ensures Get(Do(n, SplitChild(i, p)), k) == Get(n, k)
  {
    TwoOfChild(n, i, p);
    HalvedGet(n, Do(n, SplitChild(i, p)), i, p, lo, hi, h, k);
  }

  /** The ranges of the children do not depend on whether child i is one or two. */
  lemma SameEnds(pivots: seq<Key>, lo: Option<Key>, hi: Option<Key>, i: nat, p: Key, j: nat)
    requires i <= |pivots| && j <= |pivots|
    ensures var two := pivots[..i] + [p] + pivots[i..];
            && (j <= i ==> Low(two, lo, j) == Low(pivots, lo, j))
            && (j < i ==> High(two, hi, j) == High(pivots, hi, j))
            && (j > i ==> Low(two, lo, j + 1) == Low(pivots, lo, j))
            && (j >= i ==> High(two, hi, j + 1) == High(pivots, hi, j))
            && High(two, hi, i) == Some(p) == Low(two, lo, i + 1)
  {
  }

  lemma OtherOfTwo(one: Node, two: Node, i: nat, p: Key, lo: Option<Key>, hi: Option<Key>, h: nat, j: nat)
    requires OneForTwo(one, two, i, p) && WF(one, lo, hi, h) && j < |one.children| && j != i
    ensures var x := if j < i then j else j + 1;
            ChildOk(two.children[x], Low(two.pivots, lo, x), High(two.pivots, hi, x), h - 1)
  {
    SameEnds(one.pivots, lo, hi, i, p, j);
    assert ChildOk(one.children[j], Low(one.pivots, lo, j), High(one.pivots, hi, j), h - 1);
  }

  lemma TwoChildOk(one: Node, two: Node, i: nat, p: Key, lo: Option<Key>, hi: Option<Key>, h: nat, j: nat)
    requires OneForTwo(one, two, i, p) && WF(one, lo, hi, h) && j < |two.children|
    requires ChildOk(two.children[i], Low(one.pivots, lo, i), Some(p), h - 1)
    requires ChildOk(two.children[i + 1], Some(p), High(one.pivots, hi, i), h - 1)
    ensures ChildOk(two.children[j], Low(two.pivots, lo, j), High(two.pivots, hi, j), h - 1)
  {
    if j == i || j == i + 1 {
      SameEnds(one.pivots, lo, hi, i, p, i);
    } else {
      OtherOfTwo(one, two, i, p, lo, hi, h, if j < i then j else j - 1);
    }
  }

  lemma SplitChildWF(n: Node, i: nat, p: Key, lo: Option<Key>, hi: Option<Key>, h: nat)
    requires WF(n, lo, hi, h) && CanDo(n, SplitChild(i, p))
    ensures WF(Do(n, SplitChild(i, p)), lo, hi, h)
  {
    var two := Do(n, SplitChild(i, p));
    assert ChildOk(n.children[i], Low(n.pivots, lo, i), High(n.pivots, hi, i), h - 1);
    Halves(n.children[i], p, Low(n.pivots, lo, i), High(n.pivots, hi, i), h - 1);
    OneForTwoPivots(n.pivots, lo, hi, i, p);
    TwoOfChild(n, i, p);
    forall j | 0 <= j < |two.children|
      ensures ChildOk(two.children[j], Low(two.pivots, lo, j), High(two.pivots, hi, j), h - 1)
    {
      TwoChildOk(n, two, i, p, lo, hi, h, j);
    }
  }

  lemma Removed(pivots: seq<Key>, i: nat)
    requires i < |pivots|
    ensures var rest := pivots[..i] + pivots[i + 1..];
            pivots == rest[..i] + [pivots[i]] + rest[i..]
  {
  }

  lemma OneOfSiblings(n: Node, i: nat)
    requires CanDo(n, MergeChildren(i))
    ensures var one, a, b := Do(n, MergeChildren(i)), n.children[i], n.children[i + 1];
            && OneForTwo(one, n, i, n.pivots[i]) && one.pivots == n.pivots[..i] + n.pivots[i + 1..]
            && one.children[i] == Child(a.buffer + b.buffer, Joined(a.node, n.pivots[i], b.node))
  {
    Removed(n.pivots, i);
  }

  lemma SiblingFacts(n: Node, i: nat, lo: Option<Key>, hi: Option<Key>, h: nat)
    requires WF(n, lo, hi, h) && CanDo(n, MergeChildren(i))
    ensures var pivots := n.pivots[..i] + n.pivots[i + 1..];
            && ChildOk(n.children[i], Low(pivots, lo, i), Some(n.pivots[i]), h - 1)
            && ChildOk(n.children[i + 1], Some(n.pivots[i]), High(pivots, hi, i), h - 1)
            && PivotsIn(pivots, lo, hi)
            && Inside(Low(pivots, lo, i), High(pivots, hi, i), n.pivots[i])
  {
    var pivots := n.pivots[..i] + n.pivots[i + 1..];
    Removed(n.pivots, i);
    OneForTwoPivots(pivots, lo, hi, i, n.pivots[i]);
    SameEnds(pivots, lo, hi, i, n.pivots[i], i);
    assert ChildOk(n.children[i], Low(n.pivots, lo, i), High(n.pivots, hi, i), h - 1);
    assert ChildOk(n.children[i + 1], Low(n.pivots, lo, i + 1), High(n.pivots, hi, i + 1), h - 1);
  }

  lemma MergeChildrenGet(n: Node, i: nat, lo: Option<Key>, hi: Option<Key>, h: nat, k: Key)
    requires WF(n, lo, hi, h) && CanDo(n, MergeChildren(i))
    ensures Get(Do(n, MergeChildren(i)), k) == Get(n, k)
  {
    var one, p := Do(n, MergeChildren(i)), n.pivots[i];
    var a, b := n.children[i], n.children[i + 1];
    OneOfSiblings(n, i);
    SiblingFacts(n, i, lo, hi, h);
    JoinedIsParts(a.node, p, b.node, Low(one.pivots, lo, i), High(one.pivots, hi, i), h - 1);
    assert k in a.buffer.Keys ==> InRange(Low(one.pivots, lo, i), Some(p), k);
    assert k in b.buffer.Keys ==> InRange(Some(p), High(one.pivots, hi, i), k);
    OneForTwoGet(one, n, i, p, k);
  }

  lemma KindOf(n: Node, lo: Option<Key>, hi: Option<Key>, h: nat)
    requires WF(n, lo, hi, h)
    ensures n.Leaf? == (h == 0)
  {
  }

  lemma MergedChildOk(a: Child, p: Key, b: Child, lo: Option<Key>, hi: Option<Key>, h: nat)
    requires ChildOk(a, lo, Some(p), h) && ChildOk(b, Some(p), hi, h) && Inside(lo, hi, p)
    requires a.node.Leaf? == b.node.Leaf?
    ensures ChildOk(Child(a.buffer + b.buffer, Joined(a.node, p, b.node)), lo, hi, h)
  {
    JoinedWF(a.node, p, b.node, lo, hi, h);
    forall k | k in (a.buffer + b.buffer).Keys
      ensures InRange(lo, hi, k)
    {
      Widen(lo, hi, p, k);
    }
  }

  lemma OtherChild(one: Node, two: Node, i: nat, p: Key, lo: Option<Key>, hi: Option<Key>, h: nat, j: nat)
    requires OneForTwo(one, two, i, p) && WF(two, lo, hi, h) && j < |one.children| && j != i
    ensures ChildOk(one.children[j], Low(one.pivots, lo, j), High(one.pivots, hi, j), h - 1)
  {
    SameEnds(one.pivots, lo, hi, i, p, j);
    var x := if j < i then j else j + 1;
    assert ChildOk(two.children[x], Low(two.pivots, lo, x), High(two.pivots, hi, x), h - 1);
  }

  lemma OneChildOk(n: Node, i: nat, lo: Option<Key>, hi: Option<Key>, h: nat, j: nat)
    requires WF(n, lo, hi, h) && CanDo(n, MergeChildren(i)) && j < |Do(n, MergeChildren(i)).children|
    ensures var one := Do(n, MergeChildren(i));
            ChildOk(one.children[j], Low(one.pivots, lo, j), High(one.pivots, hi, j), h - 1)
  {
    OneOfSiblings(n, i);
    if j == i {
      SiblingFacts(n, i, lo, hi, h);
      var pivots := n.pivots[..i] + n.pivots[i + 1..];
      MergedChildOk(n.children[i], n.pivots[i], n.children[i + 1], Low(pivots, lo, i), High(pivots, hi, i), h - 1);
    } else {
      OtherChild(Do(n, MergeChildren(i)), n, i, n.pivots[i], lo, hi, h, j);
    }
  }

  lemma MergeChildrenWF(n: Node, i: nat, lo: Option<Key>, hi: Option<Key>, h: nat)
    requires WF(n, lo, hi, h) && CanDo(n, MergeChildren(i))
    ensures WF(Do(n, MergeChildren(i)), lo, hi, h)
  {
    var one := Do(n, MergeChildren(i));
    SiblingFacts(n, i, lo, hi, h);
    forall j | 0 <= j < |one.children|
      ensures ChildOk(one.children[j], Low(one.pivots, lo, j), High(one.pivots, hi, j), h - 1)
    {
      OneChildOk(n, i, lo, hi, h, j);
    }
  }

  lemma MovedPivot(pivots: seq<Key>, i: nat, p: Key)
    requires i < |pivots|
    ensures var one := pivots[..i] + pivots[i + 1..];
            one[..i] + [p] + one[i..] == pivots[i := p]
  {
  }

  lemma MovedBoundary(children: seq<Child>, i: nat, c: Child, a: Child, b: Child)
    requires i + 1 < |children|
    ensures var one := children[..i] + [c] + children[i + 2..];
            one[i] == c && one[..i] + [a, b] + one[i + 1..] == children[i := a][i + 1 := b]
  {
  }

  /** Moving the boundary between two leaves is merging them and splitting the result again. */
  lemma RebalanceIsMergeAndSplit(n: Node, i: nat, p: Key)
    requires CanDo(n, Rebalance(i, p))
    ensures CanDo(n, MergeChildren(i)) && CanDo(Do(n, MergeChildren(i)), SplitChild(i, p))
    ensures Do(n, Rebalance(i, p)) == Do(Do(n, MergeChildren(i)), SplitChild(i, p))
  {
    var a, b := n.children[i], n.children[i + 1];
    var buffer, node := a.buffer + b.buffer, Joined(a.node, n.pivots[i], b.node);
    MovedPivot(n.pivots, i, p);
    MovedBoundary(n.children, i, Child(buffer, node), Child(UpTo(buffer, p), LeftPart(node, p)),
                  Child(Above(buffer, p), RightPart(node, p)));
  }

  /** Flushing, splitting, merging and rebalancing change no lookup and keep the invariant. */
  lemma DoKeeps(n: Node, op: Op, lo: Option<Key>, hi: Option<Key>, h: nat)
    requires WF(n, lo, hi, h) && CanDo(n, op)
    ensures WF(Do(n, op), lo, hi, h)
    ensures forall k :: Get(Do(n, op), k) == Get(n, k)
  {
    match op {
      case Flush(i) => FlushWF(n, i, lo, hi, h);
      case SplitChild(i, p) => SplitChildWF(n, i, p, lo, hi, h);
      case MergeChildren(i) => MergeChildrenWF(n, i, lo, hi, h);
      case Rebalance(i, p) =>
        RebalanceIsMergeAndSplit(n, i, p);
        MergeChildrenWF(n, i, lo, hi, h);
        SplitChildWF(Do(n, MergeChildren(i)), i, p, lo, hi, h);
    }
    forall k
      ensures Get(Do(n, op), k) == Get(n, k)
    {
      match op {
        case Flush(i) => FlushGet(n, i, lo, hi, h, k);
        case SplitChild(i, p) => SplitChildGet(n, i, p, lo, hi, h, k);
        case MergeChildren(i) => MergeChildrenGet(n, i, lo, hi, h, k);
        case Rebalance(i, p) =>
          MergeChildrenGet(n, i, lo, hi, h, k);
          SplitChildGet(Do(n, MergeChildren(i)), i, p, lo, hi, h, k);
      }
    }
  }

  /** In a well-formed tree siblings are of one kind, so any two of them can be merged. */
  lemma SiblingsAlike(n: Node, i: nat, lo: Option<Key>, hi: Option<Key>, h: nat)
    requires WF(n, lo, hi, h) && n.Inner? && i + 1 < |n.children|
    ensures CanDo(n, MergeChildren(i))
  {
    assert ChildOk(n.children[i], Low(n.pivots, lo, i), High(n.pivots, hi, i), h - 1);
    assert ChildOk(n.children[i + 1], Low(n.pivots, lo, i + 1), High(n.pivots, hi, i + 1), h - 1);
    KindOf(n.children[i].node, Low(n.pivots, lo, i), High(n.pivots, hi, i), h - 1);
    KindOf(n.children[i + 1].node, Low(n.pivots, lo, i + 1), High(n.pivots, hi, i + 1), h - 1);
  }
}
