/** The data management unit itself: fields updated in place, loops as in the source.  Every
    method is tied to the steps of `DmuState`; calls run one at a time here, interleavings are
    the subject of `DmuTheorems`. */
module Dmu {
  import opened DmuState
  import opened DmuForest
  import opened DmuSteps
  import opened DmuInvariant
  import opened DmuEdits
  import opened DmuTheorems
  import opened DmuViews

  ghost predicate SameViews(s: State, s': State) {
    && |s'.roots| == |s.roots|
    && (forall i: nat, depth: nat :: i < |s.roots| ==> View(s', s'.roots[i], depth) == View(s, s.roots[i], depth))
  }

  lemma StepSameViews(s: State, step: Step)
    requires Inv(s) && Enabled(s, step) && !IsEdit(step)
    ensures !Panics(s, step) && SameViews(s, Next(s, step)) && Inv(Next(s, step))
  {
    StepKeepsInv(s, step);
    StepKeepsShape(s, step);
    forall i: nat, depth: nat | i < |s.roots|
      ensures View(Next(s, step), Next(s, step).roots[i], depth) == View(s, s.roots[i], depth)
    {
      StepKeepsRootViews(s, step, i, depth);
    }
  }

  /** What the packed nodes on disk alone say. */
  ghost function DiskTree(disk: map<Ptr, Node>, p: Ptr, depth: nat): Tree
    decreases depth
  {
    if depth == 0 then Cut
    else if p !in disk then Missing
    else
      var n := disk[p];
      Tree(n.payload, seq(|n.children|, i requires 0 <= i < |n.children| =>
        if n.children[i].Unmodified? then DiskTree(disk, n.children[i].ptr, depth - 1) else Missing))
  }

  /** A reference to an object on disk reads as the packed tree. */
  lemma {:induction false} CleanViewIsOnDisk(s: State, t: Slot, p: Ptr, depth: nat)
    requires AllResolve(s) && CopiesOk(s) && IsSlot(s, t) && Resolve(s, RefAt(s, t)) == OnDisk(p)
    ensures View(s, RefAt(s, t), depth) == DiskTree(s.disk, p, depth)
    decreases depth
  {
    assert RefOk(s, RefAt(s, t));
    if depth > 0 {
      var n := s.disk[p];
      assert Body(s, OnDisk(p)) == n;
      forall i | 0 <= i < |n.children|
        ensures n.children[i].Unmodified?
        ensures View(s, n.children[i], depth - 1) == DiskTree(s.disk, n.children[i].ptr, depth - 1)
      {
        assert RefAt(s, ChildSlot(OnDisk(p), i)) == n.children[i];
        CleanViewIsOnDisk(s, ChildSlot(OnDisk(p), i), n.children[i].ptr, depth - 1);
      }
      assert View(s, RefAt(s, t), depth).children == DiskTree(s.disk, p, depth).children;
    }
  }

  lemma UnusedMidGraph(s: State)
    ensures var s' := s.(nextMid := s.nextMid + 1); SameGraph(s, s') && Rearranged(s, s', Same(), Same())
  {
  }

  lemma SameGraphViews(s: State, s': State)
    requires AllResolve(s) && SameGraph(s, s')
    ensures SameViews(s, s')
  {
    SameGraphShape(s, s', Mem(0), RootSlot(|s.roots|));
    forall i: nat, depth: nat | i < |s.roots|
      ensures View(s', s'.roots[i], depth) == View(s, s.roots[i], depth)
    {
      ShapeKeepsView(s, s', Mem(0), Mem(0), RootSlot(|s.roots|), RootSlot(i), depth);
    }
  }

  lemma UnusedMidRest(s: State)
    requires MidsOk(s) && CopiesOk(s) && PtrsOk(s)
    ensures var s' := s.(nextMid := s.nextMid + 1); MidsOk(s') && CopiesOk(s') && PtrsOk(s')
  {
    var s' := s.(nextMid := s.nextMid + 1);
    PtrsFrame(s, s');
    forall m: Mid ensures MidOk(s', m) {
      assert MidOk(s, m);
    }
  }

  lemma UnusedMid(s: State)
    requires Inv(s)
    ensures Inv(s.(nextMid := s.nextMid + 1)) && SameViews(s, s.(nextMid := s.nextMid + 1))
  {
    var s' := s.(nextMid := s.nextMid + 1);
    UnusedMidGraph(s);
    SameGraphViews(s, s');
    StayedAcyclic(s, s', Same(), Same());
    RearrangedForest(s, s', Same(), Same());
    UnusedMidRest(s);
  }

  lemma UnusedMidSlot(s: State, t: Slot)
    requires IsSlot(s, t) && Writable(s, t)
    ensures var s' := s.(nextMid := s.nextMid + 1);
            IsSlot(s', t) && Writable(s', t) && RefAt(s', t) == RefAt(s, t)
  {
  }

  lemma StealAdvances(s: State, t: Slot, info: DatasetId)
    requires Inv(s) && Enabled(s, Step.Steal(t, info))
    ensures var s' := Next(s, Step.Steal(t, info));
            && IsSlot(s', t) && Writable(s', t)
            && RefAt(s', t) == Modified(s.nextMid) && KeyModified(s.nextMid) in s'.cache
  {
    StealPossible(s, t, info);
    StealSlot(s, t, info, t);
    SetRefKeys(s, t, Modified(s.nextMid));
  }

  /** How many corrections a reference may still need. */
  function Lag(r: ObjRef): nat {
    match r
    case Modified(_) => 2
    case InWriteback(_) => 1
    case Unmodified(_) => 0
  }

  /** The slot still denotes the same object through a reference that is no older; if the
      reference is still a modified one, neither it nor its cache key was touched. */
  ghost predicate SlotAdvanced(s: State, s': State, t: Slot)
    requires IsSlot(s, t)
  {
    && IsSlot(s', t)
    && Resolve(s', RefAt(s', t)) == Resolve(s, RefAt(s, t))
    && Lag(RefAt(s', t)) <= Lag(RefAt(s, t))
    && (RefAt(s', t).Modified? ==>
          RefAt(s', t) == RefAt(s, t) && (RefAt(s, t).AsKey() in s'.cache <==> RefAt(s, t).AsKey() in s.cache))
    && (Writable(s, t) ==> Writable(s', t))
  }

  lemma SlotResolves(s: State, t: Slot)
    requires Inv(s) && IsSlot(s, t)
    ensures RefOk(s, RefAt(s, t))
    ensures RefAt(s, t).Unmodified? ==> RefAt(s, t).ptr in s.disk
  {
  }

  lemma FetchAdvances(s: State, t: Slot, p: Ptr)
    requires IsSlot(s, t) && Enabled(s, Step.Fetch(p))
    ensures SlotAdvanced(s, Next(s, Step.Fetch(p)), t) && RefAt(Next(s, Step.Fetch(p)), t) == RefAt(s, t)
  {
  }

  lemma FixAdvancesRef(s: State, t: Slot)
    requires Enabled(s, Step.FixOr(t)) && !Panics(s, Step.FixOr(t)) && Writable(s, t)
    ensures var s' := Next(s, Step.FixOr(t));
            IsSlot(s', t) && RefAt(s', t) == Fixed(s, RefAt(s, t)).1 && Writable(s', t)
  {
    var (s1, q) := Fixed(s, RefAt(s, t));
    FixOrFrame(s, t);
    SetRefKeys(s1, t, q);
    SetRefSlot(s1, t, q, t);
  }

  lemma FixAdvances(s: State, t: Slot)
    requires Inv(s) && Enabled(s, Step.FixOr(t)) && !Panics(s, Step.FixOr(t))
    ensures var s' := Next(s, Step.FixOr(t));
            SlotAdvanced(s, s', t) && Lag(RefAt(s', t)) == Lag(RefAt(s, t)) - 1
  {
    DirtyRefsAreWritable(s, t);
    assert RefOk(s, RefAt(s, t));
    FixOrSlot(s, t, t);
    FixAdvancesRef(s, t);
  }

  lemma CachedIsBody(s: State, t: Slot)
    requires Inv(s) && IsSlot(s, t) && RefAt(s, t).AsKey() in s.cache
    ensures IsObj(s, Resolve(s, RefAt(s, t)))
    ensures s.cache[RefAt(s, t).AsKey()] == Body(s, Resolve(s, RefAt(s, t)))
  {
    assert RefOk(s, RefAt(s, t));
  }

  /** No write-back is running. */
  predicate Idle(s: State) {
    s.packing == map[] && s.written == map[]
  }

  /** The modified objects form no cycle: `rank` falls from every one to its dirty children. */
  ghost predicate Ranked(s: State, rank: Mid -> nat) {
    forall m: Mid, i | KeyModified(m) in s.cache && 0 <= i < |s.cache[KeyModified(m)].children| ::
      s.cache[KeyModified(m)].children[i].Unmodified? || rank(s.cache[KeyModified(m)].children[i].mid) < rank(m)
  }

  /** Only the reference of one child was corrected, and none that is still modified. */
  ghost predicate ChildSettled(s: State, s': State, mid: Mid, i: nat)
    requires KeyModified(mid) in s.cache && i < |s.cache[KeyModified(mid)].children|
  {
    var n := s.cache[KeyModified(mid)];
    && KeyModified(mid) in s'.cache
    && i < |s'.cache[KeyModified(mid)].children|
    && var r' := s'.cache[KeyModified(mid)].children[i];
    && s' == s.(cache := s.cache[KeyModified(mid) := n.(children := n.children[i := r'])],
                writtenBack := s'.writtenBack)
    && (r'.Unmodified? || (!n.children[i].Unmodified? && r'.mid == n.children[i].mid))
  }

  /** The references may be newer, but every child is still the same object. */
  ghost predicate SameChildren(s: State, s': State, mid: Mid) {
    && KeyModified(mid) in s.cache && KeyModified(mid) in s'.cache
    && var c, c' := s.cache[KeyModified(mid)].children, s'.cache[KeyModified(mid)].children;
    && |c'| == |c|
    && forall i :: 0 <= i < |c| ==> Resolve(s', c'[i]) == Resolve(s, c[i])
  }

  lemma SettledStart(s: State, mid: Mid, i: nat)
    requires KeyModified(mid) in s.cache && i < |s.cache[KeyModified(mid)].children|
    ensures ChildSettled(s, s, mid, i)
  {
    var n := s.cache[KeyModified(mid)];
    assert n.children[i := n.children[i]] == n.children;
    assert s.cache[KeyModified(mid) := n] == s.cache;
  }

  lemma ChildIsSlot(s: State, mid: Mid, i: nat)
    requires KeyModified(mid) in s.cache && i < |s.cache[KeyModified(mid)].children|
    ensures IsSlot(s, ChildSlot(Mem(mid), i))
    ensures RefAt(s, ChildSlot(Mem(mid), i)) == s.cache[KeyModified(mid)].children[i]
  {
  }

  lemma FixChild(s: State, mid: Mid, i: nat)
    requires KeyModified(mid) in s.cache && i < |s.cache[KeyModified(mid)].children|
    requires Enabled(s, FixOr(ChildSlot(Mem(mid), i))) && !Panics(s, FixOr(ChildSlot(Mem(mid), i)))
    ensures var s' := Next(s, FixOr(ChildSlot(Mem(mid), i)));
            && ChildSettled(s, s', mid, i)
            && Lag(s'.cache[KeyModified(mid)].children[i]) < Lag(s.cache[KeyModified(mid)].children[i])
  {
  }

  lemma FixSameChildren(s: State, mid: Mid, i: nat)
    requires Inv(s) && KeyModified(mid) in s.cache && i < |s.cache[KeyModified(mid)].children|
    requires Enabled(s, FixOr(ChildSlot(Mem(mid), i))) && !Panics(s, FixOr(ChildSlot(Mem(mid), i)))
    ensures SameChildren(s, Next(s, FixOr(ChildSlot(Mem(mid), i))), mid)
  {
    var t := ChildSlot(Mem(mid), i);
    FixChild(s, mid, i);
    forall j: nat | j < |s.cache[KeyModified(mid)].children|
      ensures var s' := Next(s, FixOr(t));
              Resolve(s', s'.cache[KeyModified(mid)].children[j]) == Resolve(s, s.cache[KeyModified(mid)].children[j])
    {
      FixOrSlot(s, t, ChildSlot(Mem(mid), j));
      ChildIsSlot(s, mid, j);
      ChildIsSlot(Next(s, FixOr(t)), mid, j);
    }
  }

  lemma SettledMore(s: State, s1: State, s2: State, mid: Mid, i: nat)
    requires KeyModified(mid) in s.cache && i < |s.cache[KeyModified(mid)].children|
    requires ChildSettled(s, s1, mid, i) && ChildSettled(s1, s2, mid, i)
    ensures ChildSettled(s, s2, mid, i)
  {
    var n := s.cache[KeyModified(mid)];
    var r1, r2 := s1.cache[KeyModified(mid)].children[i], s2.cache[KeyModified(mid)].children[i];
    assert n.children[i := r1][i := r2] == n.children[i := r2];
  }

  lemma FixKeepsRank(s: State, s': State, mid: Mid, i: nat, rank: Mid -> nat)
    requires KeyModified(mid) in s.cache && i < |s.cache[KeyModified(mid)].children|
    requires Ranked(s, rank) && ChildSettled(s, s', mid, i)
    ensures Ranked(s', rank)
  {
  }

  lemma IdleHasNoWriteback(s: State)
    requires Inv(s) && Idle(s)
    ensures forall m: Mid :: KeyInWriteback(m) !in s.cache
  {
    forall m: Mid ensures KeyInWriteback(m) !in s.cache {
      assert MidOk(s, m);
    }
  }

  ghost predicate IsDirtyChild(s: State, mid: Mid, i: nat, m: Mid)
    requires KeyModified(mid) in s.cache && i < |s.cache[KeyModified(mid)].children|
  {
    s.cache[KeyModified(mid)].children[i] == Modified(m) && KeyModified(m) in s.cache
  }

  /** Of the first n children, `new_` lists exactly those that are modified; the others are clean. */
  ghost predicate Collected(s: State, mid: Mid, new_: seq<Mid>, n: nat)
    requires KeyModified(mid) in s.cache && n <= |s.cache[KeyModified(mid)].children|
  {
    && (forall i: nat :: i < n ==>
          || s.cache[KeyModified(mid)].children[i].Unmodified?
          || exists m :: m in new_ && IsDirtyChild(s, mid, i, m))
    && (forall m :: m in new_ ==> exists i: nat :: i < n && IsDirtyChild(s, mid, i, m))
  }

  /** Settling one more child changes nothing about those before it. */
  lemma CollectMore(s: State, s': State, mid: Mid, new_: seq<Mid>, i: nat, dirty: bool)
    requires KeyModified(mid) in s.cache && i < |s.cache[KeyModified(mid)].children|
    requires ChildSettled(s, s', mid, i) && Collected(s, mid, new_, i) && s'.cache.Keys == s.cache.Keys
    requires var r := s'.cache[KeyModified(mid)].children[i];
             if dirty then r.Modified? && KeyModified(r.mid) in s'.cache else r.Unmodified?
    ensures var r := s'.cache[KeyModified(mid)].children[i];
            Collected(s', mid, if dirty then new_ + [r.mid] else new_, i + 1)
  {
    var r := s'.cache[KeyModified(mid)].children[i];
    var more := if dirty then new_ + [r.mid] else new_;
    forall j: nat | j < i + 1 && !s'.cache[KeyModified(mid)].children[j].Unmodified?
      ensures exists m :: m in more && IsDirtyChild(s', mid, j, m)
    {
      if j < i {
        var m :| m in new_ && IsDirtyChild(s, mid, j, m);
        assert IsDirtyChild(s', mid, j, m);
      } else {
        assert IsDirtyChild(s', mid, j, r.mid) && r.mid in more;
      }
    }
    forall m | m in more
      ensures exists j: nat :: j < i + 1 && IsDirtyChild(s', mid, j, m)
    {
      if m in new_ {
        var j: nat :| j < i && IsDirtyChild(s, mid, j, m);
        assert IsDirtyChild(s', mid, j, m);
      } else {
        assert IsDirtyChild(s', mid, i, m);
      }
    }
  }

  datatype Prepared = Absent | Blocked | Ready

  ghost predicate ChildrenOnDisk(s: State, mid: Mid) {
    && KeyModified(mid) in s.cache
    && forall i :: 0 <= i < |s.cache[KeyModified(mid)].children| ==>
         Resolve(s, s.cache[KeyModified(mid)].children[i]).OnDisk?
  }

  function Dirty(s: State): set<ObjectKey> {
    set k | k in s.cache.Keys && k.KeyModified?
  }

  lemma CollectedMeans(s: State, s': State, mid: Mid, new_: seq<Mid>, rank: Mid -> nat)
    requires SameChildren(s, s', mid) && Ranked(s', rank)
    requires Collected(s', mid, new_, |s'.cache[KeyModified(mid)].children|)
    ensures new_ == [] <==> ChildrenOnDisk(s, mid)
    ensures new_ == [] ==> AllUnmodified(s'.cache[KeyModified(mid)].children)
    ensures forall m :: m in new_ ==> KeyModified(m) in s'.cache && rank(m) < rank(mid)
  {
    if new_ != [] {
      var m := new_[0];
      assert m in new_;
      var i: nat :| i < |s'.cache[KeyModified(mid)].children| && IsDirtyChild(s', mid, i, m);
      assert Resolve(s', s'.cache[KeyModified(mid)].children[i]) == Mem(m);
      assert !Resolve(s, s.cache[KeyModified(mid)].children[i]).OnDisk?;
    }
    forall m | m in new_
      ensures KeyModified(m) in s'.cache && rank(m) < rank(mid)
    {
      var i: nat :| i < |s'.cache[KeyModified(mid)].children| && IsDirtyChild(s', mid, i, m);
    }
  }

  lemma BeginFacts(s: State, mid: Mid, rank: Mid -> nat)
    requires Enabled(s, BeginWriteback(mid)) && Idle(s) && Ranked(s, rank)
    ensures var s' := Next(s, BeginWriteback(mid));
            && Ranked(s', rank) && s'.packing.Keys == {mid} && s'.written == map[]
            && Dirty(s') == Dirty(s) - {KeyModified(mid)}
  {
  }

  lemma PublishFacts(s: State, mid: Mid, evict: bool, rank: Mid -> nat)
    requires s.written.Keys == {mid} && s.packing == map[] && KeyInWriteback(mid) in s.cache
    requires KeyModified(mid) !in s.cache && KeyUnmodified(s.written[mid]) !in s.cache && Ranked(s, rank)
    ensures var s' := Next(s, Publish(mid, evict));
            && (KeyUnmodified(s.written[mid]) in s'.cache <==> !evict)
            && Ranked(s', rank) && Idle(s') && Dirty(s') == Dirty(s) && s'.roots == s.roots && s'.disk == s.disk
            && mid in s'.writtenBack && s'.writtenBack[mid] == s.written[mid] && !InMemory(s', mid)
  {
  }

  predicate TopDirty(s: State, stack: seq<Mid>) {
    stack != [] && KeyModified(stack[|stack| - 1]) in s.cache
  }

  /** `news` lists, once each, the objects that were modified in `s0` and no longer are. */
  ghost predicate Wrote(s0: State, s: State, news: seq<Mid>) {
    && Dirty(s) <= Dirty(s0)
    && (forall i, j :: 0 <= i < j < |news| ==> news[i] != news[j])
    && (forall m: Mid :: m in news <==> KeyModified(m) in s0.cache && KeyModified(m) !in s.cache)
  }

  lemma WroteNothing(s: State)
    ensures Wrote(s, s, [])
  {
  }

  lemma WroteOne(s0: State, s: State, s': State, news: seq<Mid>, m: Mid)
    requires Wrote(s0, s, news) && KeyModified(m) in s.cache && Dirty(s') == Dirty(s) - {KeyModified(m)}
    ensures Wrote(s0, s', news + [m]) && |Dirty(s')| < |Dirty(s)|
  {
    assert KeyModified(m) in Dirty(s);
    forall n: Mid
      ensures KeyModified(n) in s'.cache <==> KeyModified(n) in s.cache && n != m
      ensures KeyModified(n) in s.cache ==> KeyModified(n) in s0.cache
    {
      assert KeyModified(n) in s'.cache <==> KeyModified(n) in Dirty(s');
      assert KeyModified(n) in s.cache <==> KeyModified(n) in Dirty(s);
      assert KeyModified(n) in s0.cache <==> KeyModified(n) in Dirty(s0);
    }
  }

  lemma SameDirty(s0: State, s: State, s': State, news: seq<Mid>)
    requires Wrote(s0, s, news) && Dirty(s') == Dirty(s)
    ensures Wrote(s0, s', news)
  {
    forall n: Mid ensures KeyModified(n) in s'.cache <==> KeyModified(n) in s.cache {
      assert KeyModified(n) in s'.cache <==> KeyModified(n) in Dirty(s');
    }
  }

  lemma RootFixed(s: State, i: nat, rank: Mid -> nat)
    requires i < |s.roots| && Enabled(s, FixOr(RootSlot(i))) && !Panics(s, FixOr(RootSlot(i))) && Ranked(s, rank)
    ensures var s' := Next(s, FixOr(RootSlot(i)));
            && s'.cache == s.cache && s'.packing == s.packing && s'.written == s.written && Ranked(s', rank)
            && Lag(s'.roots[i]) < Lag(s.roots[i])
  {
  }

  lemma WroteFrom(s: State, s1: State, s2: State, news: seq<Mid>)
    requires s1.cache.Keys == s.cache.Keys && Wrote(s1, s2, news)
    ensures Wrote(s, s2, news) && Dirty(s1) == Dirty(s)
  {
  }

  lemma WroteMore(s0: State, s1: State, s2: State, a: seq<Mid>, b: seq<Mid>)
    requires Wrote(s0, s1, a) && Wrote(s1, s2, b)
    ensures Wrote(s0, s2, a + b)
  {
    forall n: Mid
      ensures KeyModified(n) in s2.cache ==> KeyModified(n) in s1.cache
      ensures KeyModified(n) in s1.cache ==> KeyModified(n) in s0.cache
    {
      assert KeyModified(n) in s2.cache <==> KeyModified(n) in Dirty(s2);
      assert KeyModified(n) in s1.cache <==> KeyModified(n) in Dirty(s1);
      assert KeyModified(n) in s0.cache <==> KeyModified(n) in Dirty(s0);
    }
    forall i, j | 0 <= i < j < |a + b| ensures (a + b)[i] != (a + b)[j] {
      if i < |a| <= j {
        assert a[i] in a && b[j - |a|] in b;
      }
    }
  }

  function RankBy(s: State, grade: Obj -> nat): Mid -> nat {
    (m: Mid) => grade(ResolveMid(s, m))
  }

  lemma ChildFalls(s: State, grade: Obj -> nat, m: Mid, i: nat)
    requires Graded(s, grade) && KeyModified(m) in s.cache && i < |s.cache[KeyModified(m)].children|
    ensures var r := s.cache[KeyModified(m)].children[i];
            r.Unmodified? || grade(ResolveMid(s, r.mid)) < grade(ResolveMid(s, m))
  {
    ChildIsSlot(s, m, i);
  }

  /** Since the references form a forest, the modified objects can be written bottom up. */
  lemma ModifiedAreRanked(s: State) returns (rank: Mid -> nat)
    requires Acyclic(s)
    ensures Ranked(s, rank)
  {
    var grade :| Graded(s, grade);
    rank := RankBy(s, grade);
    forall m: Mid, i | KeyModified(m) in s.cache && 0 <= i < |s.cache[KeyModified(m)].children|
      ensures s.cache[KeyModified(m)].children[i].Unmodified? || rank(s.cache[KeyModified(m)].children[i].mid) < rank(m)
    {
      ChildFalls(s, grade, m, i);
    }
  }

  lemma RootIsOnDisk(s: State, s': State, i: nat, p: Ptr)
    requires Inv(s') && SameViews(s, s') && i < |s.roots| && Resolve(s', s'.roots[i]) == OnDisk(p)
    ensures forall depth: nat :: DiskTree(s'.disk, p, depth) == View(s, s.roots[i], depth)
  {
    forall depth: nat
      ensures DiskTree(s'.disk, p, depth) == View(s, s.roots[i], depth)
    {
      CleanViewIsOnDisk(s', RootSlot(i), p, depth);
    }
  }

  /** A reference that lags behind moves on by one stage: to write-back, or to the pointer under
      which the object waits, which is then no longer kept. */
  ghost predicate OneStage(s: State, r: ObjRef, s': State, r': ObjRef) {
    match r
    case Unmodified(_) => false
    case Modified(m) => r' == InWriteback(m) && s'.writtenBack == s.writtenBack
    case InWriteback(m) =>
      && m in s.writtenBack && r' == Unmodified(s.writtenBack[m])
      && s'.writtenBack == s.writtenBack - {m}
  }

  lemma FixIsOneStage(s: State, t: Slot)
    requires Inv(s) && Enabled(s, FixOr(t))
    ensures !Panics(s, FixOr(t)) && IsSlot(Next(s, FixOr(t)), t)
    ensures OneStage(s, RefAt(s, t), Next(s, FixOr(t)), RefAt(Next(s, FixOr(t)), t))
  {
    StepKeepsInv(s, FixOr(t));
    DirtyRefsAreWritable(s, t);
    var (s1, q) := Fixed(s, RefAt(s, t));
    SetRefSlot(s1, t, q, t);
  }

  /** The reference got a new id, recorded for the dataset. */
  ghost predicate NewOwner(s: State, s': State, r: ObjRef, info: DatasetId) {
    r.Modified? && s.nextMid <= r.mid < s'.nextMid && r.mid in s'.modifiedInfo && s'.modifiedInfo[r.mid] == info
  }

  class Dmu {
    var cache: map<ObjectKey, Node>
    var writtenBack: map<Mid, Ptr>
    var modifiedInfo: map<Mid, DatasetId>
    var nextMid: Mid
    var disk: map<Ptr, Node>
    var packing: map<Mid, Node>
    var written: map<Mid, Ptr>
    var released: multiset<Ptr>
    var roots: seq<ObjRef>
    /** The allocator, reduced to never handing out an address twice in a generation. */
    var generation: nat
    var frontier: nat
    /** The modified ids written back so far, in order. */
    ghost var log: seq<Mid>

    function St(): State
      reads this
    {
      State(cache, writtenBack, modifiedInfo, nextMid, disk, packing, written, released, roots)
    }

    ghost predicate Valid()
      reads this
    {
      Inv(St()) && forall p :: p in disk ==> p.offset < frontier
    }

    constructor (generation: nat)
      ensures Valid() && St() == Empty && log == []
    {
      cache, writtenBack, modifiedInfo, nextMid := map[], map[], map[], 1;
      disk, packing, written, released, roots := map[], map[], map[], multiset{}, [];
      this.generation, frontier, log := generation, 0, [];
      new;
      EmptyInv();
    }

    // --------------------------------------------------------- single steps

    /** Replaces the reference in a slot, wherever the node that holds it is cached. */
    method SetSlot(t: Slot, r: ObjRef)
      requires IsSlot(St(), t)
      modifies this`cache, this`roots
      ensures St() == SetRef(old(St()), t, r)
    {
      match t {
        case RootSlot(i) => roots := roots[i := r];
        case ChildSlot(o, i) =>
          var n := Body(St(), o);
          var n' := n.(children := n.children[i := r]);
          match o {
            case OnDisk(p) => cache := cache[KeyUnmodified(p) := n'];
            case Mem(m) =>
              if KeyModified(m) in cache {
                cache := cache[KeyModified(m) := n'];
              } else {
                cache := cache[KeyInWriteback(m) := n'];
              }
          }
      }
    }

    method CorrectRef(t: Slot)
      requires IsSlot(St(), t) && !RefAt(St(), t).Unmodified?
      requires RefAt(St(), t).InWriteback? ==> RefAt(St(), t).mid in writtenBack
      modifies this`cache, this`roots, this`writtenBack
      ensures var (s1, r) := Fixed(old(St()), RefAt(old(St()), t)); IsSlot(s1, t) && St() == SetRef(s1, t, r)
    {
      match RefAt(St(), t) {
        case Modified(m) => SetSlot(t, InWriteback(m));
        case InWriteback(m) =>
          var ptr := writtenBack[m];
          writtenBack := writtenBack - {m};
          SetSlot(t, Unmodified(ptr));
      }
    }

    /** `fix_or`: the object is not cached under the reference's key, so it moved on. */
    method FixOr(t: Slot)
      requires Valid() && Enabled(St(), Step.FixOr(t))
      modifies this`cache, this`roots, this`writtenBack
      ensures Valid() && !Panics(old(St()), Step.FixOr(t)) && St() == Next(old(St()), Step.FixOr(t))
      ensures SameViews(old(St()), St())
      ensures IsSlot(St(), t) && OneStage(old(St()), RefAt(old(St()), t), St(), RefAt(St(), t))
    {
      StepSameViews(St(), Step.FixOr(t));
      FixIsOneStage(St(), t);
      CorrectRef(t);
    }

    /** `insert`: a new object under a fresh modified id, held by the caller.  It takes over the
        last references its creator holds as its children. */
    method Insert(payload: Payload, info: DatasetId, held: nat) returns (r: ObjRef)
      requires Valid() && held <= |roots|
      modifies this
      ensures Valid() && r == Modified(old(nextMid)) && disk == old(disk)
      ensures St() == Next(old(St()), Step.Insert(payload, info, held))
      ensures |roots| > 0 && roots[|roots| - 1] == r
      ensures forall depth: nat :: ShowsInsert(old(St()), St(), payload, held, depth)
    {
      EditKeepsInv(St(), Step.Insert(payload, info, held));
      forall depth: nat {
        InsertView(St(), payload, info, held, depth);
      }
      r := AddObject(payload, info, held);
    }

    method AddObject(payload: Payload, info: DatasetId, held: nat) returns (r: ObjRef)
      requires held <= |roots|
      modifies this`cache, this`nextMid, this`modifiedInfo, this`roots
      ensures r == Modified(old(nextMid)) && St() == Next(old(St()), Step.Insert(payload, info, held))
    {
      var mid, rest := nextMid, |roots| - held;
      nextMid := mid + 1;
      modifiedInfo := modifiedInfo[mid := info];
      cache := cache[KeyModified(mid) := Node(payload, roots[rest..])];
      r := Modified(mid);
      roots := roots[..rest] + [r];
    }

    method TakeOver(t: Slot, info: DatasetId)
      requires IsSlot(St(), t) && Writable(St(), t) && RefAt(St(), t).AsKey() in cache
      modifies this
      ensures St() == StealAt(old(St()), t, info)
      ensures frontier == old(frontier) && generation == old(generation) && log == old(log)
    {
      var mid := nextMid;
      var r := RefAt(St(), t);
      SetRefKeys(St(), t, Modified(mid));
      SetSlot(t, Modified(mid));
      Rename(r, mid, info);
    }

    /** The object gets a new id; the block of an unmodified one is given up. */
    method Rename(r: ObjRef, mid: Mid, info: DatasetId)
      requires r.AsKey() in cache
      modifies this`nextMid, this`cache, this`modifiedInfo, this`released
      ensures cache == Rekey(old(cache), r.AsKey(), KeyModified(mid))
      ensures nextMid == mid + 1 && modifiedInfo == old(modifiedInfo)[mid := info]
      ensures released == if r.Unmodified? then old(released) + multiset{r.ptr} else old(released)
    {
      nextMid := mid + 1;
      cache := (cache - {r.AsKey()})[KeyModified(mid) := cache[r.AsKey()]];
      modifiedInfo := modifiedInfo[mid := info];
      if r.Unmodified? {
        released := released + multiset{r.ptr};
      }
    }

    /** `steal`: the id is consumed even when the object is not cached under the reference's key. */
    method Steal(t: Slot, info: DatasetId) returns (present: bool)
      requires Valid() && IsSlot(St(), t) && Writable(St(), t)
      requires RefAt(St(), t).Modified? ==> RefAt(St(), t).AsKey() !in cache
      modifies this
      ensures Valid() && present == (RefAt(old(St()), t).AsKey() in old(cache)) && log == old(log)
      ensures present ==> Enabled(old(St()), Step.Steal(t, info)) && St() == Next(old(St()), Step.Steal(t, info))
      ensures !present ==> St() == old(St()).(nextMid := old(nextMid) + 1)
      ensures SameViews(old(St()), St())
      ensures IsSlot(St(), t) && Writable(St(), t)
      ensures present ==> RefAt(St(), t) == Modified(old(nextMid)) && RefAt(St(), t).AsKey() in cache
      ensures present ==> modifiedInfo == old(modifiedInfo)[old(nextMid) := info]
      ensures !present ==> RefAt(St(), t) == RefAt(old(St()), t)
    {
      present := RefAt(St(), t).AsKey() in cache;
      if present {
        StealCached(t, info);
      } else {
        ghost var s := St();
        UnusedMid(s);
        UnusedMidSlot(s, t);
        nextMid := nextMid + 1;
        assert St() == s.(nextMid := s.nextMid + 1);
      }
    }

    method StealCached(t: Slot, info: DatasetId)
      requires Valid() && Enabled(St(), Step.Steal(t, info))
      modifies this
      ensures Valid() && St() == Next(old(St()), Step.Steal(t, info)) && log == old(log)
      ensures SameViews(old(St()), St())
      ensures IsSlot(St(), t) && Writable(St(), t)
      ensures RefAt(St(), t) == Modified(old(nextMid)) && RefAt(St(), t).AsKey() in cache
      ensures modifiedInfo == old(modifiedInfo)[old(nextMid) := info]
    {
      ghost var s := St();
      StepSameViews(s, Step.Steal(t, info));
      StealFrame(s, t, info);
      StealAdvances(s, t, info);
      TakeOver(t, info);
    }

    /** `fetch`, also reached through a prefetch whose pointer may be stale by now. */
    method Fetch(p: Ptr)
      requires Valid() && Enabled(St(), Step.Fetch(p))
      modifies this`cache
      ensures Valid() && St() == Next(old(St()), Step.Fetch(p))
      ensures SameViews(old(St()), St())
    {
      StepSameViews(St(), Step.Fetch(p));
      cache := cache[KeyUnmodified(p) := disk[p]];
    }

    /** `get` without pending storage hints: after at most two corrections of the reference
        the object is cached under its key, and it is the object the reference denoted. */
    method Get(t: Slot) returns (node: Node, fixes: nat)
      requires Valid() && IsSlot(St(), t)
      modifies this`cache, this`roots, this`writtenBack
      ensures Valid() && SameViews(old(St()), St())
      ensures SlotAdvanced(old(St()), St(), t)
      ensures RefAt(St(), t).AsKey() in cache && node == cache[RefAt(St(), t).AsKey()]
      ensures node == Body(St(), Resolve(St(), RefAt(St(), t)))
      ensures fixes <= 2 && fixes == Lag(RefAt(old(St()), t)) - Lag(RefAt(St(), t))
    {
      fixes := 0;
      while RefAt(St(), t).AsKey() !in cache
        invariant Valid() && SameViews(old(St()), St())
        invariant SlotAdvanced(old(St()), St(), t)
        invariant fixes == Lag(RefAt(old(St()), t)) - Lag(RefAt(St(), t))
        decreases Lag(RefAt(St(), t)), RefAt(St(), t).AsKey() !in cache
      {
        ghost var s := St();
        SlotResolves(s, t);
        match RefAt(St(), t) {
          case Unmodified(ptr) =>
            Fetch(ptr);
            FetchAdvances(s, t, ptr);
          case _ =>
            FixOr(t);
            FixAdvances(s, t);
            fixes := fixes + 1;
        }
      }
      node := cache[RefAt(St(), t).AsKey()];
      CachedIsBody(St(), t);
    }

    /** `get_mut`: afterwards the reference and the cache key are in the modified state; unless they
        were before, under a new id that belongs to the dataset. */
    method GetMut(t: Slot, info: DatasetId)
      requires Valid() && IsSlot(St(), t) && Writable(St(), t)
      modifies this
      ensures Valid() && SameViews(old(St()), St())
      ensures IsSlot(St(), t) && Writable(St(), t)
      ensures RefAt(St(), t).Modified? && RefAt(St(), t).AsKey() in cache
      ensures var r := RefAt(old(St()), t);
              if r.Modified? && r.AsKey() in old(cache) then St() == old(St())
              else NewOwner(old(St()), St(), RefAt(St(), t), info)
    {
      if RefAt(St(), t).Modified? && RefAt(St(), t).AsKey() in cache {
        return;
      }
      StealUntilPresent(t, info);
    }

    method StealUntilPresent(t: Slot, info: DatasetId)
      requires Valid() && IsSlot(St(), t) && Writable(St(), t)
      requires !(RefAt(St(), t).Modified? && RefAt(St(), t).AsKey() in cache)
      modifies this
      ensures Valid() && SameViews(old(St()), St())
      ensures IsSlot(St(), t) && Writable(St(), t)
      ensures RefAt(St(), t).Modified? && RefAt(St(), t).AsKey() in cache
      ensures NewOwner(old(St()), St(), RefAt(St(), t), info)
    {
      var present := Steal(t, info);
      while !present
        invariant Valid() && SameViews(old(St()), St())
        invariant IsSlot(St(), t) && Writable(St(), t)
        invariant present <==> RefAt(St(), t).Modified? && RefAt(St(), t).AsKey() in cache
        invariant old(nextMid) <= nextMid && (present ==> NewOwner(old(St()), St(), RefAt(St(), t), info))
        decreases !present
      {
        present := GetAndSteal(t, info, old(St()));
      }
    }

    /** One more turn of `get_mut`: the object is brought into the cache and then found there. */
    method GetAndSteal(t: Slot, info: DatasetId, ghost s0: State) returns (present: bool)
      requires Valid() && IsSlot(St(), t) && Writable(St(), t) && SameViews(s0, St())
      requires !(RefAt(St(), t).Modified? && RefAt(St(), t).AsKey() in cache) && s0.nextMid <= nextMid
      modifies this
      ensures Valid() && SameViews(s0, St()) && present && nextMid > old(nextMid)
      ensures IsSlot(St(), t) && Writable(St(), t)
      ensures RefAt(St(), t).Modified? && RefAt(St(), t).AsKey() in cache
      ensures NewOwner(s0, St(), RefAt(St(), t), info)
    {
      var _, _ := Get(t);
      present := Steal(t, info);
    }

    // ------------------------------------------------------------ write-back

    /** The inner loop over one child in `prepare_write_back`: correct its reference until it
        is clean or its object is found in the cache. */
    method SettleChild(mid: Mid, i: nat, ghost rank: Mid -> nat) returns (dirty: bool)
      requires Valid() && Idle(St()) && Ranked(St(), rank)
      requires KeyModified(mid) in cache && i < |cache[KeyModified(mid)].children|
      modifies this`cache, this`roots, this`writtenBack
      ensures Valid() && SameViews(old(St()), St()) && Ranked(St(), rank)
      ensures ChildSettled(old(St()), St(), mid, i) && SameChildren(old(St()), St(), mid)
      ensures var r := cache[KeyModified(mid)].children[i];
              if dirty then r.Modified? && KeyModified(r.mid) in cache else r.Unmodified?
    {
      SettledStart(St(), mid, i);
      while !cache[KeyModified(mid)].children[i].Unmodified? && cache[KeyModified(mid)].children[i].AsKey() !in cache
        invariant Valid() && SameViews(old(St()), St()) && Ranked(St(), rank)
        invariant ChildSettled(old(St()), St(), mid, i) && SameChildren(old(St()), St(), mid)
        decreases Lag(cache[KeyModified(mid)].children[i])
      {
        ghost var s := St();
        ChildIsSlot(s, mid, i);
        FixOr(ChildSlot(Mem(mid), i));
        FixChild(s, mid, i);
        FixSameChildren(s, mid, i);
        SettledMore(old(St()), s, St(), mid, i);
        FixKeepsRank(s, St(), mid, i, rank);
      }
      dirty := !cache[KeyModified(mid)].children[i].Unmodified?;
      IdleHasNoWriteback(St());
    }

    /** The loop of `prepare_write_back` over the children. */
    /** Child i, and its id if it is modified. */
    method SettleNext(mid: Mid, i: nat, ghost new_: seq<Mid>, ghost rank: Mid -> nat) returns (found: seq<Mid>)
      requires Valid() && Idle(St()) && Ranked(St(), rank) && KeyModified(mid) in cache
      requires i < |cache[KeyModified(mid)].children| && Collected(St(), mid, new_, i)
      modifies this`cache, this`roots, this`writtenBack
      ensures Valid() && SameViews(old(St()), St()) && Ranked(St(), rank) && Idle(St())
      ensures cache.Keys == old(cache.Keys) && roots == old(roots) && SameChildren(old(St()), St(), mid)
      ensures Collected(St(), mid, new_ + found, i + 1)
    {
      ghost var s := St();
      var dirty := SettleChild(mid, i, rank);
      CollectMore(s, St(), mid, new_, i, dirty);
      found := if dirty then [cache[KeyModified(mid)].children[i].mid] else [];
      assert new_ + [] == new_;
    }

    method SettleChildren(mid: Mid, mids: seq<Mid>, ghost rank: Mid -> nat) returns (mids': seq<Mid>)
      requires Valid() && Idle(St()) && Ranked(St(), rank) && KeyModified(mid) in cache
      modifies this`cache, this`roots, this`writtenBack
      ensures Valid() && SameViews(old(St()), St()) && Ranked(St(), rank) && Idle(St())
      ensures cache.Keys == old(cache.Keys) && roots == old(roots) && SameChildren(old(St()), St(), mid)
      ensures mids <= mids' && Collected(St(), mid, mids'[|mids|..], |cache[KeyModified(mid)].children|)
    {
      mids' := mids;
      var i := 0;
      while i < |cache[KeyModified(mid)].children|
        invariant Valid() && SameViews(old(St()), St()) && Ranked(St(), rank) && Idle(St())
        invariant cache.Keys == old(cache.Keys) && roots == old(roots) && SameChildren(old(St()), St(), mid)
        invariant i <= |cache[KeyModified(mid)].children|
        invariant mids <= mids' && Collected(St(), mid, mids'[|mids|..], i)
        decreases |cache[KeyModified(mid)].children| - i
      {
        ghost var new_ := mids'[|mids|..];
        var found := SettleNext(mid, i, new_, rank);
        assert (mids' + found)[|mids|..] == new_ + found;
        mids', i := mids' + found, i + 1;
      }
    }

    /** `prepare_write_back`: absent exactly if the object is no longer modified; ready exactly if
        all its children are on disk, and then it was moved to write-back; otherwise blocked, with
        exactly its modified children appended to `mids`. */
    method PrepareWriteBack(mid: Mid, mids: seq<Mid>, ghost rank: Mid -> nat) returns (res: Prepared, mids': seq<Mid>)
      requires Valid() && Idle(St()) && Ranked(St(), rank)
      modifies this`cache, this`roots, this`writtenBack, this`packing
      ensures Valid() && SameViews(old(St()), St()) && Ranked(St(), rank)
      ensures written == map[] && roots == old(roots)
      ensures res.Absent? <==> KeyModified(mid) !in old(cache)
      ensures res.Absent? ==> St() == old(St()) && mids' == mids
      ensures res.Ready? <==> KeyModified(mid) in old(cache) && ChildrenOnDisk(old(St()), mid)
      ensures res.Blocked? ==> Idle(St()) && cache.Keys == old(cache.Keys) && SameChildren(old(St()), St(), mid)
      ensures res.Blocked? ==>
                && mids < mids' && Collected(St(), mid, mids'[|mids|..], |cache[KeyModified(mid)].children|)
                && (forall m :: m in mids'[|mids|..] ==> KeyModified(m) in cache && rank(m) < rank(mid))
      ensures res.Ready? ==> packing.Keys == {mid} && KeyInWriteback(mid) in cache && mids' == mids
      ensures res.Ready? ==> Dirty(St()) == Dirty(old(St())) - {KeyModified(mid)}
    {
      if KeyModified(mid) !in cache {
        return Absent, mids;
      }
      mids' := SettleChildren(mid, mids, rank);
      CollectedMeans(old(St()), St(), mid, mids'[|mids|..], rank);
      if mids' != mids {
        assert mids'[|mids|..] != [];
        return Prepared.Blocked, mids';
      }
      assert mids'[|mids|..] == [];
      Begin(mid, rank);
      return Ready, mids';
    }

    method Begin(mid: Mid, ghost rank: Mid -> nat)
      requires Valid() && Idle(St()) && Ranked(St(), rank) && Enabled(St(), BeginWriteback(mid))
      modifies this`cache, this`packing
      ensures Valid() && SameViews(old(St()), St()) && Ranked(St(), rank)
      ensures St() == Next(old(St()), BeginWriteback(mid))
      ensures packing.Keys == {mid} && KeyInWriteback(mid) in cache
      ensures Dirty(St()) == Dirty(old(St())) - {KeyModified(mid)}
    {
      StepSameViews(St(), BeginWriteback(mid));
      BeginFacts(St(), mid, rank);
      packing := packing[mid := cache[KeyModified(mid)]];
      cache := (cache - {KeyModified(mid)})[KeyInWriteback(mid) := cache[KeyModified(mid)]];
    }

    /** `handle_write_back`: allocate, write, publish.  The returned pointer is the one under
        which the object is now waiting to be collected. */
    method HandleWriteBack(mid: Mid, evict: bool, ghost rank: Mid -> nat) returns (p: Ptr)
      requires Valid() && packing.Keys == {mid} && written == map[] && KeyInWriteback(mid) in cache
      requires Ranked(St(), rank)
      modifies this`cache, this`writtenBack, this`modifiedInfo, this`disk, this`packing, this`written
      modifies this`released, this`frontier, this`log
      ensures Valid() && SameViews(old(St()), St()) && Ranked(St(), rank)
      ensures Idle(St()) && Dirty(St()) == Dirty(old(St())) && log == old(log) + [mid]
      ensures p !in old(disk) && p in disk && p.generation == generation && roots == old(roots)
      ensures mid in writtenBack && writtenBack[mid] == p && !InMemory(St(), mid)
      ensures mid !in modifiedInfo && (KeyUnmodified(p) in cache <==> !evict)
    {
      p := WriteObject(mid);
      PublishObject(mid, evict, rank);
    }

    method PublishObject(mid: Mid, evict: bool, ghost rank: Mid -> nat)
      requires Valid() && written.Keys == {mid} && packing == map[] && KeyInWriteback(mid) in cache
      requires KeyUnmodified(written[mid]) !in cache && Ranked(St(), rank)
      modifies this`cache, this`writtenBack, this`written, this`released
      ensures Valid() && SameViews(old(St()), St()) && St() == Next(old(St()), Publish(mid, evict))
      ensures Ranked(St(), rank) && Idle(St()) && Dirty(St()) == Dirty(old(St()))
      ensures mid in writtenBack && writtenBack[mid] == old(written)[mid] && !InMemory(St(), mid)
      ensures KeyUnmodified(old(written)[mid]) in cache <==> !evict
    {
      assert MidOk(St(), mid);
      PublishFacts(St(), mid, evict, rank);
      StepSameViews(St(), Publish(mid, evict));
      Announce(mid, evict);
    }

    method Announce(mid: Mid, evict: bool)
      requires mid in written
      modifies this`cache, this`writtenBack, this`written, this`released
      ensures St() == Next(old(St()), Publish(mid, evict))
    {
      var ptr := written[mid];
      written := written - {mid};
      if KeyInWriteback(mid) in cache {
        cache := if evict then cache - {KeyInWriteback(mid)}
                 else (cache - {KeyInWriteback(mid)})[KeyUnmodified(ptr) := cache[KeyInWriteback(mid)]];
        writtenBack := writtenBack[mid := ptr];
      } else {
        released := released + multiset{ptr};
      }
    }

    method WriteObject(mid: Mid) returns (p: Ptr)
      requires Valid() && packing.Keys == {mid} && written == map[]
      modifies this`modifiedInfo, this`disk, this`packing, this`written, this`frontier, this`log
      ensures Valid() && SameViews(old(St()), St())
      ensures p !in old(disk) && p.generation == generation && KeyUnmodified(p) !in cache && mid !in modifiedInfo
      ensures Enabled(old(St()), WriteOut(mid, p)) && !Panics(old(St()), WriteOut(mid, p))
      ensures St() == Next(old(St()), WriteOut(mid, p))
      ensures packing == map[] && written == map[mid := p] && log == old(log) + [mid]
    {
      p := Ptr(frontier, generation);
      StepSameViews(St(), WriteOut(mid, p));
      Emit(mid, p);
    }

    method Emit(mid: Mid, p: Ptr)
      requires mid in packing && mid in modifiedInfo && p !in disk
      modifies this`modifiedInfo, this`disk, this`packing, this`written, this`frontier, this`log
      ensures St() == Next(old(St()), WriteOut(mid, p))
      ensures frontier == old(frontier) + 1 && log == old(log) + [mid]
    {
      frontier, log := frontier + 1, log + [mid];
      MoveToDisk(mid, p);
    }

    method MoveToDisk(mid: Mid, p: Ptr)
      requires mid in packing && mid in modifiedInfo && p !in disk
      modifies this`modifiedInfo, this`disk, this`packing, this`written
      ensures St() == Next(old(St()), WriteOut(mid, p))
    {
      modifiedInfo, written := modifiedInfo - {mid}, written[mid := p];
      disk, packing := disk[p := packing[mid]], packing - {mid};
    }

    /** One round of the loop in `write_back` over the stack of modified children. */
    method WriteTop(stack: seq<Mid>, ghost rank: Mid -> nat) returns (stack': seq<Mid>)
      requires Valid() && Idle(St()) && Ranked(St(), rank) && stack != []
      modifies this
      ensures Valid() && Idle(St()) && Ranked(St(), rank) && SameViews(old(St()), St()) && roots == old(roots)
      ensures !TopDirty(old(St()), stack) ==> St() == old(St()) && log == old(log) && stack' == stack[..|stack| - 1]
      ensures TopDirty(old(St()), stack) ==>
                var mid := stack[|stack| - 1];
                if log == old(log) then
                  Dirty(St()) == Dirty(old(St())) && TopDirty(St(), stack') && rank(stack'[|stack'| - 1]) < rank(mid)
                else
                  log == old(log) + [mid] && Dirty(St()) == Dirty(old(St())) - {KeyModified(mid)}
    {
      var mid := stack[|stack| - 1];
      var res;
      res, stack' := PrepareWriteBack(mid, stack, rank);
      match res {
        case Absent => stack' := stack'[..|stack'| - 1];
        case Blocked =>
        case Ready =>
          var _ := HandleWriteBack(mid, false, rank);
          stack' := stack'[..|stack'| - 1];
      }
    }

    /** The loop that empties the stack of modified children: every object on it that is
        still modified is written, after its own modified children. */
    method WriteDependencies(mids: seq<Mid>, ghost rank: Mid -> nat)
      requires Valid() && Idle(St()) && Ranked(St(), rank)
      requires TopDirty(St(), mids)
      modifies this
      ensures Valid() && Idle(St()) && Ranked(St(), rank) && SameViews(old(St()), St()) && roots == old(roots)
      ensures old(log) <= log && Wrote(old(St()), St(), log[|old(log)|..])
      ensures |Dirty(St())| < |Dirty(old(St()))|
    {
      var stack := mids;
      WroteNothing(St());
      assert log[|log|..] == [];
      while stack != []
        invariant Valid() && Idle(St()) && Ranked(St(), rank) && SameViews(old(St()), St()) && roots == old(roots)
        invariant old(log) <= log && Wrote(old(St()), St(), log[|old(log)|..])
        invariant |Dirty(St())| < |Dirty(old(St()))| || (|Dirty(St())| == |Dirty(old(St()))| && TopDirty(St(), stack))
        decreases |Dirty(St())|, if TopDirty(St(), stack) then 0 else |stack|,
                  if TopDirty(St(), stack) then rank(stack[|stack| - 1]) else 0
      {
        ghost var s, n, top := St(), |log|, stack[|stack| - 1];
        stack := WriteTop(stack, rank);
        if |log| > n {
          WroteOne(old(St()), s, St(), log[|old(log)|..n], top);
          assert log[|old(log)|..] == log[|old(log)|..n] + [top];
        } else {
          SameDirty(old(St()), s, St(), log[|old(log)|..]);
        }
      }
    }

    method FixRoot(i: nat, ghost rank: Mid -> nat)
      requires Valid() && Idle(St()) && Ranked(St(), rank) && i < |roots|
      requires !roots[i].Unmodified? && KeyModified(roots[i].mid) !in cache
      modifies this`cache, this`roots, this`writtenBack
      ensures Valid() && Idle(St()) && Ranked(St(), rank) && SameViews(old(St()), St())
      ensures cache == old(cache) && Lag(roots[i]) < Lag(old(roots[i]))
    {
      ghost var s := St();
      IdleHasNoWriteback(s);
      FixOr(RootSlot(i));
      RootFixed(s, i, rank);
    }

    /** One round of `write_back` on the root reference: done when the root is on disk. */
    method WriteRootRound(i: nat, ghost rank: Mid -> nat) returns (done: bool, p: Ptr)
      requires Valid() && Idle(St()) && Ranked(St(), rank) && i < |roots|
      modifies this
      ensures Valid() && Idle(St()) && Ranked(St(), rank) && SameViews(old(St()), St())
      ensures old(log) <= log && Wrote(old(St()), St(), log[|old(log)|..])
      ensures done ==> Resolve(St(), roots[i]) == OnDisk(p)
      ensures !done ==>
                || |Dirty(St())| < |Dirty(old(St()))|
                || (Dirty(St()) == Dirty(old(St())) && Lag(roots[i]) < Lag(old(roots[i])))
    {
      WroteNothing(St());
      assert log[|log|..] == [];
      match roots[i] {
        case Unmodified(q) => return true, q;
        case _ =>
      }
      var mid := roots[i].mid;
      ghost var s := St();
      var res, mids := PrepareWriteBack(mid, [], rank);
      match res {
        case Absent =>
          FixRoot(i, rank);
          SameDirty(s, s, St(), []);
          return false, Ptr(0, 0);
        case Ready =>
          p := HandleWriteBack(mid, false, rank);
          WroteOne(s, s, St(), [], mid);
          assert log[|old(log)|..] == [mid];
          return true, p;
        case Blocked =>
          ghost var s1 := St();
          WriteDependencies(mids, rank);
          WroteFrom(s, s1, St(), log[|old(log)|..]);
          return false, Ptr(0, 0);
      }
    }

    /** A round, seen from the start of `write_back`. */
    method Round(i: nat, ghost rank: Mid -> nat, ghost s0: State, ghost from: nat) returns (done: bool, p: Ptr)
      requires Valid() && Idle(St()) && Ranked(St(), rank) && i < |roots|
      requires SameViews(s0, St()) && from <= |log| && Wrote(s0, St(), log[from..])
      modifies this
      ensures Valid() && Idle(St()) && Ranked(St(), rank) && SameViews(s0, St())
      ensures old(log) <= log && Wrote(s0, St(), log[from..])
      ensures done ==> Resolve(St(), roots[i]) == OnDisk(p)
      ensures !done ==>
                || |Dirty(St())| < |Dirty(old(St()))|
                || (Dirty(St()) == Dirty(old(St())) && Lag(roots[i]) < Lag(old(roots[i])))
    {
      ghost var s, n := St(), |log|;
      done, p := WriteRootRound(i, rank);
      WroteMore(s0, s, St(), log[from..n], log[n..]);
      assert log[from..] == log[from..n] + log[n..];
    }

    /** `write_back` of the tree under a root, with no other operation running.  It ends, it
        writes every modified object it meets exactly once, and the pointer it returns leads
        to a packed tree that equals the tree in memory, to every depth. */
    method WriteBack(i: nat) returns (p: Ptr)
      requires Valid() && Idle(St()) && i < |roots|
      modifies this
      ensures Valid() && Idle(St()) && SameViews(old(St()), St())
      ensures old(log) <= log && Wrote(old(St()), St(), log[|old(log)|..])
      ensures forall depth: nat :: DiskTree(disk, p, depth) == View(old(St()), old(roots)[i], depth)
    {
      ghost var rank := ModifiedAreRanked(St());
      p := WriteRounds(i, rank);
    }

    /** The rounds of `write_back`, until the root is on disk. */
    method WriteRounds(i: nat, ghost rank: Mid -> nat) returns (p: Ptr)
      requires Valid() && Idle(St()) && Ranked(St(), rank) && i < |roots|
      modifies this
      ensures Valid() && Idle(St()) && SameViews(old(St()), St())
      ensures old(log) <= log && Wrote(old(St()), St(), log[|old(log)|..])
      ensures forall depth: nat :: DiskTree(disk, p, depth) == View(old(St()), old(roots)[i], depth)
    {
      var done := false;
      p := Ptr(0, 0);
      WroteNothing(St());
      assert log[|log|..] == [];
      while !done
        invariant Valid() && Idle(St()) && Ranked(St(), rank) && SameViews(old(St()), St())
        invariant old(log) <= log && Wrote(old(St()), St(), log[|old(log)|..])
        invariant done ==> Resolve(St(), roots[i]) == OnDisk(p)
        decreases !done, |Dirty(St())|, Lag(roots[i])
      {
        done, p := Round(i, rank, old(St()), |old(log)|);
      }
      RootIsOnDisk(old(St()), St(), i, p);
    }
  }
}
