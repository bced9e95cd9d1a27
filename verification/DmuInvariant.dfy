/** The invariant over every run of the protocol. */
module DmuInvariant {
  import opened DmuState
  import opened DmuForest
  import opened DmuSteps

  // ------------------------------------------------ one lemma per step and conjunct

  lemma CacheStepMids(s: State, step: Step)
    requires MidsOk(s) && Enabled(s, step)
    requires step.Fetch? || step.EvictClean? || step.BeginWriteback?
    ensures MidsOk(Next(s, step))
  {
    forall m: Mid ensures MidOk(Next(s, step), m) {
      assert MidOk(s, m);
    }
  }

  lemma CacheStepCopies(s: State, step: Step)
    requires CopiesOk(s) && Enabled(s, step)
    requires step.Fetch? || step.EvictClean? || step.BeginWriteback?
    ensures CopiesOk(Next(s, step))
  {
  }

  lemma PtrsFrame(s: State, s': State)
    requires PtrsOk(s) && s'.disk == s.disk && s'.written == s.written && s'.released == s.released
    requires s'.writtenBack == s.writtenBack || exists m :: s'.writtenBack == s.writtenBack - {m}
    ensures PtrsOk(s')
  {
    assert forall p :: IsObj(s', OnDisk(p)) == IsObj(s, OnDisk(p));
  }

  lemma CacheStepPtrs(s: State, step: Step)
    requires PtrsOk(s) && Enabled(s, step)
    requires step.Fetch? || step.EvictClean? || step.BeginWriteback?
    ensures PtrsOk(Next(s, step))
  {
    PtrsFrame(s, Next(s, step));
  }

  lemma WriteOutMids(s: State, m: Mid, p: Ptr)
    requires MidsOk(s) && CopiesOk(s) && Enabled(s, WriteOut(m, p)) && !Panics(s, WriteOut(m, p))
    ensures MidsOk(Next(s, WriteOut(m, p))) && CopiesOk(Next(s, WriteOut(m, p)))
  {
    assert MidOk(s, m);
    forall n: Mid ensures MidOk(Next(s, WriteOut(m, p)), n) {
      assert MidOk(s, n);
    }
  }

  lemma WriteOutPtrs(s: State, m: Mid, p: Ptr)
    requires MidsOk(s) && PtrsOk(s) && Enabled(s, WriteOut(m, p)) && !Panics(s, WriteOut(m, p))
    ensures PtrsOk(Next(s, WriteOut(m, p)))
  {
    assert MidOk(s, m);
    AddValue(s.written, m, p);
  }

  lemma PublishCopies(s: State, m: Mid, evict: bool)
    requires MidOk(s, m) && CopiesOk(s) && m in s.written
    ensures CopiesOk(Next(s, Publish(m, evict)))
  {
  }

  lemma PublishMids(s: State, m: Mid, evict: bool)
    requires MidsOk(s) && m in s.written
    ensures MidsOk(Next(s, Publish(m, evict)))
  {
    assert MidOk(s, m);
    forall n: Mid ensures MidOk(Next(s, Publish(m, evict)), n) {
      assert MidOk(s, n);
    }
  }

  lemma WaitingElsewhere(s: State, m: Mid)
    requires PtrsOk(s) && m in s.written
    ensures (s.written - {m}).Values == s.written.Values - {s.written[m]}
    ensures forall n: Mid :: n in s.writtenBack ==> s.writtenBack[n] != s.written[m]
  {
    DropValue(s.written, m);
    forall n: Mid | n in s.writtenBack ensures s.writtenBack[n] != s.written[m] {
      assert IsObj(s, OnDisk(s.writtenBack[n])) && s.written[m] in s.written.Values;
    }
  }

  lemma PublishPtrs(s: State, m: Mid, evict: bool)
    requires PtrsOk(s) && m in s.written && KeyInWriteback(m) in s.cache
    ensures PtrsOk(Next(s, Publish(m, evict)))
  {
    WaitingElsewhere(s, m);
    var s' := Next(s, Publish(m, evict));
    assert forall p :: IsObj(s, OnDisk(p)) || p == s.written[m] ==> IsObj(s', OnDisk(p));
  }

  lemma PublishLostPtrs(s: State, m: Mid, evict: bool)
    requires PtrsOk(s) && m in s.written && KeyInWriteback(m) !in s.cache
    ensures PtrsOk(Next(s, Publish(m, evict)))
  {
    WaitingElsewhere(s, m);
    var s' := Next(s, Publish(m, evict));
    assert forall p :: IsObj(s, OnDisk(p)) && p != s.written[m] ==> IsObj(s', OnDisk(p));
  }

  lemma FixOrMid(s: State, t: Slot, n: Mid)
    requires Enabled(s, FixOr(t)) && !Panics(s, FixOr(t)) && Writable(s, t)
    requires MidOk(s, n) && (t.ChildSlot? ==> MidOk(s, t.parent.mid))
    ensures MidOk(Next(s, FixOr(t)), n)
  {
    var (s1, q) := Fixed(s, RefAt(s, t));
    SetRefKeys(s1, t, q);
  }

  lemma FixOrCopies(s: State, t: Slot)
    requires CopiesOk(s) && Enabled(s, FixOr(t)) && !Panics(s, FixOr(t)) && Writable(s, t)
    ensures CopiesOk(Next(s, FixOr(t)))
  {
    var (s1, q) := Fixed(s, RefAt(s, t));
    SetRefKeys(s1, t, q);
  }

  lemma FixOrMids(s: State, t: Slot)
    requires MidsOk(s) && CopiesOk(s) && Enabled(s, FixOr(t)) && !Panics(s, FixOr(t)) && Writable(s, t)
    ensures MidsOk(Next(s, FixOr(t))) && CopiesOk(Next(s, FixOr(t)))
  {
    forall n: Mid ensures MidOk(Next(s, FixOr(t)), n) {
      assert MidOk(s, n) && (t.ChildSlot? ==> MidOk(s, t.parent.mid));
      FixOrMid(s, t, n);
    }
    FixOrCopies(s, t);
  }

  lemma FixOrPtrs(s: State, t: Slot)
    requires PtrsOk(s) && Enabled(s, FixOr(t)) && !Panics(s, FixOr(t)) && Writable(s, t)
    ensures PtrsOk(Next(s, FixOr(t)))
  {
    var (s1, q) := Fixed(s, RefAt(s, t));
    assert IsSlot(s1, t);
    PtrsFrame(s, s1);
    SetRefKeys(s1, t, q);
    PtrsFrame(s1, SetRef(s1, t, q));
  }

  lemma StealMid(s: State, t: Slot, info: DatasetId, n: Mid)
    requires MidOk(s, n) && MidOk(s, s.nextMid) && Stealable(s, t)
    ensures MidOk(StealAt(s, t, info), n)
  {
    SetRefKeys(s, t, Modified(s.nextMid));
  }

  lemma StealCopies(s: State, t: Slot, info: DatasetId)
    requires CopiesOk(s) && Stealable(s, t)
    ensures CopiesOk(StealAt(s, t, info))
  {
    SetRefKeys(s, t, Modified(s.nextMid));
  }

  lemma StealMids(s: State, t: Slot, info: DatasetId)
    requires MidsOk(s) && CopiesOk(s) && Stealable(s, t)
    ensures MidsOk(StealAt(s, t, info)) && CopiesOk(StealAt(s, t, info))
  {
    forall n: Mid ensures MidOk(StealAt(s, t, info), n) {
      assert MidOk(s, n) && MidOk(s, s.nextMid);
      StealMid(s, t, info, n);
    }
    StealCopies(s, t, info);
  }

  lemma StealPtrs(s: State, t: Slot, info: DatasetId)
    requires PtrsOk(s) && Stealable(s, t)
    requires forall m: Mid :: m in s.writtenBack ==> OnDisk(s.writtenBack[m]) != Resolve(s, RefAt(s, t))
    ensures PtrsOk(StealAt(s, t, info))
  {
    SetRefKeys(s, t, Modified(s.nextMid));
    var s' := StealAt(s, t, info);
    assert forall m: Mid :: m in s.writtenBack ==> IsObj(s', OnDisk(s.writtenBack[m]));
  }

  // --------------------------------------------------------------- whole steps

  lemma DirtyMidsAreOld(s: State, u: Slot)
    requires AllResolve(s) && MidsOk(s) && IsSlot(s, u) && !RefAt(s, u).Unmodified?
    ensures RefAt(s, u).mid < s.nextMid
  {
    assert RefOk(s, RefAt(s, u)) && MidOk(s, RefAt(s, u).mid);
  }

  lemma StealPossible(s: State, t: Slot, info: DatasetId)
    requires Inv(s) && Enabled(s, Steal(t, info))
    ensures Stealable(s, t)
    ensures forall m: Mid :: m in s.writtenBack ==> OnDisk(s.writtenBack[m]) != Resolve(s, RefAt(s, t))
  {
    var r := RefAt(s, t);
    assert RefOk(s, r) && MidOk(s, s.nextMid);
    if r.InWriteback? {
      assert MidOk(s, r.mid);
    }
    forall m: Mid | m in s.writtenBack
      ensures OnDisk(s.writtenBack[m]) != Resolve(s, r)
    {
      var u :| HoldsMid(s, u, m);
      assert MidOk(s, m) && RefOk(s, RefAt(s, u));
      if u != t {
        OnlyHolder(s, t, u);
      }
    }
  }

  lemma StepKeepsShape(s: State, step: Step)
    requires Inv(s) && Enabled(s, step) && !IsEdit(step)
    ensures !Panics(s, step) && KeepsShape(s, step)
  {
    NoPanic(s, step);
    match step {
      case FixOr(t) =>
        DirtyRefsAreWritable(s, t);
        FixOrShape(s, t);
      case Steal(t, info) =>
        StealPossible(s, t, info);
        forall u | IsSlot(s, u) && !RefAt(s, u).Unmodified? ensures RefAt(s, u).mid != s.nextMid {
          DirtyMidsAreOld(s, u);
        }
        StealShape(s, t, info);
      case WriteOut(m, p) =>
        WriteOutGraph(s, step);
        SameGraphShape(s, Next(s, step), Mem(0), RootSlot(|s.roots|));
      case Publish(m, evict) =>
        assert MidOk(s, m);
        if KeyInWriteback(m) in s.cache {
          PublishShape(s, m, evict);
        } else {
          PublishLostGraph(s, step);
          SameGraphShape(s, Next(s, step), Mem(m), RootSlot(|s.roots|));
        }
      case Fetch(_) =>
        CacheStepGraph(s, step);
        SameGraphShape(s, Next(s, step), Mem(0), RootSlot(|s.roots|));
      case EvictClean(_) =>
        CacheStepGraph(s, step);
        SameGraphShape(s, Next(s, step), Mem(0), RootSlot(|s.roots|));
      case BeginWriteback(_) =>
        CacheStepGraph(s, step);
        SameGraphShape(s, Next(s, step), Mem(0), RootSlot(|s.roots|));
    }
  }

  lemma WrittenBackAfter(s: State, step: Step)
    requires Enabled(s, step) && !IsEdit(step) && !Panics(s, step) && !step.FixOr? && !step.Steal?
    ensures var s' := Next(s, step);
            s'.writtenBack == if step.Publish? && KeyInWriteback(step.mid) in s.cache
                              then s.writtenBack[step.mid := s.written[step.mid]] else s.writtenBack
  {
  }

  lemma HolderBefore(s: State, step: Step, m: Mid) returns (t: Slot)
    requires Inv(s) && Enabled(s, step) && !IsEdit(step) && !Panics(s, step) && m in Next(s, step).writtenBack
    ensures HoldsMid(s, t, m)
  {
    match step {
      case FixOr(u) =>
        DirtyRefsAreWritable(s, u);
        FixOrFrame(s, u);
      case Steal(u, info) => StealFrame(s, u, info);
      case _ => WrittenBackAfter(s, step);
    }
    if m in s.writtenBack {
      t :| HoldsMid(s, t, m);
    } else {
      assert IsObj(s, Mem(m));
      t :| Denotes(s, t, Mem(m));
    }
  }

  /** The corrected slot still holds the id unless the entry was collected. */
  lemma HoleKeepsMid(s: State, t: Slot, m: Mid)
    requires Enabled(s, FixOr(t)) && !Panics(s, FixOr(t)) && Writable(s, t)
    requires m in Next(s, FixOr(t)).writtenBack && HoldsMid(s, t, m)
    ensures HoldsMid(Next(s, FixOr(t)), t, m)
  {
    var (s1, q) := Fixed(s, RefAt(s, t));
    FixOrFrame(s, t);
    SetRefSlot(s1, t, q, t);
  }

  lemma StolenIsNotWaiting(s: State, t: Slot, info: DatasetId, m: Mid)
    requires Inv(s) && Enabled(s, Steal(t, info)) && m in s.writtenBack
    ensures !HoldsMid(s, t, m)
  {
    StealPossible(s, t, info);
  }

  /** A pointer waiting in `written_back` keeps its holder through every step. */
  lemma StepKeepsAwaited(s: State, step: Step)
    requires Inv(s) && Enabled(s, step) && !IsEdit(step) && !Panics(s, step) && KeepsShape(s, step)
    ensures Awaited(Next(s, step))
  {
    var s', a, b, hole := Next(s, step), From(s, step), To(s, step), Hole(s, step);
    forall m: Mid | m in s'.writtenBack
      ensures exists t :: HoldsMid(s', t, m)
    {
      var t := HolderBefore(s, step, m);
      if t != hole {
        ShapeKeepsHolder(s, s', a, b, hole, t, m);
      } else if step.FixOr? {
        DirtyRefsAreWritable(s, t);
        HoleKeepsMid(s, t, m);
      } else {
        StealFrame(s, t, step.info);
        StolenIsNotWaiting(s, t, step.info, m);
        assert false;
      }
    }
  }

  lemma CacheSteps(s: State, step: Step)
    requires MidsOk(s) && CopiesOk(s) && PtrsOk(s) && Enabled(s, step)
    requires step.Fetch? || step.EvictClean? || step.BeginWriteback?
    ensures MidsOk(Next(s, step)) && CopiesOk(Next(s, step)) && PtrsOk(Next(s, step))
  {
    CacheStepMids(s, step);
    CacheStepCopies(s, step);
    CacheStepPtrs(s, step);
  }

  lemma StepKeepsInv(s: State, step: Step)
    requires Inv(s) && Enabled(s, step) && !IsEdit(step)
    ensures !Panics(s, step) && Inv(Next(s, step))
  {
    StepKeepsShape(s, step);
    ShapeKeepsForest(s, Next(s, step), From(s, step), To(s, step), Hole(s, step));
    StepKeepsAwaited(s, step);
    match step {
      case FixOr(t) =>
        DirtyRefsAreWritable(s, t);
        FixOrMids(s, t);
        FixOrPtrs(s, t);
      case Steal(t, info) =>
        StealPossible(s, t, info);
        StealMids(s, t, info);
        StealPtrs(s, t, info);
      case WriteOut(m, p) =>
        WriteOutMids(s, m, p);
        WriteOutPtrs(s, m, p);
      case Publish(m, evict) =>
        assert MidOk(s, m);
        PublishCopies(s, m, evict);
        PublishMids(s, m, evict);
        if KeyInWriteback(m) in s.cache {
          PublishPtrs(s, m, evict);
        } else {
          PublishLostPtrs(s, m, evict);
        }
      case Fetch(_) => CacheSteps(s, step);
      case EvictClean(_) => CacheSteps(s, step);
      case BeginWriteback(_) => CacheSteps(s, step);
    }
  }
}
