/** Every step of the data management unit keeps the shape of the forest. */
module DmuSteps {
  import opened DmuState
  import opened DmuForest

  /** The object whose location a step changes (any object when it changes none). */
  ghost function From(s: State, step: Step): Obj
    requires Enabled(s, step)
  {
    match step
    case Steal(t, _) => Resolve(s, RefAt(s, t))
    case Publish(m, _) => Mem(m)
    case _ => Mem(0)
  }

  ghost function To(s: State, step: Step): Obj
    requires Enabled(s, step)
  {
    match step
    case Steal(_, _) => Mem(s.nextMid)
    case Publish(m, _) => if KeyInWriteback(m) in s.cache then OnDisk(s.written[m]) else Mem(m)
    case _ => Mem(0)
  }

  /** The slot whose reference a step replaces (a slot that does not exist when it replaces none). */
  function Hole(s: State, step: Step): Slot {
    match step
    case Steal(t, _) => t
    case FixOr(t) => t
    case _ => RootSlot(|s.roots|)
  }

  ghost predicate KeepsShape(s: State, step: Step)
    requires Enabled(s, step) && !Panics(s, step)
  {
    SameShape(s, Next(s, step), From(s, step), To(s, step), Hole(s, step))
  }

  lemma NoPanic(s: State, step: Step)
    requires Inv(s) && Enabled(s, step)
    ensures !Panics(s, step)
  {
    if step.FixOr? {
      assert RefOk(s, RefAt(s, step.slot));
    } else if step.WriteOut? {
      assert MidOk(s, step.mid);
    }
  }

  /** Same objects in the same places, same resolution. */
  ghost predicate SameGraph(s: State, s': State) {
    && s'.roots == s.roots
    && (forall m: Mid :: ResolveMid(s', m) == ResolveMid(s, m))
    && (forall o :: IsObj(s', o) == IsObj(s, o))
    && (forall o :: IsObj(s, o) ==> Body(s', o) == Body(s, o))
    && (forall m: Mid :: KeyModified(m) in s'.cache ==> KeyModified(m) in s.cache)
  }

  lemma SameGraphShape(s: State, s': State, o: Obj, hole: Slot)
    requires AllResolve(s) && SameGraph(s, s')
    ensures SameShape(s, s', o, o, hole)
  {
    forall t | IsSlot(s, t)
      ensures SlotKept(s, s', o, o, t, hole)
    {
      assert RefOk(s, RefAt(s, t));
    }
  }

  lemma CacheStepGraph(s: State, step: Step)
    requires MidsOk(s) && Enabled(s, step)
    requires step.Fetch? || step.EvictClean? || step.BeginWriteback?
    ensures SameGraph(s, Next(s, step))
  {
  }

  lemma AddValue(w: map<Mid, Ptr>, m: Mid, p: Ptr)
    requires m !in w
    ensures w[m := p].Values == w.Values + {p}
  {
    var w' := w[m := p];
    forall q | q in w.Values + {p}
      ensures q in w'.Values
    {
      if q == p {
        assert w'[m] == q;
      } else {
        var n :| n in w && w[n] == q;
        assert w'[n] == q;
      }
    }
  }

  lemma DropValue(w: map<Mid, Ptr>, m: Mid)
    requires m in w
    requires forall i: Mid, j: Mid :: i in w && j in w && w[i] == w[j] ==> i == j
    ensures (w - {m}).Values == w.Values - {w[m]}
  {
    var w' := w - {m};
    forall q | q in w.Values - {w[m]}
      ensures q in w'.Values
    {
      var n :| n in w && w[n] == q;
      assert w'[n] == q;
    }
  }

  lemma WriteOutGraph(s: State, step: Step)
    requires MidsOk(s) && Enabled(s, step) && !Panics(s, step) && step.WriteOut?
    ensures SameGraph(s, Next(s, step))
  {
    assert MidOk(s, step.mid);
    AddValue(s.written, step.mid, step.ptr);
    var s' := Next(s, step);
    assert s'.written.Values == s.written.Values + {step.ptr};
    assert s'.cache == s.cache && s'.writtenBack == s.writtenBack && s'.released == s.released;
    forall o
      ensures IsObj(s', o) == IsObj(s, o)
      ensures IsObj(s, o) ==> Body(s', o) == Body(s, o)
    {
    }
  }

  lemma PublishLostGraph(s: State, step: Step)
    requires PtrsOk(s) && Enabled(s, step) && step.Publish?
    requires KeyInWriteback(step.mid) !in s.cache
    ensures SameGraph(s, Next(s, step))
  {
    DropValue(s.written, step.mid);
    var s' := Next(s, step);
    assert s'.written.Values == s.written.Values - {s.written[step.mid]};
    assert s'.cache == s.cache && s'.writtenBack == s.writtenBack && s'.disk == s.disk;
  }

  /** What publishing a write-back relies on. */
  ghost predicate Publishable(s: State, m: Mid) {
    && m in s.written && Injective(s.written) && m !in s.writtenBack
    && KeyInWriteback(m) in s.cache && KeyModified(m) !in s.cache
    && s.written[m] in s.disk && s.written[m] !in s.released
    && s.cache[KeyInWriteback(m)] == s.disk[s.written[m]]
  }

  lemma PublishObjects(s: State, m: Mid, evict: bool)
    requires Publishable(s, m)
    ensures var s', a, b := Next(s, Publish(m, evict)), Mem(m), OnDisk(s.written[m]);
            && SameObjects(s, s', a, b)
            && (forall o :: IsObj(s, o) ==> Body(s', Moved(o, a, b)) == Body(s, o))
  {
    DropValue(s.written, m);
    var s' := Next(s, Publish(m, evict));
    assert s'.written.Values == s.written.Values - {s.written[m]};
    assert s.written[m] in s.written.Values;
    forall o
      ensures IsObj(s', o) <==> if o == OnDisk(s.written[m]) then true else o != Mem(m) && IsObj(s, o)
    {
    }
    forall o | IsObj(s, o)
      ensures Body(s', Moved(o, Mem(m), OnDisk(s.written[m]))) == Body(s, o)
    {
    }
  }

  lemma PublishShape(s: State, m: Mid, evict: bool)
    requires Publishable(s, m) && AllResolve(s)
    ensures KeepsShape(s, Publish(m, evict))
  {
    var a, b := Mem(m), OnDisk(s.written[m]);
    var s' := Next(s, Publish(m, evict));
    PublishObjects(s, m, evict);
    assert !IsObj(s, b);
    forall t | IsSlot(s, t)
      ensures SlotKept(s, s', a, b, t, RootSlot(|s.roots|))
    {
      assert RefOk(s, RefAt(s, t));
      assert RefAt(s', MovedSlot(t, a, b)) == RefAt(s, t);
    }
  }

  /** Only roots and nodes under their modified key hold references that are not clean. */
  lemma DirtyRefsAreWritable(s: State, t: Slot)
    requires MidsOk(s) && CopiesOk(s) && IsSlot(s, t) && !RefAt(s, t).Unmodified?
    ensures Writable(s, t)
  {
    if t.ChildSlot? && t.parent.Mem? {
      assert MidOk(s, t.parent.mid);
    }
  }

  /** Replacing the reference in a writable slot changes that slot and nothing else. */
  lemma SetRefKeys(s: State, t: Slot, r: ObjRef)
    requires IsSlot(s, t) && Writable(s, t)
    ensures var s' := SetRef(s, t, r);
            && |s'.roots| == |s.roots| && s'.cache.Keys == s.cache.Keys
            && s' == s.(cache := s'.cache, roots := s'.roots)
            && (forall k :: k in s.cache && (t.RootSlot? || k != KeyModified(t.parent.mid)) ==>
                  s'.cache[k] == s.cache[k])
  {
  }

  lemma FixOrFrame(s: State, t: Slot)
    requires Enabled(s, FixOr(t)) && !Panics(s, FixOr(t)) && Writable(s, t)
    ensures var (s1, q) := Fixed(s, RefAt(s, t));
            IsSlot(s1, t) && Writable(s1, t) && Next(s, FixOr(t)) == SetRef(s1, t, q)
    ensures Next(s, FixOr(t)).writtenBack == Fixed(s, RefAt(s, t)).0.writtenBack
  {
    var (s1, q) := Fixed(s, RefAt(s, t));
    assert IsSlot(s1, t);
    SetRefKeys(s1, t, q);
  }

  lemma SetRefResolve(s: State, t: Slot, r: ObjRef, q: ObjRef)
    requires IsSlot(s, t) && Writable(s, t)
    ensures Resolve(SetRef(s, t, r), q) == Resolve(s, q)
  {
    SetRefKeys(s, t, r);
  }

  lemma SetRefObj(s: State, t: Slot, r: ObjRef, o: Obj)
    requires IsSlot(s, t) && Writable(s, t)
    ensures var s' := SetRef(s, t, r);
            && IsObj(s', o) == IsObj(s, o)
            && (IsObj(s, o) ==>
                  Body(s', o).payload == Body(s, o).payload && |Body(s', o).children| == |Body(s, o).children|)
  {
    SetRefKeys(s, t, r);
  }

  lemma SetRefSlot(s: State, t: Slot, r: ObjRef, u: Slot)
    requires IsSlot(s, t) && Writable(s, t)
    ensures var s' := SetRef(s, t, r);
            && IsSlot(s', u) == IsSlot(s, u)
            && (IsSlot(s, u) ==> RefAt(s', u) == if u == t then r else RefAt(s, u))
  {
    SetRefKeys(s, t, r);
    if u.ChildSlot? {
      SetRefObj(s, t, r, u.parent);
    }
  }

  lemma OnlyHolder(s: State, t: Slot, u: Slot)
    requires NoSharing(s) && IsSlot(s, t) && IsSlot(s, u) && t != u
    ensures Resolve(s, RefAt(s, t)) != Resolve(s, RefAt(s, u))
  {
    if Resolve(s, RefAt(s, t)) == Resolve(s, RefAt(s, u)) {
      assert Denotes(s, t, Resolve(s, RefAt(s, t))) && Denotes(s, u, Resolve(s, RefAt(s, t)));
      assert false;
    }
  }

  lemma FixedGraph(s: State, r: ObjRef)
    requires r.Modified? || (r.InWriteback? && r.mid in s.writtenBack)
    ensures var s1 := Fixed(s, r).0;
            && (forall o :: IsObj(s1, o) == IsObj(s, o))
            && (forall o :: IsObj(s, o) ==> Body(s1, o) == Body(s, o))
            && (forall q: ObjRef :: (q.Unmodified? || q.mid != r.mid) ==> Resolve(s1, q) == Resolve(s, q))
  {
  }

  lemma FixOrSlot(s: State, t: Slot, u: Slot)
    requires AllResolve(s) && NoSharing(s) && Enabled(s, FixOr(t)) && Writable(s, t)
    requires RefAt(s, t).InWriteback? ==> RefAt(s, t).mid in s.writtenBack
    requires IsSlot(s, u)
    ensures var s' := Next(s, FixOr(t));
            && IsSlot(s', u)
            && (u != t ==> RefAt(s', u) == RefAt(s, u))
            && Resolve(s', RefAt(s', u)) == Resolve(s, RefAt(s, u))
            && (RefAt(s', u).InWriteback? ==> KeyModified(RefAt(s', u).mid) !in s'.cache)
  {
    var r := RefAt(s, t);
    var (s1, q) := Fixed(s, r);
    FixedGraph(s, r);
    assert IsSlot(s1, t) && IsSlot(s1, u);
    SetRefKeys(s1, t, q);
    SetRefSlot(s1, t, q, u);
    assert RefOk(s, r) && RefOk(s, RefAt(s, u));
    if u != t {
      OnlyHolder(s, t, u);
      SetRefResolve(s1, t, q, RefAt(s, u));
    } else {
      SetRefResolve(s1, t, q, q);
    }
  }

  lemma FixOrObj(s: State, t: Slot, o: Obj)
    requires Enabled(s, FixOr(t)) && !Panics(s, FixOr(t)) && Writable(s, t)
    ensures var s' := Next(s, FixOr(t));
            && |s'.roots| == |s.roots|
            && IsObj(s', o) == IsObj(s, o)
            && (IsObj(s, o) ==>
                  Body(s', o).payload == Body(s, o).payload && |Body(s', o).children| == |Body(s, o).children|)
  {
    var (s1, q) := Fixed(s, RefAt(s, t));
    FixOrFrame(s, t);
    SetRefKeys(s1, t, q);
    SetRefObj(s1, t, q, o);
  }

  lemma FixOrObjects(s: State, t: Slot)
    requires Enabled(s, FixOr(t)) && !Panics(s, FixOr(t)) && Writable(s, t)
    ensures SameObjects(s, Next(s, FixOr(t)), Mem(0), Mem(0))
  {
    var s' := Next(s, FixOr(t));
    FixOrObj(s, t, Mem(0));
    forall o
      ensures IsObj(s', o) == IsObj(s, o)
      ensures IsObj(s, o) ==>
                Body(s', o).payload == Body(s, o).payload && |Body(s', o).children| == |Body(s, o).children|
    {
      FixOrObj(s, t, o);
    }
  }

  lemma FixOrShape(s: State, t: Slot)
    requires AllResolve(s) && NoSharing(s) && Enabled(s, FixOr(t)) && Writable(s, t)
    requires RefAt(s, t).InWriteback? ==> RefAt(s, t).mid in s.writtenBack
    ensures KeepsShape(s, FixOr(t))
  {
    var s' := Next(s, FixOr(t));
    FixOrObjects(s, t);
    forall u | IsSlot(s, u)
      ensures SlotKept(s, s', Mem(0), Mem(0), u, t)
    {
      FixOrSlot(s, t, u);
    }
  }

  /** What stealing relies on. */
  ghost predicate Stealable(s: State, t: Slot) {
    && IsSlot(s, t) && Writable(s, t)
    && !InMemory(s, s.nextMid) && s.nextMid !in s.writtenBack
    && var r := RefAt(s, t);
    && r.AsKey() in s.cache
    && match r
       case Unmodified(p) => IsObj(s, OnDisk(p)) && s.cache[KeyUnmodified(p)] == s.disk[p]
       case Modified(_) => false
       case InWriteback(m) => KeyModified(m) !in s.cache && m !in s.writtenBack
  }

  lemma StealThere(s: State, t: Slot, info: DatasetId, o: Obj)
    requires Stealable(s, t)
    ensures var s', a, b := StealAt(s, t, info), Resolve(s, RefAt(s, t)), Mem(s.nextMid);
            && IsObj(s, a) && !IsObj(s, b) && |s'.roots| == |s.roots|
            && (IsObj(s', o) <==> if o == b then true else o != a && IsObj(s, o))
  {
    SetRefKeys(s, t, Modified(s.nextMid));
  }

  lemma StealObj(s: State, t: Slot, info: DatasetId, o: Obj)
    requires Stealable(s, t)
    ensures var s', a, b := StealAt(s, t, info), Resolve(s, RefAt(s, t)), Mem(s.nextMid);
            && IsObj(s, a) && !IsObj(s, b) && |s'.roots| == |s.roots|
            && (IsObj(s', o) <==> if o == b then true else o != a && IsObj(s, o))
            && (IsObj(s, o) ==>
                  && IsObj(s', Moved(o, a, b))
                  && IsObj(SetRef(s, t, Modified(s.nextMid)), o)
                  && Body(s', Moved(o, a, b)) == Body(SetRef(s, t, Modified(s.nextMid)), o))
  {
    StealThere(s, t, info, o);
    StealThere(s, t, info, Mem(s.nextMid));
    SetRefKeys(s, t, Modified(s.nextMid));
    SetRefObj(s, t, Modified(s.nextMid), o);
  }

  lemma StealFrame(s: State, t: Slot, info: DatasetId)
    requires IsSlot(s, t) && Writable(s, t) && RefAt(s, t).AsKey() in s.cache
    ensures var s' := StealAt(s, t, info);
            && s'.writtenBack == s.writtenBack && s'.disk == s.disk
            && s'.packing == s.packing && s'.written == s.written
  {
    SetRefKeys(s, t, Modified(s.nextMid));
  }

  lemma StealSlot(s: State, t: Slot, info: DatasetId, u: Slot)
    requires Stealable(s, t) && IsSlot(s, u)
    ensures var s', u' := StealAt(s, t, info), MovedSlot(u, Resolve(s, RefAt(s, t)), Mem(s.nextMid));
            && IsSlot(s', u') && RefAt(s', u') == if u == t then Modified(s.nextMid) else RefAt(s, u)
  {
    SetRefSlot(s, t, Modified(s.nextMid), u);
    if u.ChildSlot? {
      StealObj(s, t, info, u.parent);
    } else {
      StealObj(s, t, info, Mem(0));
    }
  }

  lemma StealResolve(s: State, t: Slot, info: DatasetId, q: ObjRef)
    requires Stealable(s, t)
    requires q.Unmodified? || q.mid != s.nextMid
    requires Resolve(s, q) != Resolve(s, RefAt(s, t))
    ensures Resolve(StealAt(s, t, info), q) == Resolve(s, q)
    ensures q.InWriteback? ==> (KeyModified(q.mid) in StealAt(s, t, info).cache ==> KeyModified(q.mid) in s.cache)
  {
    SetRefKeys(s, t, Modified(s.nextMid));
  }

  lemma StealShape(s: State, t: Slot, info: DatasetId)
    requires AllResolve(s) && NoSharing(s) && Stealable(s, t)
    requires forall u :: IsSlot(s, u) && !RefAt(s, u).Unmodified? ==> RefAt(s, u).mid != s.nextMid
    ensures Enabled(s, Steal(t, info)) && KeepsShape(s, Steal(t, info))
  {
    var s', a, b := StealAt(s, t, info), Resolve(s, RefAt(s, t)), Mem(s.nextMid);
    StealObj(s, t, info, a);
    assert SameObjects(s, s', a, b) by {
      forall o
        ensures IsObj(s', o) <==> if o == b then IsObj(s, a) else o != a && IsObj(s, o)
        ensures IsObj(s, o) ==>
                  && Body(s', Moved(o, a, b)).payload == Body(s, o).payload
                  && |Body(s', Moved(o, a, b)).children| == |Body(s, o).children|
      {
        StealObj(s, t, info, o);
        SetRefObj(s, t, Modified(s.nextMid), o);
      }
    }
    forall u | IsSlot(s, u)
      ensures SlotKept(s, s', a, b, u, t)
    {
      StealSlot(s, t, info, u);
      if u != t {
        assert RefOk(s, RefAt(s, u));
        OnlyHolder(s, t, u);
        StealResolve(s, t, info, RefAt(s, u));
      } else {
        StealObj(s, t, info, b);
      }
    }
  }
}
