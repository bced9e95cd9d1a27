/** What the edits of the tree layer do to the trees that can be read, and what a modified id is
    worth over its whole life. */
module DmuViews {
  import opened DmuState
  import opened DmuForest
  import opened DmuSteps
  import opened DmuInvariant
  import opened DmuEdits
  import opened DmuTheorems

  /** What is read through each of the references. */
  ghost function Views(s: State, refs: seq<ObjRef>, depth: nat): (trees: seq<Tree>)
    ensures |trees| == |refs| && forall i :: 0 <= i < |refs| ==> trees[i] == View(s, refs[i], depth)
  {
    seq(|refs|, i requires 0 <= i < |refs| => View(s, refs[i], depth))
  }

  lemma ViewOf(s: State, r: ObjRef, depth: nat)
    requires IsObj(s, Resolve(s, r))
    ensures var n := Body(s, Resolve(s, r)); View(s, r, depth + 1) == Tree(n.payload, Views(s, n.children, depth))
  {
    var n := Body(s, Resolve(s, r));
    assert View(s, r, depth + 1).children == Views(s, n.children, depth);
  }

  lemma SameViewsOf(s: State, s': State, refs: seq<ObjRef>, depth: nat)
    requires forall i :: 0 <= i < |refs| ==> View(s', refs[i], depth) == View(s, refs[i], depth)
    ensures Views(s', refs, depth) == Views(s, refs, depth)
  {
  }

  /** The reference in a slot of s denotes the same object, with the same body, in s0. */
  ghost predicate ReadsSame(s0: State, s: State, t: Slot)
    requires IsSlot(s, t)
  {
    var o := Resolve(s, RefAt(s, t));
    Resolve(s0, RefAt(s, t)) == o && IsObj(s, o) && IsObj(s0, o) && Body(s0, o) == Body(s, o)
  }

  ghost predicate AllReadSame(s0: State, s: State) {
    forall t :: IsSlot(s, t) ==> ReadsSame(s0, s, t)
  }

  lemma {:induction false} SameSlotsSameView(s0: State, s: State, t: Slot, depth: nat)
    requires AllReadSame(s0, s) && IsSlot(s, t)
    ensures View(s0, RefAt(s, t), depth) == View(s, RefAt(s, t), depth)
    decreases depth
  {
    assert ReadsSame(s0, s, t);
    if depth > 0 {
      var r := RefAt(s, t);
      var n := Body(s, Resolve(s, r));
      forall i | 0 <= i < |n.children|
        ensures View(s0, n.children[i], depth - 1) == View(s, n.children[i], depth - 1)
      {
        SameSlotsSameView(s0, s, ChildSlot(Resolve(s, r), i), depth - 1);
      }
      SameView(s, r, s0, r, depth);
    }
  }

  // ------------------------------------------------------------------- inserting

  lemma InsertKeepsSlot(s: State, payload: Payload, info: DatasetId, held: nat, t: Slot)
    requires AllResolve(s) && MidsOk(s) && held <= |s.roots| && IsSlot(s, t)
    ensures ReadsSame(Next(s, Insert(payload, info, held)), s, t)
  {
    var r := RefAt(s, t);
    assert RefOk(s, r) && MidOk(s, s.nextMid);
    if !r.Unmodified? {
      DirtyMidsAreOld(s, t);
    }
  }

  lemma InsertKeepsSlots(s: State, payload: Payload, info: DatasetId, held: nat)
    requires AllResolve(s) && MidsOk(s) && held <= |s.roots|
    ensures AllReadSame(Next(s, Insert(payload, info, held)), s)
  {
    forall t | IsSlot(s, t) ensures ReadsSame(Next(s, Insert(payload, info, held)), s, t) {
      InsertKeepsSlot(s, payload, info, held, t);
    }
  }

  /** The last root reads as the payload over the trees that were the last `held` roots, in their
      order; all other roots read as before. */
  ghost predicate ShowsInsert(s: State, s': State, payload: Payload, held: nat, depth: nat)
    requires held <= |s.roots|
  {
    var rest := |s.roots| - held;
    && |s'.roots| == rest + 1
    && (forall i :: 0 <= i < rest ==> View(s', s'.roots[i], depth) == View(s, s.roots[i], depth))
    && View(s', s'.roots[rest], depth + 1) == Tree(payload, Views(s, s.roots[rest..], depth))
  }

  lemma InsertView(s: State, payload: Payload, info: DatasetId, held: nat, depth: nat)
    requires Inv(s) && held <= |s.roots|
    ensures ShowsInsert(s, Next(s, Insert(payload, info, held)), payload, held, depth)
  {
    var s', rest := Next(s, Insert(payload, info, held)), |s.roots| - held;
    InsertKeepsSlots(s, payload, info, held);
    forall i: nat | i < |s.roots| ensures View(s', s.roots[i], depth) == View(s, s.roots[i], depth) {
      SameSlotsSameView(s', s, RootSlot(i), depth);
    }
    assert MidOk(s, s.nextMid);
    ViewOf(s', s'.roots[rest], depth);
    SameViewsOf(s, s', s.roots[rest..], depth);
  }

  // ---------------------------------------------------------- moving a tree, removing

  /** Only the node under one modified key and the roots differ. */
  ghost predicate NodeDiffers(s: State, s': State, m: Mid) {
    && KeyModified(m) in s.cache && s'.cache.Keys == s.cache.Keys
    && (forall k :: k in s.cache && k != KeyModified(m) ==> s'.cache[k] == s.cache[k])
    && s' == s.(cache := s'.cache, roots := s'.roots)
  }

  lemma OtherBody(s: State, s': State, m: Mid, r: ObjRef)
    requires NodeDiffers(s, s', m) && KeyInWriteback(m) !in s.cache
    ensures Resolve(s', r) == Resolve(s, r) && IsObj(s', Resolve(s, r)) == IsObj(s, Resolve(s, r))
    ensures IsObj(s, Resolve(s, r)) && Resolve(s, r) != Mem(m) ==>
              Body(s', Resolve(s, r)) == Body(s, Resolve(s, r))
  {
  }

  /** A tree that does not contain the edited node reads as before. */
  lemma {:induction false} Untouched(s: State, s': State, m: Mid, r: ObjRef, depth: nat)
    requires NodeDiffers(s, s', m) && KeyInWriteback(m) !in s.cache && !Reaches(s, Resolve(s, r), Mem(m), depth)
    ensures View(s', r, depth) == View(s, r, depth)
    decreases depth
  {
    OtherBody(s, s', m, r);
    if depth > 0 && IsObj(s, Resolve(s, r)) {
      var n := Body(s, Resolve(s, r));
      forall i | 0 <= i < |n.children|
        ensures View(s', n.children[i], depth - 1) == View(s, n.children[i], depth - 1)
      {
        Untouched(s, s', m, n.children[i], depth - 1);
      }
      SameView(s, r, s', r, depth);
    }
  }

  lemma {:induction false} ReachesFalls(s: State, grade: Obj -> nat, o: Obj, x: Obj, depth: nat)
    requires Graded(s, grade) && Reaches(s, o, x, depth)
    ensures o == x || grade(x) < grade(o)
    decreases depth
  {
    if o != x {
      var i :| 0 <= i < |Body(s, o).children| && Reaches(s, Resolve(s, Body(s, o).children[i]), x, depth - 1);
      ReachesFalls(s, grade, Resolve(s, Body(s, o).children[i]), x, depth - 1);
      assert IsSlot(s, ChildSlot(o, i));
    }
  }

  lemma ChildrenAreBelow(s: State, m: Mid, depth: nat)
    requires Inv(s) && KeyModified(m) in s.cache
    ensures forall c :: c in s.cache[KeyModified(m)].children ==> !Reaches(s, Resolve(s, c), Mem(m), depth)
  {
    var grade :| Graded(s, grade);
    var children := s.cache[KeyModified(m)].children;
    forall c | c in children
      ensures !Reaches(s, Resolve(s, c), Mem(m), depth)
    {
      var i :| 0 <= i < |children| && children[i] == c;
      assert IsSlot(s, ChildSlot(Mem(m), i));
      if Reaches(s, Resolve(s, c), Mem(m), depth) {
        ReachesFalls(s, grade, Resolve(s, c), Mem(m), depth);
      }
    }
  }

  lemma UntouchedAll(s: State, s': State, m: Mid, refs: seq<ObjRef>, depth: nat)
    requires NodeDiffers(s, s', m) && KeyInWriteback(m) !in s.cache
    requires forall c :: c in refs ==> !Reaches(s, Resolve(s, c), Mem(m), depth)
    ensures Views(s', refs, depth) == Views(s, refs, depth)
  {
    forall i | 0 <= i < |refs| ensures View(s', refs[i], depth) == View(s, refs[i], depth) {
      Untouched(s, s', m, refs[i], depth);
    }
  }

  /** The node loses exactly the tree that becomes the last root; trees without the node stay. */
  lemma TakeChildView(s: State, m: Mid, i: nat, depth: nat)
    requires Inv(s) && Enabled(s, TakeChild(m, i))
    ensures var s', n := Next(s, TakeChild(m, i)), s.cache[KeyModified(m)];
            && |s'.roots| == |s.roots| + 1
            && View(s', s'.roots[|s.roots|], depth) == View(s, n.children[i], depth)
            && View(s', Modified(m), depth + 1)
               == Tree(n.payload, Views(s, n.children[..i], depth) + Views(s, n.children[i + 1..], depth))
            && forall k :: 0 <= k < |s.roots| && !Reaches(s, Resolve(s, s.roots[k]), Mem(m), depth) ==>
                 View(s', s'.roots[k], depth) == View(s, s.roots[k], depth)
  {
    var s', n := Next(s, TakeChild(m, i)), s.cache[KeyModified(m)];
    assert MidOk(s, m);
    ChildrenAreBelow(s, m, depth);
    Untouched(s, s', m, n.children[i], depth);
    var rest := n.children[..i] + n.children[i + 1..];
    UntouchedAll(s, s', m, rest, depth);
    ViewOf(s', Modified(m), depth);
    assert Views(s, rest, depth) == Views(s, n.children[..i], depth) + Views(s, n.children[i + 1..], depth);
    forall k: nat | k < |s.roots| && !Reaches(s, Resolve(s, s.roots[k]), Mem(m), depth)
      ensures View(s', s'.roots[k], depth) == View(s, s.roots[k], depth)
    {
      Untouched(s, s', m, s.roots[k], depth);
    }
  }

  /** The node gains exactly the tree that was root k, at the place asked for. */
  lemma PutChildView(s: State, m: Mid, i: nat, k: nat, depth: nat)
    requires Inv(s) && Enabled(s, PutChild(m, i, k))
    ensures var s', n := Next(s, PutChild(m, i, k)), s.cache[KeyModified(m)];
            && s'.roots == s.roots[..k] + s.roots[k + 1..]
            && View(s', Modified(m), depth + 1)
               == Tree(n.payload, Views(s, n.children[..i], depth) + [View(s, s.roots[k], depth)]
                                  + Views(s, n.children[i..], depth))
            && forall j :: 0 <= j < |s'.roots| && !Reaches(s, Resolve(s, s'.roots[j]), Mem(m), depth) ==>
                 View(s', s'.roots[j], depth) == View(s, s'.roots[j], depth)
  {
    var s', n := Next(s, PutChild(m, i, k)), s.cache[KeyModified(m)];
    assert MidOk(s, m);
    ChildrenAreBelow(s, m, depth);
    var all := n.children[..i] + [s.roots[k]] + n.children[i..];
    assert !Reaches(s, Resolve(s, s.roots[k]), Mem(m), depth);
    UntouchedAll(s, s', m, all, depth);
    ViewOf(s', Modified(m), depth);
    assert Views(s, all, depth)
        == Views(s, n.children[..i], depth) + [View(s, s.roots[k], depth)] + Views(s, n.children[i..], depth);
    forall j: nat | j < |s'.roots| && !Reaches(s, Resolve(s, s'.roots[j]), Mem(m), depth)
      ensures View(s', s'.roots[j], depth) == View(s, s'.roots[j], depth)
    {
      Untouched(s, s', m, s'.roots[j], depth);
    }
  }

  lemma RemovedBody(s: State, o: Obj)
    requires Inv(s) && Enabled(s, Remove) && IsObj(Next(s, Remove), o)
    ensures IsObj(s, o) && Body(Next(s, Remove), o) == Body(s, o)
  {
    var r := RefAt(s, RootSlot(|s.roots| - 1));
    assert RefOk(s, r);
    assert !r.Unmodified? ==> MidOk(s, r.mid);
    RemoveObj(s, o);
  }

  lemma RemoveKeepsSlot(s: State, t: Slot)
    requires Inv(s) && Enabled(s, Remove) && IsSlot(Next(s, Remove), t)
    ensures ReadsSame(s, Next(s, Remove), t)
  {
    var s' := Next(s, Remove);
    EditKeepsInv(s, Remove);
    assert RefOk(s', RefAt(s', t));
    RemoveSlot(s, t);
    RemovedBody(s, Resolve(s', RefAt(s', t)));
  }

  lemma RemoveKeepsSlots(s: State)
    requires Inv(s) && Enabled(s, Remove)
    ensures AllReadSame(s, Next(s, Remove))
  {
    forall t | IsSlot(Next(s, Remove), t) ensures ReadsSame(s, Next(s, Remove), t) {
      RemoveKeepsSlot(s, t);
    }
  }

  lemma RemovedIsGone(s: State)
    requires Inv(s) && Enabled(s, Remove)
    ensures Next(s, Remove).roots == s.roots[..|s.roots| - 1]
    ensures !IsObj(Next(s, Remove), Resolve(s, s.roots[|s.roots| - 1]))
  {
    var r := RefAt(s, RootSlot(|s.roots| - 1));
    assert RefOk(s, r);
    assert !r.Unmodified? ==> MidOk(s, r.mid);
    RemoveObj(s, Resolve(s, r));
  }

  /** Removing an object ends its root and nothing else. */
  lemma RemoveView(s: State, i: nat, depth: nat)
    requires Inv(s) && Enabled(s, Remove) && i + 1 < |s.roots|
    ensures var s' := Next(s, Remove);
            && |s'.roots| == |s.roots| - 1 && !IsObj(s', Resolve(s, s.roots[|s.roots| - 1]))
            && View(s', s'.roots[i], depth) == View(s, s.roots[i], depth)
  {
    RemovedIsGone(s);
    RemoveKeepsSlots(s);
    SameSlotsSameView(s, Next(s, Remove), RootSlot(i), depth);
  }

  lemma PutBack(cache: map<ObjectKey, Node>, k: ObjectKey, n: Node)
    requires k in cache && cache[k] == n
    ensures (cache - {k})[k := n] == cache
  {
  }

  /** Evicting a clean object loses nothing: reading it again restores the state. */
  lemma EvictThenFetch(s: State, p: Ptr)
    requires CopiesOk(s) && Enabled(s, EvictClean(p))
    ensures Enabled(Next(s, EvictClean(p)), Fetch(p)) && Next(Next(s, EvictClean(p)), Fetch(p)) == s
  {
    PutBack(s.cache, KeyUnmodified(p), s.disk[p]);
  }

  // ------------------------------------------------------------- the owner of an id

  /** The dataset for which the object was modified, as long as its id is in use. */
  ghost predicate OwnedBy(s: State, m: Mid, info: DatasetId) {
    m < s.nextMid && (m in s.modifiedInfo ==> s.modifiedInfo[m] == info)
  }

  lemma SetRefFrame(s: State, t: Slot, r: ObjRef)
    requires IsSlot(s, t)
    ensures SetRef(s, t, r).modifiedInfo == s.modifiedInfo && SetRef(s, t, r).nextMid == s.nextMid
  {
  }

  lemma StealKeepsOwner(s: State, t: Slot, info: DatasetId, m: Mid, owner: DatasetId)
    requires IsSlot(s, t) && RefAt(s, t).AsKey() in s.cache && OwnedBy(s, m, owner)
    ensures OwnedBy(StealAt(s, t, info), m, owner)
  {
    SetRefFrame(s, t, Modified(s.nextMid));
  }

  lemma StepKeepsOwner(s: State, step: Step, m: Mid, info: DatasetId)
    requires Enabled(s, step) && !Panics(s, step) && OwnedBy(s, m, info)
    ensures OwnedBy(Next(s, step), m, info)
  {
    match step {
      case Steal(t, thief) => StealKeepsOwner(s, t, thief, m, info);
      case FixOr(t) =>
        var (s1, q) := Fixed(s, RefAt(s, t));
        SetRefFrame(s1, t, q);
      case _ =>
    }
  }

  lemma {:induction false} RunKeepsOwner(s: State, steps: seq<Step>, m: Mid, info: DatasetId)
    requires Inv(s) && Exec(s, steps).Reached? && OwnedBy(s, m, info)
    ensures OwnedBy(Exec(s, steps).state, m, info)
    decreases |steps|
  {
    if steps != [] {
      AnyStepKeepsInv(s, steps[0]);
      StepKeepsOwner(s, steps[0], m, info);
      RunKeepsOwner(Next(s, steps[0]), steps[1..], m, info);
    }
  }

  /** The write-back of an object finds the dataset that inserted or stole it, whatever happened
      in between. */
  lemma OwnerIsKnown(s: State, first: Step, info: DatasetId, steps: seq<Step>)
    requires Inv(s) && Enabled(s, first) && Exec(s, [first] + steps).Reached?
    requires (first.Insert? || first.Steal?) && first.info == info
    ensures var s' := Exec(s, [first] + steps).state;
            KeyModified(s.nextMid) in s'.cache || s.nextMid in s'.packing ==>
              s.nextMid in s'.modifiedInfo && s'.modifiedInfo[s.nextMid] == info
  {
    assert ([first] + steps)[1..] == steps;
    AnyStepKeepsInv(s, first);
    RunsAreSafe(Next(s, first), steps);
    RunKeepsOwner(Next(s, first), steps, s.nextMid, info);
    assert MidOk(Exec(s, [first] + steps).state, s.nextMid);
  }
}
