/** What holds over whole runs of the data management unit. */
module DmuTheorems {
  import opened DmuState
  import opened DmuForest
  import opened DmuSteps
  import opened DmuInvariant
  import opened DmuEdits

  datatype Outcome = Reached(state: State) | Panicked | Blocked

  /** Executes the steps in order; a step whose guard is false blocks, a failing `unwrap` panics. */
  ghost function Exec(s: State, steps: seq<Step>): Outcome
    decreases |steps|
  {
    if steps == [] then Reached(s)
    else if !Enabled(s, steps[0]) then Blocked
    else if Panics(s, steps[0]) then Panicked
    else Exec(Next(s, steps[0]), steps[1..])
  }

  const Empty: State := State(map[], map[], map[], 1, map[], map[], map[], multiset{}, [])

  lemma EmptyInv()
    ensures Inv(Empty)
  {
    assert Graded(Empty, _ => 0);
  }

  lemma AnyStepKeepsInv(s: State, step: Step)
    requires Inv(s) && Enabled(s, step)
    ensures !Panics(s, step) && Inv(Next(s, step))
  {
    if IsEdit(step) {
      EditKeepsInv(s, step);
    } else {
      StepKeepsInv(s, step);
    }
  }

  /** No interleaving of steps reaches a failing `unwrap`, and the invariant holds throughout. */
  lemma {:induction false} RunsAreSafe(s: State, steps: seq<Step>)
    requires Inv(s)
    ensures Exec(s, steps) != Panicked
    ensures Exec(s, steps).Reached? ==> Inv(Exec(s, steps).state)
    decreases |steps|
  {
    if steps != [] && Enabled(s, steps[0]) {
      AnyStepKeepsInv(s, steps[0]);
      RunsAreSafe(Next(s, steps[0]), steps[1..]);
    }
  }

  // ------------------------------------------------------------ no lost updates

  lemma StepKeepsRootViews(s: State, step: Step, i: nat, depth: nat)
    requires Inv(s) && Enabled(s, step) && !IsEdit(step) && i < |s.roots|
    ensures !Panics(s, step) && |Next(s, step).roots| == |s.roots|
    ensures View(Next(s, step), Next(s, step).roots[i], depth) == View(s, s.roots[i], depth)
  {
    StepKeepsShape(s, step);
    ShapeKeepsView(s, Next(s, step), From(s, step), To(s, step), Hole(s, step), RootSlot(i), depth);
  }

  /** Eviction, write-back, fetch, `fix_or` and `steal`, in any order and number, change
      nothing that can be read through any root, at any depth. */
  lemma {:induction false} UnitStepsKeepViews(s: State, steps: seq<Step>, i: nat, depth: nat)
    requires Inv(s) && Exec(s, steps).Reached? && i < |s.roots|
    requires forall j :: 0 <= j < |steps| ==> !IsEdit(steps[j])
    ensures var s' := Exec(s, steps).state;
            |s'.roots| == |s.roots| && View(s', s'.roots[i], depth) == View(s, s.roots[i], depth)
    decreases |steps|
  {
    if steps != [] {
      StepKeepsRootViews(s, steps[0], i, depth);
      StepKeepsInv(s, steps[0]);
      UnitStepsKeepViews(Next(s, steps[0]), steps[1..], i, depth);
    }
  }

  /** The view in which the payload of one in-memory object reads as `payload`. */
  ghost function ViewWith(s: State, m: Mid, payload: Payload, r: ObjRef, depth: nat): Tree
    decreases depth
  {
    if depth == 0 then Cut
    else if !IsObj(s, Resolve(s, r)) then Missing
    else
      var n := Body(s, Resolve(s, r));
      Tree(if Resolve(s, r) == Mem(m) then payload else n.payload,
           seq(|n.children|, i requires 0 <= i < |n.children| => ViewWith(s, m, payload, n.children[i], depth - 1)))
  }

  lemma {:induction false} MutateView(s: State, m: Mid, payload: Payload, r: ObjRef, depth: nat)
    requires MidOk(s, m) && KeyModified(m) in s.cache
    ensures View(Next(s, Mutate(m, payload)), r, depth) == ViewWith(s, m, payload, r, depth)
    decreases depth
  {
    var s' := Next(s, Mutate(m, payload));
    var o := Resolve(s, r);
    assert Resolve(s', r) == o && IsObj(s', o) == IsObj(s, o);
    if depth > 0 && IsObj(s, o) {
      var n, n' := Body(s, o), Body(s', o);
      assert n'.children == n.children;
      forall i | 0 <= i < |n.children|
        ensures View(s', n.children[i], depth - 1) == ViewWith(s, m, payload, n.children[i], depth - 1)
      {
        MutateView(s, m, payload, n.children[i], depth - 1);
      }
      assert View(s', r, depth).children == ViewWith(s, m, payload, r, depth).children;
    }
  }

  /** An update made through a modified object is what every later read sees, whatever
      evictions, write-backs, fetches and steals follow, and it changes nothing else. */
  lemma NoLostUpdate(s: State, m: Mid, payload: Payload, steps: seq<Step>, i: nat, depth: nat)
    requires Inv(s) && KeyModified(m) in s.cache && i < |s.roots|
    requires Exec(s, [Mutate(m, payload)] + steps).Reached?
    requires forall j :: 0 <= j < |steps| ==> !IsEdit(steps[j])
    ensures var s' := Exec(s, [Mutate(m, payload)] + steps).state;
            |s'.roots| == |s.roots| && View(s', s'.roots[i], depth) == ViewWith(s, m, payload, s.roots[i], depth)
  {
    var all := [Mutate(m, payload)] + steps;
    assert all[0] == Mutate(m, payload) && all[1..] == steps;
    var s1 := Next(s, Mutate(m, payload));
    AnyStepKeepsInv(s, Mutate(m, payload));
    assert MidOk(s, m);
    MutateView(s, m, payload, s.roots[i], depth);
    UnitStepsKeepViews(s1, steps, i, depth);
  }

  // ------------------------------------------------- one place per object and pointer

  /** A reference that is not clean denotes exactly one of: the cached modified object, the
      cached object in write-back, an entry of `written_back`. */
  lemma OnePlace(s: State, t: Slot)
    requires Inv(s) && IsSlot(s, t) && !RefAt(s, t).Unmodified?
    ensures var m := RefAt(s, t).mid;
            && (KeyModified(m) in s.cache || KeyInWriteback(m) in s.cache || m in s.writtenBack)
            && !(KeyModified(m) in s.cache && KeyInWriteback(m) in s.cache)
            && !(KeyModified(m) in s.cache && m in s.writtenBack)
            && !(KeyInWriteback(m) in s.cache && m in s.writtenBack)
    ensures forall u :: HoldsMid(s, u, RefAt(s, t).mid) ==> u == t
  {
    var m := RefAt(s, t).mid;
    assert RefOk(s, RefAt(s, t)) && MidOk(s, m);
    forall u | HoldsMid(s, u, m) ensures u == t {
      if u != t {
        OnlyHolder(s, t, u);
      }
    }
  }

  ghost predicate HeldClean(s: State, p: Ptr) {
    exists t :: IsSlot(s, t) && RefAt(s, t) == Unmodified(p)
  }

  lemma CleanIsNowhereElse(s: State, p: Ptr)
    requires Inv(s) && HeldClean(s, p)
    ensures p !in s.released && p !in s.written.Values && p !in s.writtenBack.Values
  {
    var t :| IsSlot(s, t) && RefAt(s, t) == Unmodified(p);
    assert RefOk(s, RefAt(s, t));
    if p in s.writtenBack.Values {
      var m :| m in s.writtenBack && s.writtenBack[m] == p;
      CleanNotAwaited(s, t, m);
    }
  }

  lemma LiveIsHeld(s: State, p: Ptr)
    requires Inv(s) && IsObj(s, OnDisk(p))
    ensures HeldClean(s, p) || p in s.writtenBack.Values
  {
    var t :| Denotes(s, t, OnDisk(p));
  }

  lemma CleanHeldOnce(s: State, p: Ptr, t: Slot, u: Slot)
    requires Inv(s) && p in s.disk
    requires IsSlot(s, t) && IsSlot(s, u) && RefAt(s, t) == Unmodified(p) == RefAt(s, u)
    ensures t == u
  {
    assert Denotes(s, t, OnDisk(p)) && Denotes(s, u, OnDisk(p));
  }

  /** Every pointer ever written is in exactly one of: a running write-back, `written_back`,
      a clean reference, released; and `copy_on_write` was called at most once for it. */
  lemma Conservation(s: State, p: Ptr)
    requires Inv(s) && p in s.disk
    ensures s.released[p] <= 1
    ensures p in s.released ==> p !in s.written.Values && p !in s.writtenBack.Values && !HeldClean(s, p)
    ensures p in s.written.Values ==> p !in s.writtenBack.Values && !HeldClean(s, p)
    ensures p in s.writtenBack.Values ==> !HeldClean(s, p)
    ensures p in s.released || p in s.written.Values || p in s.writtenBack.Values || HeldClean(s, p)
    ensures forall t, u :: IsSlot(s, t) && IsSlot(s, u) && RefAt(s, t) == Unmodified(p) == RefAt(s, u) ==> t == u
  {
    if HeldClean(s, p) {
      CleanIsNowhereElse(s, p);
    }
    if IsObj(s, OnDisk(p)) {
      LiveIsHeld(s, p);
    }
    forall t, u | IsSlot(s, t) && IsSlot(s, u) && RefAt(s, t) == Unmodified(p) == RefAt(s, u) ensures t == u {
      CleanHeldOnce(s, p, t, u);
    }
  }

  // ------------------------------------------------------- overtaken write-backs

  /** The object was stolen (or collected, or removed) while its id may still be written back. */
  ghost predicate Gone(s: State, m: Mid) {
    m < s.nextMid && !InMemory(s, m) && m !in s.writtenBack
  }

  lemma StealOvertakes(s: State, t: Slot, info: DatasetId)
    requires Inv(s) && Enabled(s, Steal(t, info)) && RefAt(s, t).InWriteback?
    ensures Gone(Next(s, Steal(t, info)), RefAt(s, t).mid)
  {
    StealPossible(s, t, info);
    assert MidOk(s, RefAt(s, t).mid);
    SetRefKeys(s, t, Modified(s.nextMid));
  }

  lemma EditKeepsGone(s: State, step: Step, m: Mid)
    requires Enabled(s, step) && IsEdit(step) && Gone(s, m)
    ensures Gone(Next(s, step), m)
    ensures Next(s, step).written == s.written
    ensures s.released <= Next(s, step).released
  {
  }

  ghost predicate StillGone(s: State, s': State, m: Mid) {
    && Gone(s', m)
    && s.released <= s'.released
    && (m in s.written ==>
          (m in s'.written && s'.written[m] == s.written[m]) || s.written[m] in s'.released)
  }

  lemma FixOrKeepsGone(s: State, t: Slot, m: Mid)
    requires Enabled(s, FixOr(t)) && !Panics(s, FixOr(t)) && Writable(s, t) && Gone(s, m)
    ensures StillGone(s, Next(s, FixOr(t)), m)
  {
    var (s1, q) := Fixed(s, RefAt(s, t));
    FixOrFrame(s, t);
    SetRefKeys(s1, t, q);
  }

  lemma StealKeepsGone(s: State, t: Slot, info: DatasetId, m: Mid)
    requires Enabled(s, Steal(t, info)) && Gone(s, m)
    ensures StillGone(s, Next(s, Steal(t, info)), m)
  {
    SetRefKeys(s, t, Modified(s.nextMid));
  }

  lemma PlainKeepsGone(s: State, step: Step, m: Mid)
    requires Enabled(s, step) && !IsEdit(step) && !step.FixOr? && !step.Steal? && !Panics(s, step) && Gone(s, m)
    requires step.WriteOut? ==> step.mid !in s.written
    ensures StillGone(s, Next(s, step), m)
  {
  }

  lemma StepKeepsGone(s: State, step: Step, m: Mid)
    requires Inv(s) && Enabled(s, step) && !IsEdit(step) && !Panics(s, step) && Gone(s, m)
    ensures StillGone(s, Next(s, step), m)
  {
    match step {
      case FixOr(t) =>
        DirtyRefsAreWritable(s, t);
        FixOrKeepsGone(s, t, m);
      case Steal(t, info) => StealKeepsGone(s, t, info, m);
      case WriteOut(n, p) =>
        assert MidOk(s, n);
        PlainKeepsGone(s, step, m);
      case _ => PlainKeepsGone(s, step, m);
    }
  }

  /** A write-back overtaken by a steal never becomes the current version: its pointer is
      never entered into `written_back`, only released. */
  lemma {:induction false} OvertakenIsNeverCurrent(s: State, steps: seq<Step>, m: Mid)
    requires Inv(s) && Gone(s, m) && Exec(s, steps).Reached?
    ensures StillGone(s, Exec(s, steps).state, m)
    decreases |steps|
  {
    if steps != [] {
      var s1 := Next(s, steps[0]);
      AnyStepKeepsInv(s, steps[0]);
      if IsEdit(steps[0]) {
        EditKeepsGone(s, steps[0], m);
      } else {
        StepKeepsGone(s, steps[0], m);
      }
      OvertakenIsNeverCurrent(s1, steps[1..], m);
    }
  }

  // --------------------------------------------------- every object is under a root

  function Objects(s: State): set<Obj> {
    (set k | k in s.cache && !k.KeyUnmodified? :: Mem(k.mid)) + (set p | p in s.disk :: OnDisk(p))
  }

  lemma ObjectsHasAll(s: State, o: Obj)
    requires IsObj(s, o)
    ensures o in Objects(s)
  {
    if o.Mem? {
      assert Mem(KeyModified(o.mid).mid) == o && Mem(KeyInWriteback(o.mid).mid) == o;
    }
  }

  lemma {:induction false} Bounded(objects: set<Obj>, grade: Obj -> nat) returns (bound: nat)
    ensures forall o :: o in objects ==> grade(o) <= bound
    decreases |objects|
  {
    bound := 0;
    if objects != {} {
      var o :| o in objects;
      var rest := Bounded(objects - {o}, grade);
      bound := if rest < grade(o) then grade(o) else rest;
      assert forall x :: x in objects ==> x == o || x in objects - {o};
    }
  }

  ghost predicate UnderRoot(s: State, o: Obj) {
    exists i: nat :: i < |s.roots| && Below(s, Resolve(s, s.roots[i]), o)
  }

  lemma {:induction false} UnderRootUpTo(s: State, o: Obj, grade: Obj -> nat, bound: nat)
    requires Inv(s) && Graded(s, grade) && IsObj(s, o)
    requires forall x :: x in Objects(s) ==> grade(x) <= bound
    ensures UnderRoot(s, o)
    decreases bound - grade(o)
  {
    ObjectsHasAll(s, o);
    var t :| Denotes(s, t, o);
    match t {
      case RootSlot(i) =>
        assert Reaches(s, o, o, 0);
        assert Below(s, Resolve(s, s.roots[i]), o);
      case ChildSlot(parent, j) =>
        ObjectsHasAll(s, parent);
        UnderRootUpTo(s, parent, grade, bound);
        var i: nat :| i < |s.roots| && Below(s, Resolve(s, s.roots[i]), parent);
        BelowOn(s, Resolve(s, s.roots[i]), parent, j);
    }
  }

  /** The forest has no part that is not reachable: every object is in the tree of a root. */
  lemma EveryObjectUnderARoot(s: State, o: Obj)
    requires Inv(s) && IsObj(s, o)
    ensures UnderRoot(s, o)
  {
    var grade :| Graded(s, grade);
    var bound := Bounded(Objects(s), grade);
    UnderRootUpTo(s, o, grade, bound);
  }

  lemma NoOwnChild(s: State, t: Slot)
    requires Acyclic(s) && IsSlot(s, t) && t.ChildSlot?
    ensures t.parent != Resolve(s, RefAt(s, t))
  {
    var grade :| Graded(s, grade);
    assert IsSlot(s, ChildSlot(t.parent, t.index));
  }

  // --------------------------------------------- stealing under a clean parent

  /** Under a clean node the old pointer is released while the packed parent still refers to it. */
  lemma HintStealUnderClean(s: State, t: Slot, info: DatasetId)
    requires Inv(s) && IsSlot(s, t) && RefAt(s, t).Unmodified? && RefAt(s, t).AsKey() in s.cache
    requires t.ChildSlot? && t.parent.OnDisk?
    ensures var s' := StealAt(s, t, info);
            IsSlot(s', t) && RefAt(s', t) == RefAt(s, t) && RefAt(s, t).ptr in s'.released
    ensures !Inv(StealAt(s, t, info))
  {
    var s' := StealAt(s, t, info);
    NoOwnChild(s, t);
    assert s'.disk == s.disk && s'.written == s.written;
    assert IsObj(s', t.parent);
    assert !RefOk(s', RefAt(s', t));
  }

  /** Under a node in write-back the old pointer is released while the copy that is being written,
      or was written already, still refers to it. */
  lemma HintStealUnderWriteback(s: State, t: Slot, info: DatasetId)
    requires Inv(s) && IsSlot(s, t) && RefAt(s, t).Unmodified? && RefAt(s, t).AsKey() in s.cache
    requires t.ChildSlot? && t.parent.Mem? && KeyModified(t.parent.mid) !in s.cache
    ensures var s', m, p := StealAt(s, t, info), t.parent.mid, RefAt(s, t).ptr;
            && p in s'.released && (m in s'.packing || m in s'.written)
            && (m in s'.packing ==>
                  t.index < |s'.packing[m].children| && s'.packing[m].children[t.index] == Unmodified(p))
            && (m in s'.written ==>
                  && s'.written[m] in s'.disk && t.index < |s'.disk[s'.written[m]].children|
                  && s'.disk[s'.written[m]].children[t.index] == Unmodified(p))
    ensures !Inv(StealAt(s, t, info))
  {
    var s', m := StealAt(s, t, info), t.parent.mid;
    assert MidOk(s, m);
    assert s'.packing == s.packing && s'.written == s.written && s'.disk == s.disk;
    assert s'.cache[KeyInWriteback(m)].children[t.index] == Modified(s.nextMid);
    assert !MidOk(s', m);
  }

  /** `get` steals the reference it was given when a storage hint is pending, whoever holds
      it.  This is safe exactly when the holder is a root or a modified node. */
  lemma HintStealSafeIff(s: State, t: Slot, info: DatasetId)
    requires Inv(s) && IsSlot(s, t) && RefAt(s, t).Unmodified? && RefAt(s, t).AsKey() in s.cache
    ensures Inv(StealAt(s, t, info)) <==> Writable(s, t)
  {
    if Writable(s, t) {
      StepKeepsInv(s, Steal(t, info));
    } else if t.parent.OnDisk? {
      HintStealUnderClean(s, t, info);
    } else {
      HintStealUnderWriteback(s, t, info);
    }
  }

  // ------------------------------------------------------------- a run that gets there

  lemma {:induction false} ExecAppend(s: State, first: seq<Step>, then_: seq<Step>)
    requires Exec(s, first).Reached?
    ensures Exec(s, first + then_) == Exec(Exec(s, first).state, then_)
    decreases |first|
  {
    if first == [] {
      assert first + then_ == then_;
    } else {
      assert (first + then_)[1..] == first[1..] + then_;
      ExecAppend(Next(s, first[0]), first[1..], then_);
    }
  }

  const Leaf: Node := Node([1], [])
  const LeafAt: Ptr := Ptr(0, 1)
  const TopAt: Ptr := Ptr(1, 1)

  function Top(child: ObjRef): Node {
    Node([2], [child])
  }

  function Inserted(): State {
    State(map[KeyModified(1) := Leaf, KeyModified(2) := Top(Modified(1))], map[], map[1 := 0, 2 := 0], 3,
          map[], map[], map[], multiset{}, [Modified(2)])
  }

  function LeafWritten(): State {
    State(map[KeyUnmodified(LeafAt) := Leaf, KeyModified(2) := Top(Modified(1))], map[1 := LeafAt], map[2 := 0], 3,
          map[LeafAt := Leaf], map[], map[], multiset{}, [Modified(2)])
  }

  function LeafCollected(): State {
    State(map[KeyUnmodified(LeafAt) := Leaf, KeyModified(2) := Top(Unmodified(LeafAt))], map[], map[2 := 0], 3,
          map[LeafAt := Leaf], map[], map[], multiset{}, [Modified(2)])
  }

  function TopPacking(): State {
    var top := Top(Unmodified(LeafAt));
    State(map[KeyUnmodified(LeafAt) := Leaf, KeyInWriteback(2) := top], map[], map[2 := 0], 3,
          map[LeafAt := Leaf], map[2 := top], map[], multiset{}, [Modified(2)])
  }

  function TopWritten(): State {
    State(map[KeyUnmodified(LeafAt) := Leaf, KeyUnmodified(TopAt) := Top(Unmodified(LeafAt))],
          map[2 := TopAt], map[], 3,
          map[LeafAt := Leaf, TopAt := Top(Unmodified(LeafAt))], map[], map[], multiset{}, [Modified(2)])
  }

  function WriteBackOf(m: Mid, p: Ptr): seq<Step> {
    [BeginWriteback(m), WriteOut(m, p), Publish(m, false)]
  }

  function CollectLeaf(): seq<Step> {
    [FixOr(ChildSlot(Mem(2), 0)), FixOr(ChildSlot(Mem(2), 0))]
  }

  function CleanRun(): seq<Step> {
    [Insert([1], 0, 0), Insert([2], 0, 1)] + WriteBackOf(1, LeafAt) + CollectLeaf() + WriteBackOf(2, TopAt)
  }

  lemma ExecTwo(s: State, a: Step, b: Step)
    requires Enabled(s, a) && !Panics(s, a) && Enabled(Next(s, a), b) && !Panics(Next(s, a), b)
    ensures Exec(s, [a, b]) == Reached(Next(Next(s, a), b))
  {
    assert [a, b][1..] == [b] && [b][1..] == [];
    assert Exec(Next(s, a), [b]) == Reached(Next(Next(s, a), b));
  }

  lemma ExecThree(s: State, a: Step, b: Step, c: Step)
    requires Enabled(s, a) && !Panics(s, a) && Exec(Next(s, a), [b, c]).Reached?
    ensures Exec(s, [a, b, c]) == Exec(Next(s, a), [b, c])
  {
    assert [a, b, c][1..] == [b, c];
  }

  lemma RunInserts()
    ensures Exec(Empty, [Insert([1], 0, 0), Insert([2], 0, 1)]) == Reached(Inserted())
  {
    ExecTwo(Empty, Insert([1], 0, 0), Insert([2], 0, 1));
  }

  lemma RunLeaf()
    ensures Exec(Inserted(), WriteBackOf(1, LeafAt)) == Reached(LeafWritten())
  {
    var s := Next(Inserted(), BeginWriteback(1));
    ExecTwo(s, WriteOut(1, LeafAt), Publish(1, false));
    ExecThree(Inserted(), BeginWriteback(1), WriteOut(1, LeafAt), Publish(1, false));
  }

  lemma RunCollect()
    ensures Exec(LeafWritten(), CollectLeaf()) == Reached(LeafCollected())
  {
    var t := ChildSlot(Mem(2), 0);
    var s := LeafWritten().(cache := LeafWritten().cache[KeyModified(2) := Top(InWriteback(1))]);
    assert [Modified(1)][0 := InWriteback(1)] == [InWriteback(1)];
    assert [InWriteback(1)][0 := Unmodified(LeafAt)] == [Unmodified(LeafAt)];
    assert Next(LeafWritten(), FixOr(t)) == s;
    assert Next(s, FixOr(t)) == LeafCollected();
    ExecTwo(LeafWritten(), FixOr(t), FixOr(t));
  }

  lemma TopPacked()
    ensures Enabled(LeafCollected(), BeginWriteback(2)) && !Panics(LeafCollected(), BeginWriteback(2))
    ensures Next(LeafCollected(), BeginWriteback(2)) == TopPacking()
  {
  }

  lemma TopPublished()
    ensures Exec(TopPacking(), [WriteOut(2, TopAt), Publish(2, false)]) == Reached(TopWritten())
  {
    ExecTwo(TopPacking(), WriteOut(2, TopAt), Publish(2, false));
  }

  lemma RunTop()
    ensures Exec(LeafCollected(), WriteBackOf(2, TopAt)) == Reached(TopWritten())
  {
    TopPacked();
    TopPublished();
    ExecThree(LeafCollected(), BeginWriteback(2), WriteOut(2, TopAt), Publish(2, false));
  }

  /** From the empty unit: a parent and its child are inserted and written back, both stay cached.
      A read of the child with a pending hint then releases a block that the parent on disk still
      refers to. */
  lemma HintStealReachesCleanParent(info: DatasetId)
    ensures Exec(Empty, CleanRun()) == Reached(TopWritten())
    ensures var s, t := TopWritten(), ChildSlot(OnDisk(TopAt), 0);
            && IsSlot(s, t) && RefAt(s, t) == Unmodified(LeafAt) && KeyUnmodified(LeafAt) in s.cache
            && LeafAt in StealAt(s, t, info).released
            && StealAt(s, t, info).disk[TopAt].children == [Unmodified(LeafAt)]
            && !Inv(StealAt(s, t, info))
  {
    var inserts := [Insert([1], 0, 0), Insert([2], 0, 1)];
    RunInserts();
    RunLeaf();
    RunCollect();
    RunTop();
    ExecAppend(Empty, inserts, WriteBackOf(1, LeafAt));
    ExecAppend(Empty, inserts + WriteBackOf(1, LeafAt), CollectLeaf());
    ExecAppend(Empty, inserts + WriteBackOf(1, LeafAt) + CollectLeaf(), WriteBackOf(2, TopAt));
    EmptyInv();
    RunsAreSafe(Empty, CleanRun());
    HintStealUnderClean(TopWritten(), ChildSlot(OnDisk(TopAt), 0), info);
  }
}
