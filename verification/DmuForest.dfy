/** Two states whose forests have the same shape: at most one object changed its location
    (`a` became `b`) and at most one slot (`hole`) got a different reference to the same
    object.  Shape-preserving steps keep the forest property and everything that can be read. */
module DmuForest {
  import opened DmuState

  /** What can be read through a reference, down to a given depth. */
  datatype Tree = Cut | Missing | Tree(payload: Payload, children: seq<Tree>)

  ghost function View(s: State, r: ObjRef, depth: nat): Tree
    decreases depth
  {
    if depth == 0 then Cut
    else if !IsObj(s, Resolve(s, r)) then Missing
    else
      var n := Body(s, Resolve(s, r));
      Tree(n.payload, seq(|n.children|, i requires 0 <= i < |n.children| => View(s, n.children[i], depth - 1)))
  }

  function Moved(o: Obj, a: Obj, b: Obj): Obj {
    if o == a then b else o
  }

  function MovedSlot(t: Slot, a: Obj, b: Obj): Slot {
    match t
    case RootSlot(_) => t
    case ChildSlot(o, i) => ChildSlot(Moved(o, a, b), i)
  }

  ghost predicate SameObjects(s: State, s': State, a: Obj, b: Obj) {
    && (a != b ==> IsObj(s, a) && !IsObj(s, b))
    && (forall o :: IsObj(s', o) <==> if o == b then IsObj(s, a) else o != a && IsObj(s, o))
    && |s'.roots| == |s.roots|
    && (forall o :: IsObj(s, o) ==>
          && Body(s', Moved(o, a, b)).payload == Body(s, o).payload
          && |Body(s', Moved(o, a, b)).children| == |Body(s, o).children|)
  }

  ghost predicate SlotKept(s: State, s': State, a: Obj, b: Obj, t: Slot, hole: Slot)
    requires SameObjects(s, s', a, b) && IsSlot(s, t)
  {
    var t' := MovedSlot(t, a, b);
    && IsSlot(s', t')
    && (t != hole ==> RefAt(s', t') == RefAt(s, t))
    && Resolve(s', RefAt(s', t')) == Moved(Resolve(s, RefAt(s, t)), a, b)
    && (RefAt(s', t').InWriteback? ==> KeyModified(RefAt(s', t').mid) !in s'.cache)
  }

  ghost predicate SameShape(s: State, s': State, a: Obj, b: Obj, hole: Slot) {
    && SameObjects(s, s', a, b)
    && (forall t :: IsSlot(s, t) ==> SlotKept(s, s', a, b, t, hole))
  }

  lemma SlotsBack(s: State, s': State, a: Obj, b: Obj, t': Slot)
    requires SameObjects(s, s', a, b) && IsSlot(s', t')
    ensures IsSlot(s, MovedSlot(t', b, a)) && MovedSlot(MovedSlot(t', b, a), a, b) == t'
  {
    if t'.ChildSlot? {
      var o := Moved(t'.parent, b, a);
      assert IsObj(s, o) && Moved(o, a, b) == t'.parent;
    }
  }

  lemma SlotBack(s: State, s': State, a: Obj, b: Obj, hole: Slot, t': Slot) returns (t: Slot)
    requires AllResolve(s) && SameShape(s, s', a, b, hole) && IsSlot(s', t')
    ensures IsSlot(s, t) && MovedSlot(t, a, b) == t' && RefOk(s, RefAt(s, t))
    ensures SlotKept(s, s', a, b, t, hole)
    ensures t == MovedSlot(t', b, a)
  {
    SlotsBack(s, s', a, b, t');
    t := MovedSlot(t', b, a);
    assert RefOk(s, RefAt(s, t));
  }

  lemma ShapeKeepsHolders(s: State, s': State, a: Obj, b: Obj, hole: Slot)
    requires NoOrphan(s) && SameShape(s, s', a, b, hole)
    ensures NoOrphan(s')
  {
    forall o' | IsObj(s', o')
      ensures exists t' :: Denotes(s', t', o')
    {
      var o := Moved(o', b, a);
      assert IsObj(s, o);
      var t :| Denotes(s, t, o);
      assert SlotKept(s, s', a, b, t, hole);
      assert Denotes(s', MovedSlot(t, a, b), o');
    }
  }

  function MovedGrade(grade: Obj -> nat, a: Obj, b: Obj): Obj -> nat {
    (o: Obj) => grade(Moved(o, b, a))
  }

  lemma MovedFalls(s: State, s': State, a: Obj, b: Obj, hole: Slot, grade: Obj -> nat, o: Obj, i: nat)
    requires AllResolve(s) && Graded(s, grade) && SameShape(s, s', a, b, hole) && IsSlot(s', ChildSlot(o, i))
    ensures MovedGrade(grade, a, b)(Resolve(s', RefAt(s', ChildSlot(o, i)))) < MovedGrade(grade, a, b)(o)
  {
    var t := SlotBack(s, s', a, b, hole, ChildSlot(o, i));
    var x := Resolve(s, RefAt(s, t));
    assert IsObj(s, x) && Moved(Moved(x, a, b), b, a) == x;
    assert IsSlot(s, ChildSlot(Moved(o, b, a), i));
  }

  lemma ShapeKeepsAcyclic(s: State, s': State, a: Obj, b: Obj, hole: Slot)
    requires AllResolve(s) && Acyclic(s) && SameShape(s, s', a, b, hole)
    ensures Acyclic(s')
  {
    var grade :| Graded(s, grade);
    var moved := MovedGrade(grade, a, b);
    forall o: Obj, i: nat | IsSlot(s', ChildSlot(o, i))
      ensures moved(Resolve(s', RefAt(s', ChildSlot(o, i)))) < moved(o)
    {
      MovedFalls(s, s', a, b, hole, grade, o, i);
    }
    assert Graded(s', moved);
  }

  lemma ShapeKeepsForest(s: State, s': State, a: Obj, b: Obj, hole: Slot)
    requires Forest(s) && SameShape(s, s', a, b, hole)
    ensures Forest(s')
  {
    forall t' | IsSlot(s', t')
      ensures RefOk(s', RefAt(s', t'))
    {
      var t := SlotBack(s, s', a, b, hole, t');
    }
    forall t', u', o' | Denotes(s', t', o') && Denotes(s', u', o')
      ensures t' == u'
    {
      var t := SlotBack(s, s', a, b, hole, t');
      var u := SlotBack(s, s', a, b, hole, u');
      var o := Moved(o', b, a);
      assert Denotes(s, t, o) && Denotes(s, u, o);
    }
    ShapeKeepsHolders(s, s', a, b, hole);
    ShapeKeepsAcyclic(s, s', a, b, hole);
  }

  lemma ShapeAt(s: State, s': State, a: Obj, b: Obj, hole: Slot, t: Slot)
    requires AllResolve(s) && SameShape(s, s', a, b, hole) && IsSlot(s, t)
    ensures SlotKept(s, s', a, b, t, hole)
    ensures var o, o' := Resolve(s, RefAt(s, t)), Resolve(s', RefAt(s', MovedSlot(t, a, b)));
            && IsObj(s, o) && IsObj(s', o') && o' == Moved(o, a, b)
            && Body(s', o').payload == Body(s, o).payload
            && |Body(s', o').children| == |Body(s, o).children|
  {
    assert SlotKept(s, s', a, b, t, hole);
    assert RefOk(s, RefAt(s, t));
  }

  lemma SameView(s: State, r: ObjRef, s': State, r': ObjRef, depth: nat)
    requires depth > 0
    requires IsObj(s, Resolve(s, r)) && IsObj(s', Resolve(s', r'))
    requires var n, n' := Body(s, Resolve(s, r)), Body(s', Resolve(s', r'));
             && n'.payload == n.payload && |n'.children| == |n.children|
             && forall i :: 0 <= i < |n.children| ==>
                  View(s', n'.children[i], depth - 1) == View(s, n.children[i], depth - 1)
    ensures View(s', r', depth) == View(s, r, depth)
  {
    assert View(s', r', depth).children == View(s, r, depth).children;
  }

  lemma {:induction false} ShapeKeepsView(s: State, s': State, a: Obj, b: Obj, hole: Slot, t: Slot, depth: nat)
    requires AllResolve(s) && SameShape(s, s', a, b, hole) && IsSlot(s, t)
    ensures IsSlot(s', MovedSlot(t, a, b))
    ensures View(s', RefAt(s', MovedSlot(t, a, b)), depth) == View(s, RefAt(s, t), depth)
    decreases depth
  {
    ShapeAt(s, s', a, b, hole, t);
    if depth > 0 {
      var r, r' := RefAt(s, t), RefAt(s', MovedSlot(t, a, b));
      var o := Resolve(s, r);
      var n, n' := Body(s, o), Body(s', Resolve(s', r'));
      forall i | 0 <= i < |n.children|
        ensures View(s', n'.children[i], depth - 1) == View(s, n.children[i], depth - 1)
      {
        ShapeKeepsView(s, s', a, b, hole, ChildSlot(o, i), depth - 1);
      }
      SameView(s, r, s', r', depth);
    }
  }

  /** A modified id with a `written_back` entry keeps its holder unless the hole was it. */
  lemma ShapeKeepsHolder(s: State, s': State, a: Obj, b: Obj, hole: Slot, t: Slot, m: Mid)
    requires SameShape(s, s', a, b, hole) && HoldsMid(s, t, m) && t != hole
    ensures HoldsMid(s', MovedSlot(t, a, b), m)
  {
    assert SlotKept(s, s', a, b, t, hole);
  }
}
