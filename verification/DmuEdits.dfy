/** The edits of the tree layer keep the forest: they move references between slots, add an
    object together with its holder, or remove both. */
module DmuEdits {
  import opened DmuState
  import opened DmuSteps
  import opened DmuInvariant

  /** The same references, each in the slot that `f` sends it to. */
  ghost predicate Rearranged(s: State, s': State, f: Slot -> Slot, g: Slot -> Slot) {
    && (forall t :: IsSlot(s, t) ==> IsSlot(s', f(t)) && RefAt(s', f(t)) == RefAt(s, t) && g(f(t)) == t)
    && (forall t :: IsSlot(s', t) ==> IsSlot(s, g(t)) && f(g(t)) == t)
    && (forall o :: IsObj(s', o) == IsObj(s, o))
    && s'.cache.Keys == s.cache.Keys && s'.writtenBack == s.writtenBack
  }

  lemma RearrangedResolve(s: State, s': State, f: Slot -> Slot, g: Slot -> Slot)
    requires Rearranged(s, s', f, g) && AllResolve(s)
    ensures AllResolve(s')
  {
    forall t | IsSlot(s', t) ensures RefOk(s', RefAt(s', t)) {
      assert RefOk(s, RefAt(s, g(t)));
    }
  }

  lemma RearrangedDenotes(s: State, s': State, f: Slot -> Slot, g: Slot -> Slot, t: Slot, o: Obj)
    requires Rearranged(s, s', f, g)
    ensures Denotes(s', t, o) ==> Denotes(s, g(t), o) && f(g(t)) == t
    ensures Denotes(s, t, o) ==> Denotes(s', f(t), o)
  {
  }

  lemma RearrangedSharing(s: State, s': State, f: Slot -> Slot, g: Slot -> Slot)
    requires Rearranged(s, s', f, g) && NoSharing(s)
    ensures NoSharing(s')
  {
    forall t, u, o | Denotes(s', t, o) && Denotes(s', u, o) ensures t == u {
      RearrangedDenotes(s, s', f, g, t, o);
      RearrangedDenotes(s, s', f, g, u, o);
    }
  }

  lemma RearrangedOrphans(s: State, s': State, f: Slot -> Slot, g: Slot -> Slot)
    requires Rearranged(s, s', f, g) && NoOrphan(s)
    ensures NoOrphan(s')
  {
    forall o | IsObj(s', o) ensures exists t :: Denotes(s', t, o) {
      var t :| Denotes(s, t, o);
      RearrangedDenotes(s, s', f, g, t, o);
    }
  }

  lemma RearrangedAwaited(s: State, s': State, f: Slot -> Slot, g: Slot -> Slot)
    requires Rearranged(s, s', f, g) && Awaited(s)
    ensures Awaited(s')
  {
    forall m: Mid | m in s'.writtenBack ensures exists t :: HoldsMid(s', t, m) {
      var t :| HoldsMid(s, t, m);
      assert HoldsMid(s', f(t), m);
    }
  }

  /** No child slot moved to another object. */
  lemma StayedAcyclic(s: State, s': State, f: Slot -> Slot, g: Slot -> Slot)
    requires Rearranged(s, s', f, g) && Acyclic(s)
    requires forall t :: IsSlot(s', t) && t.ChildSlot? ==> g(t).ChildSlot? && g(t).parent == t.parent
    ensures Acyclic(s')
  {
    var grade :| Graded(s, grade);
    forall o: Obj, i: nat | IsSlot(s', ChildSlot(o, i))
      ensures grade(Resolve(s', RefAt(s', ChildSlot(o, i)))) < grade(o)
    {
      var t := g(ChildSlot(o, i));
      assert IsSlot(s, ChildSlot(o, t.index)) && f(t) == ChildSlot(o, i);
    }
    assert Graded(s', grade);
  }

  lemma RearrangedForest(s: State, s': State, f: Slot -> Slot, g: Slot -> Slot)
    requires Rearranged(s, s', f, g) && Forest(s) && Awaited(s) && Acyclic(s')
    ensures Forest(s') && Awaited(s')
  {
    RearrangedResolve(s, s', f, g);
    RearrangedSharing(s, s', f, g);
    RearrangedOrphans(s, s', f, g);
    RearrangedAwaited(s, s', f, g);
  }

  /** `big` has one more slot `u`, and one more object `o` that it denotes. */
  ghost predicate OneMore(small: State, big: State, u: Slot, o: Obj) {
    && IsSlot(big, u) && !IsSlot(small, u)
    && Resolve(big, RefAt(big, u)) == o && IsObj(big, o) && !IsObj(small, o)
    && (forall t :: IsSlot(big, t) <==> IsSlot(small, t) || t == u)
    && (forall x :: IsObj(big, x) <==> IsObj(small, x) || x == o)
    && (forall t :: IsSlot(small, t) ==>
          && RefAt(big, t) == RefAt(small, t)
          && Resolve(big, RefAt(big, t)) == Resolve(small, RefAt(small, t)))
    && (forall t :: IsSlot(small, t) && RefAt(small, t).InWriteback? ==>
          (KeyModified(RefAt(small, t).mid) in big.cache <==> KeyModified(RefAt(small, t).mid) in small.cache))
    && (RefAt(big, u).InWriteback? ==> KeyModified(RefAt(big, u).mid) !in big.cache)
  }

  lemma SameEdgesAcyclic(s: State, s': State)
    requires Acyclic(s)
    requires forall t :: IsSlot(s', t) && t.ChildSlot? ==>
               IsSlot(s, t) && Resolve(s', RefAt(s', t)) == Resolve(s, RefAt(s, t))
    ensures Acyclic(s')
  {
    var grade :| Graded(s, grade);
    assert Graded(s', grade);
  }

  lemma GrowForest(small: State, big: State, u: Slot, o: Obj)
    requires OneMore(small, big, u, o) && u.RootSlot? && Forest(small)
    ensures Forest(big)
  {
    forall t | IsSlot(big, t) ensures RefOk(big, RefAt(big, t)) {
      assert t != u ==> RefOk(small, RefAt(small, t));
    }
    forall t, v, x | Denotes(big, t, x) && Denotes(big, v, x) ensures t == v {
      assert t != u ==> Denotes(small, t, x) && RefOk(small, RefAt(small, t));
      assert v != u ==> Denotes(small, v, x) && RefOk(small, RefAt(small, v));
    }
    forall x | IsObj(big, x) ensures exists t :: Denotes(big, t, x) {
      if x == o {
        assert Denotes(big, u, x);
      } else {
        var t :| Denotes(small, t, x);
        assert Denotes(big, t, x);
      }
    }
    SameEdgesAcyclic(small, big);
  }

  lemma ShrinkForest(small: State, big: State, u: Slot, o: Obj)
    requires OneMore(small, big, u, o) && Forest(big)
    ensures Forest(small)
  {
    assert Denotes(big, u, o);
    forall t | IsSlot(small, t) ensures RefOk(small, RefAt(small, t)) {
      assert RefOk(big, RefAt(big, t));
      if Resolve(big, RefAt(big, t)) == o {
        assert Denotes(big, t, o);
      }
    }
    forall t, v, x | Denotes(small, t, x) && Denotes(small, v, x) ensures t == v {
      assert Denotes(big, t, x) && Denotes(big, v, x);
    }
    forall x | IsObj(small, x) ensures exists t :: Denotes(small, t, x) {
      var t :| Denotes(big, t, x);
      assert Denotes(small, t, x);
    }
    SameEdgesAcyclic(big, small);
  }

  // ------------------------------------------------------------ editing one node

  /** Replacing the node under one modified key (and the root slots) leaves the rest of the
      invariant alone. */
  lemma NodeEditRest(s: State, s': State, m: Mid)
    requires MidsOk(s) && CopiesOk(s) && PtrsOk(s) && KeyModified(m) in s.cache
    requires KeyModified(m) in s'.cache
    requires s' == s.(cache := s.cache[KeyModified(m) := s'.cache[KeyModified(m)]], roots := s'.roots)
    ensures MidsOk(s') && CopiesOk(s') && PtrsOk(s')
  {
    PtrsFrame(s, s');
    assert MidOk(s, m);
    forall n: Mid ensures MidOk(s', n) {
      assert MidOk(s, n);
    }
  }

  function TakeMap(m: Mid, i: nat, k: nat): Slot -> Slot {
    (t: Slot) =>
      if t == ChildSlot(Mem(m), i) then RootSlot(k)
      else if t.ChildSlot? && t.parent == Mem(m) && t.index > i then ChildSlot(Mem(m), t.index - 1)
      else if t.RootSlot? && t.index >= k then RootSlot(t.index + 1)
      else t
  }

  function PutMap(m: Mid, i: nat, k: nat): Slot -> Slot {
    (t: Slot) =>
      if t == RootSlot(k) then ChildSlot(Mem(m), i)
      else if t.ChildSlot? && t.parent == Mem(m) && t.index >= i then ChildSlot(Mem(m), t.index + 1)
      else if t.RootSlot? && t.index > k then RootSlot(t.index - 1)
      else t
  }

  function Same(): Slot -> Slot {
    (t: Slot) => t
  }

  lemma MutateMoves(s: State, m: Mid, payload: Payload)
    requires MidsOk(s) && KeyModified(m) in s.cache
    ensures Rearranged(s, Next(s, Mutate(m, payload)), Same(), Same())
  {
    assert MidOk(s, m);
  }

  /** Child i of the node under a modified key became root k. */
  ghost predicate Taken(s: State, s': State, m: Mid, i: nat, k: nat) {
    && KeyModified(m) in s.cache && KeyModified(m) in s'.cache
    && s'.cache.Keys == s.cache.Keys
    && (forall x :: x in s.cache && x != KeyModified(m) ==> s'.cache[x] == s.cache[x])
    && var c, c' := s.cache[KeyModified(m)].children, s'.cache[KeyModified(m)].children;
    && i < |c| && c' == c[..i] + c[i + 1..]
    && k <= |s.roots| && s'.roots == s.roots[..k] + [c[i]] + s.roots[k..]
    && s' == s.(cache := s'.cache, roots := s'.roots)
  }

  lemma TakenObj(s: State, s': State, m: Mid, i: nat, k: nat, o: Obj)
    requires Taken(s, s', m, i, k) && KeyInWriteback(m) !in s.cache
    ensures IsObj(s', o) == IsObj(s, o)
    ensures IsObj(s, o) && o != Mem(m) ==> Body(s', o) == Body(s, o)
    ensures IsObj(s, Mem(m)) && Body(s, Mem(m)) == s.cache[KeyModified(m)]
    ensures Body(s', Mem(m)) == s'.cache[KeyModified(m)]
  {
  }

  lemma TakenThere(s: State, s': State, m: Mid, i: nat, k: nat, t: Slot)
    requires Taken(s, s', m, i, k) && KeyInWriteback(m) !in s.cache && IsSlot(s, t)
    ensures var t' := TakeMap(m, i, k)(t);
            IsSlot(s', t') && RefAt(s', t') == RefAt(s, t) && PutMap(m, i, k)(t') == t
  {
    TakenObj(s, s', m, i, k, if t.ChildSlot? then t.parent else Mem(m));
  }

  lemma TakenBack(s: State, s': State, m: Mid, i: nat, k: nat, t: Slot)
    requires Taken(s, s', m, i, k) && KeyInWriteback(m) !in s.cache && IsSlot(s', t)
    ensures var t' := PutMap(m, i, k)(t); IsSlot(s, t') && TakeMap(m, i, k)(t') == t
  {
    TakenObj(s, s', m, i, k, if t.ChildSlot? then t.parent else Mem(m));
  }

  lemma TakenMoves(s: State, s': State, m: Mid, i: nat, k: nat)
    requires Taken(s, s', m, i, k) && KeyInWriteback(m) !in s.cache
    ensures Rearranged(s, s', TakeMap(m, i, k), PutMap(m, i, k))
    ensures Rearranged(s', s, PutMap(m, i, k), TakeMap(m, i, k))
  {
    forall t | IsSlot(s, t)
      ensures var t' := TakeMap(m, i, k)(t);
              IsSlot(s', t') && RefAt(s', t') == RefAt(s, t) && PutMap(m, i, k)(t') == t
    {
      TakenThere(s, s', m, i, k, t);
    }
    forall t | IsSlot(s', t)
      ensures var t' := PutMap(m, i, k)(t); IsSlot(s, t') && TakeMap(m, i, k)(t') == t
    {
      TakenBack(s, s', m, i, k, t);
    }
    forall o ensures IsObj(s', o) == IsObj(s, o) {
      TakenObj(s, s', m, i, k, o);
    }
  }

  lemma TakeMoves(s: State, m: Mid, i: nat)
    requires MidOk(s, m) && Enabled(s, TakeChild(m, i))
    ensures Rearranged(s, Next(s, TakeChild(m, i)), TakeMap(m, i, |s.roots|), PutMap(m, i, |s.roots|))
  {
    TakenMoves(s, Next(s, TakeChild(m, i)), m, i, |s.roots|);
  }

  /** Putting a reference into a node undoes taking it out. */
  lemma PutTaken(s: State, m: Mid, i: nat, k: nat)
    requires MidOk(s, m) && Enabled(s, PutChild(m, i, k))
    ensures Taken(Next(s, PutChild(m, i, k)), s, m, i, k)
  {
    var s' := Next(s, PutChild(m, i, k));
    var c, c' := s.cache[KeyModified(m)].children, s'.cache[KeyModified(m)].children;
    assert c'[..i] + c'[i + 1..] == c;
    assert s.roots == s'.roots[..k] + [c'[i]] + s'.roots[k..];
  }

  lemma PutMoves(s: State, m: Mid, i: nat, k: nat)
    requires MidOk(s, m) && Enabled(s, PutChild(m, i, k))
    ensures Rearranged(s, Next(s, PutChild(m, i, k)), PutMap(m, i, k), TakeMap(m, i, k))
  {
    PutTaken(s, m, i, k);
    TakenMoves(Next(s, PutChild(m, i, k)), s, m, i, k);
  }

  lemma TakeAcyclic(s: State, s': State, m: Mid, i: nat, k: nat)
    requires Rearranged(s, s', TakeMap(m, i, k), PutMap(m, i, k)) && |s'.roots| > k && Acyclic(s)
    ensures Acyclic(s')
  {
    StayedAcyclic(s, s', TakeMap(m, i, k), PutMap(m, i, k));
  }

  // ----------------------------------------------------- moving a tree under a node

  /** What is below an object includes the children of what is below it. */
  lemma {:induction false} ReachesOn(s: State, o: Obj, x: Obj, i: nat, depth: nat)
    requires Reaches(s, o, x, depth) && IsSlot(s, ChildSlot(x, i))
    ensures Reaches(s, o, Resolve(s, RefAt(s, ChildSlot(x, i))), depth + 1)
    decreases depth
  {
    var c := Resolve(s, RefAt(s, ChildSlot(x, i)));
    if o == x {
      assert Reaches(s, c, c, depth);
    } else {
      var j :| 0 <= j < |Body(s, o).children| && Reaches(s, Resolve(s, Body(s, o).children[j]), x, depth - 1);
      ReachesOn(s, Resolve(s, Body(s, o).children[j]), x, i, depth - 1);
    }
  }

  lemma BelowOn(s: State, o: Obj, x: Obj, i: nat)
    requires Below(s, o, x) && IsSlot(s, ChildSlot(x, i))
    ensures Below(s, o, Resolve(s, RefAt(s, ChildSlot(x, i))))
  {
    var depth: nat :| Reaches(s, o, x, depth);
    ReachesOn(s, o, x, i, depth);
  }

  /** Everything that is not below the moved object is lifted above it. */
  ghost function Lifted(s: State, grade: Obj -> nat, x: Obj): Obj -> nat {
    (o: Obj) => if Below(s, x, o) then grade(o) else grade(o) + grade(x) + 1
  }

  lemma LiftedGraded(s: State, grade: Obj -> nat, x: Obj)
    requires Graded(s, grade)
    ensures Graded(s, Lifted(s, grade, x))
  {
    forall o: Obj, i: nat | IsSlot(s, ChildSlot(o, i))
      ensures Lifted(s, grade, x)(Resolve(s, RefAt(s, ChildSlot(o, i)))) < Lifted(s, grade, x)(o)
    {
      if Below(s, x, o) {
        BelowOn(s, x, o, i);
      }
    }
  }

  lemma TakenResolves(s: State, s': State, m: Mid, i: nat, k: nat, r: ObjRef)
    requires Taken(s, s', m, i, k)
    ensures Resolve(s', r) == Resolve(s, r)
  {
  }

  lemma TakenFalls(s: State, s': State, m: Mid, i: nat, k: nat, grade: Obj -> nat, o: Obj, j: nat)
    requires Taken(s, s', m, i, k) && KeyInWriteback(m) !in s.cache && Graded(s', grade)
    requires grade(Resolve(s', s'.roots[k])) < grade(Mem(m)) && IsSlot(s, ChildSlot(o, j))
    ensures grade(Resolve(s, RefAt(s, ChildSlot(o, j)))) < grade(o)
  {
    var t := TakeMap(m, i, k)(ChildSlot(o, j));
    TakenThere(s, s', m, i, k, ChildSlot(o, j));
    TakenResolves(s, s', m, i, k, RefAt(s', t));
    assert t == RootSlot(k) || t == ChildSlot(o, t.index);
  }

  lemma PutSlotFalls(s: State, m: Mid, i: nat, k: nat, grade: Obj -> nat, o: Obj, j: nat)
    requires MidOk(s, m) && Enabled(s, PutChild(m, i, k)) && Graded(s, grade)
    requires grade(Resolve(s, s.roots[k])) < grade(Mem(m))
    requires IsSlot(Next(s, PutChild(m, i, k)), ChildSlot(o, j))
    ensures var s' := Next(s, PutChild(m, i, k)); grade(Resolve(s', RefAt(s', ChildSlot(o, j)))) < grade(o)
  {
    PutTaken(s, m, i, k);
    TakenFalls(Next(s, PutChild(m, i, k)), s, m, i, k, grade, o, j);
  }

  lemma PutAcyclic(s: State, m: Mid, i: nat, k: nat)
    requires MidOk(s, m) && Enabled(s, PutChild(m, i, k)) && Acyclic(s)
    ensures Acyclic(Next(s, PutChild(m, i, k)))
  {
    var s', x := Next(s, PutChild(m, i, k)), Resolve(s, s.roots[k]);
    var grade :| Graded(s, grade);
    var lifted := Lifted(s, grade, x);
    LiftedGraded(s, grade, x);
    assert Below(s, x, x) by { assert Reaches(s, x, x, 0); }
    forall o: Obj, j: nat | IsSlot(s', ChildSlot(o, j))
      ensures lifted(Resolve(s', RefAt(s', ChildSlot(o, j)))) < lifted(o)
    {
      PutSlotFalls(s, m, i, k, lifted, o, j);
    }
    assert Graded(s', lifted);
  }

  // ------------------------------------------------------- adding and removing objects

  lemma InsertGrows(s: State, payload: Payload, info: DatasetId)
    requires AllResolve(s) && MidsOk(s)
    ensures OneMore(s, Next(s, Insert(payload, info, 0)), RootSlot(|s.roots|), Mem(s.nextMid))
  {
    var s', m := Next(s, Insert(payload, info, 0)), s.nextMid;
    assert MidOk(s, m);
    assert s.roots[..|s.roots|] == s.roots && s.roots[|s.roots|..] == [];
    forall t | IsSlot(s, t)
      ensures IsSlot(s', t) && RefAt(s', t) == RefAt(s, t) && Resolve(s', RefAt(s, t)) == Resolve(s, RefAt(s, t))
      ensures RefAt(s, t).Unmodified? || RefAt(s, t).mid != m
    {
      if !RefAt(s, t).Unmodified? {
        DirtyMidsAreOld(s, t);
      }
    }
    assert Body(s', Mem(m)).children == [];
  }

  lemma InsertRest(s: State, payload: Payload, info: DatasetId)
    requires Awaited(s) && MidsOk(s) && CopiesOk(s) && PtrsOk(s)
    requires OneMore(s, Next(s, Insert(payload, info, 0)), RootSlot(|s.roots|), Mem(s.nextMid))
    ensures var s' := Next(s, Insert(payload, info, 0)); Awaited(s') && MidsOk(s') && CopiesOk(s') && PtrsOk(s')
  {
    var s' := Next(s, Insert(payload, info, 0));
    PtrsFrame(s, s');
    assert MidOk(s, s.nextMid);
    forall n: Mid ensures MidOk(s', n) {
      assert MidOk(s, n);
    }
    forall m: Mid | m in s'.writtenBack ensures exists t :: HoldsMid(s', t, m) {
      var t :| HoldsMid(s, t, m);
      assert HoldsMid(s', t, m);
    }
  }

  lemma InsertAlone(s: State, payload: Payload, info: DatasetId)
    requires Inv(s)
    ensures Inv(Next(s, Insert(payload, info, 0)))
  {
    InsertGrows(s, payload, info);
    GrowForest(s, Next(s, Insert(payload, info, 0)), RootSlot(|s.roots|), Mem(s.nextMid));
    InsertRest(s, payload, info);
  }

  /** The state in which the new object has taken over j of the references it will hold. */
  ghost function Filling(s: State, payload: Payload, info: DatasetId, held: nat, j: nat): State
    requires j <= held <= |s.roots|
  {
    var rest := |s.roots| - held;
    SetNode(s, s.nextMid, Node(payload, s.roots[rest..rest + j])).(
      nextMid := s.nextMid + 1,
      modifiedInfo := s.modifiedInfo[s.nextMid := info],
      roots := s.roots[..rest] + s.roots[rest + j..] + [Modified(s.nextMid)])
  }

  lemma OneMoved(roots: seq<ObjRef>, rest: nat, j: nat, new_: ObjRef)
    requires rest + j < |roots|
    ensures var c, r := roots[rest..rest + j], roots[..rest] + roots[rest + j..] + [new_];
            && c[..j] + [r[rest]] + c[j..] == roots[rest..rest + j + 1]
            && r[..rest] + r[rest + 1..] == roots[..rest] + roots[rest + j + 1..] + [new_]
  {
  }

  lemma SetTwice(cache: map<ObjectKey, Node>, k: ObjectKey, a: Node, b: Node)
    ensures cache[k := a][k := b] == cache[k := b]
  {
  }

  lemma FillingSteps(s: State, payload: Payload, info: DatasetId, held: nat, j: nat)
    requires j < held <= |s.roots|
    requires var s1 := Filling(s, payload, info, held, j);
             Enabled(s1, PutChild(s.nextMid, j, |s.roots| - held))
    ensures Next(Filling(s, payload, info, held, j), PutChild(s.nextMid, j, |s.roots| - held))
         == Filling(s, payload, info, held, j + 1)
  {
    var rest := |s.roots| - held;
    OneMoved(s.roots, rest, j, Modified(s.nextMid));
    SetTwice(s.cache, KeyModified(s.nextMid), Node(payload, s.roots[rest..rest + j]),
             Node(payload, s.roots[rest..rest + j + 1]));
  }

  lemma FillingStart(s: State, payload: Payload, info: DatasetId, held: nat)
    requires held <= |s.roots|
    ensures Filling(s, payload, info, held, 0) == Next(s, Insert(payload, info, 0))
  {
    var rest := |s.roots| - held;
    assert s.roots[..rest] + s.roots[rest..] == s.roots[..|s.roots|];
    assert s.roots[|s.roots|..] == s.roots[rest..rest] == [];
  }

  lemma FillingEnd(s: State, payload: Payload, info: DatasetId, held: nat)
    requires held <= |s.roots|
    ensures Filling(s, payload, info, held, held) == Next(s, Insert(payload, info, held))
  {
    var rest := |s.roots| - held;
    assert s.roots[rest..rest + held] == s.roots[rest..];
    assert s.roots[..rest] + s.roots[rest + held..] == s.roots[..rest];
  }

  /** An object that a root holds is below no other object. */
  lemma {:induction false} RootIsBelowNothing(s: State, o: Obj, x: Obj, k: nat, depth: nat)
    requires NoSharing(s) && Denotes(s, RootSlot(k), x) && Reaches(s, o, x, depth)
    ensures o == x
    decreases depth
  {
    if o != x {
      var j :| 0 <= j < |Body(s, o).children| && Reaches(s, Resolve(s, Body(s, o).children[j]), x, depth - 1);
      RootIsBelowNothing(s, Resolve(s, Body(s, o).children[j]), x, k, depth - 1);
      assert Denotes(s, ChildSlot(o, j), x);
      assert false;
    }
  }

  /** No root is below another. */
  lemma RootsAreApart(s: State, k: nat, last: nat)
    requires Inv(s) && k < |s.roots| && last < |s.roots| && k != last
    ensures !Below(s, Resolve(s, s.roots[k]), Resolve(s, s.roots[last]))
  {
    var x, y := Resolve(s, s.roots[k]), Resolve(s, s.roots[last]);
    assert Denotes(s, RootSlot(last), y);
    OnlyHolder(s, RootSlot(k), RootSlot(last));
    if Below(s, x, y) {
      var depth: nat :| Reaches(s, x, y, depth);
      RootIsBelowNothing(s, x, y, last, depth);
      assert false;
    }
  }

  lemma FillingCan(s: State, payload: Payload, info: DatasetId, held: nat, j: nat)
    requires j < held <= |s.roots| && Inv(Filling(s, payload, info, held, j))
    ensures Enabled(Filling(s, payload, info, held, j), PutChild(s.nextMid, j, |s.roots| - held))
  {
    var s1 := Filling(s, payload, info, held, j);
    RootsAreApart(s1, |s.roots| - held, |s1.roots| - 1);
  }

  lemma PutKeepsInv(s: State, m: Mid, i: nat, k: nat)
    requires Inv(s) && Enabled(s, PutChild(m, i, k))
    ensures Inv(Next(s, PutChild(m, i, k)))
  {
    var s' := Next(s, PutChild(m, i, k));
    assert MidOk(s, m);
    PutMoves(s, m, i, k);
    PutAcyclic(s, m, i, k);
    RearrangedForest(s, s', PutMap(m, i, k), TakeMap(m, i, k));
    NodeEditRest(s, s', m);
  }

  lemma FillOne(s: State, payload: Payload, info: DatasetId, held: nat, j: nat)
    requires j < held <= |s.roots| && Inv(Filling(s, payload, info, held, j))
    ensures Inv(Filling(s, payload, info, held, j + 1))
  {
    FillingCan(s, payload, info, held, j);
    FillingSteps(s, payload, info, held, j);
    PutKeepsInv(Filling(s, payload, info, held, j), s.nextMid, j, |s.roots| - held);
  }

  lemma NoneFilled(s: State, payload: Payload, info: DatasetId, held: nat)
    requires held <= |s.roots| && Inv(s)
    ensures Inv(Filling(s, payload, info, held, 0))
  {
    InsertAlone(s, payload, info);
    FillingStart(s, payload, info, held);
  }

  /** The invariant holds in every stage up to the one with j references. */
  ghost predicate FilledUpTo(s: State, payload: Payload, info: DatasetId, held: nat, j: nat)
    requires j <= held <= |s.roots|
  {
    Inv(Filling(s, payload, info, held, j)) && (j > 0 ==> FilledUpTo(s, payload, info, held, j - 1))
  }

  lemma {:induction false} FillingKeepsInv(s: State, payload: Payload, info: DatasetId, held: nat, j: nat)
    requires j <= held <= |s.roots| && Inv(s)
    ensures FilledUpTo(s, payload, info, held, j)
    decreases j
  {
    if j == 0 {
      NoneFilled(s, payload, info, held);
    } else {
      FillingKeepsInv(s, payload, info, held, j - 1);
      FillOne(s, payload, info, held, j - 1);
    }
  }

  lemma InsertKeepsInv(s: State, payload: Payload, info: DatasetId, held: nat)
    requires Inv(s) && held <= |s.roots|
    ensures Inv(Next(s, Insert(payload, info, held)))
  {
    FillingKeepsInv(s, payload, info, held, held);
    FillingEnd(s, payload, info, held);
  }

  lemma RemoveObj(s: State, o: Obj)
    requires Removable(s)
    requires var r := s.roots[|s.roots| - 1]; !r.Unmodified? ==> MidOk(s, r.mid)
    requires var r := s.roots[|s.roots| - 1]; r.InWriteback? ==> KeyModified(r.mid) !in s.cache
    ensures var s', x := Removed(s), Resolve(s, s.roots[|s.roots| - 1]);
            && (IsObj(s', o) <==> IsObj(s, o) && o != x)
            && (IsObj(s', o) ==> Body(s', o) == Body(s, o))
            && s'.roots == s.roots[..|s.roots| - 1]
  {
  }

  lemma RemoveResolve(s: State, q: ObjRef)
    requires Removable(s)
    requires Resolve(s, q) != Resolve(s, s.roots[|s.roots| - 1])
    requires var r := s.roots[|s.roots| - 1]; !r.Unmodified? ==> MidOk(s, r.mid)
    ensures Resolve(Removed(s), q) == Resolve(s, q)
    ensures q.InWriteback? ==>
              (KeyModified(q.mid) in s.cache <==> KeyModified(q.mid) in Removed(s).cache)
  {
  }

  lemma RemoveIsSlot(s: State, t: Slot)
    requires AllResolve(s) && MidsOk(s) && Enabled(s, Remove)
    ensures var s', u := Next(s, Remove), RootSlot(|s.roots| - 1);
            && (IsSlot(s, t) <==> IsSlot(s', t) || t == u) && !IsSlot(s', u)
            && (IsSlot(s', t) ==> RefAt(s, t) == RefAt(s', t))
  {
    var r := RefAt(s, RootSlot(|s.roots| - 1));
    assert RefOk(s, r);
    assert !r.Unmodified? ==> MidOk(s, r.mid);
    if t.ChildSlot? {
      RemoveObj(s, t.parent);
    }
    RemoveObj(s, Resolve(s, r));
  }

  lemma RemoveSlot(s: State, t: Slot)
    requires Forest(s) && MidsOk(s) && Enabled(s, Remove)
    ensures var s', u := Next(s, Remove), RootSlot(|s.roots| - 1);
            && (IsSlot(s, t) <==> IsSlot(s', t) || t == u)
            && !IsSlot(s', u)
            && (IsSlot(s', t) ==>
                  && RefAt(s, t) == RefAt(s', t) && Resolve(s, RefAt(s, t)) == Resolve(s', RefAt(s', t))
                  && (RefAt(s, t).InWriteback? ==>
                        (KeyModified(RefAt(s, t).mid) in s.cache <==> KeyModified(RefAt(s, t).mid) in s'.cache)))
  {
    var s', u := Next(s, Remove), RootSlot(|s.roots| - 1);
    RemoveIsSlot(s, t);
    if IsSlot(s', t) {
      var r := RefAt(s, u);
      assert RefOk(s, r);
      assert !r.Unmodified? ==> MidOk(s, r.mid);
      OnlyHolder(s, t, u);
      RemoveResolve(s, RefAt(s, t));
    }
  }

  lemma RemoveShrinks(s: State)
    requires Forest(s) && MidsOk(s) && Enabled(s, Remove)
    ensures var last := |s.roots| - 1;
            OneMore(Next(s, Remove), s, RootSlot(last), Resolve(s, s.roots[last]))
  {
    var s', u := Next(s, Remove), RootSlot(|s.roots| - 1);
    var r := RefAt(s, u);
    assert RefOk(s, r);
    assert !r.Unmodified? ==> MidOk(s, r.mid);
    forall o
      ensures IsObj(s', o) <==> IsObj(s, o) && o != Resolve(s, r)
    {
      RemoveObj(s, o);
    }
    forall t
      ensures IsSlot(s, t) <==> IsSlot(s', t) || t == u
      ensures !IsSlot(s', u)
      ensures IsSlot(s', t) ==>
                && RefAt(s, t) == RefAt(s', t) && Resolve(s, RefAt(s, t)) == Resolve(s', RefAt(s', t))
                && (RefAt(s, t).InWriteback? ==>
                      (KeyModified(RefAt(s, t).mid) in s.cache <==> KeyModified(RefAt(s, t).mid) in s'.cache))
    {
      RemoveSlot(s, t);
    }
  }

  lemma RemoveRest(s: State)
    requires MidsOk(s) && CopiesOk(s) && Enabled(s, Remove)
    ensures var s' := Next(s, Remove); MidsOk(s') && CopiesOk(s')
  {
    var s' := Next(s, Remove);
    forall n: Mid ensures MidOk(s', n) {
      assert MidOk(s, n);
    }
  }

  lemma RemoveKeepsHolder(s: State, t: Slot, m: Mid)
    requires MidOk(s, m) && Enabled(s, Remove) && HoldsMid(s, t, m) && m in Next(s, Remove).writtenBack
    requires var last := |s.roots| - 1; OneMore(Next(s, Remove), s, RootSlot(last), Resolve(s, s.roots[last]))
    ensures HoldsMid(Next(s, Remove), t, m)
  {
    assert t != RootSlot(|s.roots| - 1);
  }

  lemma RemoveAwaited(s: State)
    requires Awaited(s) && MidsOk(s) && Enabled(s, Remove)
    requires var last := |s.roots| - 1; OneMore(Next(s, Remove), s, RootSlot(last), Resolve(s, s.roots[last]))
    ensures Awaited(Next(s, Remove))
  {
    var s' := Next(s, Remove);
    forall m: Mid | m in s'.writtenBack ensures exists t :: HoldsMid(s', t, m) {
      var t :| HoldsMid(s, t, m);
      assert MidOk(s, m);
      RemoveKeepsHolder(s, t, m);
    }
  }

  lemma CleanNotAwaited(s: State, u: Slot, m: Mid)
    requires Inv(s) && IsSlot(s, u) && RefAt(s, u).Unmodified? && m in s.writtenBack
    ensures s.writtenBack[m] != RefAt(s, u).ptr
  {
    var t :| HoldsMid(s, t, m);
    assert MidOk(s, m) && RefOk(s, RefAt(s, t));
    OnlyHolder(s, t, u);
  }

  lemma CleanIsHeldOnce(s: State, u: Slot)
    requires Inv(s) && IsSlot(s, u) && RefAt(s, u).Unmodified?
    ensures IsObj(s, OnDisk(RefAt(s, u).ptr))
    ensures forall m: Mid :: m in s.writtenBack ==> s.writtenBack[m] != RefAt(s, u).ptr
  {
    assert RefOk(s, RefAt(s, u));
    forall m: Mid | m in s.writtenBack ensures s.writtenBack[m] != RefAt(s, u).ptr {
      CleanNotAwaited(s, u, m);
    }
  }

  lemma ReleaseKeepsPtrs(s: State, s': State, p: Ptr)
    requires PtrsOk(s) && IsObj(s, OnDisk(p)) && forall m: Mid :: m in s.writtenBack ==> s.writtenBack[m] != p
    requires s' == s.(cache := s'.cache, roots := s'.roots, released := s.released + multiset{p})
    ensures PtrsOk(s')
  {
    forall m: Mid | m in s'.writtenBack ensures IsObj(s', OnDisk(s'.writtenBack[m])) {
      assert IsObj(s, OnDisk(s.writtenBack[m]));
    }
  }

  lemma RemoveCleanPtrs(s: State)
    requires Inv(s) && Enabled(s, Remove) && s.roots[|s.roots| - 1].Unmodified?
    ensures PtrsOk(Next(s, Remove))
  {
    var s', u := Next(s, Remove), RootSlot(|s.roots| - 1);
    CleanIsHeldOnce(s, u);
    ReleaseKeepsPtrs(s, s', RefAt(s, u).ptr);
  }

  lemma RemovePtrs(s: State)
    requires Inv(s) && Enabled(s, Remove)
    ensures PtrsOk(Next(s, Remove))
  {
    if s.roots[|s.roots| - 1].Unmodified? {
      RemoveCleanPtrs(s);
    } else {
      PtrsFrame(s, Next(s, Remove));
    }
  }

  lemma EditKeepsInv(s: State, step: Step)
    requires Inv(s) && Enabled(s, step) && IsEdit(step)
    ensures Inv(Next(s, step))
  {
    var s' := Next(s, step);
    match step {
      case Mutate(m, payload) =>
        MutateMoves(s, m, payload);
        StayedAcyclic(s, s', Same(), Same());
        RearrangedForest(s, s', Same(), Same());
        NodeEditRest(s, s', m);
      case TakeChild(m, i) =>
        assert MidOk(s, m);
        TakeMoves(s, m, i);
        TakeAcyclic(s, s', m, i, |s.roots|);
        RearrangedForest(s, s', TakeMap(m, i, |s.roots|), PutMap(m, i, |s.roots|));
        NodeEditRest(s, s', m);
      case PutChild(m, i, k) => PutKeepsInv(s, m, i, k);
      case Insert(payload, info, held) => InsertKeepsInv(s, payload, info, held);
      case Remove =>
        RemoveShrinks(s);
        ShrinkForest(s', s, RootSlot(|s.roots| - 1), Resolve(s, s.roots[|s.roots| - 1]));
        RemoveAwaited(s);
        RemoveRest(s);
        RemovePtrs(s);
    }
  }

  // ------------------------------------------------- removing an object with children

  /** The slots that remain keep what they denote. */
  lemma RemovedSlot(s: State, t: Slot)
    requires Inv(s) && Removable(s) && IsSlot(Removed(s), t)
    ensures IsSlot(s, t) && Resolve(Removed(s), RefAt(Removed(s), t)) == Resolve(s, RefAt(s, t))
    ensures t.ChildSlot? ==> t.parent != Resolve(s, s.roots[|s.roots| - 1])
  {
    var u := RootSlot(|s.roots| - 1);
    var r := RefAt(s, u);
    assert RefOk(s, r);
    assert !r.Unmodified? ==> MidOk(s, r.mid);
    RemoveObj(s, if t.ChildSlot? then t.parent else Resolve(s, r));
    assert IsSlot(s, t) && t != u;
    OnlyHolder(s, t, u);
    RemoveResolve(s, RefAt(s, t));
  }

  lemma NotDenotedAfter(s: State, x: Obj, t: Slot)
    requires Inv(s) && Removable(s)
    requires Denotes(s, ChildSlot(Resolve(s, s.roots[|s.roots| - 1]), 0), x)
    ensures !Denotes(Removed(s), t, x)
  {
    if Denotes(Removed(s), t, x) {
      RemovedSlot(s, t);
      OnlyHolder(s, t, ChildSlot(Resolve(s, s.roots[|s.roots| - 1]), 0));
    }
  }

  lemma ChildRemains(s: State, x: Obj)
    requires Inv(s) && Removable(s)
    requires Denotes(s, ChildSlot(Resolve(s, s.roots[|s.roots| - 1]), 0), x)
    ensures IsObj(Removed(s), x)
  {
    var r := RefAt(s, RootSlot(|s.roots| - 1));
    assert RefOk(s, r) && RefOk(s, RefAt(s, ChildSlot(Resolve(s, r), 0)));
    assert !r.Unmodified? ==> MidOk(s, r.mid);
    var grade :| Graded(s, grade);
    RemoveObj(s, x);
  }

  lemma RemovedOrphans(s: State)
    requires Inv(s) && Removable(s) && IsSlot(s, ChildSlot(Resolve(s, s.roots[|s.roots| - 1]), 0))
    ensures !NoOrphan(Removed(s))
  {
    var x := Resolve(s, RefAt(s, ChildSlot(Resolve(s, s.roots[|s.roots| - 1]), 0)));
    ChildRemains(s, x);
    forall t
      ensures !Denotes(Removed(s), t, x)
    {
      NotDenotedAfter(s, x, t);
    }
  }

  /** `remove` keeps the invariant exactly if the removed object has no children left: nothing
      would lead to them any more. */
  lemma RemoveSafeIff(s: State)
    requires Inv(s) && Removable(s)
    ensures IsObj(s, Resolve(s, s.roots[|s.roots| - 1]))
    ensures Inv(Removed(s)) <==> Body(s, Resolve(s, s.roots[|s.roots| - 1])).children == []
  {
    var o := Resolve(s, RefAt(s, RootSlot(|s.roots| - 1)));
    assert RefOk(s, RefAt(s, RootSlot(|s.roots| - 1)));
    if Body(s, o).children == [] {
      EditKeepsInv(s, Remove);
    } else {
      assert IsSlot(s, ChildSlot(o, 0));
      RemovedOrphans(s);
    }
  }
}
