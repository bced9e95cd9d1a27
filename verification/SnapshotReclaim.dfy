/** When the blocks of deleted snapshots are given back, and when they are forgotten. */
module SnapshotReclaim {
  import opened Common
  import opened SnapshotState
  import opened SnapshotTheorems

  /** Every entry of the deadlist is part of some live snapshot. */
  ghost predicate NoLeak(s: State) {
    forall b :: b in s.dead ==> exists g :: g in s.live && Holds(s, g, b)
  }

  /** A block that is given up leaves the tree of every later root, and no other block does; it is
      given back at once exactly if the handler takes it for newer than the newest snapshot, and
      entered in the deadlist otherwise. */
  lemma KillMeans(s: State, b: Block)
    requires Inv(s) && Enabled(s, Kill(b))
    ensures var t := Next(s, Kill(b));
            && (forall g: Generation :: Holds(t, g, b) <==> Holds(s, g, b) && g < s.gen)
            && (forall g: Generation, x :: x != b ==> (Holds(t, g, x) <==> Holds(s, g, x)))
            && (b in t.freed <==> Before(s.lastSnapshot, s.spans[b].birth))
            && (b in t.dead <==> b !in t.freed)
  {
    assert PlaceOk(s, b);
  }

  ghost predicate OnlyIn(s: State, id: Generation, b: Block) {
    Holds(s, id, b) && forall g :: g in s.live && g != id ==> !Holds(s, g, b)
  }

  /** An entry that only the snapshot to be deleted holds, outside the range that the deletion
      walks: it died after the next record, or was born no later than the previous one. */
  ghost predicate Skipped(s: State, id: Generation, b: Block)
    requires id in s.records
  {
    && b in s.dead && OnlyIn(s, id, b)
    && var next, prev := NextId(s, id), s.records[id];
    (next.Some? && next.value < s.dead[b].death) || (prev.Some? && s.dead[b].birth <= prev.value)
  }

  /** The step leaves an entry in the deadlist that no live snapshot holds. */
  ghost predicate Leaks(s: State, step: Step)
    requires Enabled(s, step)
  {
    match step
    case Kill(b) => !Before(s.lastSnapshot, s.spans[b].birth) && forall g :: g in s.live ==> g < s.spans[b].birth
    case Delete(id) => exists b :: Skipped(s, id, b)
    case _ => false
  }

  lemma KillLeaksIff(s: State, b: Block)
    requires Inv(s) && Enabled(s, Kill(b)) && NoLeak(s)
    ensures NoLeak(Next(s, Kill(b))) <==> !Leaks(s, Kill(b))
  {
    var t := Next(s, Kill(b));
    KillMeans(s, b);
    forall x | x in s.dead ensures x in t.dead && exists g :: g in t.live && Holds(t, g, x) {
      assert PlaceOk(s, x);
      var g :| g in s.live && Holds(s, g, x);
      assert g in t.live && Holds(t, g, x);
    }
    if !Leaks(s, Kill(b)) && b in t.dead {
      var g :| g in s.live && s.spans[b].birth <= g;
      assert g in t.live && Holds(t, g, b);
    }
  }

  lemma RangeOrSkipped(s: State, id: Generation, b: Block)
    requires Inv(s) && Enabled(s, Delete(id)) && b in s.dead && OnlyIn(s, id, b)
    ensures Skipped(s, id, b) <==> b !in Released(s, id, NextId(s, id))
  {
    assert PlaceOk(s, b);
  }

  lemma SkippedIsLost(s: State, id: Generation, b: Block)
    requires Inv(s) && Enabled(s, Delete(id)) && NoLeak(s) && b in s.dead
    ensures Skipped(s, id, b)
       <==> b !in Released(s, id, NextId(s, id)) && !exists g :: g in s.live - {id} && Holds(s, g, b)
  {
    if OnlyIn(s, id, b) {
      RangeOrSkipped(s, id, b);
    } else {
      var g :| g in s.live && Holds(s, g, b);
      if g == id {
        var x :| x in s.live && x != id && Holds(s, x, b);
        assert x in s.live - {id};
      } else {
        assert g in s.live - {id};
      }
    }
  }

  lemma DeleteLeaksIff(s: State, id: Generation)
    requires Inv(s) && Enabled(s, Delete(id)) && NoLeak(s)
    ensures NoLeak(Next(s, Delete(id))) <==> !Leaks(s, Delete(id))
  {
    var t := Next(s, Delete(id));
    forall b | b in s.dead
      ensures Skipped(s, id, b) <==> b in t.dead && !exists g :: g in t.live && Holds(t, g, b)
    {
      SkippedIsLost(s, id, b);
      assert forall g :: Holds(t, g, b) == Holds(s, g, b);
    }
  }

  /** Between live neighbours, or none, nothing is skipped. */
  lemma NothingSkipped(s: State, id: Generation, b: Block)
    requires Inv(s) && Enabled(s, Delete(id))
    requires NextId(s, id).Some? ==> NextId(s, id).value in s.live
    requires s.records[id].Some? ==> s.records[id].value in s.live
    ensures !Skipped(s, id, b)
  {
    if b in s.dead {
      assert PlaceOk(s, b);
    }
  }

  /** Next to live neighbours a deletion gives back all that only the deleted snapshot needed. */
  lemma DeleteReclaims(s: State, id: Generation)
    requires Inv(s) && Enabled(s, Delete(id)) && NoLeak(s)
    requires NextId(s, id).Some? ==> NextId(s, id).value in s.live
    requires s.records[id].Some? ==> s.records[id].value in s.live
    ensures NoLeak(Next(s, Delete(id)))
  {
    DeleteLeaksIff(s, id);
    forall b ensures !Skipped(s, id, b) {
      NothingSkipped(s, id, b);
    }
  }

  /** The deadlist holds only what some live snapshot holds, until a step leaks. */
  lemma StepLeaksIff(s: State, step: Step)
    requires Inv(s) && Enabled(s, step) && NoLeak(s)
    ensures NoLeak(Next(s, step)) <==> !Leaks(s, step)
  {
    match step {
      case Kill(b) => KillLeaksIff(s, b);
      case Delete(id) => DeleteLeaksIff(s, id);
      case _ =>
        var t := Next(s, step);
        forall x | x in t.dead ensures exists g :: g in t.live && Holds(t, g, x) {
          assert x in s.spans;
          var g :| g in s.live && Holds(s, g, x);
          assert g in t.live && Holds(t, g, x);
        }
    }
  }

  // ------------------------------------------------------------------ oldest first

  /** Deleted records lie below all live snapshots, and no live record refers to a deleted one. */
  ghost predicate Tight(s: State) {
    && (forall r :: r in s.records && r in s.live && s.records[r].Some? ==> s.records[r].value in s.live)
    && (s.previous.Some? ==> s.previous.value in s.live)
    && (forall r, g :: r in s.records && g in s.live && g < r ==> r in s.live)
  }

  /** Snapshots are deleted oldest first, and the handler does not rely on a deleted one. */
  ghost predicate Tidy(s: State, step: Step) {
    match step
    case Delete(id) => forall g :: g in s.live ==> id <= g
    case Kill(_) => s.lastSnapshot.Some? ==> s.lastSnapshot.value in s.live
    case _ => true
  }

  lemma ChainAt(s: State, r: Generation, g: Generation)
    requires Chain(s) && r in s.records && g in s.live && g < r
    ensures !Before(s.records[r], g)
  {
  }

  /** Only the record after the deleted snapshot referred to it. */
  lemma OneRefersToOldest(s: State, id: Generation, r: Generation)
    requires Chain(s) && id in s.live && Tight(s) && r in s.records && id < r && NextId(s, id) != Some(r)
    ensures s.records[r] != Some(id)
  {
    var next := NextId(s, id);
    assert next.Some? && next.value in s.live && next.value < r;
    ChainAt(s, r, next.value);
  }

  lemma DeleteKeepsTight(s: State, id: Generation)
    requires Inv(s) && Enabled(s, Delete(id)) && Tight(s) && Tidy(s, Delete(id))
    ensures Tight(Next(s, Delete(id)))
  {
    var t := Next(s, Delete(id));
    assert s.records[id] == None;
    forall r | r in t.records && r in t.live && t.records[r].Some?
      ensures t.records[r].value in t.live
    {
      if NextId(s, id) != Some(r) {
        OneRefersToOldest(s, id, r);
      }
    }
    if NextId(s, id).Some? {
      assert !Before(s.previous, NextId(s, id).value);
    }
  }

  lemma StepKeepsTight(s: State, step: Step)
    requires Inv(s) && Enabled(s, step) && Tight(s) && Tidy(s, step)
    ensures Tight(Next(s, step))
  {
    match step {
      case Delete(id) => DeleteKeepsTight(s, id);
      case Create(id) =>
      case _ =>
        assert Next(s, step).records == s.records;
    }
  }

  lemma StepReclaims(s: State, step: Step)
    requires Inv(s) && Enabled(s, step) && Tight(s) && Tidy(s, step) && NoLeak(s)
    ensures NoLeak(Next(s, step))
  {
    StepLeaksIff(s, step);
    if step.Delete? {
      DeleteReclaims(s, step.id);
    }
  }

  ghost predicate AllTidy(s: State, run: seq<Step>)
    requires Runs(s, run)
    decreases |run|
  {
    run == [] || (Tidy(s, run[0]) && AllTidy(Next(s, run[0]), run[1..]))
  }

  lemma {:induction false} TidyRunsReclaim(s: State, run: seq<Step>)
    requires Inv(s) && Runs(s, run) && AllTidy(s, run) && Tight(s) && NoLeak(s)
    ensures NoLeak(After(s, run))
    decreases |run|
  {
    if run != [] {
      StepKeepsInv(s, run[0]);
      StepKeepsTight(s, run[0]);
      StepReclaims(s, run[0]);
      TidyRunsReclaim(Next(s, run[0]), run[1..]);
    }
  }

  /** From the creation of the dataset on, over every run with the provisos for safety and with
      deletions oldest first: a block that was given up is given back exactly when no live snapshot
      holds it. */
  lemma GivenBackExactly(run: seq<Step>, b: Block)
    requires Runs(New(), run) && AllCareful(New(), run) && AllTidy(New(), run)
    requires var s := After(New(), run); b in s.spans && s.spans[b].death.Some?
    ensures var s := After(New(), run); b in s.freed <==> !exists g :: g in s.live && Holds(s, g, b)
  {
    var s := After(New(), run);
    SnapshotsOfADataset(run);
    NewIsSafe();
    TidyRunsReclaim(New(), run);
    assert PlaceOk(s, b);
  }

  // ----------------------------------------------------------- newest first: a leak

  /** Two snapshots hold block b, which is given up then. */
  function TwoHold(b: Block, c: Block): seq<Step> {
    [Write(b), Sync, Create(1), Write(c), Sync, Create(3), Reopen, Kill(b)]
  }

  function TwoHeld(b: Block, c: Block): State {
    State(5, Some(3), Some(3), map[1 := None, 3 := Some(1)], {1, 3}, map[b := Entry(1, 5)],
          map[b := Span(1, Some(5)), c := Span(3, None)], {})
  }

  function FirstTaken(b: Block): State {
    State(3, None, Some(1), map[1 := None], {1}, map[], map[b := Span(1, None)], {})
  }

  lemma TakeFirst(b: Block)
    ensures Next(Next(Next(New(), Write(b)), Sync), Create(1)) == FirstTaken(b)
  {
  }

  lemma TakeSecond(b: Block, c: Block)
    requires b != c
    ensures Enabled(Next(Next(FirstTaken(b), Write(c)), Sync), Create(3))
    ensures Next(Next(Next(FirstTaken(b), Write(c)), Sync), Create(3))
         == TwoHeld(b, c).(lastSnapshot := None, dead := map[], spans := map[b := Span(1, None), c := Span(3, None)])
  {
    var s := Next(Next(Next(FirstTaken(b), Write(c)), Sync), Create(3));
    assert s.records == map[1 := None, 3 := Some(1)] && s.live == {1, 3};
  }

  lemma TwoHoldRuns(b: Block, c: Block)
    requires b != c
    ensures Runs(New(), TwoHold(b, c)) && After(New(), TwoHold(b, c)) == TwoHeld(b, c)
  {
    var s1 := Next(New(), Write(b));
    var s2 := Next(s1, Sync);
    var s3 := Next(s2, Create(1));
    var s4 := Next(s3, Write(c));
    var s5 := Next(s4, Sync);
    var s6 := Next(s5, Create(3));
    var s7 := Next(s6, Reopen);
    var s8 := Next(s7, Kill(b));
    TakeFirst(b);
    TakeSecond(b, c);
    assert s8.dead == map[b := Entry(1, 5)] && s8.spans == map[b := Span(1, Some(5)), c := Span(3, None)];
    var run := TwoHold(b, c);
    assert run[8..] == [];
    RunFrom(s7, run, 7);
    RunFrom(s6, run, 6);
    RunFrom(s5, run, 5);
    RunFrom(s4, run, 4);
    RunFrom(s3, run, 3);
    RunFrom(s2, run, 2);
    RunFrom(s1, run, 1);
    RunFrom(New(), run, 0);
    assert run[0..] == run;
  }

  /** The record of a deleted snapshot stays and is taken for the next one: when the newer snapshot
      is deleted first, the block that both held is forgotten, although no snapshot is left. */
  lemma NewestFirstLeaks(b: Block, c: Block)
    requires b != c
    ensures Runs(New(), TwoHold(b, c))
    ensures var s := After(New(), TwoHold(b, c));
            && Inv(s) && Safe(s) && NoLeak(s)
            && Runs(s, [Delete(3), Delete(1)])
            && var t := After(s, [Delete(3), Delete(1)]);
            t.live == {} && b in t.dead && b !in t.freed
  {
    TwoHoldRuns(b, c);
    NewIsSafe();
    RunKeepsInv(New(), TwoHold(b, c));
    var s := TwoHeld(b, c);
    assert Holds(s, 1, b) && 1 in s.live;
    NextIdUnique(s, 3, None);
    var t := Next(s, Delete(3));
    assert b in t.dead && t.live == {1} && 3 in t.records && 1 in t.records;
    NextIdUnique(t, 1, Some(3));
    var u := Next(t, Delete(1));
    assert b in u.dead && u.live == {};
    var run := [Delete(3), Delete(1)];
    assert run[2..] == [] && run[0..] == run;
    RunFrom(t, run, 1);
    RunFrom(s, run, 0);
  }
}
