/** Snapshots never lose a block, and exactly where that rests on the caller. */
module SnapshotTheorems {
  import opened Common
  import opened SnapshotState

  lemma StepKeepsPlaces(s: State, step: Step)
    requires Inv(s) && Enabled(s, step)
    ensures Places(Next(s, step))
  {
    var t := Next(s, step);
    forall b | b in t.spans
      ensures PlaceOk(t, b)
    {
      if b in s.spans {
        assert PlaceOk(s, b);
      }
    }
  }

  lemma CreateKeepsChain(s: State, id: Generation)
    requires Inv(s) && Enabled(s, Create(id))
    ensures Chain(Next(s, Create(id)))
  {
  }

  lemma DeleteKeepsChain(s: State, id: Generation)
    requires Inv(s) && Enabled(s, Delete(id))
    ensures Chain(Next(s, Delete(id)))
  {
  }

  lemma StepKeepsChain(s: State, step: Step)
    requires Inv(s) && Enabled(s, step)
    ensures Chain(Next(s, step))
  {
    match step {
      case Create(id) => CreateKeepsChain(s, id);
      case Delete(id) => DeleteKeepsChain(s, id);
      case _ =>
    }
  }

  lemma StepKeepsInv(s: State, step: Step)
    requires Inv(s) && Enabled(s, step)
    ensures Inv(Next(s, step))
  {
    StepKeepsPlaces(s, step);
    StepKeepsChain(s, step);
  }

  /** Nothing is given back twice. */
  lemma FreedOnce(s: State, step: Step)
    requires Inv(s) && Enabled(s, step)
    ensures s.freed <= Next(s, step).freed
    ensures step.Delete? ==> Released(s, step.id, NextId(s, step.id)) !! s.freed
    ensures step.Kill? ==> step.b !in s.freed
    ensures !step.Delete? && !step.Kill? ==> Next(s, step).freed == s.freed
  {
    if step.Delete? {
      forall b | b in Released(s, step.id, NextId(s, step.id))
        ensures b !in s.freed
      {
        assert PlaceOk(s, b);
      }
    } else if step.Kill? {
      assert PlaceOk(s, step.b);
    }
  }

  // ------------------------------------------------------------------- deleting

  /** A block that a deletion releases is in no other live snapshot. */
  lemma ReleasedIsUnused(s: State, id: Generation, b: Block, g: Generation)
    requires Inv(s) && Enabled(s, Delete(id))
    requires b in Released(s, id, NextId(s, id)) && g in s.live && g != id
    ensures !Holds(s, g, b)
  {
    assert PlaceOk(s, b);
    if g < id {
      assert !Before(s.records[id], g);
    }
  }

  lemma DeleteIsSafe(s: State, id: Generation)
    requires Inv(s) && Enabled(s, Delete(id)) && Safe(s)
    ensures Safe(Next(s, Delete(id)))
  {
    var t := Next(s, Delete(id));
    forall g, b | g in t.live && Holds(t, g, b)
      ensures b !in t.freed
    {
      assert Holds(s, g, b);
      if b in Released(s, id, NextId(s, id)) {
        ReleasedIsUnused(s, id, b, g);
      }
    }
  }

  // ----------------------------------------------------- killing, with its condition

  /** Giving up a block is safe exactly if the handler does not take it for newer than the newest
      snapshot while a live snapshot at or after its birth exists. */
  lemma KillIsSafeIff(s: State, b: Block)
    requires Inv(s) && Enabled(s, Kill(b)) && Safe(s)
    ensures Safe(Next(s, Kill(b)))
       <==> !(Before(s.lastSnapshot, s.spans[b].birth) && exists g :: g in s.live && s.spans[b].birth <= g)
  {
    var t, birth := Next(s, Kill(b)), s.spans[b].birth;
    if Before(s.lastSnapshot, birth) && exists g :: g in s.live && birth <= g {
      var g :| g in s.live && birth <= g;
      assert Holds(t, g, b) && b in t.freed;
    } else {
      forall g, x | g in t.live && Holds(t, g, x)
        ensures x !in t.freed
      {
        assert Holds(s, g, x);
      }
    }
  }

  lemma CoveredKillIsSafe(s: State, b: Block)
    requires Inv(s) && Enabled(s, Kill(b)) && Safe(s) && Covered(s)
    ensures Safe(Next(s, Kill(b)))
  {
    KillIsSafeIff(s, b);
  }

  /** Opening the dataset covers all snapshots; only taking a new one ends that, and it always
      does. */
  lemma CoverageOf(s: State, step: Step)
    requires Inv(s) && Enabled(s, step)
    ensures step.Reopen? ==> Covered(Next(s, step))
    ensures Covered(s) && !step.Create? ==> Covered(Next(s, step))
    ensures step.Create? ==> !Covered(Next(s, step))
  {
    if step.Create? {
      assert step.id in Next(s, step).live;
    }
  }

  // ---------------------------------------------------------------------- runs

  ghost predicate Runs(s: State, run: seq<Step>)
    decreases |run|
  {
    run == [] || (Enabled(s, run[0]) && Runs(Next(s, run[0]), run[1..]))
  }

  ghost function After(s: State, run: seq<Step>): State
    requires Runs(s, run)
    decreases |run|
  {
    if run == [] then s else After(Next(s, run[0]), run[1..])
  }

  function New(): State {
    State(1, None, None, map[], {}, map[], map[], {})
  }

  lemma NewIsSafe()
    ensures Inv(New()) && Safe(New()) && Covered(New())
  {
  }

  lemma {:induction false} RunKeepsInv(s: State, run: seq<Step>)
    requires Inv(s) && Runs(s, run)
    ensures Inv(After(s, run))
    decreases |run|
  {
    if run != [] {
      StepKeepsInv(s, run[0]);
      RunKeepsInv(Next(s, run[0]), run[1..]);
    }
  }

  // ---------------------------------------------------- taking one, with its condition

  lemma KillLoses(s: State, b: Block, id: Generation)
    requires Inv(s) && Enabled(s, Kill(b)) && id < s.gen
    ensures Lost(Next(s, Kill(b)), id) <==> Lost(s, id) || Frees(s, Kill(b), id)
  {
    var t := Next(s, Kill(b));
    assert PlaceOk(s, b);
    if Lost(s, id) {
      var x :| Holds(s, id, x) && x in s.freed;
      assert Holds(t, id, x);
    } else if Lost(t, id) {
      var x :| Holds(t, id, x) && x in t.freed;
      assert x != b ==> Holds(s, id, x);
    }
    if Frees(s, Kill(b), id) {
      assert Holds(t, id, b);
    }
  }

  lemma DeleteLoses(s: State, d: Generation, id: Generation)
    requires Inv(s) && Enabled(s, Delete(d))
    ensures Lost(Next(s, Delete(d)), id) <==> Lost(s, id) || Frees(s, Delete(d), id)
  {
    var t := Next(s, Delete(d));
    if Lost(s, id) {
      var x :| Holds(s, id, x) && x in s.freed;
      assert Holds(t, id, x);
    } else if Lost(t, id) {
      var x :| Holds(t, id, x) && x in t.freed;
      assert Holds(s, id, x) && PlaceOk(s, x);
      assert s.dead[x].birth <= id < s.dead[x].death;
    }
    if Frees(s, Delete(d), id) {
      var x :| x in Released(s, d, NextId(s, d)) && s.dead[x].birth <= id < s.dead[x].death;
      assert PlaceOk(s, x) && Holds(t, id, x);
    }
  }

  /** A step loses a block of the root with generation id exactly if it is one that frees. */
  lemma StepLoses(s: State, step: Step, id: Generation)
    requires Inv(s) && Enabled(s, step) && id < s.gen
    ensures id < Next(s, step).gen
    ensures Lost(Next(s, step), id) <==> Lost(s, id) || Frees(s, step, id)
  {
    match step {
      case Kill(b) => KillLoses(s, b, id);
      case Delete(d) => DeleteLoses(s, d, id);
      case _ =>
        var t := Next(s, step);
        assert t.freed == s.freed && forall x :: x in s.spans ==> x in t.spans && t.spans[x] == s.spans[x];
        if Lost(s, id) {
          var x :| Holds(s, id, x) && x in s.freed;
          assert Holds(t, id, x);
        }
        if Lost(t, id) {
          var x :| Holds(t, id, x) && x in t.freed;
          assert Holds(s, id, x);
        }
    }
  }

  ghost predicate SomeFrees(s: State, run: seq<Step>, id: Generation)
    requires Runs(s, run)
    decreases |run|
  {
    run != [] && (Frees(s, run[0], id) || SomeFrees(Next(s, run[0]), run[1..], id))
  }

  /** Over every run, a block of the root is lost afterwards exactly if one was before or some
      step of the run frees one. */
  lemma {:induction false} RunLoses(s: State, run: seq<Step>, id: Generation)
    requires Inv(s) && id < s.gen && Runs(s, run)
    ensures Lost(After(s, run), id) <==> Lost(s, id) || SomeFrees(s, run, id)
    decreases |run|
  {
    if run != [] {
      StepLoses(s, run[0], id);
      StepKeepsInv(s, run[0]);
      RunLoses(Next(s, run[0]), run[1..], id);
    }
  }

  lemma SyncedIsWhole(s: State)
    requires Inv(s)
    ensures !Lost(Next(s, Sync), s.gen)
  {
    var t := Next(s, Sync);
    forall b | Holds(t, s.gen, b)
      ensures b !in t.freed
    {
      assert PlaceOk(s, b);
    }
  }

  /** Safety after taking a snapshot is the wholeness of its root. */
  lemma CreateAddsItsRoot(s: State, id: Generation)
    requires Inv(s) && Enabled(s, Create(id)) && Safe(s)
    ensures Safe(Next(s, Create(id))) <==> !Lost(s, id)
  {
    var t := Next(s, Create(id));
    assert forall g, b :: Holds(t, g, b) == Holds(s, g, b);
    if Lost(s, id) {
      var b :| Holds(s, id, b) && b in s.freed;
      assert id in t.live && Holds(t, id, b);
    }
  }

  /** The root of generation id is synced, then a run follows, then it is snapshotted.  The new
      snapshot is whole if and only if no step of that run gives up a block of the root that the
      handler takes for new, or deletes a snapshot that still held one. */
  lemma CreateIsSafeIff(s: State, run: seq<Step>)
    requires Inv(s) && Runs(Next(s, Sync), run)
    requires Safe(After(Next(s, Sync), run)) && Enabled(After(Next(s, Sync), run), Create(s.gen))
    ensures Safe(Next(After(Next(s, Sync), run), Create(s.gen))) <==> !SomeFrees(Next(s, Sync), run, s.gen)
  {
    var s1 := Next(s, Sync);
    StepKeepsInv(s, Sync);
    SyncedIsWhole(s);
    RunLoses(s1, run, s.gen);
    RunKeepsInv(s1, run);
    CreateAddsItsRoot(After(s1, run), s.gen);
  }

  lemma UnkilledIsWhole(s: State, id: Generation)
    requires Inv(s) && Unkilled(s, id)
    ensures !Lost(s, id)
  {
    forall b | Holds(s, id, b)
      ensures b !in s.freed
    {
      assert PlaceOk(s, b);
    }
  }

  // -------------------------------------------------------------------- whole runs

  /** The handler knows the newest snapshot when a block is given up, and a snapshot is taken of a
      root from which nothing was given up since its sync. */
  ghost predicate Careful(s: State, step: Step) {
    match step
    case Kill(b) => Covered(s)
    case Create(id) => Unkilled(s, id)
    case _ => true
  }

  lemma WriteIsSafe(s: State, b: Block)
    requires Inv(s) && Enabled(s, Write(b)) && Safe(s)
    ensures Safe(Next(s, Write(b)))
  {
    var t := Next(s, Write(b));
    forall g, x | g in t.live && Holds(t, g, x)
      ensures x !in t.freed
    {
      if x == b {
        assert g < s.gen;
      } else {
        assert Holds(s, g, x);
      }
    }
  }

  lemma StepIsSafe(s: State, step: Step)
    requires Inv(s) && Enabled(s, step) && Safe(s) && Careful(s, step)
    ensures Safe(Next(s, step))
  {
    match step {
      case Kill(b) => CoveredKillIsSafe(s, b);
      case Create(id) =>
        UnkilledIsWhole(s, id);
        CreateAddsItsRoot(s, id);
      case Delete(id) => DeleteIsSafe(s, id);
      case Write(b) => WriteIsSafe(s, b);
      case _ =>
        var t := Next(s, step);
        assert forall g, b :: Holds(t, g, b) == Holds(s, g, b);
    }
  }

  ghost predicate AllCareful(s: State, run: seq<Step>)
    requires Runs(s, run)
    decreases |run|
  {
    run == [] || (Careful(s, run[0]) && AllCareful(Next(s, run[0]), run[1..]))
  }

  /** Over every run with the two provisos, every block of every live snapshot is still there. */
  lemma {:induction false} SnapshotsStayWhole(s: State, run: seq<Step>)
    requires Inv(s) && Safe(s) && Runs(s, run) && AllCareful(s, run)
    ensures Inv(After(s, run)) && Safe(After(s, run))
    decreases |run|
  {
    if run != [] {
      StepKeepsInv(s, run[0]);
      StepIsSafe(s, run[0]);
      SnapshotsStayWhole(Next(s, run[0]), run[1..]);
    }
  }

  /** The same from the creation of the dataset on. */
  lemma SnapshotsOfADataset(run: seq<Step>)
    requires Runs(New(), run) && AllCareful(New(), run)
    ensures Inv(After(New(), run)) && Safe(After(New(), run))
  {
    NewIsSafe();
    SnapshotsStayWhole(New(), run);
  }

  // ---------------------------------------------------------------- the failing runs

  lemma RunFrom(s: State, run: seq<Step>, i: nat)
    requires i < |run| && Enabled(s, run[i]) && Runs(Next(s, run[i]), run[i + 1..])
    ensures Runs(s, run[i..]) && After(s, run[i..]) == After(Next(s, run[i]), run[i + 1..])
  {
    assert run[i..][1..] == run[i + 1..];
  }

  /** Without reopening, the handler misses a snapshot just taken: its block is given back. */
  lemma StaleHandler(b: Block)
    ensures var run := [Write(b), Sync, Create(1), Kill(b)];
            Runs(New(), run) && !Safe(After(New(), run))
  {
    var s1 := Next(New(), Write(b));
    var s2 := Next(s1, Sync);
    var s3 := Next(s2, Create(1));
    var s4 := Next(s3, Kill(b));
    assert Holds(s4, 1, b) && 1 in s4.live && b in s4.freed;
    var run := [Write(b), Sync, Create(1), Kill(b)];
    assert run[4..] == [] && run[0..] == run;
    RunFrom(s3, run, 3);
    RunFrom(s2, run, 2);
    RunFrom(s1, run, 1);
    RunFrom(New(), run, 0);
  }

  /** A root that was changed after its sync is snapshotted with a block already given back. */
  lemma ChangedRoot(b: Block)
    ensures var run := [Write(b), Sync, Kill(b), Create(1)];
            Runs(New(), run) && !Safe(After(New(), run))
  {
    var s1 := Next(New(), Write(b));
    var s2 := Next(s1, Sync);
    var s3 := Next(s2, Kill(b));
    var s4 := Next(s3, Create(1));
    assert Holds(s4, 1, b) && 1 in s4.live && b in s4.freed;
    var run := [Write(b), Sync, Kill(b), Create(1)];
    assert run[4..] == [] && run[0..] == run;
    RunFrom(s3, run, 3);
    RunFrom(s2, run, 2);
    RunFrom(s1, run, 1);
    RunFrom(New(), run, 0);
  }
}
