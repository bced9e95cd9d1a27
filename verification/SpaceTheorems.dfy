/** Crash consistency over whole runs, and what happens when roots occupy more blocks than
    their pointers ask for. */
module SpaceTheorems {
  import opened Common
  import opened SpaceState
  import opened SpaceInvariant
  import Layout = Parity1Layout

  /** A freshly created database: cleared superblocks, nothing allocated yet. */
  function Created(vdevs: nat): State {
    State(2, {}, {}, None, map[], [], {}, {}, map[], {}, None, seq(vdevs, _ => Slots(None, None)), Running)
  }

  lemma CreatedInv(vdevs: nat)
    requires vdevs > 0
    ensures Inv(Created(vdevs))
  {
    var s := Created(vdevs);
    forall b: nat ensures BitOk(s, b) {
    }
  }

  lemma StepKeepsInv(s: State, step: Step)
    requires Inv(s) && Enabled(s, step) && WholeRoot(step)
    ensures Inv(Next(s, step))
  {
    match step {
      case Load(seg) => LoadKeeps(s, seg);
      case Grant(r, content) => AllocatedKeeps(s, r, content);
      case Release(r) => ReleaseKeeps(s, r);
      case FlushMessage => FlushMessageKeeps(s);
      case WriteRoot(root, actual, content) => WriteRootKeeps(s, root, content);
      case FlushPool => SyncStageKeeps(s, step);
      case BeginSuperblock => SyncStageKeeps(s, step);
      case EndSuperblock => EndSuperblockKeeps(s);
      case Finish => FinishKeeps(s);
      case Crash(garbage, vdevs) => CrashRecovers(s, garbage, vdevs);
    }
  }

  /** The states a run goes through, crashes and reopenings included. */
  ghost predicate Executes(s: State, steps: seq<Step>, s': State)
    decreases |steps|
  {
    if steps == [] then s' == s
    else Enabled(s, steps[0]) && Executes(Next(s, steps[0]), steps[1..], s')
  }

  /** A run whose roots occupy exactly the blocks their pointers ask for. */
  ghost predicate Runs(s: State, steps: seq<Step>, s': State) {
    Executes(s, steps, s') && forall i :: 0 <= i < |steps| ==> WholeRoot(steps[i])
  }

  lemma {:induction false} RunKeepsInv(s: State, steps: seq<Step>, s': State)
    requires Inv(s) && Runs(s, steps, s')
    ensures Inv(s')
    decreases |steps|
  {
    if steps != [] {
      StepKeepsInv(s, steps[0]);
      assert forall i :: 0 <= i < |steps[1..]| ==> steps[1..][i] == steps[i + 1];
      RunKeepsInv(Next(s, steps[0]), steps[1..], s');
    }
  }

  /** Crash consistency.  After any run of a created database, a crash - at any stage of a
      sync, even in the middle of the superblock write - recovers the last completed sync or
      the one in progress, with every block of that tree intact, and never loses a sync whose
      superblock was completed. */
  lemma CrashConsistency(vdevCount: nat, steps: seq<Step>, s: State, garbage: nat -> Data, vdevs: seq<Slots>)
    requires vdevCount > 0 && Runs(Created(vdevCount), steps, s) && SlotsAfterCrash(s, vdevs)
    ensures var found, disk := Newest(Candidates(vdevs)), Written(s.disk, s.unflushed, garbage);
            && (found == s.synced || (!s.phase.Running? && found == Some(s.phase.tree)))
            && (s.phase.Durable? ==> found == Some(s.phase.tree))
            && (found.Some? ==> Intact(found.value, disk))
  {
    CreatedInv(vdevCount);
    RunKeepsInv(Created(vdevCount), steps, s);
    CrashRecovers(s, garbage, vdevs);
  }

  /** No range granted in a generation overlaps a block of the last synced tree, a block in
      use, or another range granted in that generation - released or not, so that an offset
      and a generation together never name two objects. */
  lemma GrantsAreFresh(vdevCount: nat, steps: seq<Step>, s: State, r: Range, content: nat -> Data)
    requires vdevCount > 0 && Runs(Created(vdevCount), steps, s) && Enabled(s, Grant(r, content))
    ensures s.synced.Some? ==> Blocks(r) !! s.synced.value.blocks.Keys
    ensures Blocks(r) !! s.inUse && Blocks(r) !! s.taken
  {
    CreatedInv(vdevCount);
    RunKeepsInv(Created(vdevCount), steps, s);
    GrantIsFree(s, r);
    if s.synced.Some? {
      SyncedBlocksKept(s);
    }
  }

  // ------------------------------------------------- roots larger than their pointer

  /** The state in which `sync` leaves the handler: `old_root_allocation` holds the size the
      pointer asks for, while the root occupies `actual` blocks whose allocation message is
      still delayed. */
  ghost predicate JustSynced(s: State, t: Tree) {
    && s.phase.Running? && s.allocators == map[] && s.current == s.last == t.bitmap && s.oldRoot == Some(t.root)
    && t.root.size <= t.actual && InSegment(Range(t.root.offset, t.actual), Segment(t.root.offset))
    && Blocks(Range(t.root.offset, t.actual)) !! t.bitmap
    && t.blocks.Keys == t.bitmap + Blocks(Range(t.root.offset, t.actual))
  }

  ghost predicate GrantsAvoid(s: State, seg: nat, t: Tree)
    requires Enabled(s, Load(seg))
  {
    forall r: Range, content: nat -> Data ::
      Segment(r.offset) == seg && Enabled(Next(s, Load(seg)), Grant(r, content)) ==> Blocks(r) !! t.blocks.Keys
  }

  lemma WholeRootProtected(s: State, t: Tree, r: Range)
    requires JustSynced(s, t) && t.actual == t.root.size
    requires InSegment(r, Segment(t.root.offset)) && Segment(r.offset) == Segment(t.root.offset)
    requires Blocks(r) !! LoadedBits(s, Segment(t.root.offset))
    ensures Blocks(r) !! t.blocks.Keys
  {
    assert Range(t.root.offset, t.actual) == t.root;
    forall b | b in Blocks(r) ensures b !in t.blocks.Keys {
      SegmentOf(r, b);
      assert b in t.bitmap ==> b in LoadedBits(s, Segment(t.root.offset));
      assert Blocks(t.root) !! (set x | x in s.current + s.last && Segment(x) == Segment(t.root.offset));
    }
  }

  lemma RootTailGranted(s: State, t: Tree, r: Range)
    requires JustSynced(s, t) && t.root.size < t.actual && r == Range(t.root.offset + t.root.size, 1)
    ensures InSegment(r, Segment(t.root.offset)) && Segment(r.offset) == Segment(t.root.offset)
    ensures Blocks(r) !! LoadedBits(s, Segment(t.root.offset))
  {
    var whole := Range(t.root.offset, t.actual);
    forall b | b in Blocks(r) ensures b in Blocks(whole) && b !in Blocks(t.root) {
      assert Covers(whole, b);
    }
    SegmentOf(whole, r.offset) by {
      assert Covers(whole, r.offset);
    }
  }

  /** After a sync the allocator of the root's segment avoids the synced tree if and only if
      the root occupies exactly the blocks its pointer asks for. */
  lemma OldRootProtectedIff(s: State, t: Tree)
    requires JustSynced(s, t)
    ensures GrantsAvoid(s, Segment(t.root.offset), t) <==> t.actual == t.root.size
  {
    var seg := Segment(t.root.offset);
    var s' := Next(s, Load(seg));
    if t.actual == t.root.size {
      forall r: Range, content: nat -> Data | Segment(r.offset) == seg && Enabled(s', Grant(r, content))
        ensures Blocks(r) !! t.blocks.Keys
      {
        WholeRootProtected(s, t, r);
      }
    } else {
      var r := Range(t.root.offset + t.root.size, 1);
      RootTailGranted(s, t, r);
      assert Enabled(s', Grant(r, (b: nat) => 0));
      assert t.root.offset + t.root.size in Blocks(r) && t.root.offset + t.root.size in t.blocks.Keys;
    }
  }

  function Zero(b: nat): Data {
    0
  }

  function One(b: nat): Data {
    1
  }

  /** Sync a root of one block that occupies two, then allocate one block in the next generation. */
  function OverwritingRun(): seq<Step> {
    [Load(0), WriteRoot(Range(0, 1), 2, Zero), FlushPool, BeginSuperblock, EndSuperblock, Finish]
    + [Load(0), Grant(Range(1, 1), One)]
  }

  function LargeRoot(): Tree {
    Tree(2, Range(0, 1), 2, {}, map[0 := 0, 1 := 0])
  }

  /** The database after the sync of that run. */
  function LargeRootSynced(vdevs: nat): State {
    State(3, {}, {}, Some(Range(0, 1)), map[], [Message(Action.Allocate, Range(0, 2))], {0, 1}, {}, map[0 := 0, 1 := 0],
          {}, Some(LargeRoot()), seq(vdevs, _ => Slots(Some(LargeRoot()), None)), Running)
  }

  lemma SmallBlocks()
    ensures Blocks(Range(0, 1)) == {0} && Blocks(Range(1, 1)) == {1} && Blocks(Range(0, 2)) == {0, 1}
    ensures Segment(0) == 0 == Segment(1)
    ensures InSegment(Range(0, 2), 0) && InSegment(Range(0, 1), 0) && InSegment(Range(1, 1), 0)
  {
    assert Covers(Range(0, 1), 0) && Covers(Range(1, 1), 1) && Covers(Range(0, 2), 0) && Covers(Range(0, 2), 1);
  }

  lemma LargeRootWritten(vdevs: nat)
    ensures var s := Next(Created(vdevs), Load(0));
            && Enabled(s, WriteRoot(Range(0, 1), 2, Zero))
            && Next(s, WriteRoot(Range(0, 1), 2, Zero))
            == s.(allocators := map[0 := {0, 1}], delayed := [Message(Action.Allocate, Range(0, 2))], inUse := {0, 1},
                  taken := {0, 1}, disk := map[0 := 0, 1 := 0], unflushed := {0, 1}, phase := RootWritten(LargeRoot()))
  {
    SmallBlocks();
    assert LoadedBits(Created(vdevs), 0) == {};
    var s := Next(Created(vdevs), Load(0));
    assert s.allocators == map[0 := {}];
    assert Written(map[], {0, 1}, Zero) == map[0 := 0, 1 := 0];
    var s1 := Allocated(s, Range(0, 2), Zero);
    assert {} + {0, 1} == {0, 1} && s1.allocators[0] == {0, 1};
    assert s1.allocators == map[0 := {0, 1}] && s1.delayed == [Message(Action.Allocate, Range(0, 2))];
    assert s1.inUse == {0, 1} && s1.taken == {0, 1} && s1.unflushed == {0, 1} && s1.disk == map[0 := 0, 1 := 0];
    assert Next(s, WriteRoot(Range(0, 1), 2, Zero)).phase.tree.blocks == map[0 := 0, 1 := 0];
  }

  lemma LargeRootFinished(vdevs: nat, s: State)
    requires s == Next(Next(Created(vdevs), Load(0)), WriteRoot(Range(0, 1), 2, Zero))
    requires s == Next(Created(vdevs), Load(0)).(
               allocators := map[0 := {0, 1}], delayed := [Message(Action.Allocate, Range(0, 2))], inUse := {0, 1},
               taken := {0, 1}, disk := map[0 := 0, 1 := 0], unflushed := {0, 1}, phase := RootWritten(LargeRoot()))
    ensures Executes(s, [FlushPool, BeginSuperblock, EndSuperblock, Finish], LargeRootSynced(vdevs))
  {
    var s1 := Next(s, FlushPool);
    var s2 := Next(s1, BeginSuperblock);
    var s3 := Next(s2, EndSuperblock);
    var s4 := Next(s3, Finish);
    assert s3.vdevs == LargeRootSynced(vdevs).vdevs;
    assert s4 == LargeRootSynced(vdevs);
    var e4: seq<Step> := [Finish];
    assert e4[1..] == [] && Executes(s3, e4, s4);
    var e3: seq<Step> := [EndSuperblock, Finish];
    assert e3[1..] == e4 && Executes(s2, e3, s4);
    var e2: seq<Step> := [BeginSuperblock, EndSuperblock, Finish];
    assert e2[1..] == e3 && Executes(s1, e2, s4);
    assert [FlushPool, BeginSuperblock, EndSuperblock, Finish][1..] == e2;
  }

  lemma TailIsFree(vdevs: nat)
    ensures var s := LargeRootSynced(vdevs);
            && Enabled(s, Load(0)) && Enabled(Next(s, Load(0)), Grant(Range(1, 1), One))
            && var s' := Next(Next(s, Load(0)), Grant(Range(1, 1), One));
            s'.synced == Some(LargeRoot()) && s'.vdevs == s.vdevs && s'.disk == map[0 := 0, 1 := 1]
  {
    SmallBlocks();
    var s := LargeRootSynced(vdevs);
    assert LoadedBits(s, 0) == {0};
    assert Written(s.disk, {1}, One) == map[0 := 0, 1 := 1];
  }

  lemma {:induction false} ExecutesOn(s: State, first: seq<Step>, s': State, then_: seq<Step>, s'': State)
    requires Executes(s, first, s') && Executes(s', then_, s'')
    ensures Executes(s, first + then_, s'')
    decreases |first|
  {
    if first == [] {
      assert first + then_ == then_;
    } else {
      assert (first + then_)[1..] == first[1..] + then_;
      ExecutesOn(Next(s, first[0]), first[1..], s', then_, s'');
    }
  }

  lemma ExecutesTwo(s: State, a: Step, b: Step)
    requires Enabled(s, a) && Enabled(Next(s, a), b)
    ensures Executes(s, [a, b], Next(Next(s, a), b))
  {
    assert [a, b][1..] == [b] && [b][1..] == [];
    assert Executes(Next(s, a), [b], Next(Next(s, a), b));
  }

  lemma {:induction false} OneCandidate(cs: seq<Option<Tree>>, t: Tree)
    requires forall i :: 0 <= i < |cs| ==> cs[i] == None || cs[i] == Some(t)
    ensures Newest(cs) == if Some(t) in cs then Some(t) else None
    decreases |cs|
  {
    if cs != [] {
      var rest := cs[..|cs| - 1];
      OneCandidate(rest, t);
      assert cs == rest + [cs[|cs| - 1]];
    }
  }

  lemma LargeRootIsNewest(vdevs: nat)
    requires vdevs > 0
    ensures Newest(Candidates(LargeRootSynced(vdevs).vdevs)) == Some(LargeRoot())
  {
    var cs := Candidates(LargeRootSynced(vdevs).vdevs);
    assert cs[0] == Some(LargeRoot());
    OneCandidate(cs, LargeRoot());
  }

  lemma SyncLargeRoot(vdevs: nat)
    ensures Executes(Created(vdevs), [Load(0), WriteRoot(Range(0, 1), 2, Zero)]
                                     + [FlushPool, BeginSuperblock, EndSuperblock, Finish], LargeRootSynced(vdevs))
  {
    LargeRootWritten(vdevs);
    var s0 := Created(vdevs);
    var s := Next(Next(s0, Load(0)), WriteRoot(Range(0, 1), 2, Zero));
    ExecutesTwo(s0, Load(0), WriteRoot(Range(0, 1), 2, Zero));
    LargeRootFinished(vdevs, s);
    ExecutesOn(s0, [Load(0), WriteRoot(Range(0, 1), 2, Zero)], s,
               [FlushPool, BeginSuperblock, EndSuperblock, Finish], LargeRootSynced(vdevs));
  }

  /** From a created database: a crash after this run finds the newest superblock, and a block of
      the tree it describes was overwritten. */
  lemma LargeRootIsOverwritten(vdevs: nat)
    requires vdevs > 0
    ensures exists s ::
              && Executes(Created(vdevs), OverwritingRun(), s) && s.synced == Some(LargeRoot())
              && Newest(Candidates(s.vdevs)) == s.synced && !Intact(LargeRoot(), s.disk)
  {
    SyncLargeRoot(vdevs);
    TailIsFree(vdevs);
    LargeRootIsNewest(vdevs);
    var s := LargeRootSynced(vdevs);
    var first := [Load(0), WriteRoot(Range(0, 1), 2, Zero)] + [FlushPool, BeginSuperblock, EndSuperblock, Finish];
    var s' := Next(Next(s, Load(0)), Grant(Range(1, 1), One));
    ExecutesTwo(s, Load(0), Grant(Range(1, 1), One));
    ExecutesOn(Created(vdevs), first, s, [Load(0), Grant(Range(1, 1), One)], s');
    assert OverwritingRun() == first + [Load(0), Grant(Range(1, 1), One)];
    assert 1 in LargeRoot().blocks && s'.disk[1] != LargeRoot().blocks[1];
  }

  /** On a Parity1 vdev every root is in the failing family. */
  lemma ParityRootsAreLarger(disks: nat, size: nat)
    requires disks >= 3
    ensures Layout.ActualSize(disks, size) == size <==> size == 0
  {
    if size > 0 {
      Layout.Rows(disks, size);
    }
  }
}
