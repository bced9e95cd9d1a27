/** The life of a block: what is written is found again, what is given up is free after the next
    sync, and until the pool is flushed a crash may take anything. */
module SpaceReuse {
  import opened Common
  import opened SpaceState
  import opened SpaceInvariant
  import opened SpaceTheorems

  /** The blocks a step hands out. */
  function HandedOut(step: Step): set<nat> {
    match step
    case Grant(r, _) => Blocks(r)
    case WriteRoot(root, actual, _) => Blocks(Range(root.offset, actual))
    case _ => {}
  }

  lemma HandedOutAreFree(s: State, step: Step, b: nat)
    requires Inv(s) && Enabled(s, step) && b in HandedOut(step)
    ensures !Kept(s, b) && b !in s.taken && b !in s.inUse
  {
    match step {
      case Grant(r, _) => GrantIsFree(s, r);
      case WriteRoot(root, actual, _) => GrantIsFree(s, Range(root.offset, actual));
    }
  }

  // -------------------------------------------------------------- what was given up

  /** Given up in this generation: not in use, not free yet. */
  ghost predicate GivenUp(s: State, b: nat) {
    b !in s.inUse && (Kept(s, b) || b in s.taken)
  }

  ghost predicate Spare(s: State, b: nat) {
    b !in s.inUse && !Kept(s, b) && b !in s.taken
  }

  /** No allocator, cached or loaded later, has the bit of the block. */
  ghost predicate FreeBit(s: State, b: nat) {
    forall seg: nat :: b !in (if seg in s.allocators then s.allocators[seg] else LoadedBits(s, seg))
  }

  /** Allocators are exact: they have the bits of the last synced tree and of what was handed out
      since, and no others. */
  lemma AllocatorsAreExact(s: State, seg: nat, b: nat)
    requires Inv(s)
    ensures b in (if seg in s.allocators then s.allocators[seg] else LoadedBits(s, seg))
       <==> Segment(b) == seg && (Kept(s, b) || b in s.taken)
  {
    assert BitOk(s, b);
    if seg !in s.allocators {
      LoadedExactly(s, seg, b);
    }
  }

  lemma SpareIsFree(s: State, b: nat)
    requires Inv(s) && Spare(s, b)
    ensures FreeBit(s, b)
  {
    forall seg: nat
      ensures b !in (if seg in s.allocators then s.allocators[seg] else LoadedBits(s, seg))
    {
      AllocatorsAreExact(s, seg, b);
    }
  }

  lemma ReleaseGivesUp(s: State, r: Range, b: nat)
    requires Inv(s) && Enabled(s, Release(r)) && b in Blocks(r)
    ensures GivenUp(Next(s, Release(r)), b)
  {
    assert BitOk(s, b);
  }

  lemma GivenUpStays(s: State, step: Step, b: nat)
    requires Inv(s) && Enabled(s, step) && !step.Finish? && !step.Crash? && GivenUp(s, b)
    ensures GivenUp(Next(s, step), b)
  {
    if b in HandedOut(step) {
      HandedOutAreFree(s, step, b);
    }
  }

  /** Everything given up in this generation stays so. */
  ghost predicate StayGivenUp(s: State, s': State) {
    forall b: nat :: GivenUp(s, b) ==> GivenUp(s', b)
  }

  lemma StepStaysGivenUp(s: State, step: Step)
    requires Inv(s) && Enabled(s, step) && !step.Finish? && !step.Crash?
    ensures StayGivenUp(s, Next(s, step))
  {
    forall b: nat | GivenUp(s, b) ensures GivenUp(Next(s, step), b) {
      GivenUpStays(s, step, b);
    }
  }

  lemma {:induction false} GivenUpUntilSync(s: State, steps: seq<Step>, s': State, b: nat)
    requires Inv(s) && Runs(s, steps, s') && GivenUp(s, b)
    requires forall i :: 0 <= i < |steps| ==> !steps[i].Finish? && !steps[i].Crash?
    ensures GivenUp(s', b)
    decreases |steps|
  {
    if steps != [] {
      StepKeepsInv(s, steps[0]);
      GivenUpStays(s, steps[0], b);
      assert forall i :: 0 <= i < |steps[1..]| ==> steps[1..][i] == steps[i + 1];
      GivenUpUntilSync(Next(s, steps[0]), steps[1..], s', b);
    }
  }

  /** The sync leaves out what was given up before it. */
  lemma SyncFrees(s: State, b: nat)
    requires Inv(s) && Enabled(s, Finish) && GivenUp(s, b)
    ensures Spare(Next(s, Finish), b) && b !in Next(s, Finish).synced.value.blocks
  {
  }

  lemma SpareStays(s: State, step: Step, b: nat)
    requires Inv(s) && Enabled(s, step) && WholeRoot(step) && Spare(s, b) && b !in HandedOut(step)
    ensures Spare(Next(s, step), b)
  {
    match step {
      case Crash(garbage, vdevs) => CrashRecovers(s, garbage, vdevs);
      case _ =>
    }
  }

  lemma {:induction false} SpareUntilGranted(s: State, steps: seq<Step>, s': State, b: nat)
    requires Inv(s) && Runs(s, steps, s') && Spare(s, b)
    requires forall i :: 0 <= i < |steps| ==> b !in HandedOut(steps[i])
    ensures Inv(s') && Spare(s', b)
    decreases |steps|
  {
    if steps != [] {
      StepKeepsInv(s, steps[0]);
      SpareStays(s, steps[0], b);
      assert forall i :: 0 <= i < |steps[1..]| ==> steps[1..][i] == steps[i + 1];
      SpareUntilGranted(Next(s, steps[0]), steps[1..], s', b);
    }
  }

  lemma BlockIsReclaimed(s: State, r: Range, steps: seq<Step>, s1: State, later: seq<Step>, s': State, b: nat)
    requires Inv(s) && Enabled(s, Release(r)) && b in Blocks(r)
    requires Runs(Next(s, Release(r)), steps, s1) && Enabled(s1, Finish) && Runs(Next(s1, Finish), later, s')
    requires forall i :: 0 <= i < |steps| ==> !steps[i].Finish? && !steps[i].Crash?
    requires forall i :: 0 <= i < |later| ==> b !in HandedOut(later[i])
    ensures b !in Next(s1, Finish).synced.value.blocks && b !in s'.inUse && FreeBit(s', b)
  {
    StepKeepsInv(s, Release(r));
    ReleaseGivesUp(s, r, b);
    GivenUpUntilSync(Next(s, Release(r)), steps, s1, b);
    RunKeepsInv(Next(s, Release(r)), steps, s1);
    SyncFrees(s1, b);
    StepKeepsInv(s1, Finish);
    SpareUntilGranted(Next(s1, Finish), later, s', b);
    SpareIsFree(s', b);
  }

  /** A range is given up, and the sync that follows completes.  Its tree does not contain the
      range, and from then on, crashes included, every allocator shows it free until it is handed
      out again. */
  lemma ReleasedIsReclaimed(s: State, r: Range, steps: seq<Step>, s1: State, later: seq<Step>, s': State)
    requires Inv(s) && Enabled(s, Release(r))
    requires Runs(Next(s, Release(r)), steps, s1) && Enabled(s1, Finish) && Runs(Next(s1, Finish), later, s')
    requires forall i :: 0 <= i < |steps| ==> !steps[i].Finish? && !steps[i].Crash?
    requires forall i :: 0 <= i < |later| ==> Blocks(r) !! HandedOut(later[i])
    ensures Blocks(r) !! Next(s1, Finish).synced.value.blocks.Keys
    ensures Blocks(r) !! s'.inUse && forall b :: b in Blocks(r) ==> FreeBit(s', b)
  {
    forall b | b in Blocks(r)
      ensures b !in Next(s1, Finish).synced.value.blocks && b !in s'.inUse && FreeBit(s', b)
    {
      BlockIsReclaimed(s, r, steps, s1, later, s', b);
    }
  }

  // ---------------------------------------------------------------- what was written

  ghost predicate Writes(step: Step, b: nat, v: Data) {
    b in HandedOut(step) && step.content(b) == v
  }

  ghost predicate Stores(s: State, b: nat, v: Data) {
    b in s.inUse && b in s.disk && s.disk[b] == v
  }

  ghost predicate Synced(s: State, b: nat, v: Data) {
    s.synced.Some? && b in s.synced.value.blocks && s.synced.value.blocks[b] == v
  }

  predicate GivesUp(step: Step, b: nat) {
    step.Release? && b in Blocks(step.range)
  }

  lemma WriteStores(s: State, step: Step, b: nat, v: Data)
    requires Enabled(s, step) && Writes(step, b, v)
    ensures Stores(Next(s, step), b, v) && b in Next(s, step).unflushed
  {
  }

  lemma StoredStays(s: State, step: Step, b: nat, v: Data)
    requires Inv(s) && Enabled(s, step) && !step.Crash? && !GivesUp(step, b) && Stores(s, b, v)
    ensures Stores(Next(s, step), b, v)
  {
    if b in HandedOut(step) {
      HandedOutAreFree(s, step, b);
    }
  }

  lemma SyncPublishes(s: State, b: nat, v: Data)
    requires Inv(s) && Enabled(s, Finish) && Stores(s, b, v)
    ensures Synced(Next(s, Finish), b, v)
  {
  }

  lemma SyncedStays(s: State, step: Step, b: nat, v: Data)
    requires Inv(s) && Enabled(s, step) && !step.Crash? && Stores(s, b, v) && Synced(s, b, v)
    ensures Synced(Next(s, step), b, v)
  {
    if step.Finish? {
      SyncPublishes(s, b, v);
    }
  }

  lemma {:induction false} StoredUntilGivenUp(s: State, steps: seq<Step>, s': State, b: nat, v: Data)
    requires Inv(s) && Runs(s, steps, s') && Stores(s, b, v)
    requires forall i :: 0 <= i < |steps| ==> !steps[i].Crash? && !GivesUp(steps[i], b)
    ensures Inv(s') && Stores(s', b, v)
    ensures Synced(s, b, v) || (exists i :: 0 <= i < |steps| && steps[i].Finish?) ==> Synced(s', b, v)
    decreases |steps|
  {
    if steps != [] {
      var s1 := Next(s, steps[0]);
      StepKeepsInv(s, steps[0]);
      StoredStays(s, steps[0], b, v);
      if steps[0].Finish? {
        SyncPublishes(s, b, v);
      } else if Synced(s, b, v) {
        SyncedStays(s, steps[0], b, v);
      }
      assert forall i :: 0 <= i < |steps[1..]| ==> steps[1..][i] == steps[i + 1];
      StoredUntilGivenUp(s1, steps[1..], s', b, v);
    }
  }

  /** A crash recovers a tree that has the block, with that content on disk. */
  ghost predicate Recovered(s: State, garbage: nat -> Data, vdevs: seq<Slots>, b: nat, v: Data)
    requires SlotsAfterCrash(s, vdevs)
  {
    var found, disk := Newest(Candidates(vdevs)), Next(s, Crash(garbage, vdevs)).disk;
    && found.Some? && b in found.value.blocks && found.value.blocks[b] == v
    && b in disk && disk[b] == v
  }

  lemma RecoveryReads(s: State, garbage: nat -> Data, vdevs: seq<Slots>, b: nat, v: Data)
    requires Inv(s) && SlotsAfterCrash(s, vdevs) && Stores(s, b, v) && Synced(s, b, v)
    ensures Recovered(s, garbage, vdevs, b, v)
  {
    CrashRecovers(s, garbage, vdevs);
  }

  /** A block written with a node or a root holds what was written until it is given up, and once a
      sync has completed a crash at any point recovers it. */
  lemma WrittenIsDurable(s: State, first: Step, steps: seq<Step>, s': State, b: nat, v: Data,
                         garbage: nat -> Data, vdevs: seq<Slots>)
    requires Inv(s) && Enabled(s, first) && WholeRoot(first) && Writes(first, b, v)
    requires Runs(Next(s, first), steps, s') && SlotsAfterCrash(s', vdevs)
    requires forall i :: 0 <= i < |steps| ==> !steps[i].Crash? && !GivesUp(steps[i], b)
    ensures Stores(s', b, v)
    ensures (exists i :: 0 <= i < |steps| && steps[i].Finish?) ==> Recovered(s', garbage, vdevs, b, v)
  {
    WriteStores(s, first, b, v);
    StepKeepsInv(s, first);
    StoredUntilGivenUp(Next(s, first), steps, s', b, v);
    if Synced(s', b, v) {
      RecoveryReads(s', garbage, vdevs, b, v);
    }
  }

  lemma {:induction false} UnflushedStays(s: State, steps: seq<Step>, s': State, b: nat)
    requires Executes(s, steps, s') && b in s.unflushed
    requires forall i :: 0 <= i < |steps| ==> !steps[i].FlushPool? && !steps[i].Crash?
    ensures b in s'.unflushed
    decreases |steps|
  {
    if steps != [] {
      assert forall i :: 0 <= i < |steps[1..]| ==> steps[1..][i] == steps[i + 1];
      UnflushedStays(Next(s, steps[0]), steps[1..], s', b);
    }
  }

  /** Before the pool is flushed a crash may leave anything in a block that was written. */
  lemma UnflushedMayBeLost(s: State, first: Step, steps: seq<Step>, s': State, b: nat, v: Data,
                           garbage: nat -> Data, vdevs: seq<Slots>)
    requires Enabled(s, first) && Writes(first, b, v) && Executes(Next(s, first), steps, s')
    requires forall i :: 0 <= i < |steps| ==> !steps[i].FlushPool? && !steps[i].Crash?
    requires SlotsAfterCrash(s', vdevs)
    ensures b in Next(s', Crash(garbage, vdevs)).disk && Next(s', Crash(garbage, vdevs)).disk[b] == garbage(b)
  {
    WriteStores(s, first, b, v);
    UnflushedStays(Next(s, first), steps, s', b);
  }
}
