/** The invariant of space management, step by step. */
module SpaceInvariant {
  import opened Common
  import opened SpaceState

  function Old(s: State): set<nat> {
    if s.oldRoot.Some? then Blocks(s.oldRoot.value) else {}
  }

  /** A block of the last synced tree. */
  predicate Kept(s: State, b: nat) {
    b in s.last || b in Old(s)
  }

  /** Blocks in use, and set bits of the current bitmap, are of the last synced tree or were handed
      out in this generation.  A cached allocator shows exactly these two kinds of blocks as taken;
      in a segment without one nothing was handed out in this generation. */
  ghost predicate BitOk(s: State, b: nat) {
    && (b in s.inUse || b in s.current ==> Kept(s, b) || b in s.taken)
    && var seg := Segment(b);
    if seg in s.allocators then b in s.allocators[seg] <==> Kept(s, b) || b in s.taken else b !in s.taken
  }

  ghost predicate BitsOk(s: State) {
    && (forall b: nat :: BitOk(s, b))
    && (forall seg: nat, b: nat :: seg in s.allocators && b in s.allocators[seg] ==> Segment(b) == seg)
  }

  /** A delayed allocation is one of this generation or that of the old root; a delayed
      release covers the old root or misses it. */
  ghost predicate MessageOk(s: State, m: Message) {
    match m.action
    case Allocate => Blocks(m.range) <= s.taken || Blocks(m.range) == Old(s)
    case Deallocate => Old(s) <= Blocks(m.range) || Blocks(m.range) !! Old(s)
  }

  ghost predicate MessagesOk(s: State) {
    forall i :: 0 <= i < |s.delayed| ==> MessageOk(s, s.delayed[i])
  }

  /** The bitmap with all delayed messages inserted is what is in use; only the allocation of
      the root of a reopened tree may be missing from it. */
  ghost predicate AccountOk(s: State) {
    AllApplied(s.delayed, s.current) <= s.inUse <= AllApplied(s.delayed, s.current) + Old(s)
  }

  /** The old root is entered in the bitmaps wholly or not at all, as `allocate_at` needs it. */
  ghost predicate OldRootWhole(s: State) {
    s.oldRoot.Some? ==>
      var r := s.oldRoot.value;
      && InSegment(r, Segment(r.offset)) && Old(s) !! s.last
      && (Segment(r.offset) !in s.allocators ==> Old(s) <= s.current || Old(s) !! s.current)
  }

  /** A consistent tree whose root occupies exactly the blocks its pointer asks for. */
  ghost predicate TreeOk(t: Tree) {
    && t.actual == t.root.size && InSegment(t.root, Segment(t.root.offset))
    && Blocks(t.root) !! t.bitmap
    && t.blocks.Keys == t.bitmap + Blocks(t.root)
  }

  ghost predicate Intact(t: Tree, disk: map<nat, Data>) {
    forall b :: b in t.blocks ==> b in disk && disk[b] == t.blocks[b]
  }

  /** The last synced tree is complete on disk, and none of its blocks was written since. */
  ghost predicate SyncedOk(s: State) {
    match s.synced
    case None => s.last == {} && s.oldRoot.None?
    case Some(t) =>
      && TreeOk(t) && s.last == t.bitmap && s.oldRoot == Some(t.root) && s.generation == t.generation + 1
      && Intact(t, s.disk) && t.blocks.Keys !! s.unflushed
  }

  ghost predicate PhaseOk(s: State) {
    && s.inUse <= s.disk.Keys
    && (!s.phase.Running? ==>
          var t := s.phase.tree;
          && TreeOk(t) && t.generation == s.generation && t.bitmap == s.current
          && t.blocks.Keys == s.inUse && Intact(t, s.disk)
          && s.delayed == [Message(Action.Allocate, t.root)])
    && (!s.phase.Running? && !s.phase.RootWritten? ==> s.unflushed == {})
  }

  /** Every readable superblock is the newest tree or older, and lies in the slot of its parity. */
  ghost predicate SlotOk(c: Option<Tree>, parity: nat, top: Option<Tree>) {
    c.Some? ==>
      && c.value.generation % 2 == parity && top.Some?
      && c.value.generation <= top.value.generation
      && (c.value.generation == top.value.generation ==> c == top)
  }

  ghost predicate VdevsOk(vdevs: seq<Slots>, top: Option<Tree>) {
    && (forall i :: 0 <= i < |vdevs| ==> SlotOk(vdevs[i].even, 0, top) && SlotOk(vdevs[i].odd, 1, top))
    && (top.Some? ==> exists i :: 0 <= i < |vdevs| && SlotOf(vdevs[i], top.value.generation) == top)
  }

  /** The newest tree with a complete superblock. */
  function Top(s: State): Option<Tree> {
    if s.phase.Durable? then Some(s.phase.tree) else s.synced
  }

  ghost predicate Inv(s: State) {
    && BitsOk(s) && MessagesOk(s) && AccountOk(s) && OldRootWhole(s)
    && SyncedOk(s) && PhaseOk(s) && |s.vdevs| > 0 && VdevsOk(s.vdevs, Top(s))
  }

  /** Roots occupy exactly the blocks their pointers ask for (true of files, memory and
      mirrors; not of Parity1, see OldRootProtectedIff). */
  predicate WholeRoot(step: Step) {
    step.WriteRoot? ==> step.actual == step.root.size
  }

  // ------------------------------------------------------------------- lemmas

  lemma {:induction false} AppliedAtEnd(ms: seq<Message>, m: Message, bitmap: set<nat>)
    ensures AllApplied(ms + [m], bitmap) == Applied(m, AllApplied(ms, bitmap))
    decreases |ms|
  {
    if ms == [] {
      assert (ms + [m])[1..] == [];
    } else {
      AppliedAtEnd(ms[1..], m, Applied(ms[0], bitmap));
      assert (ms + [m])[1..] == ms[1..] + [m];
    }
  }

  lemma SegmentOf(r: Range, b: nat)
    requires InSegment(r, Segment(r.offset)) && b in Blocks(r)
    ensures Segment(b) == Segment(r.offset)
  {
  }

  /** Loading an allocator protects the whole synced tree, old root included. */
  lemma LoadProtects(s: State, seg: nat, b: nat)
    requires OldRootWhole(s) && seg !in s.allocators && Segment(b) == seg
    requires Kept(s, b) || b in s.current
    ensures b in LoadedBits(s, seg)
  {
    if b in Old(s) {
      SegmentOf(s.oldRoot.value, b);
      assert Segment(s.oldRoot.value.offset) == seg;
    }
  }

  /** An allocator is loaded with exactly the blocks of the last synced tree in its segment. */
  lemma LoadedExactly(s: State, seg: nat, b: nat)
    requires BitOk(s, b) && OldRootWhole(s) && seg !in s.allocators
    ensures b in LoadedBits(s, seg) <==> Segment(b) == seg && Kept(s, b)
  {
    if Segment(b) == seg && Kept(s, b) {
      LoadProtects(s, seg, b);
    }
    if s.oldRoot.Some? && b in Old(s) {
      SegmentOf(s.oldRoot.value, b);
    }
  }

  lemma LoadKeeps(s: State, seg: nat)
    requires Inv(s) && Enabled(s, Load(seg))
    ensures Inv(Next(s, Load(seg)))
  {
    var s' := Next(s, Load(seg));
    forall b: nat
      ensures BitOk(s', b) && (b in s'.allocators[seg] ==> Segment(b) == seg)
    {
      assert BitOk(s, b);
      LoadedExactly(s, seg, b);
    }
    assert forall m: Message :: MessageOk(s', m) == MessageOk(s, m);
  }

  lemma AllocatedBits(s: State, r: Range, content: nat -> Data)
    requires BitsOk(s) && Segment(r.offset) in s.allocators && InSegment(r, Segment(r.offset))
    ensures BitsOk(Allocated(s, r, content))
  {
    var s' := Allocated(s, r, content);
    forall b: nat ensures BitOk(s', b) {
      assert BitOk(s, b);
      if b in Blocks(r) {
        SegmentOf(r, b);
      }
    }
  }

  /** A range an allocator grants is free of everything that matters. */
  lemma GrantIsFree(s: State, r: Range)
    requires BitsOk(s) && Segment(r.offset) in s.allocators && InSegment(r, Segment(r.offset))
    requires Blocks(r) !! s.allocators[Segment(r.offset)]
    ensures Blocks(r) !! s.last && Blocks(r) !! Old(s) && Blocks(r) !! s.inUse
    ensures Blocks(r) !! s.taken && Blocks(r) !! s.current
  {
    forall b | b in Blocks(r)
      ensures !Kept(s, b) && b !in s.inUse && b !in s.taken && b !in s.current
    {
      SegmentOf(r, b);
      assert BitOk(s, b);
    }
  }

  lemma SyncedBlocksKept(s: State)
    requires SyncedOk(s) && s.synced.Some?
    ensures s.synced.value.blocks.Keys == s.last + Old(s)
  {
  }

  /** Granting and writing a range touches no block of the synced tree. */
  lemma AllocatedKeeps(s: State, r: Range, content: nat -> Data)
    requires Inv(s) && s.phase.Running? && Segment(r.offset) in s.allocators && InSegment(r, Segment(r.offset))
    requires Blocks(r) !! s.allocators[Segment(r.offset)]
    ensures Inv(Allocated(s, r, content))
  {
    var s' := Allocated(s, r, content);
    GrantIsFree(s, r);
    AllocatedBits(s, r, content);
    AppliedAtEnd(s.delayed, Message(Action.Allocate, r), s.current);
    forall i | 0 <= i < |s'.delayed| ensures MessageOk(s', s'.delayed[i]) {
      assert i < |s.delayed| ==> MessageOk(s, s.delayed[i]);
    }
    if s.synced.Some? {
      SyncedBlocksKept(s);
    }
  }

  lemma ReleaseKeeps(s: State, r: Range)
    requires Inv(s) && Enabled(s, Release(r))
    ensures Inv(Next(s, Release(r)))
  {
    var s' := Next(s, Release(r));
    AppliedAtEnd(s.delayed, Message(Deallocate, r), s.current);
    forall b: nat ensures BitOk(s', b) {
      assert BitOk(s, b);
    }
    forall i | 0 <= i < |s'.delayed| ensures MessageOk(s', s'.delayed[i]) {
      assert i < |s.delayed| ==> MessageOk(s, s.delayed[i]);
    }
  }

  /** While the segment of the old root has no allocator, messages set or clear it as a whole. */
  lemma FlushKeepsOldRoot(s: State, m: Message)
    requires BitsOk(s) && OldRootWhole(s) && MessageOk(s, m)
    ensures OldRootWhole(s.(current := Applied(m, s.current)))
  {
    if s.oldRoot.Some? && Segment(s.oldRoot.value.offset) !in s.allocators {
      forall b | b in Old(s) ensures b !in s.taken {
        SegmentOf(s.oldRoot.value, b);
        assert BitOk(s, b);
      }
    }
  }

  lemma FlushMessageKeeps(s: State)
    requires Inv(s) && Enabled(s, FlushMessage)
    ensures Inv(Next(s, FlushMessage))
  {
    var s', m := Next(s, FlushMessage), s.delayed[0];
    assert MessageOk(s, m);
    forall b: nat ensures BitOk(s', b) {
      assert BitOk(s, b);
    }
    forall i | 0 <= i < |s'.delayed| ensures MessageOk(s', s'.delayed[i]) {
      assert MessageOk(s, s.delayed[i + 1]);
    }
    assert OldRootWhole(s') by {
      FlushKeepsOldRoot(s, m);
    }
  }

  /** The tree under the new root is everything in use, and its bitmap lacks only the root. */
  lemma RootPhase(s: State, root: Range, content: nat -> Data)
    requires Inv(s) && Enabled(s, WriteRoot(root, root.size, content))
    ensures PhaseOk(Next(s, WriteRoot(root, root.size, content)))
    ensures root == Range(root.offset, root.size)
  {
    GrantIsFree(s, root);
    assert s.inUse == s.current;
    assert Allocated(s, root, content).inUse == s.current + Blocks(root);
  }

  /** The stage of a sync and the flush of the pool matter to nothing else. */
  lemma StageFrame(s: State, s': State)
    requires Inv(s) && s' == s.(phase := s'.phase, unflushed := s'.unflushed) && s'.unflushed <= s.unflushed
    requires PhaseOk(s') && Top(s') == Top(s)
    ensures Inv(s')
  {
    assert forall b: nat :: BitOk(s', b) == BitOk(s, b);
    assert forall m: Message :: MessageOk(s', m) == MessageOk(s, m);
  }

  lemma WriteRootKeeps(s: State, root: Range, content: nat -> Data)
    requires Inv(s) && Enabled(s, WriteRoot(root, root.size, content))
    ensures Inv(Next(s, WriteRoot(root, root.size, content)))
  {
    var s1 := Allocated(s, root, content);
    AllocatedKeeps(s, root, content);
    var s' := Next(s, WriteRoot(root, root.size, content));
    RootPhase(s, root, content);
    StageFrame(s1, s');
  }

  lemma SyncStageKeeps(s: State, step: Step)
    requires Inv(s) && Enabled(s, step) && (step.FlushPool? || step.BeginSuperblock?)
    ensures Inv(Next(s, step))
  {
    StageFrame(s, Next(s, step));
  }

  lemma WithSlotOk(v: Slots, t: Tree, before: Option<Tree>, c: Option<Tree>)
    requires SlotOk(v.even, 0, before) && SlotOk(v.odd, 1, before)
    requires before.Some? ==> before.value.generation < t.generation
    requires c == None || c == Some(t)
    ensures var v' := WithSlot(v, t.generation, c);
            SlotOk(v'.even, 0, Some(t)) && SlotOk(v'.odd, 1, Some(t)) && SlotOf(v', t.generation) == c
  {
  }

  lemma EndSuperblockKeeps(s: State)
    requires Inv(s) && Enabled(s, EndSuperblock)
    ensures Inv(Next(s, EndSuperblock))
  {
    var s', t := Next(s, EndSuperblock), s.phase.tree;
    forall i | 0 <= i < |s.vdevs|
      ensures SlotOk(s'.vdevs[i].even, 0, Some(t)) && SlotOk(s'.vdevs[i].odd, 1, Some(t))
      ensures SlotOf(s'.vdevs[i], t.generation) == Some(t)
    {
      WithSlotOk(s.vdevs[i], t, s.synced, Some(t));
    }
    assert SlotOf(s'.vdevs[0], t.generation) == Some(t);
    assert forall b: nat :: BitOk(s', b) == BitOk(s, b);
    assert forall m: Message :: MessageOk(s', m) == MessageOk(s, m);
  }

  lemma FinishKeeps(s: State)
    requires Inv(s) && Enabled(s, Finish)
    ensures Inv(Next(s, Finish))
  {
    var s', t := Next(s, Finish), s.phase.tree;
    forall b: nat ensures BitOk(s', b) {
      assert BitOk(s, b);
    }
    assert Old(s') == Blocks(t.root);
    assert s.inUse == s'.last + Old(s');
    assert AllApplied(s'.delayed, s'.current) == s'.current + Blocks(t.root) by {
      AppliedAtEnd([], Message(Action.Allocate, t.root), s'.current);
      assert [] + s'.delayed == s'.delayed;
    }
  }

  // ------------------------------------------------------------------- recovery

  lemma {:induction false} NewestBounded(cs: seq<Option<Tree>>, generation: nat)
    requires forall i :: 0 <= i < |cs| && cs[i].Some? ==> cs[i].value.generation <= generation
    ensures Newest(cs).Some? ==> Newest(cs).value.generation <= generation
    decreases |cs|
  {
    if cs != [] {
      NewestBounded(cs[..|cs| - 1], generation);
    }
  }

  lemma {:induction false} NewestIsTop(cs: seq<Option<Tree>>, top: Tree, k: nat)
    requires k < |cs| && cs[k] == Some(top)
    requires forall i :: 0 <= i < |cs| && cs[i].Some? ==>
               && cs[i].value.generation <= top.generation
               && (cs[i].value.generation == top.generation ==> cs[i].value == top)
    ensures Newest(cs) == Some(top)
    decreases |cs|
  {
    var rest := cs[..|cs| - 1];
    if k < |rest| {
      NewestIsTop(rest, top, k);
    } else {
      NewestBounded(rest, top.generation);
    }
  }

  lemma {:induction false} NewestNone(cs: seq<Option<Tree>>)
    requires forall i :: 0 <= i < |cs| ==> cs[i].None?
    ensures Newest(cs).None?
    decreases |cs|
  {
    if cs != [] {
      NewestNone(cs[..|cs| - 1]);
    }
  }

  /** Recovery picks the newest complete superblock. */
  lemma RecoveryPicksTop(vdevs: seq<Slots>, top: Option<Tree>)
    requires VdevsOk(vdevs, top)
    ensures Newest(Candidates(vdevs)) == top
  {
    var cs := Candidates(vdevs);
    var n := |vdevs|;
    forall i | 0 <= i < |cs| ensures cs[i] == if i < n then vdevs[i].even else vdevs[i - n].odd {
    }
    if top.None? {
      NewestNone(cs);
    } else {
      var i :| 0 <= i < n && SlotOf(vdevs[i], top.value.generation) == top;
      NewestIsTop(cs, top.value, if top.value.generation % 2 == 0 then i else i + n);
    }
  }

  lemma NewSuperblockSeen(s: State, vdevs: seq<Slots>, k: nat)
    requires s.phase.Superblock? && VdevsOk(s.vdevs, s.synced) && SlotsAfterCrash(s, vdevs)
    requires s.synced.Some? ==> s.synced.value.generation < s.phase.tree.generation
    requires k < |vdevs| && vdevs[k] == WithSlot(s.vdevs[k], s.phase.tree.generation, Some(s.phase.tree))
    ensures VdevsOk(vdevs, Some(s.phase.tree))
  {
    var t := s.phase.tree;
    forall i | 0 <= i < |vdevs| ensures SlotOk(vdevs[i].even, 0, Some(t)) && SlotOk(vdevs[i].odd, 1, Some(t)) {
      WithSlotOk(s.vdevs[i], t, s.synced, None);
      WithSlotOk(s.vdevs[i], t, s.synced, Some(t));
    }
    assert SlotOf(vdevs[k], t.generation) == Some(t);
  }

  lemma OldSuperblocksOnly(s: State, vdevs: seq<Slots>)
    requires s.phase.Superblock? && VdevsOk(s.vdevs, s.synced) && SlotsAfterCrash(s, vdevs)
    requires s.synced.Some? ==> s.phase.tree.generation == s.synced.value.generation + 1
    requires !exists i :: 0 <= i < |vdevs|
                          && vdevs[i] == WithSlot(s.vdevs[i], s.phase.tree.generation, Some(s.phase.tree))
    ensures VdevsOk(vdevs, s.synced)
  {
    if s.synced.Some? {
      var g := s.synced.value.generation;
      var i :| 0 <= i < |s.vdevs| && SlotOf(s.vdevs[i], g) == s.synced;
      assert SlotOf(vdevs[i], g) == s.synced;
    }
  }

  /** After a crash the slots are those of the last completed sync or of the one in progress. */
  lemma CrashSlots(s: State, vdevs: seq<Slots>) returns (top: Option<Tree>)
    requires Inv(s) && SlotsAfterCrash(s, vdevs)
    ensures VdevsOk(vdevs, top)
    ensures top == Top(s) || (s.phase.Superblock? && top == Some(s.phase.tree))
  {
    if !s.phase.Superblock? {
      assert vdevs == s.vdevs;
      return Top(s);
    }
    var t := s.phase.tree;
    if i :| 0 <= i < |vdevs| && vdevs[i] == WithSlot(s.vdevs[i], t.generation, Some(t)) {
      NewSuperblockSeen(s, vdevs, i);
      return Some(t);
    } else {
      OldSuperblocksOnly(s, vdevs);
      return s.synced;
    }
  }

  lemma ReopenedInv(s: State, t: Option<Tree>, disk: map<nat, Data>, vdevs: seq<Slots>)
    requires |vdevs| > 0 && VdevsOk(vdevs, t)
    requires t.Some? ==> TreeOk(t.value) && Intact(t.value, disk)
    ensures Inv(Reopened(s, t, disk, vdevs))
  {
    var s' := Reopened(s, t, disk, vdevs);
    forall b: nat ensures BitOk(s', b) {
    }
  }

  /** A crash at any point recovers the last completed sync or the one in progress, and every
      block of the recovered tree is intact whatever became of unflushed writes. */
  lemma CrashRecovers(s: State, garbage: nat -> Data, vdevs: seq<Slots>)
    requires Inv(s) && Enabled(s, Crash(garbage, vdevs))
    ensures var s', found := Next(s, Crash(garbage, vdevs)), Newest(Candidates(vdevs));
            && (found == s.synced || (!s.phase.Running? && found == Some(s.phase.tree)))
            && (s.phase.Durable? ==> found == Some(s.phase.tree))
            && (found.Some? ==> Intact(found.value, s'.disk))
            && Inv(s')
  {
    var top := CrashSlots(s, vdevs);
    RecoveryPicksTop(vdevs, top);
    ReopenedInv(s, top, Written(s.disk, s.unflushed, garbage), vdevs);
  }
}
