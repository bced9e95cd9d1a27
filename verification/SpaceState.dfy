/** Space management and recovery: allocation bitmaps in the root tree, allocators cached for
    one generation, delayed messages, and two alternating superblock slots per vdev. */
module SpaceState {
  import opened Common

  type Data = int

  /** A run of blocks inside one segment. */
  datatype Range = Range(offset: nat, size: nat)

  predicate Covers(r: Range, b: nat) {
    r.offset <= b < r.offset + r.size
  }

  function Blocks(r: Range): set<nat> {
    set b: nat | b < r.offset + r.size && Covers(r, b)
  }

  function Segment(b: nat): nat {
    b / SEGMENT_SIZE
  }

  predicate InSegment(r: Range, seg: nat) {
    seg * SEGMENT_SIZE <= r.offset && r.offset + r.size <= (seg + 1) * SEGMENT_SIZE
  }

  datatype Action = Allocate | Deallocate

  datatype Message = Message(action: Action, range: Range)

  /** A tree as a superblock describes it: its generation, the root pointer with the blocks it
      asks for and the blocks it really occupies, the allocation bitmap stored in the tree,
      and the content of every block in use. */
  datatype Tree = Tree(generation: nat, root: Range, actual: nat, bitmap: set<nat>, blocks: map<nat, Data>)

  /** The stages of `sync` after the root was written. */
  datatype Phase =
    | Running
    | RootWritten(tree: Tree)
    | Flushed(tree: Tree)
    | Superblock(tree: Tree)
    | Durable(tree: Tree)

  /** The two superblock slots of one vdev; `None` is unreadable or empty. */
  datatype Slots = Slots(even: Option<Tree>, odd: Option<Tree>)

  datatype State = State(
    generation: nat,
    current: set<nat>,              // bitmap of the current root tree
    last: set<nat>,                 // bitmap of the last synced root tree
    oldRoot: Option<Range>,         // old_root_allocation
    allocators: map<nat, set<nat>>, // set bits of the allocators cached since the last sync
    delayed: seq<Message>,
    inUse: set<nat>,                // blocks owned by some object pointer
    taken: set<nat>,                // blocks handed out in this generation
    disk: map<nat, Data>,
    unflushed: set<nat>,            // blocks written since the last flush of the pool
    synced: Option<Tree>,           // the last completed sync
    vdevs: seq<Slots>,
    phase: Phase)

  // -------------------------------------------------------------------- messages

  function Applied(m: Message, bitmap: set<nat>): set<nat> {
    match m.action
    case Allocate => bitmap + Blocks(m.range)
    case Deallocate => bitmap - Blocks(m.range)
  }

  /** The bitmap after all delayed messages have been inserted, oldest first. */
  function AllApplied(ms: seq<Message>, bitmap: set<nat>): set<nat>
    decreases |ms|
  {
    if ms == [] then bitmap else AllApplied(ms[1..], Applied(ms[0], bitmap))
  }

  // ------------------------------------------------------------------ allocators

  /** The bits of `get_allocation_bitmap` for a segment that is not cached.  The old root is
      entered with `allocate_at`, which does nothing when any of its bits is already set. */
  function LoadedBits(s: State, seg: nat): set<nat> {
    var bits := set b | b in s.current + s.last && Segment(b) == seg;
    match s.oldRoot
    case None => bits
    case Some(r) =>
      if Segment(r.offset) == seg && InSegment(r, seg) && Blocks(r) !! bits then bits + Blocks(r) else bits
  }

  // ------------------------------------------------------------------ superblocks

  function SlotOf(v: Slots, generation: nat): Option<Tree> {
    if generation % 2 == 0 then v.even else v.odd
  }

  function WithSlot(v: Slots, generation: nat, t: Option<Tree>): Slots {
    if generation % 2 == 0 then v.(even := t) else v.(odd := t)
  }

  /** The candidates of `fetch_superblocks`: block 0 of every vdev, then block 1. */
  function Candidates(vdevs: seq<Slots>): seq<Option<Tree>> {
    seq(|vdevs|, i requires 0 <= i < |vdevs| => vdevs[i].even)
    + seq(|vdevs|, i requires 0 <= i < |vdevs| => vdevs[i].odd)
  }

  /** The last of the newest ones, as `max_by_key` picks it. */
  function Newest(cs: seq<Option<Tree>>): Option<Tree>
    decreases |cs|
  {
    if cs == [] then None
    else
      var rest, c := Newest(cs[..|cs| - 1]), cs[|cs| - 1];
      if c.None? then rest
      else if rest.Some? && rest.value.generation > c.value.generation then rest
      else c
  }

  // ------------------------------------------------------------------------ steps

  datatype Step =
    | Load(seg: nat)
    | Grant(range: Range, content: nat -> Data)
    | Release(range: Range)
    | FlushMessage
    | WriteRoot(root: Range, actual: nat, content: nat -> Data)
    | FlushPool
    | BeginSuperblock
    | EndSuperblock
    | Finish
    | Crash(garbage: nat -> Data, vdevs: seq<Slots>)

  function Written(disk: map<nat, Data>, bs: set<nat>, content: nat -> Data): map<nat, Data> {
    disk + map b | b in bs :: content(b)
  }

  /** What a crash may leave in the superblock slots: while one is being written, every vdev
      has the old one, a torn one or the new one in the slot concerned. */
  ghost predicate SlotsAfterCrash(s: State, vdevs: seq<Slots>) {
    && |vdevs| == |s.vdevs|
    && forall i :: 0 <= i < |vdevs| ==>
         || vdevs[i] == s.vdevs[i]
         || (s.phase.Superblock? && vdevs[i] == WithSlot(s.vdevs[i], s.phase.tree.generation, None))
         || (s.phase.Superblock? && vdevs[i] == WithSlot(s.vdevs[i], s.phase.tree.generation, Some(s.phase.tree)))
  }

  ghost predicate Enabled(s: State, step: Step) {
    match step
    case Load(seg) => s.phase.Running? && seg !in s.allocators
    case Grant(r, _) =>
      && s.phase.Running? && Segment(r.offset) in s.allocators && InSegment(r, Segment(r.offset))
      && Blocks(r) !! s.allocators[Segment(r.offset)]
    // a released pointer is a whole pointer, so it is the old root or apart from it
    case Release(r) =>
      && s.phase.Running? && Blocks(r) <= s.inUse
      && (s.oldRoot.Some? ==> Blocks(s.oldRoot.value) <= Blocks(r) || Blocks(r) !! Blocks(s.oldRoot.value))
    case FlushMessage => s.phase.Running? && s.delayed != []
    // the root is written last, after all messages were inserted, and it replaces the old root
    case WriteRoot(root, actual, _) =>
      && s.phase.Running? && s.delayed == []
      && (s.oldRoot.Some? ==> Blocks(s.oldRoot.value) !! s.inUse)
      && root.size <= actual
      && var r := Range(root.offset, actual);
      && Segment(r.offset) in s.allocators && InSegment(r, Segment(r.offset))
      && Blocks(r) !! s.allocators[Segment(r.offset)]
    case FlushPool => s.phase.RootWritten?
    case BeginSuperblock => s.phase.Flushed?
    case EndSuperblock => s.phase.Superblock?
    case Finish => s.phase.Durable?
    case Crash(_, vdevs) => SlotsAfterCrash(s, vdevs)
  }

  function Allocated(s: State, r: Range, content: nat -> Data): State
    requires Segment(r.offset) in s.allocators
  {
    var seg, bs := Segment(r.offset), Blocks(r);
    s.(allocators := s.allocators[seg := s.allocators[seg] + bs],
       delayed := s.delayed + [Message(Action.Allocate, r)],
       inUse := s.inUse + bs,
       taken := s.taken + bs,
       disk := Written(s.disk, bs, content),
       unflushed := s.unflushed + bs)
  }

  function Reopened(s: State, t: Option<Tree>, disk: map<nat, Data>, vdevs: seq<Slots>): State {
    match t
    case None =>
      State(2, {}, {}, None, map[], [], {}, {}, disk, {}, None, vdevs, Running)
    case Some(tree) =>
      State(tree.generation + 1, tree.bitmap, tree.bitmap, Some(tree.root), map[], [], tree.blocks.Keys, {}, disk, {},
            Some(tree), vdevs, Running)
  }

  function Next(s: State, step: Step): State
    requires Enabled(s, step)
  {
    match step
    case Load(seg) => s.(allocators := s.allocators[seg := LoadedBits(s, seg)])
    case Grant(r, content) => Allocated(s, r, content)
    case Release(r) => s.(inUse := s.inUse - Blocks(r), delayed := s.delayed + [Message(Deallocate, r)])
    case FlushMessage => s.(current := Applied(s.delayed[0], s.current), delayed := s.delayed[1..])
    case WriteRoot(root, actual, content) =>
      var s1 := Allocated(s, Range(root.offset, actual), content);
      var blocks := map b | b in s1.inUse :: if b in s1.disk then s1.disk[b] else 0;
      s1.(phase := RootWritten(Tree(s.generation, root, actual, s.current, blocks)))
    case FlushPool => s.(unflushed := {}, phase := Flushed(s.phase.tree))
    case BeginSuperblock => s.(phase := Superblock(s.phase.tree))
    case EndSuperblock =>
      var t := s.phase.tree;
      s.(vdevs := seq(|s.vdevs|, i requires 0 <= i < |s.vdevs| => WithSlot(s.vdevs[i], t.generation, Some(t))),
         phase := Durable(t))
    case Finish =>
      var t := s.phase.tree;
      s.(oldRoot := Some(t.root), allocators := map[], generation := s.generation + 1, last := t.bitmap,
         taken := {}, synced := Some(t), phase := Running)
    case Crash(garbage, vdevs) =>
      Reopened(s, Newest(Candidates(vdevs)), Written(s.disk, s.unflushed, garbage), vdevs)
  }
}
