/** The handler and the sync path of the database with their fields updated in place; every
    method performs steps of `SpaceState`. */
module Database {
  import opened Common
  import opened SpaceState
  import opened SpaceInvariant
  import opened SpaceTheorems
  import opened SpaceReuse

  /** `fetch_superblocks`: the newest of the superblocks that could be unpacked. */
  method FetchSuperblocks(vdevs: seq<Slots>) returns (found: Option<Tree>)
    ensures found == Newest(Candidates(vdevs))
    ensures found.Some? ==> found in Candidates(vdevs)
    ensures forall c :: c in Candidates(vdevs) && c.Some? ==>
              found.Some? && c.value.generation <= found.value.generation
  {
    var cs := Candidates(vdevs);
    found := None;
    var i := 0;
    while i < |cs|
      invariant i <= |cs| && found == Newest(cs[..i])
      invariant found.Some? ==> found in cs
      invariant forall k :: 0 <= k < i && cs[k].Some? ==>
                  found.Some? && cs[k].value.generation <= found.value.generation
    {
      assert cs[..i + 1][..i] == cs[..i];
      if cs[i].Some? && (found.None? || found.value.generation <= cs[i].value.generation) {
        found := cs[i];
      }
      i := i + 1;
    }
    assert cs[..|cs|] == cs;
  }

  // ------------------------------------------------------- the passes of `sync`

  datatype Write = Write(range: Range, content: nat -> Data)

  /** What one pass of the loop in `sync` finds: the pointers the root tree gives up while the
      messages are inserted, the modified nodes below the root, and the root. */
  datatype Pass = Pass(released: seq<Range>, nodes: seq<Write>, root: Write)

  /** The state after all delayed messages were inserted. */
  function Inserted(s: State): State {
    s.(current := AllApplied(s.delayed, s.current), delayed := [])
  }

  ghost function Loaded(s: State, seg: nat): State
    requires s.phase.Running?
  {
    if seg in s.allocators then s else Next(s, Load(seg))
  }

  /** The segment can grant `size` blocks at `offset`. */
  predicate Room(bits: set<nat>, seg: nat, offset: nat, size: nat) {
    Segment(offset) == seg && InSegment(Range(offset, size), seg) && Blocks(Range(offset, size)) !! bits
  }

  /** The range lies in the segment and all its blocks are free: not of the last synced tree, and
      not handed out since. */
  ghost predicate SpareRange(s: State, seg: nat, offset: nat, size: nat) {
    && Segment(offset) == seg && InSegment(Range(offset, size), seg)
    && forall b :: b in Blocks(Range(offset, size)) ==> !Kept(s, b) && b !in s.taken
  }

  lemma InsideSegment(seg: nat, k: nat)
    ensures Segment(seg * SEGMENT_SIZE + k) == seg <==> k < SEGMENT_SIZE
    ensures forall o: nat :: Segment(o) == seg ==> seg * SEGMENT_SIZE <= o < (seg + 1) * SEGMENT_SIZE
  {
  }

  lemma RoomIsSpare(s: State, bits: set<nat>, seg: nat, offset: nat, size: nat)
    requires forall b: nat :: b in bits <==> Segment(b) == seg && (Kept(s, b) || b in s.taken)
    ensures Room(bits, seg, offset, size) <==> SpareRange(s, seg, offset, size)
  {
    if InSegment(Range(offset, size), seg) {
      forall b | b in Blocks(Range(offset, size)) ensures Segment(b) == seg {
        InsideSegment(seg, b - seg * SEGMENT_SIZE);
      }
    }
  }

  /** The lowest place in the segment with room, as the segment's allocator picks it. */
  method FirstRoom(bits: set<nat>, seg: nat, size: nat) returns (offset: Option<nat>)
    ensures offset.None? ==> forall o: nat :: !Room(bits, seg, o, size)
    ensures offset.Some? ==> Room(bits, seg, offset.value, size)
    ensures offset.Some? ==> forall o: nat :: o < offset.value ==> !Room(bits, seg, o, size)
  {
    var base := seg * SEGMENT_SIZE;
    for k := 0 to SEGMENT_SIZE
      invariant forall o: nat :: o < base + k ==> !Room(bits, seg, o, size)
    {
      InsideSegment(seg, k);
      if Room(bits, seg, base + k, size) {
        return Some(base + k);
      }
    }
    InsideSegment(seg, 0);
    return None;
  }

  ghost predicate CanRelease(s: State, rs: seq<Range>)
    decreases |rs|
  {
    rs == [] || (Enabled(s, Release(rs[0])) && CanRelease(Next(s, Release(rs[0])), rs[1..]))
  }

  ghost function AfterReleases(s: State, rs: seq<Range>): State
    requires CanRelease(s, rs)
    decreases |rs|
  {
    if rs == [] then s else AfterReleases(Next(s, Release(rs[0])), rs[1..])
  }

  ghost predicate CanGrant(s: State, w: Write) {
    s.phase.Running? && Enabled(Loaded(s, Segment(w.range.offset)), Grant(w.range, w.content))
  }

  ghost function Granted(s: State, w: Write): State
    requires CanGrant(s, w)
  {
    Next(Loaded(s, Segment(w.range.offset)), Grant(w.range, w.content))
  }

  ghost predicate CanWrite(s: State, ws: seq<Write>)
    decreases |ws|
  {
    |ws| == 0 || (CanGrant(s, ws[0]) && CanWrite(Granted(s, ws[0]), ws[1..]))
  }

  ghost function AfterWrites(s: State, ws: seq<Write>): State
    requires CanWrite(s, ws)
    decreases |ws|
  {
    if |ws| == 0 then s else AfterWrites(Granted(s, ws[0]), ws[1..])
  }

  ghost predicate CanWriteRoot(s: State, w: Write) {
    s.phase.Running? && Enabled(Loaded(s, Segment(w.range.offset)), WriteRoot(w.range, w.range.size, w.content))
  }

  /** The state in which `root_tree.sync` starts. */
  ghost function Prepared(s: State, pass: Pass): State
    requires CanRelease(Inserted(s), pass.released)
  {
    Inserted(AfterReleases(Inserted(s), pass.released))
  }

  ghost predicate Possible(s: State, pass: Pass) {
    && CanRelease(Inserted(s), pass.released)
    && var s1 := Prepared(s, pass);
    if |pass.nodes| == 0 then CanWriteRoot(s1, pass.root) else CanWrite(s1, pass.nodes + [pass.root])
  }

  /** The root tree offers these passes until one finds only the root left to write. */
  ghost predicate Converges(s: State, passes: seq<Pass>)
    decreases |passes|
  {
    && |passes| > 0 && Possible(s, passes[0])
    && (|passes[0].nodes| > 0 ==>
          Converges(AfterWrites(Prepared(s, passes[0]), passes[0].nodes + [passes[0].root]), passes[1..]))
  }

  class Database {
    var allocations: nat
    var generation: nat
    var current: set<nat>
    var last: set<nat>
    var oldRoot: Option<Range>
    var allocators: map<nat, set<nat>>
    var delayed: seq<Message>
    var disk: map<nat, Data>
    var unflushed: set<nat>
    var vdevs: seq<Slots>
    // what the bitmaps and superblocks stand for
    var inUse: set<nat>
    var taken: set<nat>
    var synced: Option<Tree>
    var phase: Phase

    function St(): State
      reads this
    {
      State(generation, current, last, oldRoot, allocators, delayed, inUse, taken, disk, unflushed, synced, vdevs,
            phase)
    }

    ghost predicate Valid()
      reads this
    {
      Inv(St()) && phase.Running?
    }

    constructor (vdevCount: nat)
      requires vdevCount > 0
      ensures Valid() && St() == Created(vdevCount)
    {
      allocations := 0;
      generation, current, last, oldRoot, allocators, delayed := 2, {}, {}, None, map[], [];
      disk, unflushed, vdevs := map[], {}, seq(vdevCount, _ => Slots(None, None));
      inUse, taken, synced, phase := {}, {}, None, Running;
      new;
      CreatedInv(vdevCount);
    }

    /** `get_allocation_bitmap`: from the cache, or the union of the current bitmap, the last
        synced one and the old root.  It has exactly the bits of the synced tree and of what was
        handed out since. */
    method GetAllocationBitmap(seg: nat) returns (bits: set<nat>)
      requires Valid()
      modifies this`allocators
      ensures Valid() && seg in allocators && allocators[seg] == bits && St() == Loaded(old(St()), seg)
      ensures forall b: nat :: b in bits <==> Segment(b) == seg && (Kept(St(), b) || b in taken)
      ensures forall b: nat :: Segment(b) == seg && b in inUse ==> b in bits
    {
      if seg !in allocators {
        ghost var s := St();
        LoadKeeps(s, seg);
        var bitmap := set b | b in current + last && Segment(b) == seg;
        if oldRoot.Some? {
          var r := oldRoot.value;
          if Segment(r.offset) == seg && InSegment(r, seg) && Blocks(r) !! bitmap {
            bitmap := bitmap + Blocks(r);
          }
        }
        allocators := allocators[seg := bitmap];
        assert St() == Next(s, Load(seg));
      }
      bits := allocators[seg];
      forall b: nat
        ensures b in bits <==> Segment(b) == seg && (Kept(St(), b) || b in taken)
        ensures Segment(b) == seg && b in inUse ==> b in bits
      {
        assert BitOk(St(), b);
        AllocatorsAreExact(St(), seg, b);
      }
    }

    /** A granted range is marked in the allocator and queued for the bitmap. */
    method Reserve(r: Range)
      requires Segment(r.offset) in allocators
      modifies this`allocators, this`delayed, this`allocations
      ensures allocators == old(allocators)[Segment(r.offset) := old(allocators)[Segment(r.offset)] + Blocks(r)]
      ensures delayed == old(delayed) + [Message(Action.Allocate, r)] && allocations == old(allocations) + 1
    {
      var seg := Segment(r.offset);
      allocators := allocators[seg := allocators[seg] + Blocks(r)];
      delayed := delayed + [Message(Action.Allocate, r)];
      allocations := allocations + 1;
    }

    method Mark(r: Range, content: nat -> Data)
      requires Segment(r.offset) in allocators
      modifies this`allocators, this`delayed, this`disk, this`unflushed, this`inUse, this`taken, this`allocations
      ensures St() == Allocated(old(St()), r, content) && allocations == old(allocations) + 1
    {
      Reserve(r);
      var bs := Blocks(r);
      disk, unflushed := Written(disk, bs, content), unflushed + bs;
      inUse, taken := inUse + bs, taken + bs;
    }

    method Allocate(w: Write)
      requires Valid() && CanGrant(St(), w)
      modifies this
      ensures Valid() && St() == Granted(old(St()), w) && allocations == old(allocations) + 1
      ensures StayGivenUp(old(St()), St())
    {
      var _ := GetAllocationBitmap(Segment(w.range.offset));
      StepStaysGivenUp(St(), Grant(w.range, w.content));
      AllocatedKeeps(St(), w.range, w.content);
      Mark(w.range, w.content);
    }

    /** The first range of the segment that is neither kept by the last sync, nor in use, nor
        granted in this generation; none exactly if the segment has no such range. */
    method AllocateIn(seg: nat, size: nat, content: nat -> Data) returns (r: Option<Range>)
      requires Valid()
      modifies this
      ensures Valid()
      ensures r.None? ==> St() == Loaded(old(St()), seg) && forall o: nat :: !SpareRange(old(St()), seg, o, size)
      ensures r.Some? ==> r.value.size == size && SpareRange(old(St()), seg, r.value.offset, size)
      ensures r.Some? ==> forall o: nat :: o < r.value.offset ==> !SpareRange(old(St()), seg, o, size)
      ensures r.Some? ==> CanGrant(old(St()), Write(r.value, content))
      ensures r.Some? ==> St() == Granted(old(St()), Write(r.value, content))
    {
      var bits := GetAllocationBitmap(seg);
      forall o: nat ensures Room(bits, seg, o, size) <==> SpareRange(old(St()), seg, o, size) {
        RoomIsSpare(old(St()), bits, seg, o, size);
      }
      var offset := FirstRoom(bits, seg, size);
      if offset.None? {
        return None;
      }
      var w := Write(Range(offset.value, size), content);
      Allocate(w);
      r := Some(w.range);
    }

    /** `copy_on_write` of a pointer no snapshot holds: only a message; the cached allocator
        still shows the range as taken. */
    method CopyOnWrite(r: Range)
      requires Valid() && Enabled(St(), Release(r))
      modifies this`delayed, this`inUse
      ensures Valid() && St() == Next(old(St()), Release(r))
      ensures StayGivenUp(old(St()), St()) && forall b: nat :: b in Blocks(r) ==> GivenUp(St(), b)
    {
      ReleaseKeeps(St(), r);
      StepStaysGivenUp(St(), Release(r));
      forall b: nat | b in Blocks(r) ensures GivenUp(Next(St(), Release(r)), b) {
        ReleaseGivesUp(St(), r, b);
      }
      delayed := delayed + [Message(Deallocate, r)];
      inUse := inUse - Blocks(r);
    }

    /** `flush_delayed_messages`. */
    method FlushDelayedMessages()
      requires Valid()
      modifies this`current, this`delayed
      ensures Valid() && St() == Inserted(old(St())) && StayGivenUp(old(St()), St())
    {
      while delayed != []
        invariant Valid() && AllApplied(delayed, current) == AllApplied(old(delayed), old(current))
        decreases |delayed|
      {
        ghost var s := St();
        FlushMessageKeeps(s);
        var m := delayed[0];
        delayed := delayed[1..];
        current := match m.action
          case Allocate => current + Blocks(m.range)
          case Deallocate => current - Blocks(m.range);
        assert St() == Next(s, FlushMessage);
      }
    }

    /** `write_superblock`: the slot is chosen by the parity of the generation. */
    method WriteSuperblock(t: Tree)
      modifies this`vdevs
      ensures vdevs == seq(|old(vdevs)|, i requires 0 <= i < |old(vdevs)| =>
                         WithSlot(old(vdevs)[i], t.generation, Some(t)))
    {
      var i := 0;
      while i < |vdevs|
        invariant i <= |vdevs| == |old(vdevs)|
        invariant forall k :: 0 <= k < i ==> vdevs[k] == WithSlot(old(vdevs)[k], t.generation, Some(t))
        invariant forall k :: i <= k < |vdevs| ==> vdevs[k] == old(vdevs)[k]
      {
        vdevs := vdevs[i := if t.generation % 2 == 0 then vdevs[i].(even := Some(t)) else vdevs[i].(odd := Some(t))];
        i := i + 1;
      }
    }

    method ReleaseAll(rs: seq<Range>)
      requires Valid() && CanRelease(St(), rs)
      modifies this`delayed, this`inUse
      ensures Valid() && St() == AfterReleases(old(St()), rs) && StayGivenUp(old(St()), St())
    {
      for i := 0 to |rs|
        invariant StayGivenUp(old(St()), St())
        invariant Valid() && CanRelease(St(), rs[i..])
        invariant AfterReleases(St(), rs[i..]) == AfterReleases(old(St()), rs)
      {
        assert rs[i..][1..] == rs[i + 1..];
        CopyOnWrite(rs[i]);
      }
    }

    method WriteNodes(ws: seq<Write>)
      requires Valid() && CanWrite(St(), ws)
      modifies this
      ensures Valid() && St() == AfterWrites(old(St()), ws) && allocations == old(allocations) + |ws|
      ensures generation == old(generation) && StayGivenUp(old(St()), St())
    {
      for i := 0 to |ws|
        invariant StayGivenUp(old(St()), St())
        invariant Valid() && CanWrite(St(), ws[i..])
        invariant allocations == old(allocations) + i && generation == old(generation)
        invariant AfterWrites(St(), ws[i..]) == AfterWrites(old(St()), ws)
      {
        assert ws[i..][1..] == ws[i + 1..];
        Allocate(ws[i]);
      }
    }

    /** `root_tree.sync`: the modified nodes, the root last.  Only a root written alone is the
        tree to publish. */
    method SyncRootTree(pass: Pass)
      requires Valid() && delayed == []
      requires if |pass.nodes| == 0 then CanWriteRoot(St(), pass.root) else CanWrite(St(), pass.nodes + [pass.root])
      modifies this
      ensures allocations == old(allocations) + |pass.nodes| + 1
      ensures if |pass.nodes| == 0 then Inv(St()) && Holds(pass.root.range)
              else Valid() && St() == AfterWrites(old(St()), pass.nodes + [pass.root])
      ensures generation == old(generation) && StayGivenUp(old(St()), St())
    {
      if |pass.nodes| == 0 {
        var _ := GetAllocationBitmap(Segment(pass.root.range.offset));
        WriteTheRoot(pass.root.range, pass.root.content);
      } else {
        WriteNodes(pass.nodes + [pass.root]);
      }
    }

    /** The tree whose root was just written holds everything in use, and its bitmap knows of
        every allocation and release but that of the root itself. */
    ghost predicate Holds(root: Range)
      reads this
    {
      && phase.RootWritten? && phase.tree.root == root && phase.tree.generation == generation
      && phase.tree.bitmap == current && phase.tree.blocks.Keys == inUse
      && delayed == [Message(Action.Allocate, root)]
    }

    /** `sync`.  The loop is left after a pass with at most one allocation; no message was
        delayed when that pass wrote the root.  Afterwards the tree is the one a crash falls
        back to. */
    method Sync(passes: seq<Pass>) returns (n: nat)
      requires Valid() && Converges(St(), passes)
      modifies this
      ensures n < |passes| && |passes[n].nodes| == 0 && forall i :: 0 <= i < n ==> |passes[i].nodes| > 0
      ensures Valid() && generation == old(generation) + 1 && allocators == map[]
      ensures synced.Some? && synced.value.generation == old(generation) && synced.value.root == passes[n].root.range
      ensures synced.value.bitmap == current && delayed == [Message(Action.Allocate, synced.value.root)]
      ensures synced.value.blocks.Keys == inUse && Intact(synced.value, disk)
      ensures Newest(Candidates(vdevs)) == synced
      ensures forall b: nat :: GivenUp(old(St()), b) ==> Spare(St(), b) && b !in synced.value.blocks
    {
      n := SyncUntilRoot(passes);
      Publish();
      Finish();
    }

    method SyncUntilRoot(passes: seq<Pass>) returns (n: nat)
      requires Valid() && Converges(St(), passes)
      modifies this
      ensures n < |passes| && |passes[n].nodes| == 0 && forall i :: 0 <= i < n ==> |passes[i].nodes| > 0
      ensures Inv(St()) && Holds(passes[n].root.range) && generation == old(generation)
      ensures StayGivenUp(old(St()), St())
    {
      n := 0;
      while true
        invariant n < |passes| && Valid() && Converges(St(), passes[n..]) && generation == old(generation)
        invariant forall i :: 0 <= i < n ==> |passes[i].nodes| > 0
        invariant StayGivenUp(old(St()), St())
        decreases |passes| - n
      {
        ghost var rest := passes[n..];
        assert rest[0] == passes[n] && rest[1..] == passes[n + 1..];
        FlushDelayedMessages();
        ReleaseAll(passes[n].released);
        FlushDelayedMessages();
        var before := allocations;
        SyncRootTree(passes[n]);
        if allocations - before <= 1 {
          return;
        }
        n := n + 1;
      }
    }

    method WriteTheRoot(root: Range, content: nat -> Data)
      requires Valid() && Enabled(St(), WriteRoot(root, root.size, content))
      modifies this
      ensures Inv(St()) && St() == Next(old(St()), WriteRoot(root, root.size, content))
      ensures allocations == old(allocations) + 1 && StayGivenUp(old(St()), St())
    {
      StepStaysGivenUp(St(), WriteRoot(root, root.size, content));
      WriteRootKeeps(St(), root, content);
      PackRoot(root, content);
    }

    method PackRoot(root: Range, content: nat -> Data)
      requires Enabled(St(), WriteRoot(root, root.size, content))
      modifies this
      ensures St() == Next(old(St()), WriteRoot(root, root.size, content)) && allocations == old(allocations) + 1
    {
      assert Range(root.offset, root.size) == root;
      var bitmap := current;
      Mark(root, content);
      var blocks := map b | b in inUse :: if b in disk then disk[b] else 0;
      phase := RootWritten(Tree(generation, root, root.size, bitmap, blocks));
    }

    /** Flush the pool, write the superblock, flush again. */
    method Publish()
      requires Inv(St()) && phase.RootWritten?
      modifies this`unflushed, this`vdevs, this`phase
      ensures Inv(St()) && phase == Durable(old(phase).tree)
    {
      SyncStageKeeps(St(), FlushPool);
      unflushed, phase := {}, Flushed(phase.tree);
      PutSuperblock();
    }

    method PutSuperblock()
      requires Inv(St()) && phase.Flushed?
      modifies this`vdevs, this`phase
      ensures Inv(St()) && phase == Durable(old(phase).tree)
    {
      SyncStageKeeps(St(), BeginSuperblock);
      phase := Superblock(phase.tree);
      CompleteSuperblock();
    }

    method CompleteSuperblock()
      requires Inv(St()) && phase.Superblock?
      modifies this`vdevs, this`phase
      ensures Inv(St()) && phase == Durable(old(phase).tree)
    {
      ghost var s := St();
      EndSuperblockKeeps(s);
      WriteSuperblock(phase.tree);
      phase := Durable(phase.tree);
      assert St() == Next(s, EndSuperblock);
    }

    method Finish()
      requires Inv(St()) && phase.Durable?
      modifies this
      ensures Valid() && St() == Next(old(St()), Step.Finish)
      ensures synced == Some(old(phase).tree) && Newest(Candidates(vdevs)) == synced
      ensures forall b: nat :: GivenUp(old(St()), b) ==> Spare(St(), b) && b !in synced.value.blocks
    {
      forall b: nat | GivenUp(St(), b)
        ensures Spare(Next(St(), Step.Finish), b) && b !in Next(St(), Step.Finish).synced.value.blocks
      {
        SyncFrees(St(), b);
      }
      FinishKeeps(St());
      RecoveryPicksTop(vdevs, Some(phase.tree));
      Adopt();
    }

    /** `bump_generation` and the new `root_tree_snapshot`. */
    method Adopt()
      requires phase.Durable?
      modifies this
      ensures St() == Next(old(St()), Step.Finish)
    {
      var t := phase.tree;
      oldRoot, allocators, generation, last := Some(t.root), map[], generation + 1, t.bitmap;
      taken, synced, phase := {}, Some(t), Running;
    }
  }
}
