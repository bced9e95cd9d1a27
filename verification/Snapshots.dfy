/** The snapshot operations of the database on one dataset. */
module Snapshots {
  import opened Common
  import opened SnapshotState
  import opened SnapshotTheorems
  import opened Upserts
  import opened Keys
  import opened RootKeys

  /** All numbers that go into keys have 64 bits, and so do their successors. */
  ghost predicate Fits64(s: State, ds: U64) {
    && ds + 1 < U64_END && s.gen + 1 < U64_END
    && forall b :: b in s.spans ==> b.offset < U64_END
  }

  function DeadEnd(ds: U64, next: Option<Generation>): Bytes
    requires ds + 1 < U64_END && (next.Some? ==> next.value + 1 < U64_END)
  {
    if next.Some? then DeadMax(ds, next.value) else DeadMaxDs(ds)
  }

  /** The key range of a deletion and the test on the birth select exactly the releasable entries. */
  lemma RangeReleases(ds: U64, id: Generation, next: Option<Generation>, prev: Option<Generation>, e: Entry,
                      offset: nat)
    requires ds + 1 < U64_END && id + 1 < U64_END && e.death < U64_END && offset < U64_END
    requires next.Some? ==> next.value + 1 < U64_END
    ensures InKeyRange(DeadMin(ds, id + 1), DeadEnd(ds, next), DeadKey(ds, e.death, offset)) && Before(prev, e.birth)
       <==> Releases(e, id, next, prev)
  {
    match next {
      case Some(n) => DeadRangeToNext(ds, id, n, ds, e.death, offset);
      case None => DeadRangeToEnd(ds, id, ds, e.death, offset);
    }
  }

  /** The key of the entry is in the range, and its birth after the previous snapshot. */
  method Selects(ds: U64, id: Generation, next: Option<Generation>, prev: Option<Generation>, e: Entry, offset: nat)
    returns (yes: bool)
    requires ds + 1 < U64_END && id + 1 < U64_END && e.death < U64_END && offset < U64_END
    requires next.Some? ==> next.value + 1 < U64_END
    ensures yes <==> Releases(e, id, next, prev)
  {
    var low, high := DeadMin(ds, id + 1), DeadEnd(ds, next);
    yes := InKeyRange(low, high, DeadKey(ds, e.death, offset)) && Before(prev, e.birth);
    RangeReleases(ds, id, next, prev, e, offset);
  }

  /** The loop over the deadlist range: releases `gone` and keeps the other entries. */
  method ReleaseRange(ds: U64, entries: map<Block, Entry>, id: Generation, next: Option<Generation>,
                      prev: Option<Generation>, ghost gone: set<Block>)
    returns (kept: map<Block, Entry>, released: set<Block>)
    requires ds + 1 < U64_END && id + 1 < U64_END && (next.Some? ==> next.value + 1 < U64_END)
    requires forall b :: b in entries ==> b.offset < U64_END && entries[b].death < U64_END
    requires forall b :: b in gone <==> b in entries && Releases(entries[b], id, next, prev)
    ensures kept == entries - gone && released == gone
  {
    kept, released := entries, {};
    var rest := entries.Keys;
    while rest != {}
      invariant rest <= entries.Keys
      invariant released == gone - rest
      invariant kept == entries - released
      decreases |rest|
    {
      var b :| b in rest;
      var selected := Selects(ds, id, next, prev, entries[b], b.offset);
      if selected {
        released := released + {b};
        kept := kept - {b};
      }
      rest := rest - {b};
    }
  }

  /** The first key of the range of later records. */
  method FirstLater(ds: U64, records: set<Generation>, id: Generation) returns (next: Option<Generation>)
    requires ds + 1 < U64_END && id + 1 < U64_END && forall r :: r in records ==> r < U64_END
    ensures match next
            case None => forall r :: r in records ==> r <= id
            case Some(n) => n in records && id < n && forall r :: r in records && id < r ==> n <= r
  {
    next := None;
    var low, high := DataKey(ds, id + 1), DataKeyMax(ds);
    var rest := records;
    while rest != {}
      invariant rest <= records
      invariant next.Some? ==> next.value in records && id < next.value
      invariant forall r: Generation :: r in records && r !in rest && id < r ==> next.Some? && next.value <= r
      decreases |rest|
    {
      var r :| r in rest;
      rest := rest - {r};
      LaterRecords(ds, id, ds, r);
      if next.Some? {
        DataKeyOrder(ds, r, ds, next.value);
      }
      if InKeyRange(low, high, DataKey(ds, r)) && (next.None? || Less(DataKey(ds, r), DataKey(ds, next.value))) {
        next := Some(r);
      }
    }
  }

  lemma DeadFits(s: State, ds: U64)
    requires Inv(s) && Fits64(s, ds)
    ensures forall b :: b in s.dead ==> b.offset < U64_END && s.dead[b].death < U64_END
  {
    forall b | b in s.dead
      ensures b.offset < U64_END && s.dead[b].death < U64_END
    {
      assert PlaceOk(s, b);
    }
  }

  class Dataset {
    const ds: U64
    var gen: Generation
    var lastSnapshot: Option<Generation>
    var previous: Option<Generation>
    var records: map<Generation, Option<Generation>>
    var live: set<Generation>
    var dead: map<Block, Entry>
    ghost var spans: map<Block, Span>
    ghost var freed: set<Block>

    ghost function St(): State
      reads this
    {
      State(gen, lastSnapshot, previous, records, live, dead, spans, freed)
    }

    constructor (id: U64)
      ensures ds == id && St() == New() && Inv(St()) && Safe(St())
    {
      ds := id;
      gen, lastSnapshot, previous := 1, None, None;
      records, live, dead := map[], {}, map[];
      spans, freed := map[], {};
    }

    method OpenDataset()
      requires Inv(St())
      modifies this
      ensures St() == Next(old(St()), Reopen) && Inv(St()) && Covered(St())
    {
      StepKeepsInv(St(), Reopen);
      CoverageOf(St(), Reopen);
      lastSnapshot := previous;
    }

    /** Gives the block back, or keeps it for the snapshots that may hold it. */
    method CopyOnWrite(b: Block, birth: Generation) returns (removed: bool)
      requires Inv(St()) && Enabled(St(), Kill(b)) && spans[b].birth == birth
      modifies this
      ensures St() == Next(old(St()), Kill(b)) && Inv(St())
      ensures removed <==> b in freed
      ensures old(Safe(St()) && Covered(St())) ==> Safe(St())
    {
      StepKeepsInv(St(), Kill(b));
      FreedOnce(St(), Kill(b));
      if Safe(St()) && Covered(St()) {
        CoveredKillIsSafe(St(), b);
      }
      removed := lastSnapshot.None? || lastSnapshot.value < birth;
      if removed {
        freed := freed + {b};
      } else {
        dead := dead[b := Entry(birth, gen)];
      }
      spans := spans[b := Span(birth, Some(gen))];
    }

    /** Records the snapshot; it is whole exactly if no block of its root was given back, which
        holds if none was given up since the sync. */
    method CreateSnapshot(id: Generation)
      requires Inv(St()) && Enabled(St(), Create(id))
      modifies this
      ensures St() == Next(old(St()), Create(id)) && Inv(St())
      ensures old(Safe(St())) ==> (Safe(St()) <==> old(!Lost(St(), id)))
      ensures old(Safe(St()) && Unkilled(St(), id)) ==> Safe(St())
    {
      StepKeepsInv(St(), Create(id));
      if Safe(St()) {
        CreateAddsItsRoot(St(), id);
        if Unkilled(St(), id) {
          UnkilledIsWhole(St(), id);
        }
      }
      records := records[id := previous];
      previous := Some(id);
      live := live + {id};
      gen := gen + 1;
    }

    method NextSnapshotId(id: Generation) returns (next: Option<Generation>)
      requires Inv(St()) && Fits64(St(), ds) && id in records
      ensures IsNext(St(), id, next)
    {
      next := FirstLater(ds, records.Keys, id);
    }

    /** Unlinks the snapshot and gives back what only it still needed. */
    method DeleteSnapshot(id: Generation)
      requires Inv(St()) && Enabled(St(), Delete(id)) && Fits64(St(), ds)
      modifies this
      ensures St() == Next(old(St()), Delete(id)) && Inv(St())
      ensures old(Safe(St())) ==> Safe(St())
    {
      ghost var s := St();
      StepKeepsInv(s, Delete(id));
      if Safe(s) {
        DeleteIsSafe(s, id);
      }
      var prev := records[id];
      var next := NextSnapshotId(id);
      NextIdUnique(s, id, next);
      DeadFits(s, ds);
      var kept, released := ReleaseRange(ds, dead, id, next, prev, Released(s, id, next));
      dead := kept;
      freed := freed + released;
      live := live - {id};
      match next {
        case Some(n) => records := records[n := prev];
        case None => previous := prev;
      }
    }
  }
}
