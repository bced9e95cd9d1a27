/** Snapshots of one dataset: the deadlist, the snapshot records and the steps that change them. */
module SnapshotState {
  import opened Common

  type Generation = nat

  /** One allocation of disk blocks, at an offset; a range that is reused later is a new one. */
  datatype Block = Block(offset: nat, serial: nat)

  datatype Entry = Entry(birth: Generation, death: Generation)

  datatype Span = Span(birth: Generation, death: Option<Generation>)

  /** `spans` and `freed` are the history of all blocks; the rest is what the database keeps.
      `records` holds the previous snapshot of every snapshot ever taken, `live` those that are
      not deleted. */
  datatype State = State(
    gen: Generation,
    lastSnapshot: Option<Generation>,
    previous: Option<Generation>,
    records: map<Generation, Option<Generation>>,
    live: set<Generation>,
    dead: map<Block, Entry>,
    spans: map<Block, Span>,
    freed: set<Block>)

  /** `Option` orders `None` first. */
  predicate Before(a: Option<Generation>, g: Generation) {
    a.None? || a.value < g
  }

  /** Block b belongs to the tree of snapshot g. */
  predicate Holds(s: State, g: Generation, b: Block) {
    b in s.spans && s.spans[b].birth <= g && (s.spans[b].death.Some? ==> g < s.spans[b].death.value)
  }

  ghost predicate Safe(s: State) {
    forall g, b :: g in s.live && Holds(s, g, b) ==> b !in s.freed
  }

  datatype Step =
    | Write(b: Block)
    | Kill(b: Block)
    | Sync
    | Create(id: Generation)
    | Delete(id: Generation)
    | Reopen

  /** The id of a new snapshot is the generation of the last synced root, and it is new; zero
      stands for no snapshot. */
  predicate Enabled(s: State, step: Step) {
    match step
    case Write(b) => b !in s.spans
    case Kill(b) => b in s.spans && s.spans[b].death.None?
    case Sync => true
    case Create(id) => 0 < id <= s.gen && forall r :: r in s.records ==> r < id
    case Delete(id) => id in s.live && id in s.records
    case Reopen => true
  }

  /** The record after `id` that `next_snapshot_id` finds. */
  predicate IsNext(s: State, id: Generation, next: Option<Generation>) {
    match next
    case None => forall r :: r in s.records ==> r <= id
    case Some(n) => n in s.records && id < n && forall r :: r in s.records && id < r ==> n <= r
  }

  ghost function Least(gs: set<Generation>): (g: Generation)
    requires gs != {}
    ensures g in gs && forall x: Generation :: x in gs ==> g <= x
    decreases |gs|
  {
    var x :| x in gs;
    if gs == {x} then x
    else
      var y := Least(gs - {x});
      assert forall z: Generation :: z in gs ==> z == x || z in gs - {x};
      if x < y then x else y
  }

  ghost function NextId(s: State, id: Generation): (next: Option<Generation>)
    ensures IsNext(s, id, next)
  {
    if exists r :: r in s.records && id < r then
      var r :| r in s.records && id < r;
      var later := set x | x in s.records && id < x;
      assert r in later;
      assert forall x :: x in s.records && id < x ==> x in later;
      Some(Least(later))
    else None
  }

  lemma NextIdUnique(s: State, id: Generation, next: Option<Generation>)
    requires IsNext(s, id, next)
    ensures next == NextId(s, id)
  {
  }

  /** The deadlist entries a deletion releases: those that died after the snapshot and not after
      the next one, and were born after the previous one. */
  predicate Releases(e: Entry, id: Generation, next: Option<Generation>, prev: Option<Generation>) {
    id < e.death && (next.Some? ==> e.death <= next.value) && Before(prev, e.birth)
  }

  function Released(s: State, id: Generation, next: Option<Generation>): set<Block>
    requires id in s.records
  {
    set b | b in s.dead && Releases(s.dead[b], id, next, s.records[id])
  }

  /** `copy_on_write`. */
  function Killed(s: State, b: Block): State
    requires Enabled(s, Kill(b))
  {
    var birth := s.spans[b].birth;
    var s1 := s.(spans := s.spans[b := Span(birth, Some(s.gen))]);
    if Before(s.lastSnapshot, birth) then s1.(freed := s.freed + {b})
    else s1.(dead := s.dead[b := Entry(birth, s.gen)])
  }

  /** `delete_snapshot`; the record stays. */
  function Deleted(s: State, id: Generation, next: Option<Generation>): State
    requires Enabled(s, Delete(id)) && IsNext(s, id, next)
  {
    var prev := s.records[id];
    var gone := Released(s, id, next);
    var s1 := s.(live := s.live - {id}, dead := s.dead - gone, freed := s.freed + gone);
    match next
    case Some(n) => s1.(records := s.records[n := prev])
    case None => s1.(previous := prev)
  }

  ghost function Next(s: State, step: Step): State
    requires Enabled(s, step)
  {
    match step
    case Write(b) => s.(spans := s.spans[b := Span(s.gen, None)])
    case Kill(b) => Killed(s, b)
    case Sync => s.(gen := s.gen + 1)
    case Create(id) =>
      s.(gen := s.gen + 1, records := s.records[id := s.previous], previous := Some(id), live := s.live + {id})
    case Delete(id) => Deleted(s, id, NextId(s, id))
    case Reopen => s.(lastSnapshot := s.previous)
  }

  // ------------------------------------------------------------------- invariant

  /** Every block ever written is in exactly one place: the tree, the deadlist, or given back. */
  predicate PlaceOk(s: State, b: Block)
    requires b in s.spans
  {
    && s.spans[b].birth <= s.gen
    && match s.spans[b].death
       case None => b !in s.dead && b !in s.freed
       case Some(d) =>
         && d <= s.gen
         && (b in s.dead <==> b !in s.freed)
         && (b in s.dead ==> s.dead[b] == Entry(s.spans[b].birth, d))
  }

  ghost predicate Places(s: State) {
    && (forall b :: b in s.spans ==> PlaceOk(s, b))
    && s.dead.Keys <= s.spans.Keys
    && s.freed <= s.spans.Keys
  }

  /** No live snapshot lies between a record and its previous one, or above the newest record. */
  ghost predicate Chain(s: State) {
    && s.live <= s.records.Keys
    && (forall r :: r in s.records ==> r < s.gen)
    && (forall r, g :: r in s.records && g in s.live && g < r ==> !Before(s.records[r], g))
    && (forall g :: g in s.live ==> !Before(s.previous, g))
    && (s.previous.Some? ==> s.previous.value in s.records)
    && (forall r :: r in s.records && s.records[r].Some? ==> s.records[r].value in s.records && s.records[r].value < r)
    && (s.lastSnapshot.Some? ==> s.lastSnapshot.value in s.records)
  }

  ghost predicate Inv(s: State) {
    Places(s) && Chain(s)
  }

  /** The handler knows a snapshot at least as new as every live one. */
  ghost predicate Covered(s: State) {
    forall g :: g in s.live ==> !Before(s.lastSnapshot, g)
  }

  /** A block was given back although it is part of the root with generation id. */
  ghost predicate Lost(s: State, id: Generation) {
    exists b :: Holds(s, id, b) && b in s.freed
  }

  /** No block of the root with generation id was given up since that root was written. */
  ghost predicate Unkilled(s: State, id: Generation) {
    forall b :: b in s.spans && s.spans[b].birth <= id && s.spans[b].death.Some? ==> s.spans[b].death.value <= id
  }

  /** The step gives back a block of the root with generation id: it gives up one that the handler
      takes for newer than the newest snapshot, or deletes a snapshot and with it an entry that
      died after that root. */
  ghost predicate Frees(s: State, step: Step, id: Generation)
    requires Enabled(s, step)
  {
    match step
    case Kill(b) => s.spans[b].birth <= id < s.gen && Before(s.lastSnapshot, s.spans[b].birth)
    case Delete(d) =>
      exists b :: b in Released(s, d, NextId(s, d)) && s.dead[b].birth <= id < s.dead[b].death
    case _ => false
  }
}
