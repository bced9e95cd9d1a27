/** The object lifecycle of the data management unit as a state machine.

    A parent holds an `ObjRef`; the object behind it lives in the cache under one of three
    keys, or only on disk.  References are corrected lazily, so a reference may lag behind
    its object: `Resolve` says which object a reference denotes in a given state. */
module DmuState {

  /** `ModifiedObjectId`: the counter value; the storage preference it also carries is not modelled. */
  type Mid = nat
  type Payload = seq<int>
  type DatasetId = nat

  /** `ObjectPointer`, reduced to the two fields that identify it in the cache. */
  datatype Ptr = Ptr(offset: nat, generation: nat)

  datatype ObjectKey =
    | KeyUnmodified(ptr: Ptr)
    | KeyModified(mid: Mid)
    | KeyInWriteback(mid: Mid)

  datatype ObjRef =
    | Unmodified(ptr: Ptr)
    | Modified(mid: Mid)
    | InWriteback(mid: Mid)
  {
    function AsKey(): ObjectKey {
      match this
      case Unmodified(p) => KeyUnmodified(p)
      case Modified(m) => KeyModified(m)
      case InWriteback(m) => KeyInWriteback(m)
    }
  }

  datatype Node = Node(payload: Payload, children: seq<ObjRef>)

  /** `packing` and `written` are the two stages of a running write-back: the packed copy of
      the object, then the pointer it was written to.  `released` counts the calls of
      `copy_on_write`.  `roots` are the references held by tree roots and by running
      operations. */
  datatype State = State(
    cache: map<ObjectKey, Node>,
    writtenBack: map<Mid, Ptr>,
    modifiedInfo: map<Mid, DatasetId>,
    nextMid: Mid,
    disk: map<Ptr, Node>,
    packing: map<Mid, Node>,
    written: map<Mid, Ptr>,
    released: multiset<Ptr>,
    roots: seq<ObjRef>)

  /** An object of the forest: in memory under a modified id, or on disk. */
  datatype Obj = Mem(mid: Mid) | OnDisk(ptr: Ptr)

  /** A place that holds a reference. */
  datatype Slot = RootSlot(index: nat) | ChildSlot(parent: Obj, index: nat)

  predicate InMemory(s: State, m: Mid) {
    KeyModified(m) in s.cache || KeyInWriteback(m) in s.cache
  }

  predicate IsObj(s: State, o: Obj) {
    match o
    case Mem(m) => InMemory(s, m)
    case OnDisk(p) => p in s.disk && p !in s.released && p !in s.written.Values
  }

  function Body(s: State, o: Obj): Node
    requires IsObj(s, o)
  {
    match o
    case Mem(m) => if KeyModified(m) in s.cache then s.cache[KeyModified(m)] else s.cache[KeyInWriteback(m)]
    case OnDisk(p) => s.disk[p]
  }

  function ResolveMid(s: State, m: Mid): Obj {
    if !InMemory(s, m) && m in s.writtenBack then OnDisk(s.writtenBack[m]) else Mem(m)
  }

  function Resolve(s: State, r: ObjRef): Obj {
    match r
    case Unmodified(p) => OnDisk(p)
    case Modified(m) => ResolveMid(s, m)
    case InWriteback(m) => ResolveMid(s, m)
  }

  predicate IsSlot(s: State, t: Slot) {
    match t
    case RootSlot(i) => i < |s.roots|
    case ChildSlot(o, i) => IsObj(s, o) && i < |Body(s, o).children|
  }

  function RefAt(s: State, t: Slot): ObjRef
    requires IsSlot(s, t)
  {
    match t
    case RootSlot(i) => s.roots[i]
    case ChildSlot(o, i) => Body(s, o).children[i]
  }

  /** A held reference denotes an object, and a reference already moved to `InWriteback`
      never denotes an object that is still under its modified key. */
  ghost predicate RefOk(s: State, r: ObjRef) {
    && IsObj(s, Resolve(s, r))
    && (r.InWriteback? ==> KeyModified(r.mid) !in s.cache)
  }

  predicate AllUnmodified(children: seq<ObjRef>) {
    forall i :: 0 <= i < |children| ==> children[i].Unmodified?
  }

  // ---------------------------------------------------------------- invariant

  ghost predicate AllResolve(s: State) {
    forall t :: IsSlot(s, t) ==> RefOk(s, RefAt(s, t))
  }

  ghost predicate Denotes(s: State, t: Slot, o: Obj) {
    IsSlot(s, t) && Resolve(s, RefAt(s, t)) == o
  }

  ghost predicate NoSharing(s: State) {
    forall t, u, o :: Denotes(s, t, o) && Denotes(s, u, o) ==> t == u
  }

  ghost predicate NoOrphan(s: State) {
    forall o :: IsObj(s, o) ==> exists t :: Denotes(s, t, o)
  }

  /** `grade` falls from every object to its children. */
  ghost predicate Graded(s: State, grade: Obj -> nat) {
    forall o: Obj, i: nat :: IsSlot(s, ChildSlot(o, i)) ==>
      grade(Resolve(s, RefAt(s, ChildSlot(o, i)))) < grade(o)
  }

  ghost predicate Acyclic(s: State) {
    exists grade: Obj -> nat :: Graded(s, grade)
  }

  /** The references form a forest: every one denotes an object, no object has two holders,
      none has no holder, and no object is below itself. */
  ghost predicate Forest(s: State) {
    AllResolve(s) && NoSharing(s) && NoOrphan(s) && Acyclic(s)
  }

  /** Object `target` is at most `depth` levels below `o`. */
  ghost predicate Reaches(s: State, o: Obj, target: Obj, depth: nat)
    decreases depth
  {
    || o == target
    || (depth > 0 && IsObj(s, o) && exists i ::
          0 <= i < |Body(s, o).children| && Reaches(s, Resolve(s, Body(s, o).children[i]), target, depth - 1))
  }

  /** Object `target` belongs to the tree under `o`. */
  ghost predicate Below(s: State, o: Obj, target: Obj) {
    exists depth: nat :: Reaches(s, o, target, depth)
  }

  ghost predicate HoldsMid(s: State, t: Slot, m: Mid) {
    IsSlot(s, t) && !RefAt(s, t).Unmodified? && RefAt(s, t).mid == m
  }

  /** Which cache key, map entry and write-back stage can coexist for one modified id. */
  ghost predicate MidOk(s: State, m: Mid) {
    && (KeyModified(m) in s.cache ==>
          && m < s.nextMid && KeyInWriteback(m) !in s.cache && m in s.modifiedInfo
          && m !in s.writtenBack && m !in s.packing && m !in s.written)
    && (KeyInWriteback(m) in s.cache ==>
          && m < s.nextMid && m !in s.writtenBack
          && AllUnmodified(s.cache[KeyInWriteback(m)].children)
          && (m in s.packing || m in s.written)
          && (m in s.packing ==> s.cache[KeyInWriteback(m)] == s.packing[m])
          && (m in s.written ==> s.written[m] in s.disk && s.cache[KeyInWriteback(m)] == s.disk[s.written[m]]))
    && (m in s.packing ==>
          && m < s.nextMid && m !in s.writtenBack && m !in s.written && m in s.modifiedInfo
          && AllUnmodified(s.packing[m].children))
    && (m in s.written ==> m < s.nextMid && m !in s.writtenBack)
    && (m in s.writtenBack ==> m < s.nextMid)
  }

  ghost predicate MidsOk(s: State) {
    forall m: Mid :: MidOk(s, m)
  }

  /** Every `written_back` entry is still waiting for the reference that will collect it. */
  ghost predicate Awaited(s: State) {
    forall m: Mid :: m in s.writtenBack ==> exists t :: HoldsMid(s, t, m)
  }

  /** Packed nodes hold only clean references, and a cached clean copy equals the disk. */
  ghost predicate CopiesOk(s: State) {
    && (forall p :: p in s.disk ==> AllUnmodified(s.disk[p].children))
    && (forall p :: KeyUnmodified(p) in s.cache ==> p in s.disk && s.cache[KeyUnmodified(p)] == s.disk[p])
  }

  ghost predicate Injective(w: map<Mid, Ptr>) {
    forall i: Mid, j: Mid :: i in w && j in w && w[i] == w[j] ==> i == j
  }

  /** Pointers being published, pointers waiting in `written_back` and released pointers are
      all on disk, listed once, and in one of these places only. */
  ghost predicate PtrsOk(s: State) {
    && (forall m: Mid :: m in s.written ==> s.written[m] in s.disk && s.written[m] !in s.released)
    && Injective(s.written)
    && (forall m: Mid :: m in s.writtenBack ==> IsObj(s, OnDisk(s.writtenBack[m])))
    && Injective(s.writtenBack)
    && (forall p :: p in s.released ==> p in s.disk && s.released[p] == 1)
  }

  ghost predicate Inv(s: State) {
    Forest(s) && Awaited(s) && MidsOk(s) && CopiesOk(s) && PtrsOk(s)
  }

  // -------------------------------------------------------------------- steps

  datatype Step =
    // edits made by the tree layer through objects it may write
    | Insert(payload: Payload, info: DatasetId, held: nat)
    | TakeChild(mid: Mid, index: nat)
    | PutChild(mid: Mid, index: nat, root: nat)
    | Mutate(mid: Mid, payload: Payload)
    | Remove
    // steps of the data management unit itself
    | FixOr(slot: Slot)
    | Steal(slot: Slot, info: DatasetId)
    | Fetch(ptr: Ptr)
    | EvictClean(ptr: Ptr)
    | BeginWriteback(mid: Mid)
    | WriteOut(mid: Mid, ptr: Ptr)
    | Publish(mid: Mid, evict: bool)

  /** Steps by which the tree layer changes what is stored. */
  predicate IsEdit(step: Step) {
    step.Insert? || step.TakeChild? || step.PutChild? || step.Mutate? || step.Remove?
  }

  /** The holder may be changed in place: a root, or a node under its modified key. */
  predicate Writable(s: State, t: Slot) {
    match t
    case RootSlot(_) => true
    case ChildSlot(o, _) => o.Mem? && KeyModified(o.mid) in s.cache
  }

  /** The last root can be given to `remove`: its object is clean or cached under its key. */
  predicate Removable(s: State) {
    s.roots != [] && var r := s.roots[|s.roots| - 1]; r.Unmodified? || r.AsKey() in s.cache
  }

  /** The guard of each step.  None of them states an invariant: `FixOr` only asks that the
      reference is not clean and its key is not cached, `WriteOut` only that the allocator
      returns an address it has not handed out in that generation.  A new object takes over
      references that its creator holds.  An operation that holds a node for writing owns the
      path to it, so a reference it moves into the node does not lead back to that node. */
  ghost predicate Enabled(s: State, step: Step) {
    match step
    case Insert(_, _, held) => held <= |s.roots|
    case TakeChild(m, i) => KeyModified(m) in s.cache && i < |s.cache[KeyModified(m)].children|
    case PutChild(m, i, k) =>
      && KeyModified(m) in s.cache && i <= |s.cache[KeyModified(m)].children| && k < |s.roots|
      && !Below(s, Resolve(s, s.roots[k]), Mem(m))
    case Mutate(m, _) => KeyModified(m) in s.cache
    case Remove =>
      && Removable(s)
      && var o := Resolve(s, s.roots[|s.roots| - 1]);
      && IsObj(s, o) && Body(s, o).children == []
    case FixOr(t) =>
      IsSlot(s, t) && !RefAt(s, t).Unmodified? && RefAt(s, t).AsKey() !in s.cache
    case Steal(t, _) =>
      IsSlot(s, t) && Writable(s, t) && !RefAt(s, t).Modified? && RefAt(s, t).AsKey() in s.cache
    case Fetch(p) => p in s.disk && KeyUnmodified(p) !in s.cache
    case EvictClean(p) => KeyUnmodified(p) in s.cache
    case BeginWriteback(m) =>
      KeyModified(m) in s.cache && AllUnmodified(s.cache[KeyModified(m)].children)
    case WriteOut(m, p) => m in s.packing && p !in s.disk
    case Publish(m, _) => m in s.written
  }

  function SetRef(s: State, t: Slot, r: ObjRef): State
    requires IsSlot(s, t)
  {
    match t
    case RootSlot(i) => s.(roots := s.roots[i := r])
    case ChildSlot(o, i) =>
      var n := Body(s, o).(children := Body(s, o).children[i := r]);
      match o
      case OnDisk(p) => s.(cache := s.cache[KeyUnmodified(p) := n])
      case Mem(m) =>
        if KeyModified(m) in s.cache then s.(cache := s.cache[KeyModified(m) := n])
        else s.(cache := s.cache[KeyInWriteback(m) := n])
  }

  function SetNode(s: State, m: Mid, n: Node): State {
    s.(cache := s.cache[KeyModified(m) := n])
  }

  function Release(s: State, p: Ptr): State {
    s.(released := s.released + multiset{p})
  }

  function Rekey(cache: map<ObjectKey, Node>, from: ObjectKey, to: ObjectKey): map<ObjectKey, Node>
    requires from in cache
  {
    (cache - {from})[to := cache[from]]
  }

  /** `fix_or` on the reference alone; its precondition is the `unwrap` on `written_back`. */
  function Fixed(s: State, r: ObjRef): (res: (State, ObjRef))
    requires r.Modified? || (r.InWriteback? && r.mid in s.writtenBack)
  {
    match r
    case Modified(m) => (s, InWriteback(m))
    case InWriteback(m) => (s.(writtenBack := s.writtenBack - {m}), Unmodified(s.writtenBack[m]))
  }

  ghost function StealAt(s: State, t: Slot, info: DatasetId): State
    requires IsSlot(s, t) && RefAt(s, t).AsKey() in s.cache
  {
    var r := RefAt(s, t);
    var m := s.nextMid;
    var s1 := SetRef(s, t, Modified(m));
    var s2 := s1.(nextMid := m + 1,
                  cache := Rekey(s1.cache, r.AsKey(), KeyModified(m)),
                  modifiedInfo := s.modifiedInfo[m := info]);
    if r.Unmodified? then Release(s2, r.ptr) else s2
  }

  /** `remove`, whatever the object still refers to. */
  function Removed(s: State): State
    requires Removable(s)
  {
    var last := |s.roots| - 1;
    var r := s.roots[last];
    var s1 := s.(roots := s.roots[..last], cache := s.cache - {r.AsKey()});
    if r.Unmodified? then Release(s1, r.ptr) else s1
  }

  /** The two `unwrap`s: `written_back` in `fix_or`, `modified_info` in `handle_write_back`. */
  ghost predicate Panics(s: State, step: Step)
    requires Enabled(s, step)
  {
    match step
    case FixOr(t) => RefAt(s, t).InWriteback? && RefAt(s, t).mid !in s.writtenBack
    case WriteOut(m, _) => m !in s.modifiedInfo
    case _ => false
  }

  ghost function Next(s: State, step: Step): State
    requires Enabled(s, step) && !Panics(s, step)
  {
    match step
    case Insert(payload, info, held) =>
      var rest := |s.roots| - held;
      SetNode(s, s.nextMid, Node(payload, s.roots[rest..])).(
        nextMid := s.nextMid + 1,
        modifiedInfo := s.modifiedInfo[s.nextMid := info],
        roots := s.roots[..rest] + [Modified(s.nextMid)])
    case TakeChild(m, i) =>
      var n := s.cache[KeyModified(m)];
      SetNode(s, m, n.(children := n.children[..i] + n.children[i + 1..])).(roots := s.roots + [n.children[i]])
    case PutChild(m, i, k) =>
      var n := s.cache[KeyModified(m)];
      SetNode(s, m, n.(children := n.children[..i] + [s.roots[k]] + n.children[i..])).(
        roots := s.roots[..k] + s.roots[k + 1..])
    case Mutate(m, payload) =>
      SetNode(s, m, s.cache[KeyModified(m)].(payload := payload))
    case Remove => Removed(s)
    case FixOr(t) =>
      var (s1, r) := Fixed(s, RefAt(s, t));
      SetRef(s1, t, r)
    case Steal(t, info) => StealAt(s, t, info)
    case Fetch(p) => s.(cache := s.cache[KeyUnmodified(p) := s.disk[p]])
    case EvictClean(p) => s.(cache := s.cache - {KeyUnmodified(p)})
    case BeginWriteback(m) =>
      s.(cache := Rekey(s.cache, KeyModified(m), KeyInWriteback(m)),
         packing := s.packing[m := s.cache[KeyModified(m)]])
    case WriteOut(m, p) =>
      s.(disk := s.disk[p := s.packing[m]],
         packing := s.packing - {m},
         written := s.written[m := p],
         modifiedInfo := s.modifiedInfo - {m})
    case Publish(m, evict) =>
      var p := s.written[m];
      var s1 := s.(written := s.written - {m});
      if KeyInWriteback(m) in s.cache then
        s1.(writtenBack := s.writtenBack[m := p],
            cache := if evict then s.cache - {KeyInWriteback(m)}
                     else Rekey(s.cache, KeyInWriteback(m), KeyUnmodified(p)))
      else
        Release(s1, p)
  }
}
