/** Disk offsets as packed numbers, and the search for a segment with room. */
module SegmentScan {
  import opened Common

  const BLOCKS: nat := 0x10_0000_0000_0000
  const DISKS: nat := 1024
  const CLASSES: nat := 4

  type DiskOffset = nat

  function StorageClass(o: DiskOffset): nat {
    o / BLOCKS / DISKS % CLASSES
  }

  function DiskId(o: DiskOffset): nat {
    o / BLOCKS % DISKS
  }

  function BlockOffset(o: DiskOffset): nat {
    o % BLOCKS
  }

  /** Two bits of storage class, ten of disk id, fifty-two of block offset. */
  function Pack(class_: nat, disk: nat, block: nat): (o: DiskOffset)
    requires class_ < CLASSES && disk < DISKS && block < BLOCKS
    ensures StorageClass(o) == class_ && DiskId(o) == disk && BlockOffset(o) == block
    ensures o < CLASSES * DISKS * BLOCKS
  {
    (class_ * DISKS + disk) * BLOCKS + block
  }

  /** Every 64-bit number is the packing of its three parts. */
  lemma Unpacked(o: DiskOffset)
    requires o < CLASSES * DISKS * BLOCKS
    ensures Pack(StorageClass(o), DiskId(o), BlockOffset(o)) == o
  {
  }

  /** Offsets are ordered by class, then disk, then block, and the blocks of a disk follow each
      other. */
  lemma PackOrder(a: nat, b: nat, x: nat, c: nat, d: nat, y: nat)
    requires a < CLASSES && b < DISKS && x < BLOCKS && c < CLASSES && d < DISKS && y < BLOCKS
    ensures Pack(a, b, x) < Pack(c, d, y) <==> a < c || (a == c && (b < d || (b == d && x < y)))
    ensures x + 1 < BLOCKS ==> Pack(a, b, x + 1) == Pack(a, b, x) + 1
  {
  }

  function SegmentOf(o: DiskOffset): (s: DiskOffset)
    ensures s <= o < s + SEGMENT_SIZE && s % SEGMENT_SIZE == 0
  {
    o - o % SEGMENT_SIZE
  }

  function NextSegment(s: DiskOffset, diskSize: nat): DiskOffset
    requires s < CLASSES * DISKS * BLOCKS
  {
    if BlockOffset(s) + SEGMENT_SIZE >= diskSize then SegmentOf(Pack(StorageClass(s), DiskId(s), 0))
    else s + SEGMENT_SIZE
  }

  /** The segments of a disk; a disk that is too small for one still has the first. */
  function SegmentsOn(diskSize: nat): (n: nat)
    ensures n > 0
  {
    if diskSize == 0 then 1 else (diskSize + SEGMENT_SIZE - 1) / SEGMENT_SIZE
  }

  function Segment(class_: nat, disk: nat, k: nat): DiskOffset
    requires class_ < CLASSES && disk < DISKS && k * SEGMENT_SIZE < BLOCKS
  {
    Pack(class_, disk, k * SEGMENT_SIZE)
  }

  lemma OnDisk(diskSize: nat, k: nat)
    requires diskSize <= BLOCKS && k < SegmentsOn(diskSize)
    ensures k * SEGMENT_SIZE < BLOCKS
  {
  }

  lemma Remainder(q: nat, r: nat)
    requires r < SEGMENT_SIZE
    ensures (q * SEGMENT_SIZE + r) % SEGMENT_SIZE == r
  {
  }

  /** Blocks of a segment stay on its disk. */
  lemma WithinSegment(class_: nat, disk: nat, k: nat, offset: nat)
    requires class_ < CLASSES && disk < DISKS && (k + 1) * SEGMENT_SIZE <= BLOCKS && offset < SEGMENT_SIZE
    ensures var o := Segment(class_, disk, k) + offset;
            StorageClass(o) == class_ && DiskId(o) == disk && SegmentOf(o) == Segment(class_, disk, k)
  {
    assert Segment(class_, disk, k) + offset == Pack(class_, disk, k * SEGMENT_SIZE + offset);
    Remainder((class_ * DISKS + disk) * (BLOCKS / SEGMENT_SIZE) + k, offset);
  }

  lemma StartAligned(class_: nat, disk: nat)
    requires class_ < CLASSES && disk < DISKS
    ensures SegmentOf(Pack(class_, disk, 0)) == Pack(class_, disk, 0)
  {
    WithinSegment(class_, disk, 0, 0);
  }

  /** The next segment is the following one on the same disk, or its first one. */
  lemma NextOnDisk(class_: nat, disk: nat, k: nat, diskSize: nat)
    requires class_ < CLASSES && disk < DISKS && diskSize <= BLOCKS && k < SegmentsOn(diskSize)
    requires k * SEGMENT_SIZE < BLOCKS
    ensures var k1 := if k + 1 < SegmentsOn(diskSize) then k + 1 else 0;
            k1 * SEGMENT_SIZE < BLOCKS && NextSegment(Segment(class_, disk, k), diskSize) == Segment(class_, disk, k1)
  {
    var s, n := Segment(class_, disk, k), SegmentsOn(diskSize);
    assert BlockOffset(s) == k * SEGMENT_SIZE;
    if k + 1 < n {
      assert (k + 1) * SEGMENT_SIZE < diskSize;
    } else {
      assert (k + 1) * SEGMENT_SIZE >= diskSize;
      StartAligned(class_, disk);
    }
  }

  /** Segment k says no. */
  predicate Refuses(room: DiskOffset -> Option<nat>, class_: nat, disk: nat, k: nat)
    requires class_ < CLASSES && disk < DISKS
  {
    k * SEGMENT_SIZE < BLOCKS && room(Segment(class_, disk, k)).None?
  }

  ghost predicate Visited(k0: nat, k: nat, n: nat, wrapped: bool, j: nat) {
    if wrapped then k0 <= j < n || j < k else k0 <= j < k
  }

  /** The segment loop of `allocate`: from the last used segment once around the disk. `room` is
      what the segments' allocators answer. */
  method Scan(class_: nat, disk: nat, diskSize: nat, first: DiskOffset, room: DiskOffset -> Option<nat>, ghost k0: nat)
    returns (r: Option<DiskOffset>, last: DiskOffset, ghost k: nat)
    requires class_ < CLASSES && disk < DISKS && diskSize <= BLOCKS
    requires k0 < SegmentsOn(diskSize) && k0 * SEGMENT_SIZE < BLOCKS && first == Segment(class_, disk, k0)
    ensures k < SegmentsOn(diskSize) && k * SEGMENT_SIZE < BLOCKS && last == Segment(class_, disk, k)
    ensures r.None? ==> forall j: nat :: j < SegmentsOn(diskSize) ==> Refuses(room, class_, disk, j)
    ensures r.Some? ==> room(last).Some? && r.value == last + room(last).value
    ensures r.Some? ==> forall j: nat :: Visited(k0, k, SegmentsOn(diskSize), k < k0, j) ==>
              Refuses(room, class_, disk, j)
    ensures r.Some? && room(last).value < SEGMENT_SIZE ==> StorageClass(r.value) == class_ && DiskId(r.value) == disk
  {
    ghost var n, wrapped := SegmentsOn(diskSize), false;
    last, k := first, k0;
    while true
      invariant k < n && k * SEGMENT_SIZE < BLOCKS && last == Segment(class_, disk, k)
      invariant wrapped ==> k < k0
      invariant !wrapped ==> k0 <= k
      invariant forall j: nat :: Visited(k0, k, n, wrapped, j) ==> Refuses(room, class_, disk, j)
      decreases if wrapped then k0 - k else n - k + k0
    {
      var segmentOffset := room(last);
      if segmentOffset.Some? {
        if segmentOffset.value < SEGMENT_SIZE {
          WithinSegment(class_, disk, k, segmentOffset.value);
        }
        return Some(last + segmentOffset.value), last, k;
      }
      NextOnDisk(class_, disk, k, diskSize);
      var next := NextSegment(last, diskSize);
      if next == first {
        return None, last, k;
      }
      last := next;
      if k + 1 < n {
        k := k + 1;
      } else {
        k, wrapped := 0, true;
      }
    }
  }
}
