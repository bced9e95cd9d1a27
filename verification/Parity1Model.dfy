/** The leaves of a Parity1 vdev and what a request leaves on them.  A request is cut into
    stripes, one per leaf: stripe 0 is the parity, stripe i + 1 is data column i. */
module Parity1Model {
  import opened Common
  import opened Parity1Layout
  import opened Parity1Code

  const BLOCK_SIZE: nat := 4096

  /** How a leaf answers one read: what is stored, an error, or arbitrary bytes. */
  datatype ReadFault = Healthy | Fails | Lies(answer: nat -> bv8)

  /** How a leaf takes one write: a failed write may leave anything in the range. */
  datatype WriteFault = Taken | Lost(debris: nat -> bv8)

  // ------------------------------------------------------------------- geometry

  /** The stripes of a request in bytes: column lengths, parity length, and for each stripe
      its leaf and start; `on` is the stripe each leaf carries. */
  datatype Geometry = Geometry(lens: seq<nat>, long: nat, leaf: seq<nat>, start: seq<nat>, on: seq<nat>)

  function Len(g: Geometry, r: nat): nat
    requires r <= |g.lens|
  {
    if r == 0 then g.long else g.lens[r - 1]
  }

  ghost predicate Laid(g: Geometry, n: nat) {
    && n >= 3 && |g.lens| == n - 1 && |g.leaf| == |g.start| == |g.on| == n
    && (forall r :: 0 <= r < n ==> g.leaf[r] < n && g.on[g.leaf[r]] == r)
    && (forall d :: 0 <= d < n ==> g.on[d] < n && g.leaf[g.on[d]] == d)
    && (forall i :: 0 <= i < |g.lens| ==> g.lens[i] <= g.long)
    && EmptyTail(g.lens)
  }

  function Geo(n: nat, size: nat, offset: nat): Geometry
    requires n >= 3
  {
    Geometry(seq(n - 1, i requires 0 <= i < n - 1 => ColLen(n, size, i) * BLOCK_SIZE),
             LongColLen(n, size) * BLOCK_SIZE,
             seq(n, r requires 0 <= r < n => StripeLeaf(n, offset, r)),
             seq(n, r requires 0 <= r < n => StripeStart(n, offset, r) * BLOCK_SIZE),
             seq(n, d requires 0 <= d < n => StripeOn(n, offset, d)))
  }

  lemma GeoLaid(n: nat, size: nat, offset: nat)
    requires n >= 3
    ensures Laid(Geo(n, size, offset), n)
  {
    var g := Geo(n, size, offset);
    forall r | 0 <= r < n ensures g.leaf[r] < n && g.on[g.leaf[r]] == r && g.on[r] < n && g.leaf[g.on[r]] == r {
      OneStripePerLeaf(n, offset, StripeLeaf(n, offset, r), r);
      OneStripePerLeaf(n, offset, r, r);
      OneStripePerLeaf(n, offset, r, StripeOn(n, offset, r));
    }
    forall i, k | 0 <= i <= k < n - 1
      ensures ColLen(n, size, k) <= ColLen(n, size, i) <= LongColLen(n, size)
    {
    }
  }

  /** The byte offsets of the columns are those `calc_col_offset` computes, and the columns
      hold the whole request. */
  lemma {:induction false} GeoOffsets(n: nat, size: nat, offset: nat, i: nat)
    requires n >= 3 && i <= n - 1
    ensures Off(Geo(n, size, offset).lens, i) == ColOffset(n, size, i) * BLOCK_SIZE
    ensures i == n - 1 ==> Off(Geo(n, size, offset).lens, i) == size * BLOCK_SIZE
  {
    ColumnsCover(n, size);
    if i > 0 {
      GeoOffsets(n, size, offset, i - 1);
      ColOffsetNext(n, size, i - 1);
    }
  }

  // ---------------------------------------------------------------------- leaves

  /** Overwrites part of a leaf; a request for no bytes is not issued. */
  function Splice(leaf: Bytes, at: nat, bytes: Bytes): (r: Bytes)
    requires bytes != [] ==> at + |bytes| <= |leaf|
    ensures |r| == |leaf|
  {
    if bytes == [] then leaf else leaf[..at] + bytes + leaf[at + |bytes|..]
  }

  function Slice(leaf: Bytes, at: nat, len: nat): (r: Bytes)
    requires len > 0 ==> at + len <= |leaf|
    ensures |r| == len
  {
    if len == 0 then [] else leaf[at..at + len]
  }

  function Filled(f: nat -> bv8, len: nat): (r: Bytes)
    ensures |r| == len
  {
    seq(len, i requires 0 <= i => f(i))
  }

  predicate Fits(leaves: seq<Bytes>, g: Geometry) {
    && |leaves| == |g.leaf| == |g.start| == |g.lens| + 1
    && forall r :: 0 <= r < |leaves| ==>
         g.leaf[r] < |leaves| && (Len(g, r) > 0 ==> g.start[r] + Len(g, r) <= |leaves[g.leaf[r]]|)
  }

  /** A request inside the size the vdev reports fits on its leaves. */
  lemma InRangeFits(leaves: seq<Bytes>, leafBlocks: nat, size: nat, offset: nat)
    requires |leaves| >= 3 && offset + ActualSize(|leaves|, size) <= leafBlocks * |leaves|
    requires forall d :: 0 <= d < |leaves| ==> leafBlocks * BLOCK_SIZE <= |leaves[d]|
    ensures Fits(leaves, Geo(|leaves|, size, offset))
  {
    var n := |leaves|;
    var g := Geo(n, size, offset);
    forall r | 0 <= r < n
      ensures g.leaf[r] < n && (Len(g, r) > 0 ==> g.start[r] + Len(g, r) <= |leaves[g.leaf[r]]|)
    {
      OneStripePerLeaf(n, offset, 0, r);
      if StripeLen(n, size, r) > 0 {
        var last := StripeStart(n, offset, r) + StripeLen(n, size, r) - 1;
        assert StripeHas(n, size, offset, r, last);
        InRange(n, size, offset, leafBlocks, StripeLeaf(n, offset, r), last);
        assert g.start[r] + Len(g, r) == (last + 1) * BLOCK_SIZE;
      }
    }
  }

  /** The bytes of one stripe of a request. */
  function StripeData(g: Geometry, data: Bytes, r: nat): (bytes: Bytes)
    requires r <= |g.lens| && |data| == Off(g.lens, |g.lens|)
    ensures |bytes| == Len(g, r)
  {
    if r == 0 then ParityOf(g.lens, g.long, data) else Column(g.lens, data, r - 1)
  }

  function OnLeaf(leaves: seq<Bytes>, g: Geometry, r: nat): (bytes: Bytes)
    requires Fits(leaves, g) && r < |leaves|
    ensures |bytes| == Len(g, r)
  {
    Slice(leaves[g.leaf[r]], g.start[r], Len(g, r))
  }

  /** The request is on disk with its parity, except possibly for what leaf `bad` holds. */
  ghost predicate Stored(leaves: seq<Bytes>, g: Geometry, data: Bytes, bad: int) {
    && Fits(leaves, g) && |data| == Off(g.lens, |g.lens|)
    && (forall r :: 0 <= r < |leaves| && g.leaf[r] != bad ==> OnLeaf(leaves, g, r) == StripeData(g, data, r))
  }

  // ----------------------------------------------------------------------- write

  /** What a write leaves in place of stripe r. */
  ghost function Arriving(g: Geometry, data: Bytes, r: nat, fault: WriteFault): (bytes: Bytes)
    requires r <= |g.lens| && |data| == Off(g.lens, |g.lens|)
    ensures |bytes| == Len(g, r)
  {
    match fault
    case Taken => StripeData(g, data, r)
    case Lost(debris) => Filled(debris, Len(g, r))
  }

  ghost predicate StripeWritten(before: seq<Bytes>, after: seq<Bytes>, g: Geometry, data: Bytes,
                                faults: seq<WriteFault>, k: nat, r: nat)
    requires Fits(before, g) && |data| == Off(g.lens, |g.lens|) && |faults| == |before| == |after| && r < |before|
  {
    after[g.leaf[r]] == if r < k then Splice(before[g.leaf[r]], g.start[r], Arriving(g, data, r, faults[g.leaf[r]]))
                        else before[g.leaf[r]]
  }

  /** The leaves whose stripe is below k hold what arrived, the others are as before. */
  ghost predicate WrittenUpTo(before: seq<Bytes>, after: seq<Bytes>, g: Geometry, data: Bytes,
                              faults: seq<WriteFault>, k: nat)
    requires Fits(before, g) && |data| == Off(g.lens, |g.lens|) && |faults| == |before| == |after|
  {
    forall r: nat :: r < |before| ==> StripeWritten(before, after, g, data, faults, k, r)
  }

  /** The write of stripe r is issued and fails. */
  predicate StripeLost(g: Geometry, faults: seq<WriteFault>, r: nat) {
    && r < |g.leaf| && r <= |g.lens| && (r == 0 || Len(g, r) > 0)
    && g.leaf[r] < |faults| && faults[g.leaf[r]].Lost?
  }

  ghost predicate TwoLost(g: Geometry, faults: seq<WriteFault>) {
    exists r, q :: 0 <= r < q && StripeLost(g, faults, r) && StripeLost(g, faults, q)
  }

  ghost predicate Outcomes(g: Geometry, faults: seq<WriteFault>, results: seq<bool>) {
    forall k :: 0 <= k < |results| ==> results[k] == !StripeLost(g, faults, k + 1)
  }

  /** `results` are the outcomes of the writes of the non-empty columns. */
  ghost predicate Issued(g: Geometry, faults: seq<WriteFault>, results: seq<bool>)
    requires |g.leaf| == |faults| == |g.lens| + 1
  {
    && |results| <= |g.lens|
    && Outcomes(g, faults, results)
    && (forall k :: |results| <= k < |g.lens| ==> g.lens[k] == 0)
  }

  lemma TailWritten(before: seq<Bytes>, after: seq<Bytes>, g: Geometry, data: Bytes, faults: seq<WriteFault>, k: nat)
    requires Fits(before, g) && |data| == Off(g.lens, |g.lens|) && |faults| == |before| == |after|
    requires 1 <= k <= |before| && EmptyTail(g.lens) && (k < |before| ==> g.lens[k - 1] == 0)
    requires WrittenUpTo(before, after, g, data, faults, k)
    ensures WrittenUpTo(before, after, g, data, faults, |before|)
  {
    forall r: nat | r < |before|
      ensures StripeWritten(before, after, g, data, faults, |before|, r)
    {
      assert StripeWritten(before, after, g, data, faults, k, r);
      if k <= r {
        assert g.lens[r - 1] == 0;
        assert Arriving(g, data, r, faults[g.leaf[r]]) == [];
      }
    }
  }

  lemma NoneLeft(g: Geometry, i: nat)
    requires EmptyTail(g.lens) && i <= |g.lens| && (i < |g.lens| ==> g.lens[i] == 0)
    ensures forall k :: i <= k < |g.lens| ==> g.lens[k] == 0
  {
  }

  lemma OneMoreOutcome(g: Geometry, faults: seq<WriteFault>, results: seq<bool>, done: bool)
    requires Outcomes(g, faults, results) && done == !StripeLost(g, faults, |results| + 1)
    ensures Outcomes(g, faults, results + [done])
  {
  }

  lemma LostAreErrors(g: Geometry, faults: seq<WriteFault>, done: bool, results: seq<bool>)
    requires |g.leaf| == |faults| == |g.lens| + 1 && Issued(g, faults, results) && done == !StripeLost(g, faults, 0)
    ensures var all := [done] + results;
            TwoLost(g, faults) <==> exists i, j :: 0 <= i < j < |all| && !all[i] && !all[j]
  {
    var all := [done] + results;
    forall r: nat ensures StripeLost(g, faults, r) <==> r < |all| && !all[r] {
      if 0 < r < |all| {
        assert all[r] == results[r - 1];
      }
    }
    if TwoLost(g, faults) {
      var r, q :| 0 <= r < q && StripeLost(g, faults, r) && StripeLost(g, faults, q);
      assert !all[r] && !all[q];
    }
    if i, j :| 0 <= i < j < |all| && !all[i] && !all[j] {
      assert StripeLost(g, faults, i) && StripeLost(g, faults, j);
    }
  }

  lemma OnlyOneLost(g: Geometry, faults: seq<WriteFault>, bad: int)
    requires Laid(g, |faults|) && forall d :: 0 <= d < |faults| && d != bad ==> faults[d].Taken?
    ensures !TwoLost(g, faults)
  {
    forall r: nat | StripeLost(g, faults, r) ensures g.leaf[r] == bad && g.on[bad] == r {
    }
  }

  // ---------------------------------------------------------- what a write achieves

  lemma SplicedSlice(leaf: Bytes, at: nat, bytes: Bytes)
    requires bytes != [] ==> at + |bytes| <= |leaf|
    ensures Slice(Splice(leaf, at, bytes), at, |bytes|) == bytes
  {
  }

  /** After a successful write all stripes but those of one leaf are in place. */
  lemma WriteStores(before: seq<Bytes>, after: seq<Bytes>, g: Geometry, data: Bytes, faults: seq<WriteFault>)
    returns (bad: int)
    requires Laid(g, |before|) && Fits(before, g) && |data| == Off(g.lens, |g.lens|) && |faults| == |before| == |after|
    requires WrittenUpTo(before, after, g, data, faults, |before|) && !TwoLost(g, faults)
    ensures Stored(after, g, data, bad)
    ensures bad >= 0 ==> bad < |before| && faults[bad].Lost?
  {
    bad := -1;
    if r :| 0 <= r < |g.leaf| && StripeLost(g, faults, r) {
      bad := g.leaf[r];
    }
    forall r: nat | r < |after|
      ensures |after[g.leaf[r]]| == |before[g.leaf[r]]|
    {
      assert StripeWritten(before, after, g, data, faults, |before|, r);
    }
    assert Fits(after, g);
    forall r | 0 <= r < |after| && g.leaf[r] != bad
      ensures OnLeaf(after, g, r) == StripeData(g, data, r)
    {
      assert !StripeLost(g, faults, r);
      assert StripeWritten(before, after, g, data, faults, |before|, r);
      SplicedSlice(before[g.leaf[r]], g.start[r], Arriving(g, data, r, faults[g.leaf[r]]));
    }
  }

  // ----------------------------------------------------------- what a request leaves

  /** The leaf of stripe r differs at most inside that stripe. */
  ghost predicate StripeOnly(before: seq<Bytes>, after: seq<Bytes>, g: Geometry, r: nat)
    requires Fits(before, g) && |after| == |before| && r < |before|
  {
    var was, now := before[g.leaf[r]], after[g.leaf[r]];
    |now| == |was| && now == Splice(was, g.start[r], Slice(now, g.start[r], Len(g, r)))
  }

  /** Nothing changed outside the stripes of the request. */
  ghost predicate Within(before: seq<Bytes>, after: seq<Bytes>, g: Geometry)
    requires Fits(before, g)
  {
    |after| == |before| && forall r: nat :: r < |before| ==> StripeOnly(before, after, g, r)
  }

  lemma SpliceSame(leaf: Bytes, at: nat, len: nat)
    requires len > 0 ==> at + len <= |leaf|
    ensures Splice(leaf, at, Slice(leaf, at, len)) == leaf
  {
  }

  lemma WithinSelf(leaves: seq<Bytes>, g: Geometry)
    requires Fits(leaves, g)
    ensures Within(leaves, leaves, g)
  {
    forall r: nat | r < |leaves| ensures StripeOnly(leaves, leaves, g, r) {
      SpliceSame(leaves[g.leaf[r]], g.start[r], Len(g, r));
    }
  }

  lemma OneStripeWithin(leaves: seq<Bytes>, g: Geometry, r: nat, bytes: Bytes)
    requires Laid(g, |leaves|) && Fits(leaves, g) && r < |leaves| && |bytes| == Len(g, r)
    ensures Within(leaves, leaves[g.leaf[r] := Splice(leaves[g.leaf[r]], g.start[r], bytes)], g)
  {
    var after := leaves[g.leaf[r] := Splice(leaves[g.leaf[r]], g.start[r], bytes)];
    forall q: nat | q < |leaves| ensures StripeOnly(leaves, after, g, q) {
      if q == r {
        SplicedSlice(leaves[g.leaf[r]], g.start[r], bytes);
      } else {
        assert g.on[g.leaf[q]] == q && g.on[g.leaf[r]] == r;
        SpliceSame(leaves[g.leaf[q]], g.start[q], Len(g, q));
      }
    }
  }

  lemma WriteWithin(before: seq<Bytes>, after: seq<Bytes>, g: Geometry, data: Bytes, faults: seq<WriteFault>)
    requires Fits(before, g) && |data| == Off(g.lens, |g.lens|) && |faults| == |before| == |after|
    requires WrittenUpTo(before, after, g, data, faults, |before|)
    ensures Within(before, after, g)
  {
    forall r: nat | r < |before| ensures StripeOnly(before, after, g, r) {
      assert StripeWritten(before, after, g, data, faults, |before|, r);
      SplicedSlice(before[g.leaf[r]], g.start[r], Arriving(g, data, r, faults[g.leaf[r]]));
    }
  }

  lemma SpliceOutside(leaf: Bytes, at: nat, bytes: Bytes, from: nat, len: nat)
    requires (bytes != [] ==> at + |bytes| <= |leaf|) && (len > 0 ==> from + len <= |leaf|)
    requires bytes == [] || len == 0 || from + len <= at || at + |bytes| <= from
    ensures Slice(Splice(leaf, at, bytes), from, len) == Slice(leaf, from, len)
  {
    if bytes != [] && len > 0 {
      SpliceElsewhere(leaf, at, bytes, from, from + len);
    }
  }

  predicate Apart(n: nat, size1: nat, offset1: nat, size2: nat, offset2: nat)
    requires n >= 2
  {
    offset1 + ActualSize(n, size1) <= offset2 || offset2 + ActualSize(n, size2) <= offset1
  }

  /** Two stripes on the same leaf that belong to disjoint vdev ranges do not overlap. */
  lemma StripesApart(n: nat, size1: nat, offset1: nat, size2: nat, offset2: nat, r: nat, q: nat)
    requires n >= 3 && r < n && q < n && StripeLeaf(n, offset1, r) == StripeLeaf(n, offset2, q)
    requires Apart(n, size1, offset1, size2, offset2)
    ensures var g1, g2 := Geo(n, size1, offset1), Geo(n, size2, offset2);
            || Len(g1, r) == 0 || Len(g2, q) == 0
            || g1.start[r] + Len(g1, r) <= g2.start[q] || g2.start[q] + Len(g2, q) <= g1.start[r]
  {
    var leaf := StripeLeaf(n, offset1, r);
    var a, b := StripeStart(n, offset1, r), StripeStart(n, offset2, q);
    var x, y := StripeLen(n, size1, r), StripeLen(n, size2, q);
    OneStripePerLeaf(n, offset1, 0, r);
    if x > 0 && y > 0 && a < b + y && b < a + x {
      var block := if a < b then b else a;
      assert StripeHas(n, size1, offset1, r, block) && StripeHas(n, size2, offset2, q, block);
      assert Touched(n, size1, offset1, leaf, block) && Touched(n, size2, offset2, leaf, block);
      if offset1 + ActualSize(n, size1) <= offset2 {
        DisjointRequests(n, size1, offset1, size2, offset2, leaf, block);
      } else {
        DisjointRequests(n, size2, offset2, size1, offset1, leaf, block);
      }
    }
  }

  lemma StripeKept(before: seq<Bytes>, after: seq<Bytes>, size1: nat, offset1: nat, size2: nat, offset2: nat, q: nat)
    requires |before| >= 3 && Apart(|before|, size1, offset1, size2, offset2) && q < |before|
    requires Fits(before, Geo(|before|, size1, offset1)) && Fits(before, Geo(|before|, size2, offset2))
    requires Within(before, after, Geo(|before|, size1, offset1))
    ensures var g := Geo(|before|, size2, offset2);
            && |after[g.leaf[q]]| == |before[g.leaf[q]]|
            && Slice(after[g.leaf[q]], g.start[q], Len(g, q)) == OnLeaf(before, g, q)
  {
    var n := |before|;
    var g1, g2 := Geo(n, size1, offset1), Geo(n, size2, offset2);
    GeoLaid(n, size1, offset1);
    GeoLaid(n, size2, offset2);
    var d := g2.leaf[q];
    var r := g1.on[d];
    StripesApart(n, size1, offset1, size2, offset2, r, q);
    assert StripeOnly(before, after, g1, r);
    SpliceOutside(before[d], g1.start[r], Slice(after[d], g1.start[r], Len(g1, r)), g2.start[q], Len(g2, q));
  }

  /** No request changes the size of a leaf. */
  lemma FitsStill(before: seq<Bytes>, after: seq<Bytes>, g: Geometry, other: Geometry)
    requires Laid(g, |before|) && Fits(before, g) && Within(before, after, g) && Fits(before, other)
    ensures Fits(after, other)
  {
    forall d: nat | d < |before| ensures |after[d]| == |before[d]| {
      assert StripeOnly(before, after, g, g.on[d]);
    }
  }

  /** Whatever a request does within its own stripes - a write, a failed one, the repair of a read -
      every request stored in a range apart from its own stays as it was. */
  lemma WithinKeepsOthers(before: seq<Bytes>, after: seq<Bytes>, size1: nat, offset1: nat, size2: nat, offset2: nat,
                          data: Bytes, bad: int)
    requires |before| >= 3 && Apart(|before|, size1, offset1, size2, offset2)
    requires Fits(before, Geo(|before|, size1, offset1)) && Within(before, after, Geo(|before|, size1, offset1))
    requires Stored(before, Geo(|before|, size2, offset2), data, bad)
    ensures Stored(after, Geo(|before|, size2, offset2), data, bad)
  {
    var n := |before|;
    var g := Geo(n, size2, offset2);
    forall q: nat | q < n
      ensures |after[g.leaf[q]]| == |before[g.leaf[q]]|
      ensures Slice(after[g.leaf[q]], g.start[q], Len(g, q)) == OnLeaf(before, g, q)
    {
      StripeKept(before, after, size1, offset1, size2, offset2, q);
    }
  }

  // ------------------------------------------------------------------------ read

  /** What the leaf of stripe r answers. */
  function Answer(leaves: seq<Bytes>, g: Geometry, faults: seq<ReadFault>, r: nat): (a: Option<Bytes>)
    requires Fits(leaves, g) && |faults| == |leaves| && r < |leaves|
    ensures a.Some? ==> |a.value| == Len(g, r)
  {
    match faults[g.leaf[r]]
    case Healthy => Some(OnLeaf(leaves, g, r))
    case Fails => None
    case Lies(f) => Some(Filled(f, Len(g, r)))
  }

  /** Stripe r is read and its leaf reports an error. */
  ghost predicate Silent(leaves: seq<Bytes>, g: Geometry, faults: seq<ReadFault>, r: nat)
    requires Fits(leaves, g) && |faults| == |leaves|
  {
    r < |leaves| && Len(g, r) > 0 && Answer(leaves, g, faults, r).None?
  }

  ghost predicate TwoSilent(leaves: seq<Bytes>, g: Geometry, faults: seq<ReadFault>)
    requires Fits(leaves, g) && |faults| == |leaves|
  {
    exists i, j :: 0 <= i < j && Silent(leaves, g, faults, i) && Silent(leaves, g, faults, j)
  }

  ghost predicate ColumnOk(leaves: seq<Bytes>, g: Geometry, faults: seq<ReadFault>, k: nat, col: Bytes, failed: int)
    requires Fits(leaves, g) && |faults| == |leaves| && k < |g.lens|
  {
    |col| == g.lens[k] && (k != failed && g.lens[k] > 0 ==> Answer(leaves, g, faults, k + 1) == Some(col))
  }

  /** The buffer holds every answered column; `failed` is the one that was not (or -1). */
  ghost predicate ColumnsRead(leaves: seq<Bytes>, g: Geometry, faults: seq<ReadFault>, data: Bytes, failed: int)
    requires Fits(leaves, g) && |faults| == |leaves|
  {
    && |data| == Off(g.lens, |g.lens|) && -1 <= failed < |g.lens|
    && (failed >= 0 ==> Silent(leaves, g, faults, failed + 1))
    && (forall k :: 0 <= k < |g.lens| ==> ColumnOk(leaves, g, faults, k, Column(g.lens, data, k), failed))
  }

  lemma JoinedRead(leaves: seq<Bytes>, g: Geometry, faults: seq<ReadFault>, cols: seq<Bytes>, failed: int)
    requires Fits(leaves, g) && |faults| == |leaves| && |cols| == |g.lens| && -1 <= failed < |cols|
    requires failed >= 0 ==> Silent(leaves, g, faults, failed + 1)
    requires forall k :: 0 <= k < |cols| ==> ColumnOk(leaves, g, faults, k, cols[k], failed)
    ensures ColumnsRead(leaves, g, faults, Join(cols), failed)
  {
    JoinLength(g.lens, cols);
    forall k | 0 <= k < |g.lens| ensures Column(g.lens, Join(cols), k) == cols[k] {
      JoinColumn(g.lens, cols, k);
    }
  }

  /** At most one leaf is bad, and the checksum recognises exactly the written data. */
  ghost predicate Tolerable(leaves: seq<Bytes>, g: Geometry, check: Bytes -> bool, faults: seq<ReadFault>, orig: Bytes,
                            bad: int)
  {
    && Stored(leaves, g, orig, bad) && |faults| == |leaves|
    && (forall d :: 0 <= d < |leaves| && d != bad ==> faults[d].Healthy?)
    && (forall x :: check(x) <==> x == orig)
  }

  lemma OneSilent(leaves: seq<Bytes>, g: Geometry, check: Bytes -> bool, faults: seq<ReadFault>, orig: Bytes, bad: int)
    requires Laid(g, |leaves|) && Tolerable(leaves, g, check, faults, orig, bad)
    ensures !TwoSilent(leaves, g, faults)
  {
    forall r: nat | Silent(leaves, g, faults, r) ensures g.leaf[r] == bad && g.on[bad] == r {
    }
  }

  /** The data column on the bad leaf, or -1 if that leaf carries the parity. */
  function BadColumn(g: Geometry, bad: int): int {
    if 0 <= bad < |g.on| then g.on[bad] as int - 1 else -1
  }

  lemma ReadFacts(leaves: seq<Bytes>, g: Geometry, check: Bytes -> bool, faults: seq<ReadFault>, orig: Bytes, bad: int,
                  data: Bytes, failed: int)
    requires Laid(g, |leaves|) && Tolerable(leaves, g, check, faults, orig, bad)
    requires ColumnsRead(leaves, g, faults, data, failed)
    ensures var b := BadColumn(g, bad);
            && -1 <= b < |g.lens|
            && AgreeExcept(g.lens, data, orig, b)
            && (failed >= 0 ==> failed == b)
            && (b >= 0 ==> g.leaf[b + 1] == bad && Answer(leaves, g, faults, 0) == Some(ParityOf(g.lens, g.long, orig)))
            && (b == -1 ==> data == orig)
  {
    var b := BadColumn(g, bad);
    forall k | 0 <= k < |g.lens| && k != b ensures Column(g.lens, data, k) == Column(g.lens, orig, k) {
      assert ColumnOk(leaves, g, faults, k, Column(g.lens, data, k), failed);
      assert g.leaf[k + 1] != bad;
      assert OnLeaf(leaves, g, k + 1) == StripeData(g, orig, k + 1);
    }
    if b == -1 {
      ColumnsDetermine(g.lens, data, orig);
    } else {
      assert g.leaf[0] != bad;
      assert OnLeaf(leaves, g, 0) == StripeData(g, orig, 0);
    }
  }

  /** The parity as the reading code sees it: zeros in place of an error. */
  function ParitySeen(leaves: seq<Bytes>, g: Geometry, faults: seq<ReadFault>): (parity: Bytes)
    requires Fits(leaves, g) && |faults| == |leaves| && |leaves| > 0
    ensures |parity| == g.long
  {
    var answer := Answer(leaves, g, faults, 0);
    if answer.Some? then answer.value else Filled(_ => 0, g.long)
  }

  /** The bad leaf is found out: its data column is read and answers with an error or with other
      bytes than were written; or it carries the parity, a scrub looks at that, and what is seen
      is not the parity of the data. */
  ghost predicate FoundOut(leaves: seq<Bytes>, g: Geometry, faults: seq<ReadFault>, scrub: bool, orig: Bytes, bad: int)
    requires Laid(g, |leaves|) && Fits(leaves, g) && |faults| == |leaves| && |orig| == Off(g.lens, |g.lens|)
  {
    && 0 <= bad < |leaves|
    && var r := g.on[bad];
    if r > 0 then Len(g, r) > 0 && Answer(leaves, g, faults, r) != Some(StripeData(g, orig, r))
    else scrub && ParitySeen(leaves, g, faults) != ParityOf(g.lens, g.long, orig)
  }

  /** A leaf that answers as it can is found out by a scrub exactly if it holds wrong bytes, and a
      leaf that reports errors unless it carries a parity of zeros. */
  lemma FoundOutByScrub(leaves: seq<Bytes>, g: Geometry, faults: seq<ReadFault>, orig: Bytes, bad: nat)
    requires Laid(g, |leaves|) && Fits(leaves, g) && |faults| == |leaves| && |orig| == Off(g.lens, |g.lens|)
    requires bad < |leaves| && Len(g, g.on[bad]) > 0
    ensures faults[bad].Healthy? ==>
              (FoundOut(leaves, g, faults, true, orig, bad)
               <==> OnLeaf(leaves, g, g.on[bad]) != StripeData(g, orig, g.on[bad]))
    ensures faults[bad].Fails? ==>
              (FoundOut(leaves, g, faults, true, orig, bad)
               <==> g.on[bad] > 0 || ParityOf(g.lens, g.long, orig) != Filled(_ => 0, g.long))
  {
    var zeros := Filled(_ => 0, g.long);
    assert g.leaf[g.on[bad]] == bad;
    if faults[bad].Fails? && g.on[bad] == 0 {
      assert ParitySeen(leaves, g, faults) == zeros;
    }
  }

  /** What the columns read say about it. */
  lemma FoundOutWhen(leaves: seq<Bytes>, g: Geometry, check: Bytes -> bool, faults: seq<ReadFault>, scrub: bool,
                     orig: Bytes, bad: int, data: Bytes, failed: int)
    requires Laid(g, |leaves|) && Tolerable(leaves, g, check, faults, orig, bad)
    requires ColumnsRead(leaves, g, faults, data, failed)
    ensures failed >= 0 || !check(data) ==> FoundOut(leaves, g, faults, scrub, orig, bad)
    ensures failed == -1 && check(data) ==>
              (FoundOut(leaves, g, faults, scrub, orig, bad)
               <==> scrub && ParitySeen(leaves, g, faults) != ParityOf(g.lens, g.long, orig))
  {
    ReadFacts(leaves, g, check, faults, orig, bad, data, failed);
    var b := BadColumn(g, bad);
    if b >= 0 {
      assert g.on[bad] == b + 1;
      assert ColumnOk(leaves, g, faults, b, Column(g.lens, data, b), failed);
      if failed == -1 && !check(data) && Column(g.lens, data, b) == Column(g.lens, orig, b) {
        assert AgreeExcept(g.lens, data, orig, -1);
        ColumnsDetermine(g.lens, data, orig);
      }
    } else if !(0 <= bad < |leaves|) {
      assert g.leaf[0] != bad;
      assert OnLeaf(leaves, g, 0) == StripeData(g, orig, 0);
    }
  }

  lemma FoundIsBad(g: Geometry, orig: Bytes, data: Bytes, parity: Bytes, b: int, found: nat)
    requires found < |g.lens| && -1 <= b < |g.lens| && AgreeExcept(g.lens, data, orig, b) && data != orig
    requires g.lens[found] <= |parity| && Candidate(g.lens, data, parity, found) == orig
    ensures found == b && Rebuilt(g.lens, data, parity, found) == Column(g.lens, orig, found)
  {
    CandidateBlames(g.lens, orig, data, parity, found);
    if found != b {
      assert AgreeExcept(g.lens, data, orig, -1);
      ColumnsDetermine(g.lens, data, orig);
    }
  }

  /** Only the column on the bad leaf differs from what was written, and its reconstruction is
      what the checksum accepts. */
  ghost predicate Blamed(g: Geometry, check: Bytes -> bool, data: Bytes, parity: Bytes, orig: Bytes, bad: int)
    requires |data| == Off(g.lens, |g.lens|) && forall i :: 0 <= i < |g.lens| ==> g.lens[i] <= |parity|
  {
    var b := BadColumn(g, bad);
    && 0 <= b < |g.lens| && AgreeExcept(g.lens, data, orig, b) && data != orig
    && (forall x :: check(x) <==> x == orig) && Candidate(g.lens, data, parity, b) == orig
  }

  lemma BlamedPasses(g: Geometry, check: Bytes -> bool, data: Bytes, parity: Bytes, orig: Bytes, bad: int)
    requires |data| == Off(g.lens, |g.lens|) && forall i :: 0 <= i < |g.lens| ==> g.lens[i] <= |parity|
    requires forall i :: 0 <= i < |g.lens| ==> !check(Candidate(g.lens, data, parity, i))
    ensures !Blamed(g, check, data, parity, orig, bad)
  {
  }

  lemma BlamedFound(g: Geometry, n: nat, check: Bytes -> bool, data: Bytes, parity: Bytes, orig: Bytes, bad: int,
                    found: nat)
    requires Laid(g, n) && |data| == Off(g.lens, |g.lens|) && |parity| == g.long && found < |g.lens|
    requires check(Candidate(g.lens, data, parity, found))
    ensures Blamed(g, check, data, parity, orig, bad) ==>
              && Candidate(g.lens, data, parity, found) == orig && g.leaf[found + 1] == bad && |orig| == |data|
              && Rebuilt(g.lens, data, parity, found) == StripeData(g, orig, found + 1)
  {
    if Blamed(g, check, data, parity, orig, bad) {
      FoundIsBad(g, orig, data, parity, BadColumn(g, bad), found);
    }
  }
}
