/** The Parity1 vdev: writing a request with its parity, and reading it back through errors
    and bad data. */
module Parity1 {
  import opened Common
  import opened Parity1Layout
  import opened Parity1Code
  import opened Parity1Model

  /** The loop over the results in `write`: the second error makes it fail. */
  method AtMostOneError(results: seq<bool>) returns (ok: bool)
    ensures ok <==> !exists i, j :: 0 <= i < j < |results| && !results[i] && !results[j]
  {
    var errorOccurred := false;
    for idx := 0 to |results|
      invariant errorOccurred <==> exists i :: 0 <= i < idx && !results[i]
      invariant !exists i, j :: 0 <= i < j < idx && !results[i] && !results[j]
    {
      if !results[idx] {
        if errorOccurred {
          return false;
        }
        errorOccurred := true;
      }
    }
    ok := true;
  }

  class Parity1 {
    var leaves: seq<Bytes>

    constructor (leaves: seq<Bytes>)
      requires |leaves| >= 3
      ensures this.leaves == leaves
    {
      this.leaves := leaves;
    }

    /** `write_raw` on one leaf. */
    method WriteLeaf(d: nat, at: nat, bytes: Bytes, fault: WriteFault) returns (ok: bool)
      requires d < |leaves| && (bytes != [] ==> at + |bytes| <= |leaves[d]|)
      modifies this
      ensures ok == fault.Taken?
      ensures leaves == old(leaves)[d := Splice(old(leaves[d]), at,
                                                if ok then bytes else Filled(fault.debris, |bytes|))]
    {
      ok := fault.Taken?;
      var arriving := if ok then bytes else Filled(fault.debris, |bytes|);
      leaves := leaves[d := Splice(leaves[d], at, arriving)];
    }

    /** One `write_raw` of `write`. */
    method WriteStripe(g: Geometry, data: Bytes, r: nat, bytes: Bytes, faults: seq<WriteFault>,
                       ghost before: seq<Bytes>) returns (ok: bool)
      requires Laid(g, |leaves|) && Fits(before, g) && Fits(leaves, g) && |data| == Off(g.lens, |g.lens|)
      requires |faults| == |before| == |leaves| && r < |leaves| && bytes == StripeData(g, data, r)
      requires WrittenUpTo(before, leaves, g, data, faults, r)
      modifies this
      ensures |leaves| == |before| && Fits(leaves, g) && WrittenUpTo(before, leaves, g, data, faults, r + 1)
      ensures ok == faults[g.leaf[r]].Taken?
    {
      ghost var now := leaves;
      assert StripeWritten(before, now, g, data, faults, r, r);
      ok := WriteLeaf(g.leaf[r], g.start[r], bytes, faults[g.leaf[r]]);
      ghost var next := r + 1;
      forall q: nat | q < |before|
        ensures StripeWritten(before, leaves, g, data, faults, next, q)
      {
        assert StripeWritten(before, now, g, data, faults, r, q);
        assert q != r ==> g.leaf[q] != g.leaf[r];
      }
    }

    method WriteColumn(g: Geometry, data: Bytes, i: nat, faults: seq<WriteFault>, ghost before: seq<Bytes>)
      returns (ok: bool)
      requires Laid(g, |leaves|) && Fits(before, g) && Fits(leaves, g) && |data| == Off(g.lens, |g.lens|)
      requires |faults| == |before| == |leaves| && i < |g.lens| && g.lens[i] > 0
      requires WrittenUpTo(before, leaves, g, data, faults, i + 1)
      modifies this
      ensures |leaves| == |before| && Fits(leaves, g) && WrittenUpTo(before, leaves, g, data, faults, i + 2)
      ensures ok == !StripeLost(g, faults, i + 1)
    {
      ok := WriteStripe(g, data, i + 1, Column(g.lens, data, i), faults, before);
    }

    method WriteNext(g: Geometry, data: Bytes, results: seq<bool>, faults: seq<WriteFault>, ghost before: seq<Bytes>)
      returns (more: seq<bool>)
      requires Laid(g, |leaves|) && Fits(before, g) && Fits(leaves, g) && |data| == Off(g.lens, |g.lens|)
      requires |faults| == |before| == |leaves| && |results| < |g.lens| && g.lens[|results|] > 0
      requires WrittenUpTo(before, leaves, g, data, faults, |results| + 1) && Outcomes(g, faults, results)
      modifies this
      ensures |leaves| == |before| && Fits(leaves, g) && |more| == |results| + 1
      ensures WrittenUpTo(before, leaves, g, data, faults, |more| + 1) && Outcomes(g, faults, more)
    {
      var done := WriteColumn(g, data, |results|, faults, before);
      OneMoreOutcome(g, faults, results, done);
      more := results + [done];
    }

    /** The loop of `write` over the column lengths; it ends at the first empty column. */
    method WriteColumns(g: Geometry, data: Bytes, faults: seq<WriteFault>, ghost before: seq<Bytes>)
      returns (results: seq<bool>)
      requires Laid(g, |leaves|) && Fits(before, g) && Fits(leaves, g) && |data| == Off(g.lens, |g.lens|)
      requires |faults| == |before| == |leaves| && WrittenUpTo(before, leaves, g, data, faults, 1)
      modifies this
      ensures |leaves| == |before| && WrittenUpTo(before, leaves, g, data, faults, |leaves|)
      ensures Issued(g, faults, results)
    {
      var n, i := |leaves|, 0;
      results := [];
      while i < n - 1 && g.lens[i] > 0
        invariant i == |results| <= n - 1 && |leaves| == n && Fits(leaves, g)
        invariant WrittenUpTo(before, leaves, g, data, faults, i + 1)
        invariant Outcomes(g, faults, results)
        decreases n - i
      {
        results := WriteNext(g, data, results, faults, before);
        i := i + 1;
      }
      TailWritten(before, leaves, g, data, faults, i + 1);
      NoneLeft(g, i);
    }

    /** `write`: it succeeds exactly when at most one leaf write failed, and it changes every
        leaf only inside the stripe that the layout assigns to it. */
    method Write(size: nat, data: Bytes, offset: nat, faults: seq<WriteFault>) returns (ok: bool)
      requires |leaves| >= 3 && Fits(leaves, Geo(|leaves|, size, offset))
      requires |data| == size * BLOCK_SIZE && |faults| == |leaves|
      modifies this
      ensures |leaves| == |old(leaves)|
      ensures var g := Geo(|leaves|, size, offset);
              && |data| == Off(g.lens, |g.lens|)
              && WrittenUpTo(old(leaves), leaves, g, data, faults, |leaves|)
              && (ok <==> !TwoLost(g, faults))
    {
      var g := Geo(|leaves|, size, offset);
      GeoLaid(|leaves|, size, offset);
      GeoOffsets(|leaves|, size, offset, |leaves| - 1);
      ok := WriteRequest(g, data, faults);
    }

    method WriteRequest(g: Geometry, data: Bytes, faults: seq<WriteFault>) returns (ok: bool)
      requires Laid(g, |leaves|) && Fits(leaves, g) && |data| == Off(g.lens, |g.lens|) && |faults| == |leaves|
      modifies this
      ensures |leaves| == |old(leaves)| && WrittenUpTo(old(leaves), leaves, g, data, faults, |leaves|)
      ensures ok <==> !TwoLost(g, faults)
    {
      var parity := BuildParity(g.lens, g.long, data);
      var done := WriteStripe(g, data, 0, parity, faults, leaves);
      var results := WriteColumns(g, data, faults, old(leaves));
      ok := AtMostOneError([done] + results);
      LostAreErrors(g, faults, done, results);
    }

    // --------------------------------------------------------------------- read

    /** The reads of the data columns: `None` as soon as a second one failed.  An empty
        column is not read. */
    method ReadColumns(g: Geometry, faults: seq<ReadFault>) returns (res: Option<(Bytes, int)>)
      requires Laid(g, |leaves|) && Fits(leaves, g) && |faults| == |leaves|
      ensures res.None? ==> TwoSilent(leaves, g, faults)
      ensures res.Some? ==> ColumnsRead(leaves, g, faults, res.value.0, res.value.1)
    {
      var cols: seq<Bytes>, failed := [], -1;
      while |cols| < |g.lens|
        invariant |cols| <= |g.lens| && -1 <= failed < |cols|
        invariant failed >= 0 ==> Silent(leaves, g, faults, failed + 1)
        invariant forall k :: 0 <= k < |cols| ==> ColumnOk(leaves, g, faults, k, cols[k], failed)
        decreases |g.lens| - |cols|
      {
        var i := |cols|;
        if g.lens[i] == 0 {
          cols := cols + [[]];
        } else {
          var answer := Answer(leaves, g, faults, i + 1);
          if answer.Some? {
            cols := cols + [answer.value];
          } else if failed >= 0 {
            assert Silent(leaves, g, faults, i + 1);
            return None;
          } else {
            failed := i;
            cols := cols + [Filled(_ => 0, g.lens[i])];
          }
        }
      }
      JoinedRead(leaves, g, faults, cols, failed);
      return Some((Join(cols), failed));
    }

    /** `read_`, for reading (`scrub` false) and scrubbing.  `repair` says how the leaf that gets
        the repaired stripe takes that write.

        Whatever the leaves do, a returned buffer passes the checksum, and nothing outside the
        stripes of the request changes.  If `orig` was stored
        with its parity except on leaf `bad`, only `bad` misbehaves, and the checksum accepts
        exactly `orig`, then `orig` is returned and stored as well as before.  If `bad` is found
        out, its stripe is written back, and if that write is taken `orig` is stored completely;
        otherwise nothing is written. */
    method Read(size: nat, offset: nat, check: Bytes -> bool, scrub: bool, faults: seq<ReadFault>, repair: WriteFault,
                ghost orig: Bytes, ghost bad: int) returns (res: Option<Bytes>, repaired: bool)
      requires |leaves| >= 3 && Fits(leaves, Geo(|leaves|, size, offset)) && |faults| == |leaves|
      modifies this
      ensures |leaves| == |old(leaves)| && Within(old(leaves), leaves, Geo(|leaves|, size, offset))
      ensures res.Some? ==> check(res.value)
      ensures var g := Geo(|leaves|, size, offset);
              Tolerable(old(leaves), g, check, faults, orig, bad) ==>
                && res == Some(orig)
                && Stored(leaves, g, orig, bad)
                && Laid(g, |leaves|)
                && (repaired <==> repair.Taken? && FoundOut(old(leaves), g, faults, scrub, orig, bad))
                && (repaired ==> Stored(leaves, g, orig, -1))
                && (!FoundOut(old(leaves), g, faults, scrub, orig, bad) ==> leaves == old(leaves))
    {
      GeoLaid(|leaves|, size, offset);
      res, repaired := ReadRequest(Geo(|leaves|, size, offset), check, scrub, faults, repair, orig, bad);
    }

    method ReadRequest(g: Geometry, check: Bytes -> bool, scrub: bool, faults: seq<ReadFault>, repair: WriteFault,
                       ghost orig: Bytes, ghost bad: int) returns (res: Option<Bytes>, repaired: bool)
      requires Laid(g, |leaves|) && Fits(leaves, g) && |faults| == |leaves|
      modifies this
      ensures Within(old(leaves), leaves, g)
      ensures res.Some? ==> check(res.value)
      ensures Tolerable(old(leaves), g, check, faults, orig, bad) ==>
                && res == Some(orig)
                && Stored(leaves, g, orig, bad)
                && (repaired <==> repair.Taken? && FoundOut(old(leaves), g, faults, scrub, orig, bad))
                && (repaired ==> Stored(leaves, g, orig, -1))
                && (!FoundOut(old(leaves), g, faults, scrub, orig, bad) ==> leaves == old(leaves))
    {
      ghost var fine := Tolerable(leaves, g, check, faults, orig, bad);
      WithinSelf(leaves, g);
      var columns := ReadColumns(g, faults);
      if columns.None? {
        if fine { OneSilent(leaves, g, check, faults, orig, bad); }
        return None, false;
      }
      var (data, failed) := columns.value;
      if fine {
        ReadFacts(leaves, g, check, faults, orig, bad, data, failed);
        FoundOutWhen(leaves, g, check, faults, scrub, orig, bad, data, failed);
      }
      if failed == -1 && !scrub && check(data) {
        return Some(data), false;
      }
      var answer := Answer(leaves, g, faults, 0);
      if answer.None? && failed >= 0 {
        return None, false;
      }
      var parity := ParitySeen(leaves, g, faults);
      if failed >= 0 {
        if fine {
          CandidateRestores(g.lens, g.long, orig, data, failed);
          RebuiltIsOriginal(g.lens, g.long, orig, data, failed);
        }
        res, repaired := FinishRebuild(g, check, data, parity, failed, repair, orig, bad);
      } else if scrub && check(data) {
        res, repaired := ScrubParity(g, data, parity, repair, orig, bad);
      } else {
        if fine { CandidateRestores(g.lens, g.long, orig, data, BadColumn(g, bad)); }
        res, repaired := Reconstruct(g, check, data, parity, repair, orig, bad);
      }
    }

    /** Exactly one data read failed: rebuild that column with the parity. */
    method FinishRebuild(g: Geometry, check: Bytes -> bool, data: Bytes, parity: Bytes, failed: nat, repair: WriteFault,
                         ghost orig: Bytes, ghost bad: int) returns (res: Option<Bytes>, repaired: bool)
      requires Laid(g, |leaves|) && Fits(leaves, g) && |data| == Off(g.lens, |g.lens|) && |parity| == g.long
      requires failed < |g.lens|
      modifies this
      ensures Within(old(leaves), leaves, g) && (res.Some? ==> check(res.value))
      ensures && Stored(old(leaves), g, orig, bad) && g.leaf[failed + 1] == bad && check(orig)
              && Candidate(g.lens, data, parity, failed) == orig
              && Rebuilt(g.lens, data, parity, failed) == Column(g.lens, orig, failed) ==>
                && res == Some(orig) && Stored(leaves, g, orig, bad)
                && repaired == repair.Taken? && (repaired ==> Stored(leaves, g, orig, -1))
    {
      var col := Rebuild(g.lens, data, parity, failed);
      var whole := ReplaceColumn(g.lens, data, failed, col);
      if !check(whole) {
        WithinSelf(leaves, g);
        return None, false;
      }
      repaired := RepairStripe(g, failed + 1, col, repair, orig, bad);
      res := Some(whole);
    }

    /** Scrubbing good data: compare the parity, and rewrite it if it is wrong. */
    method ScrubParity(g: Geometry, data: Bytes, parity: Bytes, repair: WriteFault,
                       ghost orig: Bytes, ghost bad: int) returns (res: Option<Bytes>, repaired: bool)
      requires Laid(g, |leaves|) && Fits(leaves, g) && |data| == Off(g.lens, |g.lens|) && |parity| == g.long
      modifies this
      ensures Within(old(leaves), leaves, g) && res == Some(data)
      ensures && Stored(old(leaves), g, orig, bad) && data == orig
              && (g.leaf[0] == bad || parity == ParityOf(g.lens, g.long, orig)) ==>
                Stored(leaves, g, orig, bad) && (repaired ==> Stored(leaves, g, orig, -1))
      ensures repaired <==> repair.Taken? && parity != ParityOf(g.lens, g.long, data)
      ensures parity == ParityOf(g.lens, g.long, data) ==> leaves == old(leaves)
    {
      res := Some(data);
      var newParity := BuildParity(g.lens, g.long, data);
      if newParity == parity {
        WithinSelf(leaves, g);
        return res, false;
      }
      repaired := RepairStripe(g, 0, newParity, repair, orig, bad);
    }

    /** Every leaf returned something, but the checksum does not match: try each column. */
    method Reconstruct(g: Geometry, check: Bytes -> bool, data: Bytes, parity: Bytes, repair: WriteFault,
                       ghost orig: Bytes, ghost bad: int) returns (res: Option<Bytes>, repaired: bool)
      requires Laid(g, |leaves|) && Fits(leaves, g) && |data| == Off(g.lens, |g.lens|) && |parity| == g.long
      modifies this
      ensures Within(old(leaves), leaves, g) && (res.Some? ==> check(res.value))
      ensures Stored(old(leaves), g, orig, bad) && Blamed(g, check, data, parity, orig, bad) ==>
                && res == Some(orig) && Stored(leaves, g, orig, bad)
                && repaired == repair.Taken? && (repaired ==> Stored(leaves, g, orig, -1))
    {
      var found, col := FindBadColumn(g.lens, data, parity, check);
      if found == -1 {
        BlamedPasses(g, check, data, parity, orig, bad);
        WithinSelf(leaves, g);
        return None, false;
      }
      BlamedFound(g, |leaves|, check, data, parity, orig, bad, found);
      res := Some(ReplaceColumn(g.lens, data, found, col));
      repaired := RepairStripe(g, found + 1, col, repair, orig, bad);
    }

    /** The write that puts a recomputed stripe back on its leaf. */
    method RepairStripe(g: Geometry, r: nat, bytes: Bytes, repair: WriteFault, ghost orig: Bytes, ghost bad: int)
      returns (ok: bool)
      requires Laid(g, |leaves|) && Fits(leaves, g) && r < |leaves| && |bytes| == Len(g, r)
      modifies this
      ensures Within(old(leaves), leaves, g) && ok == repair.Taken?
      ensures Stored(old(leaves), g, orig, bad) && bytes == StripeData(g, orig, r) && g.leaf[r] == bad ==>
                Stored(leaves, g, orig, bad) && (ok ==> Stored(leaves, g, orig, -1))
    {
      OneStripeWithin(leaves, g, r, if repair.Taken? then bytes else Filled(repair.debris, |bytes|));
      ok := WriteLeaf(g.leaf[r], g.start[r], bytes, repair);
    }
  }

  // ------------------------------------------------------------------------ runs

  datatype Request =
    | WriteRequest(size: nat, data: Bytes, offset: nat, writeFaults: seq<WriteFault>)
    | ReadRequest(size: nat, offset: nat, check: Bytes -> bool, scrub: bool, readFaults: seq<ReadFault>,
                  repair: WriteFault)

  /** A request inside the vdev, with a behaviour for every leaf. */
  ghost predicate Proper(leaves: seq<Bytes>, q: Request)
    requires |leaves| >= 3
  {
    && Fits(leaves, Geo(|leaves|, q.size, q.offset))
    && match q
       case WriteRequest(size, data, _, faults) => |data| == size * BLOCK_SIZE && |faults| == |leaves|
       case ReadRequest(_, _, _, _, faults, _) => |faults| == |leaves|
  }

  ghost predicate OnlyMisreads(faults: seq<ReadFault>, bad: int) {
    forall d :: 0 <= d < |faults| && d != bad ==> faults[d].Healthy?
  }

  ghost predicate Accepts(check: Bytes -> bool, data: Bytes) {
    forall x :: check(x) <==> x == data
  }

  /** A request that does not endanger `data` at `offset`: any request elsewhere, however its leaves
      behave, or a read of the data itself in which only leaf `bad` misbehaves. */
  ghost predicate Harmless(n: nat, q: Request, size: nat, offset: nat, data: Bytes, bad: int)
    requires n >= 3
  {
    || Apart(n, q.size, q.offset, size, offset)
    || (&& q.ReadRequest? && q.size == size && q.offset == offset
        && Accepts(q.check, data) && OnlyMisreads(q.readFaults, bad))
  }

  /** One request of a run.  The answer to a harmless read of the data itself is the data. */
  method ServeOne(v: Parity1, q: Request, ghost size: nat, ghost offset: nat, ghost data: Bytes, ghost bad: int)
    returns (answer: Option<Bytes>)
    requires |v.leaves| >= 3 && Proper(v.leaves, q) && Harmless(|v.leaves|, q, size, offset, data, bad)
    requires Stored(v.leaves, Geo(|v.leaves|, size, offset), data, bad)
    modifies v
    ensures |v.leaves| == |old(v.leaves)| && Within(old(v.leaves), v.leaves, Geo(|v.leaves|, q.size, q.offset))
    ensures Stored(v.leaves, Geo(|v.leaves|, size, offset), data, bad)
    ensures !Apart(|v.leaves|, q.size, q.offset, size, offset) ==> answer == Some(data)
  {
    ghost var n, before := |v.leaves|, v.leaves;
    ghost var g := Geo(n, q.size, q.offset);
    answer := None;
    match q {
      case WriteRequest(s, bytes, o, faults) =>
        var _ := v.Write(s, bytes, o, faults);
        WriteWithin(before, v.leaves, g, bytes, faults);
      case ReadRequest(s, o, check, scrub, faults, repair) =>
        var repaired;
        answer, repaired := v.Read(s, o, check, scrub, faults, repair, data, bad);
    }
    if Apart(n, q.size, q.offset, size, offset) {
      WithinKeepsOthers(before, v.leaves, q.size, q.offset, size, offset, data, bad);
    }
  }

  ghost predicate AllProper(leaves: seq<Bytes>, qs: seq<Request>, from: nat)
    requires |leaves| >= 3
  {
    forall i :: from <= i < |qs| ==> Proper(leaves, qs[i])
  }

  ghost predicate AllHarmless(n: nat, qs: seq<Request>, size: nat, offset: nat, data: Bytes, bad: int)
    requires n >= 3
  {
    forall i :: 0 <= i < |qs| ==> Harmless(n, qs[i], size, offset, data, bad)
  }

  /** Every read of the data itself was answered with the data. */
  ghost predicate Answered(n: nat, qs: seq<Request>, size: nat, offset: nat, data: Bytes, answers: seq<Option<Bytes>>)
    requires n >= 3 && |answers| <= |qs|
  {
    forall i :: 0 <= i < |answers| && !Apart(n, qs[i].size, qs[i].offset, size, offset) ==> answers[i] == Some(data)
  }

  lemma ProperStill(before: seq<Bytes>, after: seq<Bytes>, q: Request, qs: seq<Request>, from: nat)
    requires |before| >= 3 && Proper(before, q) && AllProper(before, qs, from)
    requires Within(before, after, Geo(|before|, q.size, q.offset))
    ensures AllProper(after, qs, from)
  {
    var n := |before|;
    GeoLaid(n, q.size, q.offset);
    forall k | from <= k < |qs| ensures Proper(after, qs[k]) {
      FitsStill(before, after, Geo(n, q.size, q.offset), Geo(n, qs[k].size, qs[k].offset));
    }
  }

  /** Over every run of writes, reads and scrubs that do not endanger it, stored data stays stored. */
  method Serve(v: Parity1, qs: seq<Request>, ghost size: nat, ghost offset: nat, ghost data: Bytes, ghost bad: int)
    returns (answers: seq<Option<Bytes>>)
    requires |v.leaves| >= 3 && Stored(v.leaves, Geo(|v.leaves|, size, offset), data, bad)
    requires AllProper(v.leaves, qs, 0) && AllHarmless(|v.leaves|, qs, size, offset, data, bad)
    modifies v
    ensures |v.leaves| == |old(v.leaves)| && Stored(v.leaves, Geo(|v.leaves|, size, offset), data, bad)
    ensures |answers| == |qs| && Answered(|v.leaves|, qs, size, offset, data, answers)
  {
    ghost var n := |v.leaves|;
    answers := [];
    for i := 0 to |qs|
      invariant |v.leaves| == n && |answers| == i && Stored(v.leaves, Geo(n, size, offset), data, bad)
      invariant AllProper(v.leaves, qs, i) && Answered(n, qs, size, offset, data, answers)
    {
      ghost var before := v.leaves;
      var answer := ServeOne(v, qs[i], size, offset, data, bad);
      ProperStill(before, v.leaves, qs[i], qs, i + 1);
      answers := answers + [answer];
    }
  }

  /** A successful write can be read back while any one leaf misbehaves - the leaf whose write failed
      if there was one, any leaf otherwise - and after any run of requests that do not endanger it. */
  method WriteThenRead(v: Parity1, size: nat, data: Bytes, offset: nat, check: Bytes -> bool,
                       writeFaults: seq<WriteFault>, between: seq<Request>, readFaults: seq<ReadFault>,
                       repair: WriteFault, scrub: bool, ghost bad: int)
    returns (ok: bool, res: Option<Bytes>)
    requires |v.leaves| >= 3 && Fits(v.leaves, Geo(|v.leaves|, size, offset)) && |data| == size * BLOCK_SIZE
    requires |writeFaults| == |readFaults| == |v.leaves| && Accepts(check, data) && OnlyMisreads(readFaults, bad)
    requires forall d :: 0 <= d < |writeFaults| && d != bad ==> writeFaults[d].Taken?
    requires AllProper(v.leaves, between, 0) && AllHarmless(|v.leaves|, between, size, offset, data, bad)
    modifies v
    ensures ok && res == Some(data)
  {
    var n, g := |v.leaves|, Geo(|v.leaves|, size, offset);
    GeoLaid(n, size, offset);
    ghost var before := v.leaves;
    ok := v.Write(size, data, offset, writeFaults);
    OnlyOneLost(g, writeFaults, bad);
    ghost var lost := WriteStores(before, v.leaves, g, data, writeFaults);
    WriteWithin(before, v.leaves, g, data, writeFaults);
    ProperStill(before, v.leaves, WriteRequest(size, data, offset, writeFaults), between, 0);
    var _ := Serve(v, between, size, offset, data, bad);
    var repaired;
    res, repaired := v.Read(size, offset, check, scrub, readFaults, repair, data, bad);
  }

  /** Once a read or a scrub has found out the bad leaf and its write was taken, another leaf may
      go bad. */
  method RepairThenRead(v: Parity1, size: nat, data: Bytes, offset: nat, check: Bytes -> bool, scrub: bool,
                        faults: seq<ReadFault>, repair: WriteFault, laterFaults: seq<ReadFault>,
                        laterRepair: WriteFault, ghost bad: int, ghost laterBad: int)
    returns (repaired: bool, res: Option<Bytes>)
    requires |v.leaves| >= 3 && Tolerable(v.leaves, Geo(|v.leaves|, size, offset), check, faults, data, bad)
    requires |laterFaults| == |v.leaves| && OnlyMisreads(laterFaults, laterBad)
    modifies v
    ensures |v.leaves| == |old(v.leaves)| && Laid(Geo(|v.leaves|, size, offset), |v.leaves|)
    ensures repaired <==>
              repair.Taken? && FoundOut(old(v.leaves), Geo(|v.leaves|, size, offset), faults, scrub, data, bad)
    ensures repaired || laterBad == bad ==> res == Some(data)
  {
    res, repaired := v.Read(size, offset, check, scrub, faults, repair, data, bad);
    var again;
    res, again := v.Read(size, offset, check, scrub, laterFaults, laterRepair, data, laterBad);
  }
}
