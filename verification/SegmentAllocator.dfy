/** First-fit allocation in one segment: a bitmap and a list of its free runs. */
module SegmentAllocator {
  import opened Common

  datatype Run = Run(offset: nat, size: nat) {
    function End(): nat {
      offset + size
    }
  }

  predicate Covers(r: Run, b: nat) {
    r.offset <= b < r.End()
  }

  /** Bits [o, o + n) exist and are free. */
  predicate Free(bits: seq<bool>, o: nat, n: nat) {
    o + n <= |bits| && forall b: nat :: o <= b < o + n ==> !bits[b]
  }

  function Marked(bits: seq<bool>, o: nat, n: nat): (r: seq<bool>)
    requires o + n <= |bits|
    ensures |r| == |bits|
    ensures forall b: nat :: b < |bits| ==> r[b] == (o <= b < o + n || bits[b])
  {
    seq(|bits|, b requires 0 <= b < |bits| => o <= b < o + n || bits[b])
  }

  /** A free run that cannot be extended on either side. */
  predicate Maximal(bits: seq<bool>, r: Run) {
    && Free(bits, r.offset, r.size)
    && (r.offset > 0 ==> bits[r.offset - 1])
    && (r.End() < |bits| ==> bits[r.End()])
  }

  predicate Ordered(free: seq<Run>, n: nat) {
    && (forall i :: 0 <= i < |free| ==> free[i].End() <= n)
    && (forall i, j :: 0 <= i < j < |free| ==> free[i].End() <= free[j].offset)
  }

  predicate Listed(free: seq<Run>, b: nat) {
    exists i :: 0 <= i < |free| && Covers(free[i], b)
  }

  /** The list is sorted, its non-empty entries are maximal free runs, and every free bit is in
      one of them. */
  ghost predicate Lists(bits: seq<bool>, free: seq<Run>) {
    && Ordered(free, |bits|)
    && (forall i :: 0 <= i < |free| && free[i].size > 0 ==> Maximal(bits, free[i]))
    && (forall b: nat :: b < |bits| && !bits[b] ==> Listed(free, b))
  }

  /** A free range lies within one entry. */
  lemma {:induction false} WithinOne(bits: seq<bool>, free: seq<Run>, o: nat, n: nat) returns (i: nat)
    requires Lists(bits, free) && Free(bits, o, n) && n > 0
    ensures i < |free| && free[i].offset <= o && o + n <= free[i].End()
    decreases n
  {
    if n == 1 {
      assert Listed(free, o);
      i :| 0 <= i < |free| && Covers(free[i], o);
    } else {
      i := WithinOne(bits, free, o, n - 1);
      assert Maximal(bits, free[i]);
      assert !bits[o + n - 1];
    }
  }

  /** Every maximal run is in the list. */
  lemma RunsAreListed(bits: seq<bool>, free: seq<Run>, r: Run)
    requires Lists(bits, free) && Maximal(bits, r) && r.size > 0
    ensures r in free
  {
    var i := WithinOne(bits, free, r.offset, r.size);
    var f := free[i];
    assert Maximal(bits, f);
    assert f.offset >= r.offset && f.End() <= r.End();
    assert f == r;
  }

  // -------------------------------------------------------------- carving a run out

  /** What remains of the run f without [o, o + n): pieces in order, the rest of f and no more. */
  ghost predicate Remains(f: Run, o: nat, n: nat, mid: seq<Run>) {
    && (forall i :: 0 <= i < |mid| ==> f.offset <= mid[i].offset && mid[i].End() <= f.End())
    && (forall i, j :: 0 <= i < j < |mid| ==> mid[i].End() <= mid[j].offset)
    && (forall i :: 0 <= i < |mid| && mid[i].size > 0 ==>
          || (mid[i].offset == f.offset && mid[i].End() == o)
          || (mid[i].offset == o + n && mid[i].End() == f.End()))
    && (forall b: nat :: Covers(f, b) && !(o <= b < o + n) ==> Listed(mid, b))
  }

  function Spliced(free: seq<Run>, i: nat, mid: seq<Run>): seq<Run>
    requires i < |free|
  {
    free[..i] + mid + free[i + 1..]
  }

  lemma SplicedOrdered(free: seq<Run>, i: nat, mid: seq<Run>, o: nat, n: nat, max: nat)
    requires Ordered(free, max) && i < |free|
    requires free[i].offset <= o && o + n <= free[i].End() && Remains(free[i], o, n, mid)
    ensures Ordered(Spliced(free, i, mid), max)
  {
    var s := Spliced(free, i, mid);
    forall x, y | 0 <= x < y < |s|
      ensures s[x].End() <= s[y].offset
    {
      var f := free[i];
      if x >= i + |mid| {
        assert s[x] == free[x - |mid| + 1] && s[y] == free[y - |mid| + 1];
      } else if y >= i + |mid| {
        assert s[y] == free[y - |mid| + 1] && f.End() <= s[y].offset;
        assert x < i ==> s[x] == free[x] && s[x].End() <= f.offset;
      } else if y >= i {
        assert s[y] == mid[y - i];
        assert x < i ==> s[x] == free[x] && s[x].End() <= f.offset;
      }
    }
    forall x | 0 <= x < |s|
      ensures s[x].End() <= max
    {
      assert x >= i + |mid| ==> s[x] == free[x - |mid| + 1];
    }
  }

  lemma SplicedListed(free: seq<Run>, i: nat, mid: seq<Run>, o: nat, n: nat, b: nat)
    requires i < |free| && Remains(free[i], o, n, mid)
    requires Listed(free, b) && !(o <= b < o + n)
    ensures Listed(Spliced(free, i, mid), b)
  {
    var s := Spliced(free, i, mid);
    var j :| 0 <= j < |free| && Covers(free[j], b);
    if j == i {
      var m :| 0 <= m < |mid| && Covers(mid[m], b);
      assert Covers(s[i + m], b);
    } else if j < i {
      assert Covers(s[j], b);
    } else {
      assert Covers(s[j - 1 + |mid|], b);
    }
  }

  lemma SplicedMaximal(bits: seq<bool>, free: seq<Run>, i: nat, mid: seq<Run>, o: nat, n: nat, x: nat)
    requires Lists(bits, free) && i < |free| && n > 0
    requires free[i].offset <= o && o + n <= free[i].End() && Remains(free[i], o, n, mid)
    requires x < |Spliced(free, i, mid)| && Spliced(free, i, mid)[x].size > 0
    ensures Maximal(Marked(bits, o, n), Spliced(free, i, mid)[x])
  {
    var s, f := Spliced(free, i, mid), free[i];
    assert Maximal(bits, f);
    if x < i {
      assert s[x] == free[x] && s[x].End() <= f.offset;
      assert Maximal(bits, free[x]);
    } else if x >= i + |mid| {
      var y := x - |mid| + 1;
      assert s[x] == free[y] && f.End() <= s[x].offset;
      assert Maximal(bits, free[y]);
    } else {
      assert s[x] == mid[x - i];
    }
  }

  /** Taking a range out of one entry and out of the bitmap keeps them in step. */
  lemma CarveOut(bits: seq<bool>, free: seq<Run>, i: nat, mid: seq<Run>, o: nat, n: nat)
    requires Lists(bits, free) && i < |free| && n > 0
    requires free[i].offset <= o && o + n <= free[i].End() && Remains(free[i], o, n, mid)
    ensures Lists(Marked(bits, o, n), Spliced(free, i, mid))
  {
    SplicedOrdered(free, i, mid, o, n, |bits|);
    var s := Spliced(free, i, mid);
    forall x | 0 <= x < |s| && s[x].size > 0
      ensures Maximal(Marked(bits, o, n), s[x])
    {
      SplicedMaximal(bits, free, i, mid, o, n, x);
    }
    forall b: nat | b < |bits| && !Marked(bits, o, n)[b]
      ensures Listed(s, b)
    {
      SplicedListed(free, i, mid, o, n, b);
    }
  }

  // --------------------------------------------------------------------- the class

  ghost predicate Apart(granted: seq<Run>) {
    forall i, j :: 0 <= i < j < |granted| ==>
      granted[i].End() <= granted[j].offset || granted[j].End() <= granted[i].offset
  }

  ghost predicate Taken(bits: seq<bool>, r: Run) {
    r.End() <= |bits| && forall b: nat :: Covers(r, b) ==> bits[b]
  }

  ghost predicate Grants(bits: seq<bool>, granted: seq<Run>) {
    Apart(granted) && forall i :: 0 <= i < |granted| ==> granted[i].size > 0 && Taken(bits, granted[i])
  }

  /** A free range is apart from everything granted so far. */
  lemma GrantMore(bits: seq<bool>, granted: seq<Run>, o: nat, n: nat)
    requires Grants(bits, granted) && Free(bits, o, n) && n > 0
    ensures Grants(Marked(bits, o, n), granted + [Run(o, n)])
  {
    var all, new_ := granted + [Run(o, n)], Marked(bits, o, n);
    forall i | 0 <= i < |granted|
      ensures granted[i].End() <= o || o + n <= granted[i].offset
      ensures Taken(new_, granted[i])
    {
      var g := granted[i];
      assert Taken(bits, g);
      var b := if g.offset <= o then o else g.offset;
      assert !(Covers(g, b) && o <= b < o + n);
    }
  }

  /** The scan has listed all runs before `offset` and stands at their end. */
  ghost predicate ScannedTo(bits: seq<bool>, free: seq<Run>, offset: nat) {
    && offset <= |bits|
    && Ordered(free, offset)
    && (offset > 0 && offset < |bits| && !bits[offset] ==> bits[offset - 1])
    && (forall i :: 0 <= i < |free| && free[i].size > 0 ==> Maximal(bits, free[i]))
    && (forall b: nat :: b < offset && !bits[b] ==> Listed(free, b))
  }

  lemma RunScanned(bits: seq<bool>, free: seq<Run>, start: nat, size: nat)
    requires ScannedTo(bits, free, start) && size > 0 && Free(bits, start, size)
    requires start + size < |bits| ==> bits[start + size]
    ensures ScannedTo(bits, free + [Run(start, size)], start + size)
  {
    var more := free + [Run(start, size)];
    assert Maximal(bits, Run(start, size));
    forall b: nat | b < start + size && !bits[b]
      ensures Listed(more, b)
    {
      if b < start {
        assert Listed(free, b);
        var i :| 0 <= i < |free| && Covers(free[i], b);
        assert Covers(more[i], b);
      } else {
        assert Covers(more[|free|], b);
      }
    }
  }

  /** Scans the bitmap for its free runs. */
  method FreeRuns(data: array<bool>) returns (free: seq<Run>)
    ensures Lists(data[..], free)
  {
    free := [];
    var offset := 0;
    while offset < data.Length
      invariant 0 <= offset <= data.Length
      invariant ScannedTo(data[..], free, offset)
      decreases data.Length - offset
    {
      if !data[offset] {
        var start := offset;
        var size := 0;
        while offset < data.Length && !data[offset]
          invariant start <= offset == start + size <= data.Length
          invariant Free(data[..], start, size)
          decreases data.Length - offset
        {
          size := size + 1;
          offset := offset + 1;
        }
        RunScanned(data[..], free, start, size);
        free := free + [Run(start, size)];
      } else {
        offset := offset + 1;
      }
    }
  }

  method Any(data: array<bool>, offset: nat, size: nat) returns (any: bool)
    requires offset + size <= data.Length
    ensures any <==> !Free(data[..], offset, size)
  {
    var b := offset;
    while b < offset + size && !data[b]
      invariant offset <= b <= offset + size
      invariant Free(data[..], offset, b - offset)
      decreases offset + size - b
    {
      b := b + 1;
    }
    any := b < offset + size;
  }

  /** The first entry that is large enough; no free range of that size starts before it. */
  method FirstFit(free: seq<Run>, size: nat, ghost bits: seq<bool>) returns (i: nat)
    requires Lists(bits, free) && size > 0
    ensures i <= |free|
    ensures i < |free| ==> free[i].size >= size
    ensures forall o: nat :: Free(bits, o, size) ==> i < |free| && free[i].offset <= o
  {
    i := 0;
    while i < |free| && free[i].size < size
      invariant i <= |free|
      invariant forall j :: 0 <= j < i ==> free[j].size < size
      decreases |free| - i
    {
      i := i + 1;
    }
    forall o: nat | Free(bits, o, size)
      ensures i < |free| && free[i].offset <= o
    {
      var j := WithinOne(bits, free, o, size);
      assert j >= i;
    }
  }

  lemma FrontRemains(f: Run, n: nat)
    requires 0 < n <= f.size
    ensures Remains(f, f.offset, n, [Run(f.offset + n, f.size - n)])
  {
    var mid := [Run(f.offset + n, f.size - n)];
    forall b: nat | Covers(f, b) && !(f.offset <= b < f.offset + n)
      ensures Listed(mid, b)
    {
      assert Covers(mid[0], b);
    }
  }

  lemma BackRemains(f: Run, n: nat)
    requires 0 < n < f.size
    ensures Remains(f, f.End() - n, n, [Run(f.offset, f.size - n)])
  {
    var mid := [Run(f.offset, f.size - n)];
    forall b: nat | Covers(f, b) && !(f.End() - n <= b < f.End())
      ensures Listed(mid, b)
    {
      assert Covers(mid[0], b);
    }
  }

  lemma MiddleRemains(f: Run, o: nat, n: nat)
    requires n > 0 && f.offset < o && o + n < f.End()
    ensures Remains(f, o, n, [Run(f.offset, o - f.offset), Run(o + n, f.End() - (o + n))])
  {
    var mid := [Run(f.offset, o - f.offset), Run(o + n, f.End() - (o + n))];
    forall b: nat | Covers(f, b) && !(o <= b < o + n)
      ensures Listed(mid, b)
    {
      assert b < o ==> Covers(mid[0], b);
      assert b >= o ==> Covers(mid[1], b);
    }
  }

  lemma SplicePieces(free: seq<Run>, i: nat, a: Run, b: Run)
    requires i < |free|
    ensures Spliced(free, i, []) == free[..i] + free[i + 1..]
    ensures Spliced(free, i, [a]) == free[i := a]
    ensures Spliced(free, i, [a, b]) == free[i := a][..i + 1] + [b] + free[i := a][i + 1..]
  {
  }

  /** The four cases in which an entry gives up a range. */
  predicate Fits(f: Run, offset: nat, size: nat) {
    || (f.offset == offset && f.size == size)
    || (f.offset == offset && f.size > size)
    || (offset > f.offset && offset + size == f.End())
    || (offset > f.offset && offset < f.End() && offset + size < f.End())
  }

  /** The first entry the range can be taken from. */
  method FindHolder(free: seq<Run>, offset: nat, size: nat, ghost holder: nat) returns (i: nat)
    requires holder < |free| && free[holder].offset <= offset && offset + size <= free[holder].End()
    requires Ordered(free, SEGMENT_SIZE) && size > 0
    ensures i < |free| && free[i].offset <= offset && offset + size <= free[i].End()
  {
    i := 0;
    while i < |free| && !Fits(free[i], offset, size)
      invariant i <= holder
      decreases |free| - i
    {
      i := i + 1;
    }
  }

  /** Removes a free range from the entry that holds it. */
  method TakeFromEntry(free: seq<Run>, i: nat, offset: nat, size: nat, ghost bits: seq<bool>) returns (r: seq<Run>)
    requires Lists(bits, free) && size > 0
    requires i < |free| && free[i].offset <= offset && offset + size <= free[i].End()
    ensures Lists(Marked(bits, offset, size), r)
  {
    var f := free[i];
    ghost var mid: seq<Run>;
    if f.offset == offset && f.size == size {
      mid := [];
      r := free[..i] + free[i + 1..];
      SplicePieces(free, i, f, f);
    } else if f.offset == offset && f.size > size {
      mid := [Run(f.offset + size, f.size - size)];
      r := free[i := Run(f.offset + size, f.size - size)];
      FrontRemains(f, size);
      SplicePieces(free, i, mid[0], f);
    } else if offset > f.offset && offset + size == f.End() {
      mid := [Run(f.offset, f.size - size)];
      r := free[i := Run(f.offset, f.size - size)];
      BackRemains(f, size);
      SplicePieces(free, i, mid[0], f);
    } else {
      var rest := Run(offset + size, f.size - (size + (offset - f.offset)));
      mid := [Run(f.offset, offset - f.offset), rest];
      r := free[i := Run(f.offset, offset - f.offset)];
      r := r[..i + 1] + [rest] + r[i + 1..];
      MiddleRemains(f, offset, size);
      SplicePieces(free, i, mid[0], rest);
    }
    CarveOut(bits, free, i, mid, offset, size);
  }

  class SegmentAllocator {
    const data: array<bool>
    var freeSegments: seq<Run>
    ghost var granted: seq<Run>

    ghost predicate Valid()
      reads this, data
    {
      data.Length == SEGMENT_SIZE && Lists(data[..], freeSegments) && Grants(data[..], granted)
    }

    constructor (bitmap: array<bool>)
      requires bitmap.Length == SEGMENT_SIZE
      ensures Valid() && data == bitmap && granted == []
    {
      data := bitmap;
      freeSegments := [];
      granted := [];
      new;
      InitializeFreeSegments();
    }

    /** Scans the bitmap for its free runs. */
    method InitializeFreeSegments()
      requires data.Length == SEGMENT_SIZE && freeSegments == []
      modifies this`freeSegments
      ensures Lists(data[..], freeSegments)
    {
      freeSegments := FreeRuns(data);
    }

    method Mark(offset: nat, size: nat)
      requires offset + size <= data.Length
      modifies data
      ensures data[..] == Marked(old(data[..]), offset, size)
    {
      var b := offset;
      while b < offset + size
        invariant offset <= b <= offset + size
        invariant data[..] == Marked(old(data[..]), offset, b - offset)
      {
        data[b] := true;
        b := b + 1;
      }
    }

    /** The lowest fitting offset, or `None` exactly if no free range of that size exists. */
    method Allocate(size: nat) returns (r: Option<nat>)
      requires Valid()
      modifies this, data
      ensures Valid()
      ensures size == 0 ==> r == Some(0) && data[..] == old(data[..]) && granted == old(granted)
      ensures size > 0 && r.None? ==>
                && (forall o: nat :: !Free(old(data[..]), o, size))
                && data[..] == old(data[..]) && granted == old(granted)
      ensures size > 0 && r.Some? ==>
                && Free(old(data[..]), r.value, size)
                && (forall o: nat :: Free(old(data[..]), o, size) ==> r.value <= o)
                && data[..] == Marked(old(data[..]), r.value, size)
                && granted == old(granted) + [Run(r.value, size)]
    {
      if size == 0 {
        return Some(0);
      }
      var i := FirstFit(freeSegments, size, data[..]);
      if i == |freeSegments| {
        return None;
      }
      var f := freeSegments[i];
      FrontRemains(f, size);
      SplicePieces(freeSegments, i, Run(f.offset + size, f.size - size), f);
      CarveOut(data[..], freeSegments, i, [Run(f.offset + size, f.size - size)], f.offset, size);
      assert Maximal(data[..], f);
      GrantMore(data[..], granted, f.offset, size);
      Mark(f.offset, size);
      freeSegments := freeSegments[i := Run(f.offset + size, f.size - size)];
      granted := granted + [Run(f.offset, size)];
      return Some(f.offset);
    }

    /** Takes exactly the given range, and succeeds exactly if it exists and is free. */
    method AllocateAt(size: nat, offset: nat) returns (ok: bool)
      requires Valid() && offset + size < 0x1_0000_0000
      modifies this, data
      ensures Valid()
      ensures size == 0 ==> ok && data[..] == old(data[..]) && granted == old(granted)
      ensures size > 0 ==> (ok <==> Free(old(data[..]), offset, size))
      ensures size > 0 && ok ==>
                && data[..] == Marked(old(data[..]), offset, size)
                && granted == old(granted) + [Run(offset, size)]
      ensures !ok ==> data[..] == old(data[..]) && granted == old(granted)
    {
      if size == 0 {
        return true;
      }
      if offset + size > SEGMENT_SIZE {
        return false;
      }
      var any := Any(data, offset, size);
      if any {
        return false;
      }
      GrantMore(data[..], granted, offset, size);
      ghost var holder := WithinOne(data[..], freeSegments, offset, size);
      var i := FindHolder(freeSegments, offset, size, holder);
      freeSegments := TakeFromEntry(freeSegments, i, offset, size, data[..]);
      Mark(offset, size);
      granted := granted + [Run(offset, size)];
      return true;
    }
  }
}
