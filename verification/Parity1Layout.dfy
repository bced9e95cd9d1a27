/** Where a Parity1 vdev puts a request: rotating parity, columns of two lengths, and the
    proof that the leaf blocks used are exactly a contiguous vdev range dealt out round robin. */
module Parity1Layout {

  // -------------------------------------------------------------- column geometry

  function LongColLen(n: nat, size: nat): nat
    requires n >= 2
  {
    if size == 0 then 0 else (size - 1) / (n - 1) + 1
  }

  function LongColCnt(n: nat, size: nat): nat
    requires n >= 2
  {
    if size == 0 then n - 1
    else if size % (n - 1) == 0 then n - 1
    else size % (n - 1)
  }

  function ActualSize(n: nat, size: nat): nat
    requires n >= 2
  {
    size + LongColLen(n, size)
  }

  /** One entry of `col_length_sequence`. */
  function ColLen(n: nat, size: nat, i: nat): nat
    requires n >= 2
  {
    var long := LongColLen(n, size);
    if i < LongColCnt(n, size) then long else if long == 0 then 0 else long - 1
  }

  /** `calc_col_offset`. */
  function ColOffset(n: nat, size: nat, i: nat): int
    requires n >= 2
  {
    var long, cnt := LongColLen(n, size), LongColCnt(n, size);
    if i <= cnt then long * i else long * cnt + (long - 1) * (i - cnt)
  }

  lemma MulAtLeast(x: int, d: int)
    requires d > 0 && x >= 1
    ensures x * d >= d
  {
    assert x * d == (x - 1) * d + d;
    assert (x - 1) * d >= 0;
  }

  lemma DivModUnique(a: int, d: int, q: int, r: int)
    requires d > 0 && a == q * d + r && 0 <= r < d
    ensures a / d == q && a % d == r
  {
    var q', r' := a / d, a % d;
    assert a == d * q' + r';
    var x := q - q';
    assert x * d == q * d - q' * d;
    assert x * d == r' - r && (-x) * d == -(x * d);
    if x >= 1 {
      MulAtLeast(x, d);
    } else if x <= -1 {
      MulAtLeast(-x, d);
    }
  }

  /** The division behind both numbers: `long - 1` full rows and `cnt` blocks in the last. */
  lemma Rows(n: nat, size: nat)
    requires n >= 2 && size > 0
    ensures var long, cnt := LongColLen(n, size), LongColCnt(n, size);
            1 <= cnt <= n - 1 && long >= 1 && size == (long - 1) * (n - 1) + cnt
  {
    var m := n - 1;
    var q, r := size / m, size % m;
    assert size == q * m + r;
    if r == 0 {
      assert q >= 1;
      assert size - 1 == (q - 1) * m + (m - 1);
      DivModUnique(size - 1, m, q - 1, m - 1);
    } else {
      assert size - 1 == q * m + (r - 1);
      DivModUnique(size - 1, m, q, r - 1);
    }
  }

  lemma ColOffsetNext(n: nat, size: nat, i: nat)
    requires n >= 2 && i < n - 1
    ensures ColOffset(n, size, i + 1) == ColOffset(n, size, i) + ColLen(n, size, i)
  {
    if size > 0 {
      Rows(n, size);
      var long, cnt := LongColLen(n, size), LongColCnt(n, size);
      if i < cnt {
        assert long * (i + 1) == long * i + long;
      } else {
        assert (long - 1) * (i + 1 - cnt) == (long - 1) * (i - cnt) + (long - 1);
      }
    }
  }

  /** The columns lie back to back and together hold the request. */
  lemma ColumnsCover(n: nat, size: nat)
    requires n >= 2
    ensures ColOffset(n, size, 0) == 0 && ColOffset(n, size, n - 1) == size
  {
    if size > 0 {
      Rows(n, size);
      var long, cnt := LongColLen(n, size), LongColCnt(n, size);
      assert (long - 1) * (n - 1) == (long - 1) * cnt + (long - 1) * (n - 1 - cnt);
      assert long * cnt == (long - 1) * cnt + cnt;
    }
  }

  // --------------------------------------------------------------- leaves and rows

  /** `disk_iter`: the leaves after the parity leaf at its row, then those before it one row down. */
  function DiskIter(n: nat, parityIdx: nat, parityOffset: nat): (cols: seq<(nat, nat)>)
    requires parityIdx < n
  {
    seq(n - 1 - parityIdx, k requires 0 <= k < n - 1 - parityIdx => (parityIdx + 1 + k, parityOffset))
    + seq(parityIdx, k requires 0 <= k < parityIdx => (k, parityOffset + 1))
  }

  /** Stripe 0 is the parity, stripe r the data column r - 1: leaf, first block and length. */
  function StripeLeaf(n: nat, offset: nat, r: nat): nat
    requires n >= 2
  {
    (offset % n + r) % n
  }

  function StripeStart(n: nat, offset: nat, r: nat): nat
    requires n >= 2
  {
    offset / n + (offset % n + r) / n
  }

  function StripeLen(n: nat, size: nat, r: nat): nat
    requires n >= 2
  {
    if r == 0 then LongColLen(n, size) else ColLen(n, size, r - 1)
  }

  /** Column i of `disk_iter` is stripe i + 1, and its place is the one the repair code
      recomputes: leaf `(parity + 1 + i) % n`, one row down exactly when that wraps. */
  lemma DiskIterIsStripes(n: nat, offset: nat, i: nat)
    requires n >= 2 && i < n - 1
    ensures var p, q := offset % n, offset / n;
            && |DiskIter(n, p, q)| == n - 1
            && DiskIter(n, p, q)[i] == (StripeLeaf(n, offset, i + 1), StripeStart(n, offset, i + 1))
            && StripeLeaf(n, offset, i + 1) == (p + 1 + i) % n
            && StripeStart(n, offset, i + 1) == (if p + 1 + i < n then q else q + 1)
            && StripeLeaf(n, offset, 0) == p && StripeStart(n, offset, 0) == q
  {
    var p := offset % n;
    DivModUnique(p, n, 0, p);
    if p + 1 + i < n {
      DivModUnique(p + 1 + i, n, 0, p + 1 + i);
    } else {
      DivModUnique(p + 1 + i, n, 1, p + 1 + i - n);
    }
  }

  /** Every leaf carries exactly one stripe. */
  function StripeOn(n: nat, offset: nat, leaf: nat): nat
    requires n >= 2 && leaf < n
  {
    if leaf >= offset % n then leaf - offset % n else leaf + n - offset % n
  }

  lemma OneStripePerLeaf(n: nat, offset: nat, leaf: nat, r: nat)
    requires n >= 2 && leaf < n && r < n
    ensures StripeLeaf(n, offset, r) < n && StripeOn(n, offset, leaf) < n
    ensures StripeLeaf(n, offset, r) == leaf <==> r == StripeOn(n, offset, leaf)
  {
    var p := offset % n;
    if p + r < n {
      DivModUnique(p + r, n, 0, p + r);
    } else {
      DivModUnique(p + r, n, 1, p + r - n);
    }
  }

  // -------------------------------------------------------------------- exactness

  predicate StripeHas(n: nat, size: nat, offset: nat, r: nat, block: nat)
    requires n >= 2
  {
    StripeStart(n, offset, r) <= block < StripeStart(n, offset, r) + StripeLen(n, size, r)
  }

  ghost predicate Touched(n: nat, size: nat, offset: nat, leaf: nat, block: nat)
    requires n >= 2
  {
    exists r :: 0 <= r < n && leaf == StripeLeaf(n, offset, r) && StripeHas(n, size, offset, r, block)
  }

  /** Row j of stripe r is vdev block `offset + j * n + r`. */
  lemma StripeBlock(n: nat, offset: nat, r: nat, j: nat)
    requires n >= 2 && r < n
    ensures (offset + j * n + r) % n == StripeLeaf(n, offset, r)
    ensures (offset + j * n + r) / n == StripeStart(n, offset, r) + j
  {
    var p, q := offset % n, offset / n;
    var s, e := (p + r) % n, (p + r) / n;
    assert offset == q * n + p && p + r == e * n + s;
    assert (q + j + e) * n == q * n + j * n + e * n;
    DivModUnique(offset + j * n + r, n, q + j + e, s);
  }

  lemma MulUp(a: nat, b: nat, n: nat)
    requires a <= b
    ensures a * n <= b * n
  {
    assert b * n == a * n + (b - a) * n;
  }

  lemma RowCount(n: nat, long: nat, cnt: nat, r: nat, j: nat)
    requires n >= 2 && r < n && long >= 1 && 1 <= cnt <= n - 1
    ensures j < (if r <= cnt then long else long - 1) <==> j * n + r < (long - 1) * n + 1 + cnt
  {
    if j < long - 1 {
      assert j * n + n <= (long - 1) * n by { MulUp(j + 1, long - 1, n); }
    } else if j > long - 1 {
      assert (long - 1) * n + n <= j * n by { MulUp(long, j, n); }
    }
  }

  lemma ActualRows(n: nat, size: nat)
    requires n >= 2 && size > 0
    ensures var long, cnt := LongColLen(n, size), LongColCnt(n, size);
            long >= 1 && 1 <= cnt <= n - 1 && ActualSize(n, size) == (long - 1) * n + 1 + cnt
  {
    Rows(n, size);
    var long := LongColLen(n, size);
    assert (long - 1) * n == (long - 1) * (n - 1) + (long - 1);
  }

  /** Stripe r has a row j exactly when block `j * n + r` belongs to the request. */
  lemma StripeLenExact(n: nat, size: nat, r: nat, j: nat)
    requires n >= 2 && r < n
    ensures j < StripeLen(n, size, r) <==> j * n + r < ActualSize(n, size)
  {
    if size > 0 {
      ActualRows(n, size);
      RowCount(n, LongColLen(n, size), LongColCnt(n, size), r, j);
    }
  }

  lemma Recombine(c: nat, n: nat)
    requires n > 0
    ensures c == c / n * n + c % n
  {
  }

  lemma TouchedInside(n: nat, size: nat, offset: nat, r: nat, block: nat)
    requires n >= 2 && r < n && StripeHas(n, size, offset, r, block)
    ensures offset <= block * n + StripeLeaf(n, offset, r) < offset + ActualSize(n, size)
  {
    var j := block - StripeStart(n, offset, r);
    StripeBlock(n, offset, r, j);
    StripeLenExact(n, size, r, j);
    Recombine(offset + j * n + r, n);
    assert j * n >= 0;
  }

  lemma InsideTouched(n: nat, size: nat, offset: nat, b: nat)
    requires n >= 2 && offset <= b < offset + ActualSize(n, size)
    ensures Touched(n, size, offset, b % n, b / n)
  {
    var k := b - offset;
    var j, r := k / n, k % n;
    assert k == n * j + r && n * j == j * n;
    StripeBlock(n, offset, r, j);
    StripeLenExact(n, size, r, j);
    assert StripeHas(n, size, offset, r, b / n);
  }

  /** The leaf blocks a request touches are the image of the contiguous vdev range
      [offset, offset + actual_size) under b -> (b mod n, b div n). */
  lemma LayoutExact(n: nat, size: nat, offset: nat, leaf: nat, block: nat)
    requires n >= 2 && leaf < n
    ensures Touched(n, size, offset, leaf, block) <==>
              offset <= block * n + leaf < offset + ActualSize(n, size)
    ensures (block * n + leaf) % n == leaf && (block * n + leaf) / n == block
  {
    var b := block * n + leaf;
    DivModUnique(b, n, block, leaf);
    if Touched(n, size, offset, leaf, block) {
      var r :| 0 <= r < n && leaf == StripeLeaf(n, offset, r) && StripeHas(n, size, offset, r, block);
      TouchedInside(n, size, offset, r, block);
    }
    if offset <= b < offset + ActualSize(n, size) {
      InsideTouched(n, size, offset, b);
    }
  }

  /** Disjoint vdev ranges never share a leaf block. */
  lemma DisjointRequests(n: nat, size1: nat, offset1: nat, size2: nat, offset2: nat, leaf: nat, block: nat)
    requires n >= 2 && leaf < n
    requires offset1 + ActualSize(n, size1) <= offset2
    ensures !(Touched(n, size1, offset1, leaf, block) && Touched(n, size2, offset2, leaf, block))
  {
    LayoutExact(n, size1, offset1, leaf, block);
    LayoutExact(n, size2, offset2, leaf, block);
  }

  /** A request inside the vdev stays inside every leaf; `size()` of the vdev is n times the
      smallest leaf. */
  lemma InRange(n: nat, size: nat, offset: nat, leafSize: nat, leaf: nat, block: nat)
    requires n >= 2 && leaf < n && offset + ActualSize(n, size) <= leafSize * n
    requires Touched(n, size, offset, leaf, block)
    ensures block < leafSize
  {
    LayoutExact(n, size, offset, leaf, block);
    if block >= leafSize {
      MulUp(leafSize, block, n);
    }
  }
}
