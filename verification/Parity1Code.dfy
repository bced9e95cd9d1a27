/** XOR parity over columns of different lengths, and rebuilding one column from the others.
    Lengths are in bytes; `lens` are the lengths of the columns that make up a buffer. */
module Parity1Code {

  type Bytes = seq<bv8>

  function At(s: Bytes, j: nat): bv8 {
    if j < |s| then s[j] else 0
  }

  /** Start of column i: the columns lie back to back. */
  function Off(lens: seq<nat>, i: nat): nat
    requires i <= |lens|
  {
    if i == 0 then 0 else Off(lens, i - 1) + lens[i - 1]
  }

  lemma {:induction false} OffUp(lens: seq<nat>, i: nat, j: nat)
    requires i <= j <= |lens|
    ensures Off(lens, i) <= Off(lens, j)
    decreases j
  {
    if i < j {
      OffUp(lens, i, j - 1);
    }
  }

  function Column(lens: seq<nat>, data: Bytes, i: nat): (col: Bytes)
    requires i < |lens| && |data| == Off(lens, |lens|)
    ensures |col| == lens[i]
  {
    OffUp(lens, i + 1, |lens|);
    data[Off(lens, i)..Off(lens, i) + lens[i]]
  }

  /** XOR of byte j of the first k columns, leaving out column `skip`. */
  function XorCols(lens: seq<nat>, data: Bytes, k: nat, skip: int, j: nat): bv8
    requires k <= |lens| && |data| == Off(lens, |lens|)
  {
    if k == 0 then 0
    else if k - 1 == skip then XorCols(lens, data, k - 1, skip, j)
    else XorCols(lens, data, k - 1, skip, j) ^ At(Column(lens, data, k - 1), j)
  }

  /** The parity of the columns, as long as the longest of them. */
  function ParityOf(lens: seq<nat>, long: nat, data: Bytes): (parity: Bytes)
    requires |data| == Off(lens, |lens|)
    ensures |parity| == long
  {
    seq(long, j requires 0 <= j => XorCols(lens, data, |lens|, -1, j))
  }

  lemma {:induction false} XorColsSkip(lens: seq<nat>, data: Bytes, k: nat, skip: nat, j: nat)
    requires k <= |lens| && skip < |lens| && |data| == Off(lens, |lens|)
    ensures XorCols(lens, data, k, -1, j) ==
              if skip < k then XorCols(lens, data, k, skip, j) ^ At(Column(lens, data, skip), j)
              else XorCols(lens, data, k, skip, j)
    decreases k
  {
    if k > 0 {
      XorColsSkip(lens, data, k - 1, skip, j);
    }
  }

  /** The buffers agree on every column but one. */
  ghost predicate AgreeExcept(lens: seq<nat>, a: Bytes, b: Bytes, i: int) {
    && |a| == |b| == Off(lens, |lens|)
    && (forall k :: 0 <= k < |lens| && k != i ==> Column(lens, a, k) == Column(lens, b, k))
  }

  lemma {:induction false} XorColsAgree(lens: seq<nat>, a: Bytes, b: Bytes, k: nat, skip: int, j: nat)
    requires AgreeExcept(lens, a, b, skip) && k <= |lens|
    ensures XorCols(lens, a, k, skip, j) == XorCols(lens, b, k, skip, j)
    decreases k
  {
    if k > 0 {
      XorColsAgree(lens, a, b, k - 1, skip, j);
    }
  }

  /** Column i recomputed from the parity and the other columns. */
  function Rebuilt(lens: seq<nat>, data: Bytes, parity: Bytes, i: nat): (col: Bytes)
    requires i < |lens| && |data| == Off(lens, |lens|) && lens[i] <= |parity|
    ensures |col| == lens[i]
  {
    seq(lens[i], j requires 0 <= j < lens[i] => parity[j] ^ XorCols(lens, data, |lens|, i, j))
  }

  function ReplaceColumn(lens: seq<nat>, data: Bytes, i: nat, col: Bytes): (res: Bytes)
    requires i < |lens| && |data| == Off(lens, |lens|) && |col| == lens[i]
    ensures |res| == |data|
  {
    OffUp(lens, i + 1, |lens|);
    data[..Off(lens, i)] + col + data[Off(lens, i) + lens[i]..]
  }

  /** What both reconstruction paths offer to the checksum for column i. */
  function Candidate(lens: seq<nat>, data: Bytes, parity: Bytes, i: nat): (res: Bytes)
    requires i < |lens| && |data| == Off(lens, |lens|) && lens[i] <= |parity|
    ensures |res| == |data|
  {
    ReplaceColumn(lens, data, i, Rebuilt(lens, data, parity, i))
  }

  lemma SpliceElsewhere(data: Bytes, at: nat, col: Bytes, lo: nat, hi: nat)
    requires at + |col| <= |data| && lo <= hi <= |data| && (hi <= at || at + |col| <= lo)
    ensures (data[..at] + col + data[at + |col|..])[lo..hi] == data[lo..hi]
  {
    var res := data[..at] + col + data[at + |col|..];
    assert |res| == |data|;
    assert forall x :: lo <= x < hi ==> res[x] == data[x];
  }

  lemma SpliceThere(data: Bytes, at: nat, col: Bytes)
    requires at + |col| <= |data|
    ensures (data[..at] + col + data[at + |col|..])[at..at + |col|] == col
  {
  }

  lemma ReplacedColumn(lens: seq<nat>, data: Bytes, i: nat, col: Bytes)
    requires i < |lens| && |data| == Off(lens, |lens|) && |col| == lens[i]
    ensures Column(lens, ReplaceColumn(lens, data, i, col), i) == col
  {
    OffUp(lens, i + 1, |lens|);
    SpliceThere(data, Off(lens, i), col);
  }

  lemma {:induction false} OffNext(lens: seq<nat>, i: nat)
    requires i < |lens|
    ensures Off(lens, i + 1) == Off(lens, i) + lens[i]
  {
  }

  lemma {:induction false} ColumnEnds(lens: seq<nat>, i: nat, k: nat)
    requires i < k <= |lens|
    ensures Off(lens, i) + lens[i] <= Off(lens, k)
  {
    OffNext(lens, i);
    OffUp(lens, i + 1, k);
  }

  lemma {:induction false} KeptColumn(lens: seq<nat>, data: Bytes, i: nat, col: Bytes, k: nat)
    requires i < |lens| && k < |lens| && k != i && |data| == Off(lens, |lens|) && |col| == lens[i]
    ensures Column(lens, ReplaceColumn(lens, data, i, col), k) == Column(lens, data, k)
  {
    ColumnEnds(lens, k, |lens|);
    ColumnEnds(lens, i, |lens|);
    if k < i {
      ColumnEnds(lens, k, i);
    } else {
      ColumnEnds(lens, i, k);
    }
    SpliceElsewhere(data, Off(lens, i), col, Off(lens, k), Off(lens, k) + lens[k]);
  }

  lemma ReplacedColumns(lens: seq<nat>, data: Bytes, i: nat, col: Bytes, k: nat)
    requires i < |lens| && k < |lens| && |data| == Off(lens, |lens|) && |col| == lens[i]
    ensures Column(lens, ReplaceColumn(lens, data, i, col), k) == if k == i then col else Column(lens, data, k)
  {
    if k == i {
      ReplacedColumn(lens, data, i, col);
    } else {
      KeptColumn(lens, data, i, col, k);
    }
  }

  lemma {:induction false} SamePrefix(lens: seq<nat>, a: Bytes, b: Bytes, k: nat)
    requires AgreeExcept(lens, a, b, -1) && k <= |lens|
    ensures Off(lens, k) <= |a| && a[..Off(lens, k)] == b[..Off(lens, k)]
    decreases k
  {
    OffUp(lens, k, |lens|);
    if k > 0 {
      SamePrefix(lens, a, b, k - 1);
      var lo, hi := Off(lens, k - 1), Off(lens, k);
      assert Column(lens, a, k - 1) == Column(lens, b, k - 1);
      assert a[..hi] == a[..lo] + a[lo..hi] && b[..hi] == b[..lo] + b[lo..hi];
    }
  }

  /** The columns determine the buffer. */
  lemma ColumnsDetermine(lens: seq<nat>, a: Bytes, b: Bytes)
    requires AgreeExcept(lens, a, b, -1)
    ensures a == b
  {
    SamePrefix(lens, a, b, |lens|);
    assert a[..|a|] == a && b[..|b|] == b;
  }

  lemma XorCancels(x: bv8, y: bv8)
    ensures (x ^ y) ^ x == y
  {
  }

  lemma RebuiltByte(lens: seq<nat>, orig: Bytes, data: Bytes, i: nat, j: nat)
    requires i < |lens| && AgreeExcept(lens, data, orig, i)
    ensures XorCols(lens, orig, |lens|, -1, j) ^ XorCols(lens, data, |lens|, i, j) == At(Column(lens, orig, i), j)
  {
    XorColsSkip(lens, orig, |lens|, i, j);
    XorColsAgree(lens, data, orig, |lens|, i, j);
    XorCancels(XorCols(lens, orig, |lens|, i, j), At(Column(lens, orig, i), j));
  }

  lemma RebuiltIsOriginal(lens: seq<nat>, long: nat, orig: Bytes, data: Bytes, i: nat)
    requires i < |lens| && lens[i] <= long && AgreeExcept(lens, data, orig, i)
    ensures Rebuilt(lens, data, ParityOf(lens, long, orig), i) == Column(lens, orig, i)
  {
    var col, parity := Column(lens, orig, i), ParityOf(lens, long, orig);
    var got := Rebuilt(lens, data, parity, i);
    forall j | 0 <= j < |col| ensures got[j] == col[j] {
      assert parity[j] == XorCols(lens, orig, |lens|, -1, j);
      RebuiltByte(lens, orig, data, i, j);
    }
  }

  /** Any single bad column is recovered by recomputing it from good parity. */
  lemma CandidateRestores(lens: seq<nat>, long: nat, orig: Bytes, data: Bytes, i: nat)
    requires i < |lens| && lens[i] <= long && AgreeExcept(lens, data, orig, i)
    ensures Candidate(lens, data, ParityOf(lens, long, orig), i) == orig
  {
    RebuiltIsOriginal(lens, long, orig, data, i);
    var col := Column(lens, orig, i);
    var res := ReplaceColumn(lens, data, i, col);
    forall k | 0 <= k < |lens| ensures Column(lens, res, k) == Column(lens, orig, k) {
      ReplacedColumns(lens, data, i, col, k);
    }
    ColumnsDetermine(lens, res, orig);
  }

  /** If recomputing column i yields the original, then no other column was bad. */
  lemma CandidateBlames(lens: seq<nat>, orig: Bytes, data: Bytes, parity: Bytes, i: nat)
    requires i < |lens| && |data| == |orig| == Off(lens, |lens|) && lens[i] <= |parity|
    requires Candidate(lens, data, parity, i) == orig
    ensures AgreeExcept(lens, data, orig, i)
    ensures Rebuilt(lens, data, parity, i) == Column(lens, orig, i)
  {
    var col := Rebuilt(lens, data, parity, i);
    forall k | 0 <= k < |lens|
      ensures Column(lens, orig, k) == if k == i then col else Column(lens, data, k)
    {
      ReplacedColumns(lens, data, i, col, k);
    }
  }

  // ------------------------------------------------------------- buffer loops

  function Xored(d: Bytes, s: Bytes): (r: Bytes)
    ensures |r| == |d|
  {
    seq(|d|, j requires 0 <= j < |d| => d[j] ^ At(s, j))
  }

  lemma XorZero(x: bv8)
    ensures x ^ 0 == x
  {
  }

  /** `xor`: stops at the end of the shorter buffer. */
  method XorInto(d: array<bv8>, s: Bytes)
    modifies d
    ensures d[..] == Xored(old(d[..]), s)
  {
    var j := 0;
    while j < d.Length && j < |s|
      invariant j <= d.Length && j <= |s|
      invariant forall k :: 0 <= k < j ==> d[k] == old(d[k]) ^ s[k]
      invariant forall k :: j <= k < d.Length ==> d[k] == old(d[k])
    {
      d[j] := d[j] ^ s[j];
      j := j + 1;
    }
    forall k | 0 <= k < d.Length ensures d[k] == old(d[k]) ^ At(s, k) {
      XorZero(old(d[k]));
    }
  }

  lemma XorAssoc(x: bv8, y: bv8, z: bv8)
    ensures (x ^ y) ^ z == x ^ (y ^ z)
  {
  }

  /** The loop over `block_iter`: XORs every column except `skip` into the buffer. */
  method XorAllInto(d: array<bv8>, lens: seq<nat>, data: Bytes, skip: int)
    requires |data| == Off(lens, |lens|)
    modifies d
    ensures forall j :: 0 <= j < d.Length ==> d[j] == old(d[j]) ^ XorCols(lens, data, |lens|, skip, j)
  {
    ghost var d0 := d[..];
    forall j | 0 <= j < d.Length ensures d0[j] ^ 0 == d0[j] { XorZero(d0[j]); }
    var i := 0;
    while i < |lens|
      invariant i <= |lens|
      invariant forall j :: 0 <= j < d.Length ==> d[j] == d0[j] ^ XorCols(lens, data, i, skip, j)
    {
      if i != skip {
        var col := Column(lens, data, i);
        ghost var d1 := d[..];
        XorInto(d, col);
        forall j | 0 <= j < d.Length ensures d[j] == d0[j] ^ XorCols(lens, data, i + 1, skip, j) {
          assert d[..][j] == d1[j] ^ At(col, j);
          XorAssoc(d0[j], XorCols(lens, data, i, skip, j), At(col, j));
        }
      }
      i := i + 1;
    }
  }

  ghost predicate EmptyFrom(lens: seq<nat>, i: nat) {
    forall k :: i <= k < |lens| ==> lens[k] == 0
  }

  /** Once a column is empty, all later ones are. */
  ghost predicate EmptyTail(lens: seq<nat>) {
    forall i: nat :: i < |lens| && lens[i] == 0 ==> EmptyFrom(lens, i)
  }

  lemma {:induction false} XorEmptyTail(lens: seq<nat>, data: Bytes, i: nat, k: nat, j: nat)
    requires i <= k <= |lens| && |data| == Off(lens, |lens|) && EmptyTail(lens)
    requires i < |lens| ==> lens[i] == 0
    ensures XorCols(lens, data, k, -1, j) == XorCols(lens, data, i, -1, j)
    decreases k
  {
    if i < k {
      XorEmptyTail(lens, data, i, k - 1, j);
      XorZero(XorCols(lens, data, k - 1, -1, j));
    }
  }

  /** `build_parity`: the loop ends at the first empty column. */
  method BuildParity(lens: seq<nat>, long: nat, data: Bytes) returns (parity: Bytes)
    requires |data| == Off(lens, |lens|) && EmptyTail(lens)
    ensures parity == ParityOf(lens, long, data)
  {
    var d := new bv8[long](_ => 0);
    var i := 0;
    while i < |lens| && lens[i] > 0
      invariant i <= |lens|
      invariant forall j :: 0 <= j < d.Length ==> d[j] == XorCols(lens, data, i, -1, j)
    {
      var col := Column(lens, data, i);
      ghost var d1 := d[..];
      XorInto(d, col);
      forall j | 0 <= j < d.Length ensures d[j] == XorCols(lens, data, i + 1, -1, j) {
        assert d[..][j] == d1[j] ^ At(col, j);
      }
      i := i + 1;
    }
    forall j | 0 <= j < d.Length ensures XorCols(lens, data, |lens|, -1, j) == XorCols(lens, data, i, -1, j) {
      XorEmptyTail(lens, data, i, |lens|, j);
    }
    parity := d[..];
  }

  /** The data column rebuilt in place: a copy of the parity with the other columns XORed in. */
  method Rebuild(lens: seq<nat>, data: Bytes, parity: Bytes, i: nat) returns (col: Bytes)
    requires i < |lens| && |data| == Off(lens, |lens|) && lens[i] <= |parity|
    ensures col == Rebuilt(lens, data, parity, i)
  {
    var d := new bv8[lens[i]](k requires 0 <= k < lens[i] => parity[k]);
    XorAllInto(d, lens, data, i);
    col := d[..];
  }

  lemma XorOut(p: bv8, x: bv8, y: bv8)
    ensures (p ^ (x ^ y)) ^ y == p ^ x
  {
  }

  method RebuildFromAll(lens: seq<nat>, data: Bytes, parity: Bytes, idx: nat, allXored: Bytes) returns (col: Bytes)
    requires |data| == Off(lens, |lens|) && idx < |lens| && lens[idx] <= |parity| == |allXored|
    requires forall j :: 0 <= j < |parity| ==> allXored[j] == parity[j] ^ XorCols(lens, data, |lens|, -1, j)
    ensures col == Rebuilt(lens, data, parity, idx)
  {
    var d := new bv8[|allXored|](k requires 0 <= k < |allXored| => allXored[k]);
    var block := Column(lens, data, idx);
    XorInto(d, block);
    forall j | 0 <= j < |parity| ensures d[..][j] == parity[j] ^ XorCols(lens, data, |lens|, idx, j) {
      XorColsSkip(lens, data, |lens|, idx, j);
      XorOut(parity[j], XorCols(lens, data, |lens|, idx, j), At(block, j));
    }
    col := d[..lens[idx]];
  }

  /** Combinatorial reconstruction: the first column whose replacement passes the checksum. */
  method FindBadColumn(lens: seq<nat>, data: Bytes, parity: Bytes, check: Bytes -> bool)
    returns (found: int, col: Bytes)
    requires |data| == Off(lens, |lens|) && forall i :: 0 <= i < |lens| ==> lens[i] <= |parity|
    ensures found == -1 || 0 <= found < |lens|
    ensures found == -1 ==> forall i :: 0 <= i < |lens| ==> !check(Candidate(lens, data, parity, i))
    ensures found >= 0 ==> col == Rebuilt(lens, data, parity, found) && check(Candidate(lens, data, parity, found))
    ensures forall i :: 0 <= i < found ==> !check(Candidate(lens, data, parity, i))
  {
    var allXored := new bv8[|parity|](k requires 0 <= k < |parity| => parity[k]);
    XorAllInto(allXored, lens, data, -1);
    var idx := 0;
    while idx < |lens|
      invariant idx <= |lens|
      invariant forall j :: 0 <= j < |parity| ==> allXored[j] == parity[j] ^ XorCols(lens, data, |lens|, -1, j)
      invariant forall i :: 0 <= i < idx ==> !check(Candidate(lens, data, parity, i))
      decreases |lens| - idx
    {
      col := RebuildFromAll(lens, data, parity, idx, allXored[..]);
      if check(ReplaceColumn(lens, data, idx, col)) {
        return idx, col;
      }
      idx := idx + 1;
    }
    return -1, [];
  }

  /** The buffer made of the given columns. */
  function Join(cols: seq<Bytes>): Bytes {
    if cols == [] then [] else Join(cols[..|cols| - 1]) + cols[|cols| - 1]
  }

  lemma {:induction false} JoinLength(lens: seq<nat>, cols: seq<Bytes>)
    requires |cols| <= |lens| && forall k :: 0 <= k < |cols| ==> |cols[k]| == lens[k]
    ensures |Join(cols)| == Off(lens, |cols|)
    decreases |cols|
  {
    if cols != [] {
      JoinLength(lens, cols[..|cols| - 1]);
    }
  }

  lemma {:induction false} JoinColumn(lens: seq<nat>, cols: seq<Bytes>, k: nat)
    requires k < |cols| <= |lens| && forall i :: 0 <= i < |cols| ==> |cols[i]| == lens[i]
    ensures Off(lens, k) + lens[k] <= |Join(cols)|
    ensures Join(cols)[Off(lens, k)..Off(lens, k) + lens[k]] == cols[k]
    decreases |cols|
  {
    var init := cols[..|cols| - 1];
    JoinLength(lens, cols);
    JoinLength(lens, init);
    OffUp(lens, k + 1, |cols|);
    if k < |init| {
      OffUp(lens, k + 1, |init|);
      JoinColumn(lens, init, k);
      assert Join(cols)[..|Join(init)|] == Join(init);
    }
  }
}
