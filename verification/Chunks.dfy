/** Objects stored in chunks: splitting byte ranges, writing through upserts, reading. */
module Chunks {
  import opened Common
  import opened Upserts
  import opened Keys
  import opened RootKeys

  const CHUNK_SIZE: nat := 0x2_0000

  /** Offsets below this have chunk ids of 32 bits. */
  const LIMIT: nat := 0x2_0000_0000_0000

  datatype ChunkOffset = ChunkOffset(chunk: nat, offset: nat) {
    function AsBytes(): nat {
      chunk * CHUNK_SIZE + offset
    }

    predicate Is(byte: nat) {
      AsBytes() == byte && offset < CHUNK_SIZE
    }
  }

  datatype ChunkRange = ChunkRange(start: ChunkOffset, end: ChunkOffset) {
    predicate SingleChunk() {
      start.chunk == end.chunk && start.offset <= end.offset <= CHUNK_SIZE
    }

    function Len(): nat
      requires SingleChunk()
    {
      end.offset - start.offset
    }
  }

  function At(byte: nat): (o: ChunkOffset)
    ensures o.Is(byte)
  {
    ChunkOffset(byte / CHUNK_SIZE, byte % CHUNK_SIZE)
  }

  lemma AtOnly(o: ChunkOffset, byte: nat)
    requires o.Is(byte)
    ensures o == At(byte)
  {
  }

  /** A byte offset of 64 bits with its chunk id cut to 32 bits. */
  function Cut(byte: nat): (o: ChunkOffset)
    requires byte < U64_END
    ensures o.Is(byte) <==> byte < LIMIT
    ensures o.chunk < 0x1_0000_0000
  {
    ChunkOffset(byte / CHUNK_SIZE % 0x1_0000_0000, byte % CHUNK_SIZE)
  }

  /** The ends are the bytes asked for exactly below the limit; the sum of 64 bits saturates. */
  function FromByteBounds(offset: nat, len: nat): (r: ChunkRange)
    requires offset < U64_END && len < U64_END
    ensures r.start.Is(offset) <==> offset < LIMIT
    ensures r.end.Is(offset + len) <==> offset + len < LIMIT
    ensures r.start.chunk < 0x1_0000_0000 && r.end.chunk < 0x1_0000_0000
    ensures offset + len < LIMIT ==> r.start.chunk <= r.end.chunk
  {
    ChunkRange(Cut(offset), Cut(if offset + len < U64_END then offset + len else U64_END - 1))
  }

  /** A non-empty piece of one chunk that starts at byte `from_` and ends before `to_`. */
  predicate PieceOk(piece: ChunkRange, from_: nat, to_: nat) {
    piece.SingleChunk() && piece.start.Is(from_) && 0 < piece.Len() && from_ + piece.Len() <= to_
  }

  /** The iterator of `split_at_chunk_bounds`. */
  class Splitter {
    var start: Option<ChunkOffset>
    const end: ChunkOffset

    constructor (range: ChunkRange)
      ensures start == Some(range.start) && end == range.end
    {
      start := Some(range.start);
      end := range.end;
    }

    /** The bytes that are still to come. */
    ghost predicate Covers(from_: nat, to_: nat)
      reads this
    {
      && end.Is(to_) && from_ <= to_ < LIMIT
      && match start
         case None => from_ == to_
         case Some(s) => s.Is(from_) || (from_ == to_ && s.chunk > end.chunk)
    }

    /** The next piece: it starts where the last one ended, is not empty, lies in one chunk, and
        there is none only at the end. */
    method Next(ghost from_: nat, ghost to_: nat) returns (piece: Option<ChunkRange>)
      requires Covers(from_, to_)
      modifies this
      ensures piece.None? <==> from_ == to_
      ensures piece.Some? ==> PieceOk(piece.value, from_, to_) && Covers(from_ + piece.value.Len(), to_)
    {
      if start.None? {
        return None;
      }
      var s := start.value;
      if s.chunk > end.chunk || s == end {
        return None;
      }
      var lastChunk := s.chunk == end.chunk;
      start := if s.chunk + 1 < 0x1_0000_0000 then Some(ChunkOffset(s.chunk + 1, 0)) else None;
      return Some(ChunkRange(s, ChunkOffset(s.chunk, if lastChunk then end.offset else CHUNK_SIZE)));
    }
  }

  // ------------------------------------------------------------------------ keys

  function ChunkKey(object_: U64, chunk: nat): (b: Bytes)
    requires chunk < 0x1_0000_0000
    ensures |b| == 12
  {
    assert Pow256(4) == 0x1_0000_0000;
    Pack(object_) + BigEndian(chunk, 4)
  }

  function DecodeChunkKey(key: Bytes): (nat, nat)
    requires |key| == 12
  {
    (Number(key[..8]), Number(key[8..]))
  }

  lemma ChunkKeyRoundTrip(object_: U64, chunk: nat)
    requires chunk < 0x1_0000_0000
    ensures DecodeChunkKey(ChunkKey(object_, chunk)) == (object_, chunk)
  {
    EightBytes();
    assert Pow256(4) == 0x1_0000_0000;
    ReadBack(object_, 8);
    ReadBack(chunk, 4);
    var k := ChunkKey(object_, chunk);
    assert k[..8] == Pack(object_) && k[8..] == BigEndian(chunk, 4);
  }

  lemma ChunkKeyOrder(a: U64, x: nat, b: U64, y: nat)
    requires x < 0x1_0000_0000 && y < 0x1_0000_0000
    ensures Less(ChunkKey(a, x), ChunkKey(b, y)) <==> a < b || (a == b && x < y)
  {
    assert Pow256(4) == 0x1_0000_0000;
    PackOrder(a, b, BigEndian(x, 4), BigEndian(y, 4));
    assert BigEndian(x, 4) + [] == BigEndian(x, 4) && BigEndian(y, 4) + [] == BigEndian(y, 4);
    BigEndianOrder(x, y, 4, [], []);
  }

  /** The inclusive key range of a read holds exactly the chunks of that object in the range. */
  lemma ChunkKeyRange(object_: U64, low: nat, high: nat, other: U64, chunk: nat)
    requires low < 0x1_0000_0000 && high < 0x1_0000_0000 && chunk < 0x1_0000_0000
    ensures && AtMost(ChunkKey(object_, low), ChunkKey(other, chunk))
            && AtMost(ChunkKey(other, chunk), ChunkKey(object_, high))
       <==> other == object_ && low <= chunk <= high
  {
    ChunkKeyOrder(other, chunk, object_, low);
    ChunkKeyOrder(object_, high, other, chunk);
  }

  // ------------------------------------------------------------------- the object

  type ChunkMap = map<nat, Bytes>

  function Chunk(m: ChunkMap, c: nat): Bytes {
    if c in m then m[c] else []
  }

  /** Byte i of the object as one flat, zero-extended array. */
  function Flat(m: ChunkMap, i: nat): Byte {
    ByteAt(Chunk(m, i / CHUNK_SIZE), i % CHUNK_SIZE)
  }

  function Upserted(m: ChunkMap, c: nat, offset: nat, data: Bytes): ChunkMap {
    m[c := ApplyOne(ByteUpsert(offset, data), Chunk(m, c))]
  }

  function Overlaid(old_: Byte, buf: Bytes, offset: nat, n: nat, i: nat): Byte
    requires n <= |buf|
  {
    if offset <= i < offset + n then buf[i - offset] else old_
  }

  /** Byte i after the first n bytes of the buffer are written. */
  ghost predicate ByteOk(before: ChunkMap, after: ChunkMap, buf: Bytes, offset: nat, n: nat, i: nat) {
    n <= |buf| && Flat(after, i) == Overlaid(Flat(before, i), buf, offset, n, i)
  }

  /** An upsert within a chunk changes exactly its bytes of the flat object. */
  lemma UpsertIsFlat(m: ChunkMap, from_: nat, data: Bytes, i: nat)
    requires At(from_).offset + |data| <= CHUNK_SIZE
    ensures ByteOk(m, Upserted(m, At(from_).chunk, At(from_).offset, data), data, from_, |data|, i)
  {
    if i / CHUNK_SIZE == At(from_).chunk {
      ByteUpsertMeaning(At(from_).offset, data, Chunk(m, i / CHUNK_SIZE), i % CHUNK_SIZE);
    }
  }

  function Filled(c: nat, size: nat): nat {
    if size <= c * CHUNK_SIZE then 0
    else if size <= c * CHUNK_SIZE + CHUNK_SIZE then size - c * CHUNK_SIZE
    else CHUNK_SIZE
  }

  /** An object without holes: every chunk is filled up to the object's size. */
  ghost predicate Dense(m: ChunkMap, size: nat) {
    forall c: nat :: |Chunk(m, c)| == Filled(c, size) && (c in m <==> Filled(c, size) > 0)
  }

  function Max(a: nat, b: nat): nat {
    if a < b then b else a
  }

  /** `after` differs from m only in chunk c, whose data is grown to hold `end` bytes. */
  ghost predicate Grown(m: ChunkMap, after: ChunkMap, c: nat, end: nat) {
    && c in after && |after[c]| == Max(|Chunk(m, c)|, end)
    && forall x: nat :: x != c ==> (x in after <==> x in m) && Chunk(after, x) == Chunk(m, x)
  }

  lemma UpsertGrows(m: ChunkMap, c: nat, offset: nat, data: Bytes)
    ensures Grown(m, Upserted(m, c, offset, data), c, offset + |data|)
  {
    ByteUpsertMeaning(offset, data, Chunk(m, c), 0);
  }

  lemma FilledMore(c: nat, size: nat, from_: nat, len: nat)
    requires from_ <= size && len > 0 && At(from_).offset + len <= CHUNK_SIZE
    ensures Filled(c, Max(size, from_ + len))
         == if c == At(from_).chunk then Max(Filled(c, size), At(from_).offset + len) else Filled(c, size)
  {
  }

  /** Writing at or before the end keeps an object free of holes. */
  lemma GrowthKeepsDense(m: ChunkMap, after: ChunkMap, size: nat, from_: nat, len: nat)
    requires Dense(m, size) && from_ <= size && len > 0 && At(from_).offset + len <= CHUNK_SIZE
    requires Grown(m, after, At(from_).chunk, At(from_).offset + len)
    ensures Dense(after, Max(size, from_ + len))
  {
    forall c: nat
      ensures |Chunk(after, c)| == Filled(c, Max(size, from_ + len))
      ensures c in after <==> Filled(c, Max(size, from_ + len)) > 0
    {
      FilledMore(c, size, from_, len);
      assert |Chunk(m, c)| == Filled(c, size) && (c in m <==> Filled(c, size) > 0);
    }
  }

  function Min(a: nat, b: nat): nat {
    if a < b then a else b
  }

  /** Saturating subtraction. */
  function Monus(a: nat, b: nat): nat {
    if a < b then 0 else a - b
  }

  /** The buffer starts with n bytes of the flat object from `offset`. */
  ghost predicate Reads(m: ChunkMap, buf: Bytes, offset: nat, n: nat) {
    n <= |buf| && forall i: nat :: i < n ==> buf[i] == Flat(m, offset + i)
  }

  /** How much of a read comes before chunk c. */
  function ReadBefore(c: nat, offset: nat, toRead: nat): nat {
    Min(Monus(c * CHUNK_SIZE, offset), toRead)
  }

  /** The gap before a stored chunk and the bytes wanted from it, as the reading loop computes
      them. */
  method Window(start: nat, len: nat, last: nat, offset: nat, toRead: nat) returns (gap: nat, want: nat)
    ensures gap == Min(Monus(Max(start, offset), last), toRead)
    ensures want == Monus(Min(start + len, offset + toRead), Max(start, offset))
  {
    var chunkStart := Max(start, offset);
    gap := Min(Monus(chunkStart, last), toRead);
    var chunkEnd := Min(start + len, offset + toRead);
    want := Monus(chunkEnd, chunkStart);
  }

  /** In an object without holes there are no gaps, and each chunk yields its share of the read. */
  lemma WindowOf(c: nat, offset: nat, toRead: nat, size: nat)
    requires At(offset).chunk <= c <= At(offset + toRead).chunk
    requires toRead <= Monus(size, offset)
    ensures var start, filled := c * CHUNK_SIZE, Filled(c, size);
            var want := Monus(Min(start + filled, offset + toRead), Max(start, offset));
            && (c == At(offset).chunk ==> Max(start, offset) == offset)
            && (c > At(offset).chunk ==> Max(start, offset) == start)
            && ReadBefore(c, offset, toRead) == Max(start, offset) - offset
            && ReadBefore(c + 1, offset, toRead) == ReadBefore(c, offset, toRead) + want
            && (want > 0 ==> Max(start, offset) - start + want <= filled)
            && (c < At(offset + toRead).chunk ==> filled == CHUNK_SIZE)
  {
  }

  method FillZero(buf: array<Byte>, from_: nat, n: nat)
    requires from_ + n <= buf.Length
    modifies buf
    ensures forall i :: 0 <= i < buf.Length ==> buf[i] == if from_ <= i < from_ + n then 0 else old(buf[i])
  {
    var j := 0;
    while j < n
      invariant 0 <= j <= n
      invariant forall i :: 0 <= i < buf.Length ==> buf[i] == if from_ <= i < from_ + j then 0 else old(buf[i])
    {
      buf[from_ + j] := 0;
      j := j + 1;
    }
  }

  method Copy(buf: array<Byte>, from_: nat, data: Bytes)
    requires from_ + |data| <= buf.Length
    modifies buf
    ensures forall i :: 0 <= i < buf.Length ==>
              buf[i] == if from_ <= i < from_ + |data| then data[i - from_] else old(buf[i])
  {
    var j := 0;
    while j < |data|
      invariant 0 <= j <= |data|
      invariant forall i :: 0 <= i < buf.Length ==>
                  buf[i] == if from_ <= i < from_ + j then data[i - from_] else old(buf[i])
    {
      buf[from_ + j] := data[j];
      j := j + 1;
    }
  }

  /** Zeros for the gap, then the wanted bytes of the chunk, zero-filled where it is too short. */
  method ReadChunk(buf: array<Byte>, at: nat, gap: nat, want: nat, data: Bytes, c: nat, offset: nat)
    requires at + gap + want <= buf.Length
    modifies buf
    ensures forall i :: 0 <= i < buf.Length ==>
              buf[i] == if at <= i < at + gap then 0
                        else if at + gap <= i < at + gap + want
                        then ByteAt(data, Max(c * CHUNK_SIZE, offset) - c * CHUNK_SIZE + (i - at - gap))
                        else old(buf[i])
  {
    var skip := Max(c * CHUNK_SIZE, offset) - c * CHUNK_SIZE;
    FillZero(buf, at, gap);
    if skip <= |data| {
      var have := Min(want, |data| - skip);
      Copy(buf, at + gap, data[skip..skip + have]);
      FillZero(buf, at + gap + have, want - have);
    } else {
      FillZero(buf, at + gap, want);
    }
  }

  lemma FlatInChunk(m: ChunkMap, c: nat, x: nat)
    requires x < CHUNK_SIZE
    ensures Flat(m, c * CHUNK_SIZE + x) == ByteAt(Chunk(m, c), x)
  {
  }

  lemma ReadsNext(m: ChunkMap, before: Bytes, after: Bytes, c: nat, offset: nat, total: nat, want: nat)
    requires Reads(m, before, offset, total) && total + want <= |after| == |before|
    requires total == Max(c * CHUNK_SIZE, offset) - offset
    requires Max(c * CHUNK_SIZE, offset) - c * CHUNK_SIZE + want <= CHUNK_SIZE || want == 0
    requires forall i :: 0 <= i < total ==> after[i] == before[i]
    requires forall i :: total <= i < total + want ==>
               after[i] == ByteAt(Chunk(m, c), Max(c * CHUNK_SIZE, offset) - c * CHUNK_SIZE + (i - total))
    ensures Reads(m, after, offset, total + want)
  {
    forall i: nat | total <= i < total + want
      ensures after[i] == Flat(m, offset + i)
    {
      FlatInChunk(m, c, Max(c * CHUNK_SIZE, offset) - c * CHUNK_SIZE + (i - total));
    }
  }

  ghost predicate DenseOk(before: ChunkMap, after: ChunkMap, offset: nat, n: nat, size: nat) {
    Dense(before, size) && offset <= size ==> Dense(after, Max(size, offset + n))
  }

  ghost predicate Wrote(before: ChunkMap, after: ChunkMap, buf: Bytes, offset: nat, n: nat) {
    && (forall i: nat :: ByteOk(before, after, buf, offset, n, i))
    && (forall size: nat :: DenseOk(before, after, offset, n, size))
  }

  lemma WroteNothing(m: ChunkMap, buf: Bytes, offset: nat)
    ensures Wrote(m, m, buf, offset, 0)
  {
    forall size: nat
      ensures DenseOk(m, m, offset, 0, size)
    {
    }
  }

  /** What an upsert within one chunk does to the flat object and to the chunk. */
  ghost predicate Patched(now: ChunkMap, after: ChunkMap, from_: nat, data: Bytes) {
    && (forall i: nat :: ByteOk(now, after, data, from_, |data|, i))
    && Grown(now, after, At(from_).chunk, At(from_).offset + |data|)
  }

  lemma OverlaidMore(old_: Byte, buf: Bytes, offset: nat, n: nat, data: Bytes, i: nat)
    requires n + |data| <= |buf| && data == buf[n..n + |data|]
    ensures Overlaid(Overlaid(old_, buf, offset, n, i), data, offset + n, |data|, i)
         == Overlaid(old_, buf, offset, n + |data|, i)
  {
  }

  lemma ByteMore(before: ChunkMap, now: ChunkMap, after: ChunkMap, buf: Bytes, offset: nat, n: nat, data: Bytes, i: nat)
    requires n + |data| <= |buf| && data == buf[n..n + |data|]
    requires ByteOk(before, now, buf, offset, n, i) && ByteOk(now, after, data, offset + n, |data|, i)
    ensures ByteOk(before, after, buf, offset, n + |data|, i)
  {
    OverlaidMore(Flat(before, i), buf, offset, n, data, i);
  }

  lemma DenseMore(before: ChunkMap, now: ChunkMap, after: ChunkMap, offset: nat, n: nat, len: nat, size: nat)
    requires len > 0 && At(offset + n).offset + len <= CHUNK_SIZE
    requires Grown(now, after, At(offset + n).chunk, At(offset + n).offset + len)
    requires DenseOk(before, now, offset, n, size)
    ensures DenseOk(before, after, offset, n + len, size)
  {
    if Dense(before, size) && offset <= size {
      GrowthKeepsDense(now, after, Max(size, offset + n), offset + n, len);
    }
  }

  lemma WriteMore(before: ChunkMap, now: ChunkMap, after: ChunkMap, buf: Bytes, offset: nat, n: nat, data: Bytes)
    requires n + |data| <= |buf| && data == buf[n..n + |data|] && data != []
    requires At(offset + n).offset + |data| <= CHUNK_SIZE
    requires Wrote(before, now, buf, offset, n) && Patched(now, after, offset + n, data)
    ensures Wrote(before, after, buf, offset, n + |data|)
  {
    var m := n + |data|;
    forall i: nat
      ensures ByteOk(before, after, buf, offset, m, i)
    {
      assert ByteOk(before, now, buf, offset, n, i);
      ByteMore(before, now, after, buf, offset, n, data, i);
    }
    forall size: nat
      ensures DenseOk(before, after, offset, m, size)
    {
      assert DenseOk(before, now, offset, n, size);
      DenseMore(before, now, after, offset, n, |data|, size);
    }
  }

  lemma UpsertPatches(now: ChunkMap, from_: nat, data: Bytes)
    requires At(from_).offset + |data| <= CHUNK_SIZE
    ensures Patched(now, Upserted(now, At(from_).chunk, At(from_).offset, data), from_, data)
  {
    UpsertGrows(now, At(from_).chunk, At(from_).offset, data);
    var after := Upserted(now, At(from_).chunk, At(from_).offset, data);
    forall i: nat
      ensures ByteOk(now, after, data, from_, |data|, i)
    {
      UpsertIsFlat(now, from_, data, i);
    }
  }

  class ObjectData {
    var chunks: ChunkMap

    constructor ()
      ensures chunks == map[]
    {
      chunks := map[];
    }

    /** Changes exactly bytes [offset, offset + len) of the flat object. */
    method WriteAt(buf: Bytes, offset: nat) returns (written: nat)
      requires offset + |buf| < LIMIT
      modifies this
      ensures written == |buf| && Wrote(old(chunks), chunks, buf, offset, |buf|)
    {
      ghost var end := offset + |buf|;
      var pieces := new Splitter(FromByteBounds(offset, |buf|));
      written := 0;
      WroteNothing(chunks, buf, offset);
      var piece := pieces.Next(offset, end);
      while piece.Some?
        invariant written <= |buf| && (piece.None? ==> written == |buf|)
        invariant piece.Some? ==> PieceOk(piece.value, offset + written, end)
        invariant piece.Some? ==> pieces.Covers(offset + written + piece.value.Len(), end)
        invariant Wrote(old(chunks), chunks, buf, offset, written)
        decreases |buf| - written
      {
        written, piece := WriteNext(pieces, piece.value, buf, written, offset, old(chunks));
      }
    }

    method WriteNext(pieces: Splitter, piece: ChunkRange, buf: Bytes, n: nat, ghost offset: nat, ghost before: ChunkMap)
      returns (written: nat, next: Option<ChunkRange>)
      requires PieceOk(piece, offset + n, offset + |buf|)
      requires pieces.Covers(offset + n + piece.Len(), offset + |buf|) && Wrote(before, chunks, buf, offset, n)
      modifies this, pieces
      ensures written == n + piece.Len() <= |buf| && Wrote(before, chunks, buf, offset, written)
      ensures next.None? ==> written == |buf|
      ensures next.Some? ==> PieceOk(next.value, offset + written, offset + |buf|)
      ensures next.Some? ==> pieces.Covers(offset + written + next.value.Len(), offset + |buf|)
    {
      written := n + piece.Len();
      WritePiece(piece, buf, n, offset, before);
      next := pieces.Next(offset + written, offset + |buf|);
    }

    /** Reads into the buffer. On an object without holes the bytes read are exactly the flat ones,
        up to the object's size. */
    method ReadAt(buf: array<Byte>, offset: nat, size: nat) returns (read: nat)
      requires offset + buf.Length < LIMIT && Dense(chunks, size)
      modifies buf
      ensures read == Min(buf.Length, Monus(size, offset))
      ensures Reads(chunks, buf[..], offset, read)
    {
      var toRead := Min(buf.Length, Monus(size, offset));
      var range := FromByteBounds(offset, toRead);
      var total, last := 0, offset;
      var c := range.start.chunk;
      while c <= range.end.chunk
        invariant At(offset).chunk <= c <= At(offset + toRead).chunk + 1
        invariant total == ReadBefore(c, offset, toRead)
        invariant c <= At(offset + toRead).chunk ==> last == if c == At(offset).chunk then offset else c * CHUNK_SIZE
        invariant Reads(chunks, buf[..], offset, total)
        decreases range.end.chunk + 1 - c
      {
        total, last := ReadStored(buf, c, offset, toRead, size, total, last);
        c := c + 1;
      }
      if total != buf.Length - total {
        FillZero(buf, total, buf.Length - total);
        return toRead;
      }
      return total;
    }

    /** One turn of the reading loop: the chunk's share of the read, if it is stored. */
    method ReadStored(buf: array<Byte>, c: nat, offset: nat, toRead: nat, ghost size: nat, total: nat, last: nat)
      returns (total1: nat, last1: nat)
      requires toRead <= buf.Length && toRead <= Monus(size, offset) && Dense(chunks, size)
      requires At(offset).chunk <= c <= At(offset + toRead).chunk
      requires total == ReadBefore(c, offset, toRead) && Reads(chunks, buf[..], offset, total)
      requires last == if c == At(offset).chunk then offset else c * CHUNK_SIZE
      modifies buf
      ensures total1 == ReadBefore(c + 1, offset, toRead) && Reads(chunks, buf[..], offset, total1)
      ensures c < At(offset + toRead).chunk ==> last1 == (c + 1) * CHUNK_SIZE
    {
      total1, last1 := total, last;
      assert |Chunk(chunks, c)| == Filled(c, size) && (c in chunks <==> Filled(c, size) > 0);
      WindowOf(c, offset, toRead, size);
      if c in chunks {
        var gap, want := Window(c * CHUNK_SIZE, |chunks[c]|, last, offset, toRead);
        ghost var before := buf[..];
        ReadChunk(buf, total, gap, want, chunks[c], c, offset);
        ReadsNext(chunks, before, buf[..], c, offset, total, want);
        last1 := c * CHUNK_SIZE + |chunks[c]|;
        total1 := total + gap + want;
      }
    }

    /** Upserts one piece of the buffer, the one that starts at its byte n. */
    method WritePiece(piece: ChunkRange, buf: Bytes, n: nat, ghost offset: nat, ghost before: ChunkMap)
      requires PieceOk(piece, offset + n, offset + |buf|)
      requires Wrote(before, chunks, buf, offset, n)
      modifies this
      ensures Wrote(before, chunks, buf, offset, n + piece.Len())
    {
      ghost var now := chunks;
      var data := buf[n..n + piece.Len()];
      AtOnly(piece.start, offset + n);
      Upsert(piece.start.chunk, piece.start.offset, data, offset + n);
      WriteMore(before, now, chunks, buf, offset, n, data);
    }

    method Upsert(chunk: nat, at: nat, data: Bytes, ghost from_: nat)
      requires At(from_) == ChunkOffset(chunk, at) && at + |data| <= CHUNK_SIZE
      modifies this
      ensures Patched(old(chunks), chunks, from_, data)
    {
      UpsertPatches(chunks, from_, data);
      chunks := Upserted(chunks, chunk, at, data);
    }
  }

  /** What was written is read back. */
  lemma WriteThenRead(before: ChunkMap, after: ChunkMap, buf: Bytes, offset: nat, size: nat, out: Bytes)
    requires Dense(before, size) && offset <= size && Wrote(before, after, buf, offset, |buf|)
    requires Reads(after, out, offset, |buf|)
    ensures Dense(after, Max(size, offset + |buf|))
    ensures Min(|buf|, Monus(Max(size, offset + |buf|), offset)) == |buf| && out[..|buf|] == buf
  {
    assert DenseOk(before, after, offset, |buf|, size);
    forall i: nat | i < |buf|
      ensures out[i] == buf[i]
    {
      assert ByteOk(before, after, buf, offset, |buf|, offset + i);
    }
  }
}
