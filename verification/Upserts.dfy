/** Upserts: their binary encoding, the parser that walks over it, and what they do to a value. */
module Upserts {
  import opened Common

  type Byte = x: int | 0 <= x < 256

  type Bytes = seq<Byte>

  datatype RawUpsert =
    | ByteUpsert(offset: nat, data: Bytes)
    | BitUpsert(offset: nat, amount: nat, value: bool)

  /** Offsets have 30 bits in the encoding, lengths 32; the end of a bit range is computed in
      32 bits. */
  predicate Proper(u: RawUpsert) {
    match u
    case ByteUpsert(offset, data) => offset < 0x4000_0000 && |data| < 0x1_0000_0000
    case BitUpsert(offset, amount, _) => offset < 0x4000_0000 && offset + amount < 0x1_0000_0000
  }

  type Upsert = u: RawUpsert | Proper(u) witness ByteUpsert(0, [])

  predicate AllProper(us: seq<RawUpsert>) {
    forall i :: 0 <= i < |us| ==> Proper(us[i])
  }

  // -------------------------------------------------------------------- encoding

  function WriteU32(n: nat): (b: Bytes)
    requires n < 0x1_0000_0000
    ensures |b| == 4
  {
    [n % 0x100, n / 0x100 % 0x100, n / 0x1_0000 % 0x100, n / 0x100_0000]
  }

  function ReadU32(b: Bytes): (n: nat)
    requires |b| == 4
    ensures n < 0x1_0000_0000
  {
    b[0] as int + 0x100 * b[1] as int + 0x1_0000 * b[2] as int + 0x100_0000 * b[3] as int
  }

  lemma ReadWritten(n: nat)
    requires n < 0x1_0000_0000
    ensures ReadU32(WriteU32(n)) == n
  {
    assert n / 0x1_0000 == n / 0x100 / 0x100 && n / 0x100_0000 == n / 0x1_0000 / 0x100;
  }

  lemma Regroup<T>(a: seq<T>, b: seq<T>, c: seq<T>)
    ensures (a + b) + c == a + (b + c)
  {
  }

  lemma HeadFirst<T>(a: seq<T>, b: seq<T>)
    requires a != []
    ensures a + b == [a[0]] + (a[1..] + b) && (a + b)[1..] == a[1..] + b
  {
  }

  /** `append_upsert`: mode and offset share the first word. */
  function Encode(u: Upsert): (b: Bytes)
    ensures |b| >= 8
  {
    match u
    case ByteUpsert(offset, data) => WriteU32(offset) + WriteU32(|data|) + data
    case BitUpsert(offset, amount, value) =>
      WriteU32((if value then 3 else 2) * 0x4000_0000 + offset) + WriteU32(amount)
  }

  /** The little-endian number in four bytes from `at`. */
  function Word(b: Bytes, at: nat): nat
    requires at + 4 <= |b|
  {
    b[at] as int + 0x100 * (b[at + 1] as int + 0x100 * (b[at + 2] as int + 0x100 * b[at + 3] as int))
  }

  /** Byte for byte: two bits of mode over thirty of offset, the length, and then the data. */
  lemma EncodedLayout(u: Upsert)
    ensures var b := Encode(u);
            match u
            case ByteUpsert(offset, data) => Word(b, 0) == offset && Word(b, 4) == |data| && b[8..] == data
            case BitUpsert(offset, amount, value) =>
              Word(b, 0) == (if value then 0xC000_0000 else 0x8000_0000) + offset && Word(b, 4) == amount && |b| == 8
  {
    var b := Encode(u);
    match u {
      case ByteUpsert(offset, data) =>
        ReadWritten(offset);
        ReadWritten(|data|);
      case BitUpsert(offset, amount, value) =>
        ReadWritten((if value then 3 else 2) * 0x4000_0000 + offset);
        ReadWritten(amount);
    }
  }

  function EncodeAll(us: seq<Upsert>): Bytes
  {
    if us == [] then [] else Encode(us[0]) + EncodeAll(us[1..])
  }

  /** One turn of the cursor in `iter_upserts`: an upsert and the bytes after it, or the end. */
  function ParseOne(b: Bytes): (r: Option<(RawUpsert, Bytes)>)
    ensures r.Some? ==> |r.value.1| + 8 <= |b|
  {
    if |b| < 8 then None
    else
      var word, len := ReadU32(b[..4]), ReadU32(b[4..8]);
      var mode, offset, rest := word / 0x4000_0000, word % 0x4000_0000, b[8..];
      if mode == 0 then
        if len > |rest| then None else Some((ByteUpsert(offset, rest[..len]), rest[len..]))
      else if mode == 2 then Some((BitUpsert(offset, len, false), rest))
      else if mode == 3 then Some((BitUpsert(offset, len, true), rest))
      else None
  }

  function ParseAll(b: Bytes): seq<RawUpsert>
    decreases |b|
  {
    match ParseOne(b)
    case None => []
    case Some((u, rest)) => [u] + ParseAll(rest)
  }

  lemma TwoWords(x: nat, y: nat, rest: Bytes)
    requires x < 0x1_0000_0000 && y < 0x1_0000_0000
    ensures var b := WriteU32(x) + WriteU32(y) + rest;
            |b| >= 8 && ReadU32(b[..4]) == x && ReadU32(b[4..8]) == y && b[8..] == rest
  {
    var b := WriteU32(x) + WriteU32(y) + rest;
    ReadWritten(x);
    ReadWritten(y);
    assert b[..4] == WriteU32(x) && b[4..8] == WriteU32(y);
  }

  lemma Cut(a: Bytes, b: Bytes)
    ensures (a + b)[..|a|] == a && (a + b)[|a|..] == b
  {
  }

  lemma ParseEncoded(u: Upsert, rest: Bytes)
    ensures ParseOne(Encode(u) + rest) == Some((u, rest))
  {
    match u {
      case ByteUpsert(offset, data) =>
        TwoWords(offset, |data|, data + rest);
        Regroup(WriteU32(offset) + WriteU32(|data|), data, rest);
        Cut(data, rest);
      case BitUpsert(offset, amount, value) =>
        TwoWords((if value then 3 else 2) * 0x4000_0000 + offset, amount, rest);
    }
  }

  lemma ParseStep(u: Upsert, rest: Bytes)
    ensures ParseAll(Encode(u) + rest) == [u] + ParseAll(rest)
  {
    ParseEncoded(u, rest);
  }

  /** Parsing the built body, followed by anything, yields the list and then what follows. */
  lemma {:induction false} ParseBody(us: seq<Upsert>, rest: Bytes)
    ensures ParseAll(EncodeAll(us) + rest) == us + ParseAll(rest)
    decreases |us|
  {
    if us == [] {
      assert EncodeAll(us) + rest == rest;
    } else {
      Regroup(Encode(us[0]), EncodeAll(us[1..]), rest);
      ParseStep(us[0], EncodeAll(us[1..]) + rest);
      ParseBody(us[1..], rest);
      Regroup([us[0]], us[1..], ParseAll(rest));
      assert us == [us[0]] + us[1..];
    }
  }

  lemma RoundTrip(us: seq<Upsert>)
    ensures ParseAll(EncodeAll(us)) == us
  {
    ParseBody(us, []);
    assert EncodeAll(us) + [] == EncodeAll(us);
  }

  lemma EncodeCons(u: Upsert, us: seq<Upsert>)
    ensures EncodeAll([u] + us) == Encode(u) + EncodeAll(us)
  {
    assert ([u] + us)[1..] == us;
  }

  lemma {:induction false} EncodeConcat(us: seq<Upsert>, vs: seq<Upsert>)
    ensures EncodeAll(us + vs) == EncodeAll(us) + EncodeAll(vs)
    decreases |us|
  {
    if us == [] {
      assert us + vs == vs;
    } else {
      EncodeConcat(us[1..], vs);
      Regroup(Encode(us[0]), EncodeAll(us[1..]), EncodeAll(vs));
      EncodeCons(us[0], us[1..] + vs);
      HeadFirst(us, vs);
    }
  }

  /** The cursor that `iter_upserts` returns. */
  class UpsertIter {
    var b: Bytes

    constructor (body: Bytes)
      ensures b == body
    {
      b := body;
    }

    method Next() returns (u: Option<RawUpsert>)
      modifies this
      ensures match ParseOne(old(b))
              case None => u == None
              case Some((item, rest)) => u == Some(item) && b == rest
      ensures u.Some? ==> |b| < |old(b)|
    {
      if |b| < 8 {
        return None;
      }
      var word := ReadU32(b[..4]);
      var mode, offset := word / 0x4000_0000, word % 0x4000_0000;
      var len := ReadU32(b[4..8]);
      var rest := b[8..];
      b := rest;
      match mode {
        case 0 =>
          if len > |rest| {
            return None;
          }
          b := rest[len..];
          return Some(ByteUpsert(offset, rest[..len]));
        case 2 => return Some(BitUpsert(offset, len, false));
        case 3 => return Some(BitUpsert(offset, len, true));
        case _ => return None;
      }
    }
  }

  // --------------------------------------------------------------------- meaning

  function Zeros(n: nat): (z: Bytes)
    ensures |z| == n
  {
    seq(n, _ => 0)
  }

  /** `fill_zeros_up_to`. */
  function Padded(data: Bytes, size: nat): (r: Bytes)
    ensures |r| == if |data| < size then size else |data|
  {
    if |data| < size then data + Zeros(size - |data|) else data
  }

  function ByteAt(data: Bytes, i: nat): Byte {
    if i < |data| then data[i] else 0
  }

  /** Bit j of a byte, the lowest first. */
  function BitOf(b: nat, j: nat): bool {
    if j == 0 then b % 2 == 1 else BitOf(b / 2, j - 1)
  }

  /** Bit i of a value, counting from the lowest bit of the first byte; zero beyond the end. */
  function BitAt(data: Bytes, i: nat): bool {
    BitOf(ByteAt(data, i / 8), i % 8)
  }

  function Pow2(n: nat): nat {
    if n == 0 then 1 else 2 * Pow2(n - 1)
  }

  predicate InBits(start: nat, end: nat, i: nat) {
    start <= i < end
  }

  /** The lowest n bits of b, which stand at position `at`, with those in [start, end) replaced. */
  function FillBits(b: nat, at: nat, n: nat, start: nat, end: nat, value: bool): (r: nat)
    ensures r < Pow2(n)
    decreases n, b
  {
    if n == 0 then 0
    else
      var low := if InBits(start, end, at) then value else b % 2 == 1;
      (if low then 1 else 0) + 2 * FillBits(b / 2, at + 1, n - 1, start, end, value)
  }

  function FillByte(b: Byte, at: nat, start: nat, end: nat, value: bool): Byte {
    assert Pow2(4) == 16 && Pow2(8) == 256;
    FillBits(b, at, 8, start, end, value)
  }

  lemma BitOfPair(low: bool, high: nat, j: nat)
    ensures BitOf((if low then 1 else 0) + 2 * high, j) == if j == 0 then low else BitOf(high, j - 1)
  {
    var x := (if low then 1 else 0) + 2 * high;
    assert x % 2 == (if low then 1 else 0) && x / 2 == high;
  }

  lemma {:induction false} FillBitsBit(b: nat, at: nat, n: nat, start: nat, end: nat, value: bool, j: nat)
    requires j < n
    ensures BitOf(FillBits(b, at, n, start, end, value), j)
         == if InBits(start, end, at + j) then value else BitOf(b, j)
    decreases n
  {
    var low := if InBits(start, end, at) then value else b % 2 == 1;
    BitOfPair(low, FillBits(b / 2, at + 1, n - 1, start, end, value), j);
    if j > 0 {
      FillBitsBit(b / 2, at + 1, n - 1, start, end, value, j - 1);
    }
  }

  /** One turn of the loop in `apply_upserts`. */
  function ApplyOne(u: RawUpsert, data: Bytes): (r: Bytes) {
    match u
    case ByteUpsert(offset, new_) =>
      if |data| <= offset then Padded(data, offset) + new_
      else
        var d := Padded(data, offset + |new_|);
        d[..offset] + new_ + d[offset + |new_|..]
    case BitUpsert(offset, amount, value) =>
      var end := offset + amount;
      var endByte := end / 8 + if end % 8 == 0 then 0 else 1;
      var d := Padded(data, endByte);
      seq(|d|, k requires 0 <= k < |d| => FillByte(d[k], 8 * k, offset, end, value))
  }

  /** A byte upsert sets its bytes, keeps all others, and zero-fills a gap. */
  lemma ByteUpsertMeaning(offset: nat, new_: Bytes, data: Bytes, i: nat)
    ensures var r := ApplyOne(ByteUpsert(offset, new_), data);
            && |r| == (if |data| < offset + |new_| then offset + |new_| else |data|)
            && ByteAt(r, i) == if offset <= i < offset + |new_| then new_[i - offset] else ByteAt(data, i)
  {
  }

  lemma BitUpsertByte(offset: nat, amount: nat, value: bool, data: Bytes, k: nat)
    requires k < |ApplyOne(BitUpsert(offset, amount, value), data)|
    ensures ApplyOne(BitUpsert(offset, amount, value), data)[k]
         == FillBits(ByteAt(data, k), 8 * k, 8, offset, offset + amount, value)
  {
  }

  lemma {:induction false} ZeroBits(j: nat)
    ensures !BitOf(0, j)
  {
    if j > 0 {
      ZeroBits(j - 1);
    }
  }

  /** A bit upsert sets the bits of its range, keeps all others, and grows the value to hold
      the range. */
  lemma BitUpsertMeaning(offset: nat, amount: nat, value: bool, data: Bytes, i: nat)
    ensures var r, end := ApplyOne(BitUpsert(offset, amount, value), data), offset + amount;
            && |r| == (if 8 * |data| < end then (end + 7) / 8 else |data|)
            && BitAt(r, i) == if offset <= i < end then value else BitAt(data, i)
  {
    var r, end, k, j := ApplyOne(BitUpsert(offset, amount, value), data), offset + amount, i / 8, i % 8;
    assert |r| == if 8 * |data| < end then (end + 7) / 8 else |data|;
    if k < |r| {
      BitUpsertByte(offset, amount, value, data, k);
      FillBitsBit(ByteAt(data, k), 8 * k, 8, offset, end, value, j);
    } else {
      ZeroBits(j);
    }
  }

  function ApplyAll(us: seq<RawUpsert>, data: Bytes): Bytes
    decreases |us|
  {
    if us == [] then data else ApplyAll(us[1..], ApplyOne(us[0], data))
  }

  lemma {:induction false} ApplyConcat(us: seq<RawUpsert>, vs: seq<RawUpsert>, data: Bytes)
    ensures ApplyAll(us + vs, data) == ApplyAll(vs, ApplyAll(us, data))
    decreases |us|
  {
    if us == [] {
      assert us + vs == vs;
    } else {
      ApplyConcat(us[1..], vs, ApplyOne(us[0], data));
      HeadFirst(us, vs);
    }
  }

  // ------------------------------------------------ the effect, without the code

  /** Exactly the range of the upsert is set, a gap before it reads as zero, and the value is long
      enough to hold it and no longer. */
  ghost predicate Sets(u: RawUpsert, before: Bytes, after: Bytes) {
    match u
    case ByteUpsert(offset, data) =>
      var end := offset + |data|;
      && |after| == (if |before| < end then end else |before|)
      && forall i: nat :: ByteAt(after, i) == if offset <= i < end then data[i - offset] else ByteAt(before, i)
    case BitUpsert(offset, amount, value) =>
      var end := offset + amount;
      && |after| == (if 8 * |before| < end then (end + 7) / 8 else |before|)
      && forall i: nat :: BitAt(after, i) == if offset <= i < end then value else BitAt(before, i)
  }

  lemma ByteUpsertSets(offset: nat, new_: Bytes, data: Bytes)
    ensures Sets(ByteUpsert(offset, new_), data, ApplyOne(ByteUpsert(offset, new_), data))
  {
    var after := ApplyOne(ByteUpsert(offset, new_), data);
    ByteUpsertMeaning(offset, new_, data, 0);
    forall i: nat
      ensures ByteAt(after, i) == if offset <= i < offset + |new_| then new_[i - offset] else ByteAt(data, i)
    {
      ByteUpsertMeaning(offset, new_, data, i);
    }
  }

  lemma BitUpsertSets(offset: nat, amount: nat, value: bool, data: Bytes)
    ensures Sets(BitUpsert(offset, amount, value), data, ApplyOne(BitUpsert(offset, amount, value), data))
  {
    var after := ApplyOne(BitUpsert(offset, amount, value), data);
    BitUpsertMeaning(offset, amount, value, data, 0);
    forall i: nat
      ensures BitAt(after, i) == if offset <= i < offset + amount then value else BitAt(data, i)
    {
      BitUpsertMeaning(offset, amount, value, data, i);
    }
  }

  lemma ApplyOneSets(u: RawUpsert, data: Bytes)
    ensures Sets(u, data, ApplyOne(u, data))
  {
    match u {
      case ByteUpsert(offset, new_) => ByteUpsertSets(offset, new_, data);
      case BitUpsert(offset, amount, value) => BitUpsertSets(offset, amount, value, data);
    }
  }

  /** The upserts take effect one after the other, the first one first. */
  ghost predicate SetsAll(us: seq<RawUpsert>, before: Bytes, after: Bytes)
    decreases |us|
  {
    if us == [] then after == before
    else
      var first, rest := us[0], us[1..];
      exists mid :: Sets(first, before, mid) && SetsAll(rest, mid, after)
  }

  lemma {:induction false} SetsFirst(us: seq<RawUpsert>, before: Bytes, mid: Bytes, after: Bytes)
    requires us != [] && Sets(us[0], before, mid) && SetsAll(us[1..], mid, after)
    ensures SetsAll(us, before, after)
  {
  }

  lemma {:induction false} ApplyAllSets(us: seq<RawUpsert>, data: Bytes)
    ensures SetsAll(us, data, ApplyAll(us, data))
    decreases |us|
  {
    if us != [] {
      var mid := ApplyOne(us[0], data);
      ApplyOneSets(us[0], data);
      ApplyAllSets(us[1..], mid);
      SetsFirst(us, data, mid, ApplyAll(us[1..], mid));
    }
  }

  lemma {:induction false} ApplySingle(u: RawUpsert, data: Bytes)
    ensures ApplyAll([u], data) == ApplyOne(u, data)
  {
    assert [u][1..] == [];
  }

  lemma {:induction false} ApplySnoc(us: seq<RawUpsert>, u: RawUpsert, data: Bytes)
    ensures ApplyAll(us + [u], data) == ApplyOne(u, ApplyAll(us, data))
  {
    ApplyConcat(us, [u], data);
    ApplySingle(u, ApplyAll(us, data));
  }

  lemma {:induction false} BitsDetermine(a: nat, b: nat, n: nat)
    requires a < Pow2(n) && b < Pow2(n) && forall j: nat :: j < n ==> BitOf(a, j) == BitOf(b, j)
    ensures a == b
    decreases n
  {
    if n > 0 {
      assert BitOf(a, 0) == BitOf(b, 0);
      forall j: nat | j < n - 1 ensures BitOf(a / 2, j) == BitOf(b / 2, j) {
        assert BitOf(a, j + 1) == BitOf(b, j + 1);
      }
      BitsDetermine(a / 2, b / 2, n - 1);
    }
  }

  lemma SameByte(a: Bytes, b: Bytes, i: nat)
    requires i < |a| == |b| && forall k: nat :: BitAt(a, k) == BitAt(b, k)
    ensures a[i] == b[i]
  {
    assert Pow2(4) == 16 && Pow2(8) == 256;
    forall j: nat | j < 8 ensures BitOf(a[i], j) == BitOf(b[i], j) {
      assert BitAt(a, 8 * i + j) == BitAt(b, 8 * i + j);
    }
    BitsDetermine(a[i], b[i], 8);
  }

  lemma SetsOne(u: RawUpsert, before: Bytes, a: Bytes, b: Bytes)
    requires Sets(u, before, a) && Sets(u, before, b)
    ensures a == b
  {
    forall i: nat | i < |a| ensures a[i] == b[i] {
      match u {
        case ByteUpsert(_, _) => assert ByteAt(a, i) == ByteAt(b, i);
        case BitUpsert(_, _, _) =>
          assert forall k: nat :: BitAt(a, k) == BitAt(b, k);
          SameByte(a, b, i);
      }
    }
  }

  /** The effect determines the value. */
  lemma {:induction false} SetsAllOne(us: seq<RawUpsert>, before: Bytes, a: Bytes, b: Bytes)
    requires SetsAll(us, before, a) && SetsAll(us, before, b)
    ensures a == b
    decreases |us|
  {
    if us != [] {
      var first, rest := us[0], us[1..];
      var x :| Sets(first, before, x) && SetsAll(rest, x, a);
      var y :| Sets(first, before, y) && SetsAll(rest, y, b);
      SetsOne(first, before, x, y);
      SetsAllOne(rest, x, a, b);
    }
  }
}
