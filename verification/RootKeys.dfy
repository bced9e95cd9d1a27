/** The big-endian keys of the root tree: their order and the ranges they span. */
module RootKeys {
  import opened Upserts
  import opened Keys

  const SNAPSHOT_DATA: Byte := 4
  const DEADLIST: Byte := 5

  const U64_END: nat := 0x1_0000_0000_0000_0000

  type U64 = n: nat | n < U64_END

  function Pow256(len: nat): (p: nat)
    ensures p > 0
  {
    if len == 0 then 1 else 256 * Pow256(len - 1)
  }

  lemma EightBytes()
    ensures Pow256(8) == 0x1_0000_0000_0000_0000
  {
    assert Pow256(4) == 0x1_0000_0000;
    assert Pow256(6) == 0x1_0000_0000_0000;
  }

  lemma Digit(n: nat, p: nat)
    requires p > 0 && n < 256 * p
    ensures 0 <= n / p < 256 && 0 <= n % p < p && n == p * (n / p) + n % p
  {
  }

  /** The len lowest bytes of n, most significant first. */
  function BigEndian(n: nat, len: nat): (b: Bytes)
    requires n < Pow256(len)
    ensures |b| == len
    decreases len
  {
    if len == 0 then []
    else
      var p := Pow256(len - 1);
      Digit(n, p);
      [n / p] + BigEndian(n % p, len - 1)
  }

  lemma DigitOrder(a: nat, b: nat, p: nat)
    requires p > 0
    ensures a < b <==> a / p < b / p || (a / p == b / p && a % p < b % p)
  {
    var qa, qb := a / p, b / p;
    assert a == p * qa + a % p && b == p * qb + b % p;
    if qa < qb {
      assert p * (qa + 1) <= p * qb;
    } else if qb < qa {
      assert p * (qb + 1) <= p * qa;
    }
  }

  lemma SameDigits(a: nat, b: nat, p: nat)
    requires p > 0 && a / p == b / p && a % p == b % p
    ensures a == b
  {
    assert a == p * (a / p) + a % p && b == p * (b / p) + b % p;
  }

  lemma HeadLess(a: Byte, s: Bytes, b: Byte, t: Bytes)
    ensures Less([a] + s, [b] + t) <==> a < b || (a == b && Less(s, t))
  {
    assert ([a] + s)[1..] == s && ([b] + t)[1..] == t;
  }

  /** Big-endian numbers compare like the numbers, and with what follows only when equal. */
  lemma {:induction false} BigEndianOrder(a: nat, b: nat, len: nat, s: Bytes, t: Bytes)
    requires a < Pow256(len) && b < Pow256(len)
    ensures Less(BigEndian(a, len) + s, BigEndian(b, len) + t) <==> a < b || (a == b && Less(s, t))
    decreases len
  {
    if len == 0 {
      assert [] + s == s && [] + t == t;
    } else {
      var p := Pow256(len - 1);
      Digit(a, p);
      Digit(b, p);
      var x, y := BigEndian(a % p, len - 1) + s, BigEndian(b % p, len - 1) + t;
      HeadLess(a / p, x, b / p, y);
      Regroup([a / p], BigEndian(a % p, len - 1), s);
      Regroup([b / p], BigEndian(b % p, len - 1), t);
      BigEndianOrder(a % p, b % p, len - 1, s, t);
      DigitOrder(a, b, p);
      if a / p == b / p && a % p == b % p {
        SameDigits(a, b, p);
      }
    }
  }

  function Number(b: Bytes): nat
    decreases |b|
  {
    if b == [] then 0 else Pow256(|b| - 1) * b[0] as int + Number(b[1..])
  }

  lemma {:induction false} ReadBack(n: nat, len: nat)
    requires n < Pow256(len)
    ensures Number(BigEndian(n, len)) == n
    decreases len
  {
    if len > 0 {
      var p := Pow256(len - 1);
      Digit(n, p);
      ReadBack(n % p, len - 1);
      assert BigEndian(n, len)[1..] == BigEndian(n % p, len - 1);
    }
  }

  // ------------------------------------------------------------------------ keys

  function Pack(n: U64): (b: Bytes)
    ensures |b| == 8
  {
    EightBytes();
    BigEndian(n, 8)
  }

  lemma PackOrder(a: U64, b: U64, s: Bytes, t: Bytes)
    ensures Less(Pack(a) + s, Pack(b) + t) <==> a < b || (a == b && Less(s, t))
  {
    EightBytes();
    BigEndianOrder(a, b, 8, s, t);
  }

  function DeadKey(ds: U64, gen: U64, offset: U64): Bytes {
    [DEADLIST] + (Pack(ds) + (Pack(gen) + Pack(offset)))
  }

  function DeadMin(ds: U64, gen: U64): Bytes {
    [DEADLIST] + (Pack(ds) + Pack(gen))
  }

  function DeadMax(ds: U64, gen: U64): Bytes
    requires gen + 1 < U64_END
  {
    DeadMin(ds, gen + 1)
  }

  function DeadMaxDs(ds: U64): Bytes
    requires ds + 1 < U64_END
  {
    [DEADLIST] + Pack(ds + 1)
  }

  function DataKey(ds: U64, gen: U64): Bytes {
    [SNAPSHOT_DATA] + (Pack(ds) + Pack(gen))
  }

  function DataKeyMax(ds: U64): Bytes
    requires ds + 1 < U64_END
  {
    [SNAPSHOT_DATA] + Pack(ds + 1)
  }

  /** The keys of a half-open range. */
  predicate InKeyRange(low: Bytes, high: Bytes, k: Bytes) {
    AtMost(low, k) && Less(k, high)
  }

  lemma EmptyIsLeast(s: Bytes)
    ensures !Less(s, []) && (Less([], s) <==> s != [])
  {
  }

  lemma DeadMinOrder(ds: U64, gen: U64, offset: U64, ds1: U64, gen1: U64)
    ensures Less(DeadKey(ds, gen, offset), DeadMin(ds1, gen1)) <==> ds < ds1 || (ds == ds1 && gen < gen1)
  {
    HeadLess(DEADLIST, Pack(ds) + (Pack(gen) + Pack(offset)), DEADLIST, Pack(ds1) + Pack(gen1));
    PackOrder(ds, ds1, Pack(gen) + Pack(offset), Pack(gen1));
    assert Pack(gen1) + [] == Pack(gen1);
    PackOrder(gen, gen1, Pack(offset), []);
    EmptyIsLeast(Pack(offset));
  }

  lemma DsOrder(tag: Byte, ds: U64, rest: Bytes, ds1: U64)
    ensures Less([tag] + (Pack(ds) + rest), [tag] + Pack(ds1)) <==> ds < ds1
  {
    HeadLess(tag, Pack(ds) + rest, tag, Pack(ds1));
    assert Pack(ds1) + [] == Pack(ds1);
    PackOrder(ds, ds1, rest, []);
    EmptyIsLeast(rest);
  }

  /** The range up to the next snapshot holds exactly the entries of the dataset that died after
      the snapshot and not after the next one. */
  lemma DeadRangeToNext(ds: U64, ss: U64, next: U64, ds1: U64, death: U64, offset: U64)
    requires ss + 1 < U64_END && next + 1 < U64_END
    ensures InKeyRange(DeadMin(ds, ss + 1), DeadMax(ds, next), DeadKey(ds1, death, offset))
       <==> ds1 == ds && ss < death <= next
  {
    DeadMinOrder(ds1, death, offset, ds, ss + 1);
    DeadMinOrder(ds1, death, offset, ds, next + 1);
  }

  /** The range up to the end of the dataset holds exactly the entries that died after it. */
  lemma DeadRangeToEnd(ds: U64, ss: U64, ds1: U64, death: U64, offset: U64)
    requires ss + 1 < U64_END && ds + 1 < U64_END
    ensures InKeyRange(DeadMin(ds, ss + 1), DeadMaxDs(ds), DeadKey(ds1, death, offset))
       <==> ds1 == ds && ss < death
  {
    DeadMinOrder(ds1, death, offset, ds, ss + 1);
    DsOrder(DEADLIST, ds1, Pack(death) + Pack(offset), ds + 1);
  }

  lemma DataKeyOrder(ds: U64, gen: U64, ds1: U64, gen1: U64)
    ensures Less(DataKey(ds, gen), DataKey(ds1, gen1)) <==> ds < ds1 || (ds == ds1 && gen < gen1)
  {
    HeadLess(SNAPSHOT_DATA, Pack(ds) + Pack(gen), SNAPSHOT_DATA, Pack(ds1) + Pack(gen1));
    PackOrder(ds, ds1, Pack(gen), Pack(gen1));
    assert Pack(gen) + [] == Pack(gen) && Pack(gen1) + [] == Pack(gen1);
    PackOrder(gen, gen1, [], []);
  }

  /** The records `next_snapshot_id` looks at are exactly the later ones of the dataset, in the
      order of their ids. */
  lemma LaterRecords(ds: U64, ss: U64, ds1: U64, gen: U64)
    requires ss + 1 < U64_END && ds + 1 < U64_END
    ensures InKeyRange(DataKey(ds, ss + 1), DataKeyMax(ds), DataKey(ds1, gen)) <==> ds1 == ds && ss < gen
  {
    DataKeyOrder(ds1, gen, ds, ss + 1);
    DsOrder(SNAPSHOT_DATA, ds1, Pack(gen), ds + 1);
  }

  lemma KeyParts(a: Bytes, b: Bytes, c: Bytes)
    requires |a| == |b| == |c| == 8
    ensures var k := [DEADLIST] + (a + (b + c));
            |k| == 25 && k[1..9] == a && k[9..17] == b && k[17..] == c
  {
  }

  /** The parts of a key can be read back from it. */
  lemma DeadKeyParts(ds: U64, gen: U64, offset: U64)
    ensures var k := DeadKey(ds, gen, offset);
            && |k| == 25
            && Number(k[1..9]) == ds && Number(k[9..17]) == gen && Number(k[17..]) == offset
  {
    EightBytes();
    ReadBack(ds, 8);
    ReadBack(gen, 8);
    ReadBack(offset, 8);
    KeyParts(Pack(ds), Pack(gen), Pack(offset));
  }
}
