/** Byte-string keys in lexicographic order. */
module Keys {
  import opened Upserts

  type Key = Bytes

  predicate Less(a: Key, b: Key)
    decreases |a|
  {
    b != [] && (a == [] || a[0] < b[0] || (a[0] == b[0] && Less(a[1..], b[1..])))
  }

  predicate AtMost(a: Key, b: Key) {
    !Less(b, a)
  }

  lemma {:induction false} Irreflexive(a: Key)
    ensures !Less(a, a)
    decreases |a|
  {
    if a != [] {
      Irreflexive(a[1..]);
    }
  }

  lemma {:induction false} Transitive(a: Key, b: Key, c: Key)
    requires Less(a, b) && Less(b, c)
    ensures Less(a, c)
    decreases |a|
  {
    if a != [] && a[0] == b[0] == c[0] {
      Transitive(a[1..], b[1..], c[1..]);
    }
  }

  lemma {:induction false} Total(a: Key, b: Key)
    ensures Less(a, b) || a == b || Less(b, a)
    decreases |a|
  {
    if a != [] && b != [] && a[0] == b[0] {
      Total(a[1..], b[1..]);
      assert a == [a[0]] + a[1..] && b == [b[0]] + b[1..];
    }
  }

  lemma LessAtMost(a: Key, b: Key, c: Key)
    requires Less(a, b) && AtMost(b, c)
    ensures Less(a, c)
  {
    Total(b, c);
    if Less(b, c) {
      Transitive(a, b, c);
    }
  }

  lemma AtMostLess(a: Key, b: Key, c: Key)
    requires AtMost(a, b) && Less(b, c)
    ensures Less(a, c)
  {
    Total(a, b);
    if Less(a, b) {
      Transitive(a, b, c);
    }
  }

  lemma LessIsAtMost(a: Key, b: Key)
    requires Less(a, b)
    ensures AtMost(a, b)
  {
    if Less(b, a) {
      Transitive(a, b, a);
      Irreflexive(a);
    }
  }

  /** The first key that `split_off` moves to the right is the pivot followed by a zero byte: the
      keys below it are exactly those up to and including the pivot. */
  lemma {:induction false} Successor(pivot: Key, k: Key)
    ensures Less(k, pivot + [0]) <==> AtMost(k, pivot)
    decreases |pivot|
  {
    if pivot == [] {
      if k != [] {
        assert !Less(k[1..], []);
      }
    } else {
      assert (pivot + [0])[1..] == pivot[1..] + [0];
      if k != [] {
        Successor(pivot[1..], k[1..]);
      }
    }
  }
}
