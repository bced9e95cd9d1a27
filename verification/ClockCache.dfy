/** The CLOCK cache: a map of entries and a clock of their keys. */
module ClockCache {
  import opened Common
  import opened Clock

  /** `pins` counts the references handed out by `get` that are still held. */
  datatype CacheEntry<V> = CacheEntry(value: V, referenced: bool, pins: nat)

  datatype KeyChange = Absent | InUse | Refused | Changed

  datatype Removal<V> = NotPresent | Pinned | Removed(value: V)

  ghost predicate EachOnce<K(!new)>(keys: seq<K>, all: set<K>) {
    && (forall i, j :: 0 <= i < j < |keys| ==> keys[i] != keys[j])
    && (forall k :: k in keys <==> k in all)
  }

  /** The keys with reference bits reset by a hand that passed over `keys`. */
  function Passed<K, V>(entries: map<K, CacheEntry<V>>, keys: seq<K>): map<K, CacheEntry<V>> {
    map k | k in entries :: if k in keys && entries[k].pins == 0 then entries[k].(referenced := false) else entries[k]
  }

  /** A hand that passed resets the bits of the unpinned entries it passed, and changes nothing
      about pinned ones or about any value. */
  lemma PassedMeans<K, V>(entries: map<K, CacheEntry<V>>, keys: seq<K>, k: K)
    requires k in entries
    ensures var e, e' := entries[k], Passed(entries, keys)[k];
            && Passed(entries, keys).Keys == entries.Keys && e'.value == e.value && e'.pins == e.pins
            && (e'.referenced <==> e.referenced && (k !in keys || e.pins > 0))
  {
  }

  predicate Evictable<K, V>(entries: map<K, CacheEntry<V>>, accept: (K, V) -> bool, k: K) {
    k in entries && entries[k].pins == 0 && accept(k, entries[k].value)
  }

  predicate Ready<K, V>(entries: map<K, CacheEntry<V>>, accept: (K, V) -> bool, k: K) {
    Evictable(entries, accept, k) && !entries[k].referenced
  }

  function Rotated<T>(s: seq<T>, n: nat): seq<T>
    requires n <= |s|
  {
    s[n..] + s[..n]
  }

  /** The key the second-chance rule picks: the first one that is ready, and if there is none the
      first one that can be evicted at all, after all reference bits are reset. */
  ghost predicate Victim<K(!new), V(!new)>(keys: seq<K>, entries: map<K, CacheEntry<V>>, accept: (K, V) -> bool,
                                           i: nat)
  {
    && i < |keys|
    && Evictable(entries, accept, keys[i])
    && if exists j :: 0 <= j < |keys| && Ready(entries, accept, keys[j])
       then Ready(entries, accept, keys[i]) && forall j :: 0 <= j < i ==> !Ready(entries, accept, keys[j])
       else forall j :: 0 <= j < i ==> !Evictable(entries, accept, keys[j])
  }

  lemma {:induction false} FilteredElements<K(!new)>(keys: seq<K>, f: K -> bool)
    requires forall i, j :: 0 <= i < j < |keys| ==> keys[i] != keys[j]
    ensures forall x :: x in Filtered(keys, f) <==> x in keys && f(x)
    ensures forall i, j :: 0 <= i < j < |Filtered(keys, f)| ==> Filtered(keys, f)[i] != Filtered(keys, f)[j]
    decreases |keys|
  {
    if keys != [] {
      FilteredElements(keys[1..], f);
      assert keys == [keys[0]] + keys[1..];
      assert keys[0] !in keys[1..];
      assert keys[0] !in Filtered(keys[1..], f);
    }
  }

  lemma FilteredOut<K(!new)>(keys: seq<K>, all: set<K>, k: K, f: K -> bool)
    requires EachOnce(keys, all) && forall x :: f(x) <==> x != k
    ensures EachOnce(Filtered(keys, f), all - {k})
  {
    FilteredElements(keys, f);
    forall x
      ensures x in Filtered(keys, f) <==> x in all - {k}
    {
      assert x in Filtered(keys, f) <==> x in keys && f(x);
    }
  }

  function Renamed<K(==)>(keys: seq<K>, from_: K, to_: K): (r: seq<K>)
    ensures |r| == |keys|
  {
    seq(|keys|, i requires 0 <= i < |keys| => if keys[i] == from_ then to_ else keys[i])
  }

  lemma RenamedOnce<K(!new)>(keys: seq<K>, all: set<K>, from_: K, to_: K)
    requires EachOnce(keys, all) && from_ in all && to_ !in all
    ensures EachOnce(Renamed(keys, from_, to_), all - {from_} + {to_})
  {
    var r := Renamed(keys, from_, to_);
    forall x
      ensures x in r <==> x in all - {from_} + {to_}
    {
      if x in r {
        var j :| 0 <= j < |r| && r[j] == x;
        assert keys[j] in keys;
      }
      if x in all && x != from_ {
        var j :| 0 <= j < |keys| && keys[j] == x;
        assert r[j] == x;
      }
      if x == to_ {
        var j :| 0 <= j < |keys| && keys[j] == from_;
        assert r[j] == x;
      }
    }
    forall i, j | 0 <= i < j < |r|
      ensures r[i] != r[j]
    {
      assert keys[i] in keys && keys[j] in keys;
    }
  }

  lemma RenamedTwice<K(!new)>(keys: seq<K>, all: set<K>, from_: K, to_: K)
    requires EachOnce(keys, all) && from_ in all && to_ in all && to_ != from_
    ensures !EachOnce(Renamed(keys, from_, to_), all - {from_} + {to_})
  {
    assert from_ in keys && to_ in keys;
    var i :| 0 <= i < |keys| && keys[i] == from_;
    var j :| 0 <= j < |keys| && keys[j] == to_;
    var r := Renamed(keys, from_, to_);
    assert r[i] == to_ == r[j] && i != j;
  }

  /** Renaming a key keeps every key once exactly if the new name is free. */
  lemma RenamedOnceIff<K(!new)>(keys: seq<K>, all: set<K>, from_: K, to_: K)
    requires EachOnce(keys, all) && from_ in all
    ensures EachOnce(Renamed(keys, from_, to_), all - {from_} + {to_}) <==> to_ !in all || to_ == from_
  {
    if to_ == from_ {
      assert Renamed(keys, from_, to_) == keys;
      assert all - {from_} + {to_} == all;
    } else if to_ in all {
      RenamedTwice(keys, all, from_, to_);
    } else {
      RenamedOnce(keys, all, from_, to_);
    }
  }

  lemma RotatedNext<T>(s: seq<T>, n: nat)
    requires n < |s|
    ensures var r := Rotated(s, n);
            && r[0] == s[n] && r[1..] == s[n + 1..] + s[..n]
            && r[1..] + [r[0]] == Rotated(s, n + 1)
  {
    var r := Rotated(s, n);
    assert s[..n + 1] == s[..n] + [s[n]];
    assert r[1..] == s[n + 1..] + s[..n];
  }

  lemma RotatedAround<T>(s: seq<T>)
    ensures Rotated(s, |s|) == s == Rotated(s, 0)
  {
  }

  lemma EvictedOnce<K(!new)>(keys: seq<K>, all: set<K>, n: nat)
    requires EachOnce(keys, all) && n < |keys|
    ensures EachOnce(keys[n + 1..] + keys[..n], all - {keys[n]})
  {
    var r := keys[n + 1..] + keys[..n];
    forall x
      ensures x in r <==> x in all - {keys[n]}
    {
      if x in all && x != keys[n] {
        var j :| 0 <= j < |keys| && keys[j] == x;
        assert x in if j < n then keys[..n] else keys[n + 1..];
      }
      if x in r {
        assert x in keys;
      }
    }
  }

  lemma HeadGone<K(!new)>(keys: seq<K>, all: set<K>)
    requires EachOnce(keys, all) && keys != []
    ensures keys[0] in all && EachOnce(keys[1..], all - {keys[0]})
  {
    EvictedOnce(keys, all, 0);
    assert keys[1..] + keys[..0] == keys[1..];
    assert keys[0] in keys;
  }

  lemma RotatedOnce<K(!new)>(keys: seq<K>, all: set<K>, n: nat)
    requires EachOnce(keys, all) && n <= |keys|
    ensures EachOnce(Rotated(keys, n), all)
  {
    assert keys == keys[..n] + keys[n..];
  }

  // ------------------------------------------------------- the eviction loop, on values

  lemma PassedMinus<K(!new), V(!new)>(entries: map<K, CacheEntry<V>>, k: K)
    requires k in entries
    ensures Passed(entries, [k]).Keys == entries.Keys
    ensures Passed(entries, [k]) - {k} == entries - {k}
    ensures Passed(entries, [k])[k].value == entries[k].value
  {
  }

  /** What one turn does to the clock and the map. */
  ghost predicate Turned<K(!new), V(!new)>(keys: seq<K>, entries: map<K, CacheEntry<V>>, accept: (K, V) -> bool,
                                           r: Option<(K, V)>, keys1: seq<K>, entries1: map<K, CacheEntry<V>>)
    requires keys != [] && keys[0] in entries
  {
    var k := keys[0];
    if Ready(entries, accept, k)
    then r == Some((k, entries[k].value)) && entries1 == entries - {k} && keys1 == keys[1..]
    else r == None && entries1 == Passed(entries, [k]) && keys1 == keys[1..] + [k]
  }

  /** The hand has passed `pos` entries of its first or second revolution. */
  ghost predicate Progress<K(!new), V(!new)>(keys: seq<K>, all: map<K, CacheEntry<V>>, accept: (K, V) -> bool,
                                             second: bool, pos: nat, now: seq<K>, nowAll: map<K, CacheEntry<V>>) {
    && EachOnce(keys, all.Keys)
    && pos <= |keys| && now == Rotated(keys, pos)
    && nowAll == Passed(all, if second then keys else keys[..pos])
    && (forall j :: 0 <= j < (if second then |keys| else pos) ==> !Ready(all, accept, keys[j]))
    && (second ==> forall j :: 0 <= j < pos ==> !Evictable(all, accept, keys[j]))
  }

  ghost predicate Evicted<K(!new), V(!new)>(keys: seq<K>, all: map<K, CacheEntry<V>>, accept: (K, V) -> bool,
                                            r: (K, V), now: seq<K>, nowAll: map<K, CacheEntry<V>>) {
    exists i: nat ::
      && Victim(keys, all, accept, i)
      && r.0 == keys[i] && r.1 == all[r.0].value
      && now == keys[i + 1..] + keys[..i]
      && nowAll == Passed(all, if Ready(all, accept, r.0) then keys[..i] else keys) - {r.0}
  }

  ghost predicate Spared<K(!new), V(!new)>(keys: seq<K>, all: map<K, CacheEntry<V>>, accept: (K, V) -> bool,
                                           now: seq<K>, nowAll: map<K, CacheEntry<V>>) {
    (forall k :: !Evictable(all, accept, k)) && now == keys && nowAll == Passed(all, keys)
  }

  lemma PassedNone<K(!new), V(!new)>(all: map<K, CacheEntry<V>>)
    ensures Passed(all, []) == all
  {
  }

  lemma Start<K(!new), V(!new)>(keys: seq<K>, all: map<K, CacheEntry<V>>, accept: (K, V) -> bool)
    requires EachOnce(keys, all.Keys)
    ensures Progress(keys, all, accept, false, 0, keys, all)
  {
    RotatedAround(keys);
    PassedNone(all);
    assert keys[..0] == [];
  }

  lemma Wrap<K(!new), V(!new)>(keys: seq<K>, all: map<K, CacheEntry<V>>, accept: (K, V) -> bool,
                               now: seq<K>, nowAll: map<K, CacheEntry<V>>)
    requires Progress(keys, all, accept, false, |keys|, now, nowAll)
    ensures Progress(keys, all, accept, true, 0, now, nowAll)
  {
    RotatedAround(keys);
    assert keys[..|keys|] == keys;
  }

  lemma PassedMore<K(!new), V(!new)>(keys: seq<K>, all: map<K, CacheEntry<V>>, n: nat)
    requires n < |keys|
    ensures Passed(Passed(all, keys[..n]), [keys[n]]) == Passed(all, keys[..n + 1])
    ensures Passed(Passed(all, keys), [keys[n]]) == Passed(all, keys)
  {
    assert keys[..n + 1] == keys[..n] + [keys[n]];
  }

  lemma HeadState<K(!new), V(!new)>(keys: seq<K>, all: map<K, CacheEntry<V>>, accept: (K, V) -> bool,
                                    second: bool, pos: nat, now: seq<K>, nowAll: map<K, CacheEntry<V>>)
    requires Progress(keys, all, accept, second, pos, now, nowAll) && pos < |keys|
    ensures now != [] && now[0] == keys[pos] && keys[pos] in all && keys[pos] in nowAll
    ensures nowAll[keys[pos]].value == all[keys[pos]].value
    ensures Ready(nowAll, accept, keys[pos])
       <==> if second then Evictable(all, accept, keys[pos]) else Ready(all, accept, keys[pos])
  {
    RotatedNext(keys, pos);
    assert keys[pos] in keys;
    assert keys[pos] !in keys[..pos];
  }

  lemma Hit<K(!new), V(!new)>(keys: seq<K>, all: map<K, CacheEntry<V>>, accept: (K, V) -> bool,
                              second: bool, pos: nat, now: seq<K>, nowAll: map<K, CacheEntry<V>>)
    requires Progress(keys, all, accept, second, pos, now, nowAll) && pos < |keys|
    requires keys[pos] in nowAll && Ready(nowAll, accept, keys[pos])
    ensures Evicted(keys, all, accept, (keys[pos], nowAll[keys[pos]].value), now[1..], nowAll - {keys[pos]})
  {
    HeadState(keys, all, accept, second, pos, now, nowAll);
    RotatedNext(keys, pos);
    assert Victim(keys, all, accept, pos);
  }

  lemma Advance<K(!new), V(!new)>(keys: seq<K>, all: map<K, CacheEntry<V>>, accept: (K, V) -> bool,
                                  second: bool, pos: nat, now: seq<K>, nowAll: map<K, CacheEntry<V>>,
                                  r: Option<(K, V)>, next: seq<K>, nextAll: map<K, CacheEntry<V>>)
    requires Progress(keys, all, accept, second, pos, now, nowAll) && pos < |keys|
    requires now != [] && now[0] in nowAll && Turned(now, nowAll, accept, r, next, nextAll)
    ensures if r.Some? then Evicted(keys, all, accept, r.value, next, nextAll)
            else Progress(keys, all, accept, second, pos + 1, next, nextAll)
  {
    HeadState(keys, all, accept, second, pos, now, nowAll);
    if r.Some? {
      Hit(keys, all, accept, second, pos, now, nowAll);
    } else {
      RotatedNext(keys, pos);
      PassedMore(keys, all, pos);
    }
  }

  lemma Finish<K(!new), V(!new)>(keys: seq<K>, all: map<K, CacheEntry<V>>, accept: (K, V) -> bool,
                                 second: bool, pos: nat, now: seq<K>, nowAll: map<K, CacheEntry<V>>)
    requires Progress(keys, all, accept, second, pos, now, nowAll)
    requires pos == |keys| && (second || keys == [])
    ensures Spared(keys, all, accept, now, nowAll)
  {
    RotatedAround(keys);
    assert keys[..|keys|] == keys;
    forall k
      ensures !Evictable(all, accept, k)
    {
      if k in all {
        assert k in keys;
      }
    }
  }

  class ClockCache<K(!new, ==), V(!new)> {
    var entries: map<K, CacheEntry<V>>
    const clock: Clock<K>
    var insertions: nat
    var evictions: nat
    var removals: nat

    /** The clock holds every key of the map exactly once. */
    ghost predicate Valid()
      reads this, clock, clock.repr
    {
      clock.Valid() && EachOnce(clock.contents, entries.Keys)
    }

    ghost function Keys(): seq<K>
      reads clock
    {
      clock.contents
    }

    constructor ()
      ensures Valid() && entries == map[] && Keys() == []
      ensures fresh(clock) && clock.repr == {}
    {
      entries := map[];
      clock := new Clock();
      insertions, evictions, removals := 0, 0, 0;
    }

    method Get(key: K) returns (v: Option<V>)
      requires Valid()
      modifies this
      ensures Valid() && Keys() == old(Keys())
      ensures match v
              case None => key !in entries && entries == old(entries)
              case Some(x) =>
                && key in old(entries) && x == old(entries)[key].value
                && entries == old(entries)[key := CacheEntry(x, true, old(entries)[key].pins + 1)]
    {
      if key in entries {
        var e := entries[key];
        entries := entries[key := CacheEntry(e.value, true, e.pins + 1)];
        return Some(e.value);
      }
      return None;
    }

    method Insert(key: K, value: V)
      requires Valid() && key !in entries
      modifies this, clock, clock.repr
      ensures Valid() && Keys() == old(Keys()) + [key] && fresh(clock.repr - old(clock.repr))
      ensures entries == old(entries)[key := CacheEntry(value, false, 0)]
    {
      entries := entries[key := CacheEntry(value, false, 0)];
      clock.PushBack(key);
      insertions := insertions + 1;
    }

    method Remove(key: K) returns (r: Removal<V>)
      requires Valid()
      modifies this, clock, clock.repr
      ensures clock.repr == old(clock.repr)
      ensures Valid()
      ensures match r
              case NotPresent => key !in old(entries) && entries == old(entries) && Keys() == old(Keys())
              case Pinned => key in old(entries) && old(entries)[key].pins > 0
                             && entries == old(entries) && Keys() == old(Keys())
              case Removed(v) => key in old(entries) && old(entries)[key].pins == 0 && old(entries)[key].value == v
                                 && entries == old(entries) - {key} && Keys() == Filtered(old(Keys()), x => x != key)
    {
      if key !in entries {
        return NotPresent;
      }
      if entries[key].pins > 0 {
        return Pinned;
      }
      FilteredOut(clock.contents, entries.Keys, key, x => x != key);
      clock.Retain(x => x != key);
      var v := entries[key].value;
      entries := entries - {key};
      removals := removals + 1;
      return Removed(v);
    }

    method ForceRemove(key: K) returns (removed: bool)
      requires Valid()
      modifies this, clock, clock.repr
      ensures clock.repr == old(clock.repr)
      ensures Valid() && (removed <==> key in old(entries))
      ensures entries == old(entries) - {key} && Keys() == Filtered(old(Keys()), x => x != key)
    {
      FilteredOut(clock.contents, entries.Keys, key, x => x != key);
      clock.Retain(x => x != key);
      removed := key in entries;
      if removed {
        entries := entries - {key};
        removals := removals + 1;
      }
    }

    /** Moves an entry to another key and renames it in the clock, in its place.  The cache stays
        valid exactly if that key was not already in use. */
    method ForceChangeKey(key: K, newKey: K) returns (changed: bool)
      requires Valid()
      modifies this, clock, clock.repr
      ensures clock.repr == old(clock.repr) && clock.Valid() && (changed <==> key in old(entries))
      ensures Valid() <==> !changed || newKey !in old(entries) || newKey == key
      ensures !changed ==> entries == old(entries) && Keys() == old(Keys())
      ensures changed ==>
                && entries == (old(entries) - {key})[newKey := old(entries)[key]]
                && Keys() == Renamed(old(Keys()), key, newKey)
    {
      if key !in entries {
        return false;
      }
      var entry := entries[key];
      ghost var keys, all := clock.contents, entries.Keys;
      entries := (entries - {key})[newKey := entry];
      var found := clock.ReplaceFirst(x => x == key, newKey);
      assert clock.contents == Renamed(keys, key, newKey);
      assert entries.Keys == all - {key} + {newKey};
      RenamedOnceIff(keys, all, key, newKey);
      return true;
    }

    /** As above, unless the entry is pinned or the callback, which may change the value, offers no
        new key. */
    method ChangeKey(key: K, callback: (K, V) -> (V, Option<K>)) returns (r: KeyChange)
      requires Valid()
      modifies this, clock, clock.repr
      ensures clock.repr == old(clock.repr) && clock.Valid()
      ensures r == if key !in old(entries) then Absent
                   else if old(entries)[key].pins > 0 then InUse
                   else if callback(key, old(entries)[key].value).1.None? then Refused else Changed
      ensures r.Absent? || r.InUse? ==> Valid() && entries == old(entries) && Keys() == old(Keys())
      ensures r.Refused? || r.Changed? ==>
                var (value, offered) := callback(key, old(entries)[key].value);
                var entry := old(entries)[key].(value := value);
                if r.Refused? then Valid() && entries == old(entries)[key := entry] && Keys() == old(Keys())
                else
                  && entries == (old(entries) - {key})[offered.value := entry]
                  && Keys() == Renamed(old(Keys()), key, offered.value)
                  && (Valid() <==> offered.value !in old(entries) || offered.value == key)
    {
      if key !in entries {
        return Absent;
      }
      if entries[key].pins > 0 {
        return InUse;
      }
      var (value, offered) := callback(key, entries[key].value);
      ghost var before := entries;
      entries := entries[key := entries[key].(value := value)];
      assert entries.Keys == before.Keys && entries - {key} == before - {key};
      if offered.None? {
        return Refused;
      }
      var changed := ForceChangeKey(key, offered.value);
      return Changed;
    }

    /** One turn of the eviction loop: the head is evicted, or loses its reference bit and goes to
        the back. */
    method Turn(accept: (K, V) -> bool) returns (r: Option<(K, V)>)
      requires Valid() && Keys() != []
      modifies this, clock, clock.repr
      ensures Valid() && clock.repr == old(clock.repr)
      ensures Turned(old(Keys()), old(entries), accept, r, Keys(), entries)
    {
      var front := clock.PeekFront();
      var key := front.value;
      assert key in clock.contents;
      PassedMinus(entries, key);
      var evict := Visit(key, accept);
      if evict {
        r := TakeHead();
      } else {
        MoveOn();
        r := None;
      }
    }

    /** A turn, seen from the start of the eviction. */
    method TurnFrom(accept: (K, V) -> bool, ghost keys: seq<K>, ghost all: map<K, CacheEntry<V>>,
                    ghost second: bool, ghost pos: nat)
      returns (r: Option<(K, V)>)
      requires Valid() && pos < |keys| && Progress(keys, all, accept, second, pos, Keys(), entries)
      modifies this, clock, clock.repr
      ensures Valid() && clock.repr == old(clock.repr)
      ensures if r.Some? then Evicted(keys, all, accept, r.value, Keys(), entries)
              else Progress(keys, all, accept, second, pos + 1, Keys(), entries)
    {
      ghost var now, nowAll := Keys(), entries;
      HeadState(keys, all, accept, second, pos, now, nowAll);
      r := Turn(accept);
      Advance(keys, all, accept, second, pos, now, nowAll, r, Keys(), entries);
    }

    /** Resets the reference bit of an unpinned entry; says whether it may go now. */
    method Visit(key: K, accept: (K, V) -> bool) returns (evict: bool)
      requires key in entries
      modifies this`entries
      ensures evict == Ready(old(entries), accept, key)
      ensures entries == Passed(old(entries), [key])
    {
      var entry := entries[key];
      evict := false;
      if entry.pins == 0 {
        entries := entries[key := CacheEntry(entry.value, false, 0)];
        evict := !entry.referenced && accept(key, entry.value);
      }
    }

    method TakeHead() returns (r: Option<(K, V)>)
      requires Valid() && Keys() != []
      modifies this, clock, clock.repr
      ensures Valid() && clock.repr == old(clock.repr)
      ensures var k := old(Keys())[0];
              && k in old(entries) && r == Some((k, old(entries)[k].value)) && entries == old(entries) - {k}
              && Keys() == old(Keys())[1..]
    {
      HeadGone(clock.contents, entries.Keys);
      var key := clock.PopFront();
      r := Some((key.value, entries[key.value].value));
      entries := entries - {key.value};
      evictions := evictions + 1;
    }

    method MoveOn()
      requires Valid() && Keys() != []
      modifies clock
      ensures Valid() && clock.repr == old(clock.repr)
      ensures Keys() == old(Keys())[1..] + [old(Keys())[0]]
    {
      ghost var keys := clock.contents;
      RotatedOnce(keys, entries.Keys, 1);
      RotatedNext(keys, 0);
      RotatedAround(keys);
      clock.Next();
    }

    /** A turn that starts the second revolution when it ends the first. */
    method TurnOnce(accept: (K, V) -> bool, ghost keys: seq<K>, ghost all: map<K, CacheEntry<V>>,
                    ghost second: bool, ghost pos: nat)
      returns (r: Option<(K, V)>, ghost second': bool, ghost pos': nat)
      requires Valid() && pos < |keys| && Progress(keys, all, accept, second, pos, Keys(), entries)
      modifies this, clock, clock.repr
      ensures Valid() && clock.repr == old(clock.repr)
      ensures if r.Some? then Evicted(keys, all, accept, r.value, Keys(), entries)
              else Progress(keys, all, accept, second', pos', Keys(), entries)
      ensures if pos + 1 == |keys| && !second then second' && pos' == 0 else second' == second && pos' == pos + 1
    {
      r := TurnFrom(accept, keys, all, second, pos);
      second', pos' := second, pos + 1;
      if pos + 1 == |keys| && !second {
        if r.None? {
          Wrap(keys, all, accept, Keys(), entries);
        }
        second', pos' := true, 0;
      }
    }

    /** Second chance: within two revolutions of the hand the victim is evicted; without one, all
        unpinned entries have lost their reference bits and the clock is as before. */
    method Evict(accept: (K, V) -> bool) returns (r: Option<(K, V)>)
      requires Valid()
      modifies this, clock, clock.repr
      ensures clock.repr == old(clock.repr)
      ensures Valid()
      ensures if r.Some? then Evicted(old(Keys()), old(entries), accept, r.value, Keys(), entries)
              else Spared(old(Keys()), old(entries), accept, Keys(), entries)
    {
      ghost var keys, all, pos, second := Keys(), entries, 0, false;
      var len := clock.Len();
      var cnt := 0;
      r := None;
      Start(keys, all, accept);
      while cnt < 2 * len && r.None?
        invariant Valid() && clock.repr == old(clock.repr)
        invariant pos <= len == |keys| && cnt == pos + if second then len else 0
        invariant len > 0 && cnt < 2 * len ==> pos < len
        invariant r.None? ==> Progress(keys, all, accept, second, pos, Keys(), entries)
        invariant r.Some? ==> Evicted(keys, all, accept, r.value, Keys(), entries)
        decreases 2 * len - cnt, r.None?
      {
        r, second, pos := TurnOnce(accept, keys, all, second, pos);
        cnt := cnt + 1;
      }
      if r.None? {
        Finish(keys, all, accept, second, pos, Keys(), entries);
      }
    }
  }
}
