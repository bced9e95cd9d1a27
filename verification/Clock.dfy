/** A circular singly linked list on the heap, against the deque it stands for. */
module Clock {
  import opened Common

  class ClockEntry<T> {
    var value: T
    var next: ClockEntry<T>

    constructor (v: T)
      ensures value == v && next == this
    {
      value := v;
      next := this;
    }
  }

  function Filtered<T>(s: seq<T>, f: T -> bool): seq<T>
    decreases |s|
  {
    if s == [] then []
    else (if f(s[0]) then [s[0]] else []) + Filtered(s[1..], f)
  }

  lemma {:induction false} FilteredSnoc<T>(s: seq<T>, x: T, f: T -> bool)
    ensures Filtered(s + [x], f) == Filtered(s, f) + if f(x) then [x] else []
    decreases |s|
  {
    if s == [] {
      assert ([] + [x])[1..] == [];
    } else {
      var head, tail := if f(s[0]) then [s[0]] else [], if f(x) then [x] else [];
      assert (s + [x])[0] == s[0] && (s + [x])[1..] == s[1..] + [x];
      FilteredSnoc(s[1..], x, f);
      assert head + (Filtered(s[1..], f) + tail) == head + Filtered(s[1..], f) + tail;
    }
  }

  /** Each node leads to the following one. */
  ghost predicate Linked<T>(nodes: seq<ClockEntry<T>>)
    reads nodes
  {
    forall i :: 0 <= i < |nodes| - 1 ==> nodes[i].next == nodes[i + 1]
  }

  ghost predicate Distinct<T(!new)>(nodes: seq<ClockEntry<T>>) {
    forall i, j :: 0 <= i < j < |nodes| ==> nodes[i] != nodes[j]
  }

  ghost predicate Carries<T(!new)>(nodes: seq<ClockEntry<T>>, values: seq<T>)
    reads nodes
  {
    |nodes| == |values| && forall i :: 0 <= i < |nodes| ==> nodes[i].value == values[i]
  }

  /** A cycle through all nodes, in the order head to tail. */
  ghost predicate Cycle<T(!new)>(tail: ClockEntry?<T>, nodes: seq<ClockEntry<T>>, values: seq<T>)
    reads nodes
  {
    && Distinct(nodes) && Linked(nodes) && Carries(nodes, values)
    && (nodes == [] <==> tail == null)
    && (nodes != [] ==> tail == nodes[|nodes| - 1] && nodes[|nodes| - 1].next == nodes[0])
  }

  /** The iterator, with the number of nodes visited so far. */
  class ClockIter<T(!new)> {
    var current: ClockEntry?<T>
    const last: ClockEntry?<T>
    ghost const all: seq<ClockEntry<T>>
    ghost var pos: nat

    ghost predicate Valid()
      reads this, all
    {
      && pos <= |all| && Distinct(all) && Linked(all)
      && (all != [] ==> last == all[|all| - 1])
      && current == if pos == |all| then null else all[pos]
    }

    constructor (tail: ClockEntry?<T>, ghost nodes: seq<ClockEntry<T>>)
      requires Distinct(nodes) && Linked(nodes) && (nodes == [] <==> tail == null)
      requires nodes != [] ==> tail == nodes[|nodes| - 1] && tail.next == nodes[0]
      ensures Valid() && all == nodes && pos == 0
    {
      current := if tail == null then null else tail.next;
      last := tail;
      all, pos := nodes, 0;
    }

    /** Yields the nodes in order, each once, and then null. */
    method Next() returns (e: ClockEntry?<T>)
      requires Valid()
      modifies this
      ensures Valid()
      ensures if old(pos) == |all| then e == null && pos == old(pos) else e == all[old(pos)] && pos == old(pos) + 1
    {
      e := current;
      if e != null {
        current := if e == last then null else e.next;
        pos := pos + 1;
      }
    }
  }

  /** The state of `retain` before node i: the kept nodes lead from the tail to node i. */
  ghost predicate Walking<T(!new)>(all: seq<ClockEntry<T>>, kept: seq<ClockEntry<T>>, i: nat, last: ClockEntry<T>)
    requires i < |all|
    reads all, kept
  {
    && Distinct(all) && last in all
    && (forall j :: i <= j < |all| - 1 ==> all[j].next == all[j + 1])
    && Distinct(kept) && Linked(kept)
    && (forall k :: k in kept ==> k in all[..i])
    && all[|all| - 1].next == (kept + [all[i]])[0]
    && (if kept == [] then last == all[|all| - 1]
        else last == kept[|kept| - 1] && last.next == all[i])
  }

  lemma DistinctMore<T(!new)>(all: seq<ClockEntry<T>>, kept: seq<ClockEntry<T>>, i: nat)
    requires i < |all| && Distinct(all) && Distinct(kept) && forall k :: k in kept ==> k in all[..i]
    ensures Distinct(kept + [all[i]])
  {
    forall j | 0 <= j < |kept|
      ensures kept[j] != all[i]
    {
      assert kept[j] in all[..i];
    }
  }

  lemma KeepStep<T(!new)>(all: seq<ClockEntry<T>>, kept: seq<ClockEntry<T>>, i: nat, last: ClockEntry<T>)
    requires i + 1 < |all| && Walking(all, kept, i, last)
    ensures Walking(all, kept + [all[i]], i + 1, all[i])
  {
    var more := kept + [all[i]];
    assert forall k :: k in kept ==> k in all[..i] && k != all[i];
    assert forall k :: k in more ==> k in all[..i + 1];
    assert (more + [all[i + 1]])[0] == more[0];
    DistinctMore(all, kept, i);
  }

  method DropNode<T(!new)>(ghost all: seq<ClockEntry<T>>, ghost kept: seq<ClockEntry<T>>, ghost i: nat,
                           last: ClockEntry<T>, next: ClockEntry<T>)
    requires i + 1 < |all| && Walking(all, kept, i, last) && next == all[i + 1]
    modifies last`next
    ensures Walking(all, kept, i + 1, last)
  {
    assert kept != [] ==> last in all[..i];
    last.next := next;
    assert forall k :: k in kept ==> k in all[..i + 1];
  }

  /** The loop of `retain` over all nodes but the tail. */
  method RetainFront<T(!new)>(tail: ClockEntry<T>, f: T -> bool, ghost all: seq<ClockEntry<T>>, ghost values: seq<T>)
    returns (last: ClockEntry<T>, ghost kept: seq<ClockEntry<T>>, ghost keptValues: seq<T>)
    requires Cycle(tail, all, values)
    modifies all
    ensures Walking(all, kept, |all| - 1, last)
    ensures Carries(all, values) && Carries(kept, keptValues)
    ensures keptValues == Filtered(values[..|all| - 1], f)
  {
    ghost var i := 0;
    kept, keptValues := [], [];
    last := tail;
    var current := tail.next;
    while tail != current
      invariant 0 <= i < |all| && current == all[i]
      invariant Walking(all, kept, i, last)
      invariant Carries(all, values) && Carries(kept, keptValues)
      invariant keptValues == Filtered(values[..i], f)
      decreases |all| - i
    {
      assert values[..i + 1] == values[..i] + [values[i]];
      FilteredSnoc(values[..i], values[i], f);
      if f(current.value) {
        KeepStep(all, kept, i, last);
        last := current;
        current := current.next;
        kept, keptValues := kept + [all[i]], keptValues + [values[i]];
      } else {
        var next := current.next;
        DropNode(all, kept, i, last, next);
        current := next;
      }
      i := i + 1;
    }
  }

  lemma KeptCycle<T(!new)>(all: seq<ClockEntry<T>>, values: seq<T>, kept: seq<ClockEntry<T>>, keptValues: seq<T>,
                           i: nat, last: ClockEntry<T>)
    requires i + 1 == |all| && Walking(all, kept, i, last)
    requires Carries(all, values) && Carries(kept, keptValues)
    ensures Cycle(all[i], kept + [all[i]], keptValues + [values[i]])
    ensures last == if kept == [] then all[i] else kept[|kept| - 1]
    ensures forall n :: n in kept + [all[i]] ==> n in all
  {
    DistinctMore(all, kept, i);
  }

  class Clock<T(!new)> {
    var tail: ClockEntry?<T>
    ghost var nodes: seq<ClockEntry<T>>
    ghost var contents: seq<T>
    ghost var repr: set<ClockEntry<T>>

    ghost predicate Valid()
      reads this, repr
    {
      (forall i :: 0 <= i < |nodes| ==> nodes[i] in repr) && Cycle(tail, nodes, contents)
    }

    constructor ()
      ensures Valid() && contents == [] && repr == {}
    {
      tail := null;
      nodes, contents, repr := [], [], {};
    }

    method PopFront() returns (r: Option<T>)
      requires Valid()
      modifies this, repr
      ensures Valid() && repr == old(repr)
      ensures match r
              case None => old(contents) == [] && contents == []
              case Some(v) => old(contents) == [v] + contents
    {
      if tail == null {
        return None;
      }
      var head := tail.next;
      if head != tail {
        tail.next := head.next;
      } else {
        tail := null;
      }
      nodes, contents := nodes[1..], contents[1..];
      return Some(head.value);
    }

    method PeekFront() returns (r: Option<T>)
      requires Valid()
      ensures r == if contents == [] then None else Some(contents[0])
    {
      if tail == null {
        return None;
      }
      return Some(tail.next.value);
    }

    /** Moves the hand: the head becomes the tail. */
    method Next()
      requires Valid()
      modifies this
      ensures Valid() && repr == old(repr)
      ensures contents == if old(contents) == [] then [] else old(contents)[1..] + [old(contents)[0]]
    {
      if tail != null {
        tail := tail.next;
        nodes, contents := nodes[1..] + [nodes[0]], contents[1..] + [contents[0]];
      }
    }

    method PushBack(v: T)
      requires Valid()
      modifies this, repr
      ensures Valid() && contents == old(contents) + [v]
      ensures fresh(repr - old(repr)) && old(repr) <= repr
    {
      var entry := new ClockEntry(v);
      if tail != null {
        entry.next := tail.next;
        tail.next := entry;
      }
      tail := entry;
      nodes, contents, repr := nodes + [entry], contents + [v], repr + {entry};
    }

    /** Counts the elements by walking once around. */
    method Len() returns (n: nat)
      requires Valid()
      ensures n == |contents|
    {
      n := 0;
      if tail != null {
        var current := tail.next;
        n := 1;
        while current != tail
          invariant 1 <= n <= |nodes| && current == nodes[n - 1]
          decreases |nodes| - n
        {
          current := current.next;
          n := n + 1;
        }
      }
    }

    /** Keeps the elements that satisfy f, in their order. */
    method Retain(f: T -> bool)
      requires Valid()
      modifies this, repr
      ensures Valid() && repr == old(repr)
      ensures contents == Filtered(old(contents), f)
    {
      if tail == null {
        return;
      }
      var last := RetainBeforeTail(tail, f);
      if !f(tail.value) {
        assert last in nodes;
        DropTail(last);
      }
    }

    method Iter() returns (it: ClockIter<T>)
      requires Valid()
      ensures fresh(it) && it.Valid() && it.all == nodes && it.pos == 0
    {
      it := new ClockIter(tail, nodes);
    }

    /** Finds the first element that satisfies f and overwrites it. */
    method ReplaceFirst(f: T -> bool, v: T) returns (found: bool)
      requires Valid()
      modifies this, repr
      ensures Valid() && repr == old(repr)
      ensures found <==> exists i :: 0 <= i < |old(contents)| && f(old(contents)[i])
      ensures !found ==> contents == old(contents)
      ensures found ==> exists i :: 0 <= i < |old(contents)| && f(old(contents)[i])
                                    && contents == old(contents)[i := v]
                                    && forall j :: 0 <= j < i ==> !f(old(contents)[j])
    {
      var e, i := FindFirst(f);
      found := e != null;
      if found {
        e.value := v;
        contents := contents[i := v];
      }
    }

    method FindFirst(f: T -> bool) returns (e: ClockEntry?<T>, ghost i: nat)
      requires Valid()
      ensures i <= |nodes| && (e == null <==> i == |nodes|)
      ensures e != null ==> e == nodes[i] && f(contents[i])
      ensures forall j :: 0 <= j < i ==> !f(contents[j])
    {
      var it := Iter();
      e := it.Next();
      i := 0;
      while e != null && !f(e.value)
        invariant it.Valid() && it.all == nodes
        invariant i <= |nodes| && (e == null <==> i == |nodes|)
        invariant e != null ==> e == nodes[i] && it.pos == i + 1
        invariant forall j :: 0 <= j < i ==> !f(contents[j])
        decreases |nodes| - i
      {
        e := it.Next();
        i := i + 1;
      }
    }

    /** Filters all elements but the tail and returns the node before it. */
    method RetainBeforeTail(current: ClockEntry<T>, f: T -> bool) returns (last: ClockEntry<T>)
      requires Valid() && tail == current
      modifies this, repr
      ensures Valid() && repr == old(repr) && tail == old(tail)
      ensures nodes != [] && last == if |nodes| == 1 then nodes[0] else nodes[|nodes| - 2]
      ensures var v := old(contents)[|old(contents)| - 1];
              && contents == Filtered(old(contents)[..|old(contents)| - 1], f) + [v]
              && Filtered(old(contents), f)
                 == Filtered(old(contents)[..|old(contents)| - 1], f) + if f(v) then [v] else []
    {
      ghost var all, values, i := nodes, contents, |nodes| - 1;
      ghost var kept, keptValues;
      last, kept, keptValues := RetainFront(current, f, all, values);
      KeptCycle(all, values, kept, keptValues, i, last);
      nodes, contents := kept + [all[i]], keptValues + [values[i]];
      assert forall j :: 0 <= j < |nodes| ==> nodes[j] in all;
      assert values == values[..i] + [values[i]];
      FilteredSnoc(values[..i], values[i], f);
    }

    /** Removes the tail, given the node before it. */
    method DropTail(last: ClockEntry<T>)
      requires Valid() && nodes != []
      requires last == if |nodes| == 1 then nodes[0] else nodes[|nodes| - 2]
      modifies this, last`next
      ensures Valid() && repr == old(repr)
      ensures nodes == old(nodes[..|nodes| - 1]) && contents == old(contents[..|contents| - 1])
    {
      var current := tail;
      if last == current {
        tail := null;
      } else {
        tail := last;
        last.next := current.next;
      }
      nodes, contents := nodes[..|nodes| - 1], contents[..|contents| - 1];
    }
  }
}
