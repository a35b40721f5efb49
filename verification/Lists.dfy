/** list.cpp: the doubly linked list of the kernel, refined to a sequence, and the queue
    reordering of scheduler.cpp that works on it. */
module Lists {
  datatype Option<T> = None | Some(value: T)

  class Node<T> {
    var next: Node?<T>
    var prev: Node?<T>
    const data: T

    constructor (data: T)
      ensures this.data == data && next == null && prev == null
    {
      this.data := data;
      next := null;
      prev := null;
    }
  }

  function At<T>(nodes: seq<Node<T>>, i: int): Node?<T> {
    if 0 <= i < |nodes| then nodes[i] else null
  }

  function Data<T>(nodes: seq<Node<T>>): (s: seq<T>)
    ensures |s| == |nodes| && forall i :: 0 <= i < |s| ==> s[i] == nodes[i].data
  {
    seq(|nodes|, i requires 0 <= i < |nodes| => nodes[i].data)
  }

  // ---------- sequences ----------

  /** The sequence without the first occurrence of x. */
  function RemoveFirst<T(==)>(s: seq<T>, x: T): (r: seq<T>)
    ensures |r| <= |s| && (x in s <==> |r| < |s|)
  {
    if s == [] then [] else if s[0] == x then s[1..] else [s[0]] + RemoveFirst(s[1..], x)
  }

  lemma {:induction false} RemoveFirstAt<T>(s: seq<T>, x: T, i: nat)
    requires i < |s| && s[i] == x && forall k :: 0 <= k < i ==> s[k] != x
    ensures RemoveFirst(s, x) == s[..i] + s[i + 1..]
  {
    if i > 0 {
      RemoveFirstAt(s[1..], x, i - 1);
      assert s[..i] + s[i + 1..] == [s[0]] + (s[1..][..i - 1] + s[1..][i..]);
    }
  }

  lemma {:induction false} RemoveAbsent<T>(s: seq<T>, x: T)
    requires x !in s
    ensures RemoveFirst(s, x) == s
  {
    if s != [] {
      RemoveAbsent(s[1..], x);
    }
  }

  function Filter<T>(p: T -> bool, s: seq<T>): (r: seq<T>)
    ensures forall i :: 0 <= i < |r| ==> r[i] in s && p(r[i])
  {
    if s == [] then [] else (if p(s[0]) then [s[0]] else []) + Filter(p, s[1..])
  }

  function Not<T>(p: T -> bool): T -> bool { x => !p(x) }

  function RemoveEach<T(==)>(s: seq<T>, xs: seq<T>): seq<T>
    decreases |xs|
  {
    if xs == [] then s else RemoveEach(RemoveFirst(s, xs[0]), xs[1..])
  }

  lemma {:induction false} RemoveEachSkips<T>(a: T, s: seq<T>, xs: seq<T>)
    requires a !in xs
    ensures RemoveEach([a] + s, xs) == [a] + RemoveEach(s, xs)
    decreases |xs|
  {
    if xs != [] {
      assert ([a] + s)[1..] == s;
      RemoveEachSkips(a, RemoveFirst(s, xs[0]), xs[1..]);
    }
  }

  /** Taking out one by one what a filter found leaves what it did not find, even if things occur twice. */
  lemma {:induction false} RemoveFiltered<T>(p: T -> bool, s: seq<T>)
    ensures RemoveEach(s, Filter(p, s)) == Filter(Not(p), s)
  {
    if s != [] {
      var rest, found := s[1..], Filter(p, s[1..]);
      RemoveFiltered(p, rest);
      if p(s[0]) {
        assert ([s[0]] + found)[0] == s[0] && ([s[0]] + found)[1..] == found;
        assert RemoveFirst(s, s[0]) == rest;
        assert RemoveEach(s, [s[0]] + found) == RemoveEach(rest, found);
        assert Filter(p, s) == [s[0]] + found;
      } else {
        RemoveEachSkips(s[0], rest, found);
        assert [s[0]] + rest == s;
        assert Filter(p, s) == found;
      }
    }
  }

  lemma {:induction false} FilterSnoc<T>(p: T -> bool, s: seq<T>, x: T)
    ensures Filter(p, s + [x]) == Filter(p, s) + if p(x) then [x] else []
  {
    if s == [] {
      assert s + [x] == [x];
    } else {
      assert (s + [x])[1..] == s[1..] + [x];
      FilterSnoc(p, s[1..], x);
    }
  }

  lemma FilterNothing<T>(p: T -> bool)
    ensures Filter(p, []) == []
  {
  }

  lemma FilterUpTo<T>(p: T -> bool, s: seq<T>, i: nat)
    requires i < |s|
    ensures Filter(p, s[..i + 1]) == Filter(p, s[..i]) + if p(s[i]) then [s[i]] else []
  {
    assert s[..i + 1] == s[..i] + [s[i]];
    FilterSnoc(p, s[..i], s[i]);
  }

  // ---------- the list ----------

  class List<T(==)> {
    var first: Node?<T>
    var last: Node?<T>
    var size: nat
    ghost var nodes: seq<Node<T>>
    /** The nodes, and those that were in the list before. */
    ghost var repr: set<Node<T>>

    /** The nodes are linked both ways. `last` is only meant while there is a node. */
    ghost predicate Valid()
      reads this, repr
    {
      && size == |nodes| && (forall i :: 0 <= i < |nodes| ==> nodes[i] in repr)
      && first == At(nodes, 0)
      && (nodes != [] ==> last == nodes[|nodes| - 1])
      && (forall i, k :: 0 <= i < k < |nodes| ==> nodes[i] != nodes[k])
      && (nodes != [] ==> nodes[0].prev == null && nodes[|nodes| - 1].next == null)
      && (forall i, k :: 0 <= i && k == i + 1 < |nodes| ==> nodes[i].next == nodes[k] && nodes[k].prev == nodes[i])
    }

    ghost function Contents(): seq<T>
      reads this
    {
      Data(nodes)
    }

    /** list_create. */
    constructor ()
      ensures Valid() && nodes == [] && repr == {} && last == null && Contents() == []
    {
      first := null;
      last := null;
      size := 0;
      nodes := [];
      repr := {};
    }

    lemma FirstIs()
      requires Valid()
      ensures first == null <==> Contents() == []
      ensures first != null ==> first.data == Contents()[0]
      ensures Contents() != [] ==> (first == last <==> |Contents()| == 1)
    {
    }

    method AddFirst(data: T)
      requires Valid()
      modifies this, repr
      ensures Valid() && Contents() == [data] + old(Contents())
      ensures fresh(repr - old(repr)) && old(repr) <= repr && nodes != []
    {
      var node := new Node(data);
      repr := repr + {node};
      if first == null {
        first := node;
        last := node;
      } else {
        node.next := first;
        first.prev := node;
        first := node;
      }
      size := size + 1;
      ghost var was := nodes;
      nodes := [node] + nodes;
      assert nodes[1..] == was;
    }

    method AddLast(data: T)
      requires Valid()
      modifies this, repr
      ensures Valid() && Contents() == old(Contents()) + [data]
      ensures fresh(repr - old(repr)) && old(repr) <= repr && nodes != []
    {
      var node := new Node(data);
      repr := repr + {node};
      if first == null {
        first := node;
        last := node;
      } else {
        node.prev := last;
        last.next := node;
        last := node;
      }
      size := size + 1;
      nodes := nodes + [node];
    }

    /** The node at an index is unlinked; an index beyond the end is ignored. */
    method Remove(index: nat)
      requires Valid()
      modifies this, repr
      ensures Valid() && repr == old(repr)
      ensures index >= |old(nodes)| ==> nodes == old(nodes) && Contents() == old(Contents())
      ensures index < |old(nodes)| ==>
        && nodes == old(nodes[..index] + nodes[index + 1..])
        && Contents() == old(Contents()[..index] + Contents()[index + 1..])
    {
      if index >= size {
        return;
      }
      var curr := first;
      for i := 0 to index
        invariant curr == nodes[i]
      {
        assert curr.next == nodes[i + 1];
        curr := curr.next;
      }
      Unlink(curr, index);
    }

    /** The node at an index is taken out of the chain. */
    method Unlink(curr: Node<T>, ghost index: nat)
      requires Valid() && index < |nodes| && curr == nodes[index]
      modifies this, repr
      ensures Valid() && repr == old(repr) && nodes == old(nodes[..index] + nodes[index + 1..])
    {
      ghost var was := nodes;
      ghost var rest := nodes[..index] + nodes[index + 1..];
      Neighbours(index);
      if curr == first {
        first := first.next;
        if first != null {
          first.prev := null;
        }
      } else if curr == last {
        last := last.prev;
        if last != null {
          last.next := null;
        }
      } else {
        curr.prev.next := curr.next;
        curr.next.prev := curr.prev;
      }
      size := size - 1;
      nodes := rest;
    }

    lemma Neighbours(index: nat)
      requires Valid() && index < |nodes|
      ensures nodes[index] == first <==> index == 0
      ensures nodes[index] == last <==> index == |nodes| - 1
      ensures nodes[index].next == At(nodes, index + 1) && nodes[index].prev == At(nodes, index - 1)
    {
      assert index + 1 < |nodes| ==> nodes[index].next == nodes[index + 1];
      assert index > 0 ==> nodes[index - 1].next == nodes[index];
    }

    /** The first node with the data is unlinked, if there is one. */
    method RemoveData(data: T)
      requires Valid()
      modifies this, repr
      ensures Valid() && Contents() == RemoveFirst(old(Contents()), data)
      ensures repr == old(repr)
    {
      ghost var s := Contents();
      var curr, index := first, 0;
      while curr != null
        invariant Valid() && repr == old(repr) && nodes == old(nodes) && Contents() == s && index <= |nodes|
        invariant curr == At(nodes, index)
        invariant forall k :: 0 <= k < index ==> s[k] != data
        decreases |nodes| - index
      {
        if curr.data == data {
          RemoveFirstAt(s, data, index);
          Remove(index);
          return;
        }
        assert index + 1 < |nodes| ==> curr.next == nodes[index + 1];
        curr := curr.next;
        index := index + 1;
      }
      RemoveAbsent(s, data);
    }

    /** Does the comparison hold for any element? */
    method Contains(cmp: T -> bool) returns (found: bool)
      requires Valid()
      ensures found <==> exists i :: 0 <= i < |Contents()| && cmp(Contents()[i])
    {
      ghost var s, i := Contents(), 0;
      var curr := first;
      while curr != null
        invariant i <= |nodes| && curr == At(nodes, i)
        invariant forall k :: 0 <= k < i ==> !cmp(s[k])
        decreases |nodes| - i
      {
        if cmp(curr.data) {
          return true;
        }
        assert i + 1 < |nodes| ==> curr.next == nodes[i + 1];
        curr := curr.next;
        i := i + 1;
      }
      return false;
    }

    /** The element at an index, NULL for a negative index or one beyond the end. */
    method Get(index: int) returns (r: Option<T>)
      requires Valid()
      ensures r == if 0 <= index < |Contents()| then Some(Contents()[index]) else None
    {
      if index < 0 || index >= size {
        return None;
      }
      var curr := first;
      for i := 0 to index
        invariant curr == nodes[i]
      {
        assert curr.next == nodes[i + 1];
        curr := curr.next;
      }
      return Some(curr.data);
    }
  }

  lemma {:induction false} RemoveEachSnoc<T>(s: seq<T>, xs: seq<T>, x: T)
    ensures RemoveEach(s, xs + [x]) == RemoveFirst(RemoveEach(s, xs), x)
    decreases |xs|
  {
    if xs == [] {
      assert xs + [x] == [x];
    } else {
      assert (xs + [x])[1..] == xs[1..] + [x];
      RemoveEachSnoc(RemoveFirst(s, xs[0]), xs[1..], x);
    }
  }

  /** What reschedule_process makes of a queue. */
  function Partitioned<T>(p: T -> bool, s: seq<T>): seq<T> { Filter(p, s) + Filter(Not(p), s) }

  /** t has the entries of s, and entry i of s stands at place to[i]: those that meet p come before those that
      do not, and otherwise the order is as it was. */
  ghost predicate Regrouped<T>(p: T -> bool, s: seq<T>, t: seq<T>, to: seq<nat>) {
    && |s| == |t| == |to|
    && (forall i :: 0 <= i < |s| ==> to[i] < |t| && t[to[i]] == s[i])
    && (forall i, k :: 0 <= i < k < |s| ==> if p(s[k]) && !p(s[i]) then to[k] < to[i] else to[i] < to[k])
  }

  /** r has the entries of s that meet p, in their order, and entry i of s stands at place to[i]. */
  ghost predicate Kept<T>(p: T -> bool, s: seq<T>, r: seq<T>, to: seq<nat>) {
    && |to| == |s|
    && (forall i :: 0 <= i < |s| && p(s[i]) ==> to[i] < |r| && r[to[i]] == s[i])
    && (forall i, k :: 0 <= i < k < |s| && p(s[i]) && p(s[k]) ==> to[i] < to[k])
  }

  lemma KeptCons<T>(p: T -> bool, s: seq<T>, r: seq<T>, rest: seq<nat>) returns (to: seq<nat>)
    requires s != [] && Kept(p, s[1..], r, rest)
    ensures Kept(p, s, (if p(s[0]) then [s[0]] else []) + r, to)
  {
    var n := if p(s[0]) then 1 else 0;
    to := [0] + seq(|rest|, i requires 0 <= i < |rest| => rest[i] + n);
    assert forall i :: 0 < i < |s| ==> s[i] == s[1..][i - 1];
    assert forall i :: 0 < i < |s| ==> to[i] == rest[i - 1] + n;
  }

  lemma {:induction false} FilterPlaces<T>(p: T -> bool, s: seq<T>) returns (to: seq<nat>)
    ensures Kept(p, s, Filter(p, s), to)
  {
    hide Kept;
    if s == [] {
      to := [];
      KeptNothing(p);
    } else {
      var rest := FilterPlaces(p, s[1..]);
      to := KeptCons(p, s, Filter(p, s[1..]), rest);
    }
  }

  lemma KeptNothing<T>(p: T -> bool)
    ensures Kept(p, [], [], [])
  {
  }

  lemma {:induction false} FilterLengths<T>(p: T -> bool, s: seq<T>)
    ensures |Filter(p, s)| + |Filter(Not(p), s)| == |s|
  {
    if s != [] {
      FilterLengths(p, s[1..]);
    }
  }

  /** The queue is partitioned, and both parts keep their order and number. */
  lemma StablePartition<T>(p: T -> bool, s: seq<T>) returns (to: seq<nat>)
    ensures Regrouped(p, s, Partitioned(p, s), to)
  {
    hide Filter, Kept, Regrouped;
    var yes := FilterPlaces(p, s);
    var no := FilterPlaces(Not(p), s);
    FilterLengths(p, s);
    to := BothKept(p, s, Filter(p, s), Filter(Not(p), s), yes, no);
  }

  lemma BothKept<T>(p: T -> bool, s: seq<T>, f: seq<T>, g: seq<T>, yes: seq<nat>, no: seq<nat>) returns (to: seq<nat>)
    requires Kept(p, s, f, yes) && Kept(Not(p), s, g, no) && |f| + |g| == |s|
    ensures Regrouped(p, s, f + g, to)
  {
    to := seq(|s|, i requires 0 <= i < |s| => if p(s[i]) then yes[i] else no[i] + |f|);
  }

  /** The first entry that meets p comes first of all. */
  lemma {:induction false} FirstChosen<T>(p: T -> bool, s: seq<T>, i: nat)
    requires i < |s| && p(s[i]) && forall k :: 0 <= k < i ==> !p(s[k])
    ensures Filter(p, s) != [] && Partitioned(p, s)[0] == Filter(p, s)[0] == s[i]
  {
    if i > 0 {
      FirstChosen(p, s[1..], i - 1);
    }
  }

  ghost predicate Disjoint<T>(l: List<T>, k: List<T>)
    reads l, k
  {
    l != k && l.repr !! k.repr
  }

  /** reschedule_process: the entries of the chosen shell go to the front, in the order they had. */
  method Reschedule<T(==)>(p: T -> bool, l: List<T>)
    requires l.Valid()
    modifies l, l.repr
    ensures l.Valid() && l.Contents() == Partitioned(p, old(l.Contents())) && fresh(l.repr - old(l.repr))
    ensures exists to :: Regrouped(p, old(l.Contents()), l.Contents(), to)
  {
    hide Data, Filter, RemoveEach, List.Valid, Regrouped;
    ghost var s := l.Contents();
    var found := Collect(p, l);
    ghost var xs := found.Contents();
    TakeOut(l, found);
    RemoveFiltered(p, s);
    PutInFront(l, found);
    var _ := StablePartition(p, s);
  }

  /** The entries of the chosen shell, in a list of their own. */
  method Collect<T(==)>(p: T -> bool, l: List<T>) returns (found: List<T>)
    requires l.Valid()
    ensures fresh(found) && fresh(found.repr) && found.Valid() && found.Contents() == Filter(p, l.Contents())
    ensures found.nodes == [] ==> found.last == null
  {
    hide Filter;
    ghost var s := l.Contents();
    FilterNothing(p);
    found := new List();
    var curr := l.first;
    ghost var i := 0;
    while curr != null
      invariant i <= |l.nodes| && curr == At(l.nodes, i)
      invariant fresh(found) && fresh(found.repr) && found.Valid() && found.Contents() == Filter(p, s[..i])
      invariant found.nodes == [] ==> found.last == null
      decreases |l.nodes| - i
    {
      FilterUpTo(p, s, i);
      assert i + 1 < |l.nodes| ==> curr.next == l.nodes[i + 1];
      if p(curr.data) {
        found.AddLast(curr.data);
      }
      curr := curr.next;
      i := i + 1;
    }
    assert s[..i] == s;
  }

  /** What is in `found` is taken out of l, entry by entry. */
  method TakeOut<T(==)>(l: List<T>, found: List<T>)
    requires l.Valid() && found.Valid() && Disjoint(l, found)
    modifies l, l.repr
    ensures l.Valid() && l.Contents() == RemoveEach(old(l.Contents()), found.Contents()) && Disjoint(l, found)
    ensures l.repr == old(l.repr)
  {
    ghost var s, xs := l.Contents(), found.Contents();
    var curr := found.first;
    ghost var k := 0;
    while curr != null
      invariant l.Valid() && found.Valid() && Disjoint(l, found)
      invariant found.nodes == old(found.nodes) && found.repr == old(found.repr)
      invariant l.repr == old(l.repr)
      invariant k <= |found.nodes| && curr == At(found.nodes, k)
      invariant l.Contents() == RemoveEach(s, xs[..k])
      decreases |found.nodes| - k
    {
      assert xs[..k + 1] == xs[..k] + [xs[k]];
      RemoveEachSnoc(s, xs[..k], xs[k]);
      l.RemoveData(curr.data);
      assert k + 1 < |found.nodes| ==> curr.next == found.nodes[k + 1];
      curr := curr.next;
      k := k + 1;
    }
    assert xs[..k] == xs;
  }

  lemma InFront<T>(xs: seq<T>, k: nat, s: seq<T>)
    requires 0 < k <= |xs|
    ensures [xs[k - 1]] + (xs[k..] + s) == xs[k - 1..] + s
  {
  }

  /** The list `found` is walked backwards, and every entry put in front. */
  method PutInFront<T(==)>(l: List<T>, found: List<T>)
    requires l.Valid() && found.Valid() && Disjoint(l, found) && (found.nodes == [] ==> found.last == null)
    modifies l, l.repr
    ensures l.Valid() && l.Contents() == found.Contents() + old(l.Contents()) && fresh(l.repr - old(l.repr))
  {
    hide Data;
    ghost var s, xs := l.Contents(), found.Contents();
    var curr := found.last;
    ghost var k: nat := |found.nodes|;
    while curr != null
      invariant l.Valid() && found.Valid() && Disjoint(l, found)
      invariant found.nodes == old(found.nodes) && found.repr == old(found.repr)
      invariant fresh(l.repr - old(l.repr))
      invariant 0 <= k <= |found.nodes| && curr == At(found.nodes, k - 1)
      invariant l.Contents() == xs[k..] + s
      decreases k
    {
      assert k >= 2 ==> curr.prev == found.nodes[k - 2];
      InFront(xs, k, s);
      l.AddFirst(curr.data);
      curr := curr.prev;
      k := k - 1;
    }
  }
}
