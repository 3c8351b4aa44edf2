/**
 The intrusive doubly linked ring of ln_list.h. A list is its head node; the abstract value of
 a ring is the sequence of its nodes, the head first.
 */
module RingList {
  class Node {
    var next: Node
    var prev: Node

    /** A node that is in no list is a ring of its own. */
    constructor ()
      ensures IsRing([this])
    {
      next, prev := this, this;
    }
  }

  function Succ(i: nat, n: nat): nat
    requires i < n
  {
    if i + 1 == n then 0 else i + 1
  }

  function Pred(i: nat, n: nat): nat
    requires i < n
  {
    if i == 0 then n - 1 else i - 1
  }

  ghost predicate Distinct(ring: seq<Node>) {
    forall i, j :: 0 <= i < j < |ring| ==> ring[i] != ring[j]
  }

  /** Node `i` points to its neighbours. */
  ghost predicate Linked(ring: seq<Node>, i: nat)
    requires i < |ring|
    reads ring
  {
    ring[i].next == ring[Succ(i, |ring|)] && ring[i].prev == ring[Pred(i, |ring|)]
  }

  ghost predicate IsRing(ring: seq<Node>)
    reads ring
  {
    && ring != [] && Distinct(ring)
    && (forall i :: 0 <= i < |ring| ==> Linked(ring, i))
  }

  /** `next` and `prev` are inverse to each other on a ring. */
  lemma Inverse(ring: seq<Node>, i: nat)
    requires IsRing(ring) && i < |ring|
    ensures ring[i].next.prev == ring[i] && ring[i].prev.next == ring[i]
  {
    assert Linked(ring, i);
    assert Linked(ring, Succ(i, |ring|));
    assert Linked(ring, Pred(i, |ring|));
  }

  /** Every node points forward to the next one of the sequence and back to the one before; the ends meet. */
  lemma Neighbours(ring: seq<Node>, i: nat)
    requires IsRing(ring) && i + 1 < |ring|
    ensures ring[i].next == ring[i + 1] && ring[i + 1].prev == ring[i]
    ensures ring[|ring| - 1].next == ring[0] && ring[0].prev == ring[|ring| - 1]
  {
    assert Linked(ring, i);
    assert Linked(ring, i + 1);
    assert Linked(ring, 0);
    assert Linked(ring, |ring| - 1);
  }

  /** `ln_is_list_empty`. */
  method IsEmpty(head: Node, ghost ring: seq<Node>) returns (empty: bool)
    requires IsRing(ring) && head == ring[0]
    ensures empty <==> ring == [head]
  {
    assert Linked(ring, 0);
    empty := head.next == head;
  }

  /** `ln_list_init`. */
  method Init(head: Node)
    modifies head
    ensures IsRing([head])
  {
    head.next := head;
    head.prev := head;
  }

  /** `ln_list_insert`: the element becomes the last one. */
  method Insert(head: Node, element: Node, ghost ring: seq<Node>)
    requires IsRing(ring) && head == ring[0] && element !in ring
    modifies element, head, head.prev
    ensures IsRing(ring + [element])
  {
    ghost var n := |ring|;
    assert Linked(ring, 0);
    element.prev := head.prev;
    element.next := head;

    head.prev.next := element;
    head.prev := element;

    ghost var all := ring + [element];
    forall i | 0 <= i < n + 1
      ensures Linked(all, i)
    {
      if i < n {
        assert old(Linked(ring, i));
      }
    }
  }

  /** `ln_list_add`: the element becomes the first one. */
  method Add(head: Node, element: Node, ghost ring: seq<Node>)
    requires IsRing(ring) && head == ring[0] && element !in ring
    modifies element, head, head.next
    ensures IsRing([head, element] + ring[1..])
  {
    ghost var n := |ring|;
    assert Linked(ring, 0);
    element.prev := head;
    element.next := head.next;

    head.next.prev := element;
    head.next := element;

    ghost var all := [head, element] + ring[1..];
    forall i | 0 <= i < n + 1
      ensures Linked(all, i)
    {
      if i != 1 {
        assert old(Linked(ring, if i == 0 then 0 else i - 1));
      }
    }
  }

  /** A ring without its node `i`. */
  function Without(ring: seq<Node>, i: nat): seq<Node>
    requires i < |ring|
  {
    ring[..i] + ring[i + 1..]
  }

  /** The index in a ring of element `i` of the ring without `at`. */
  function Skip(i: nat, at: nat): nat { if i < at then i else i + 1 }

  lemma WithoutAt(ring: seq<Node>, at: nat, i: nat)
    requires at < |ring| && i < |ring| - 1
    ensures |Without(ring, at)| == |ring| - 1
    ensures Without(ring, at)[i] == ring[Skip(i, at)]
  {}

  lemma WithoutDistinct(ring: seq<Node>, at: nat)
    requires at < |ring| && 1 < |ring| && Distinct(ring)
    ensures Distinct(Without(ring, at)) && |Without(ring, at)| == |ring| - 1
  {}

  /** `ln_list_rm`: exactly one element leaves the ring; its own pointers stay. A node alone stays alone. */
  method Remove(element: Node, ghost ring: seq<Node>, ghost at: nat)
    requires IsRing(ring) && at < |ring| && element == ring[at]
    modifies element.prev, element.next
    ensures IsRing(if |ring| == 1 then ring else Without(ring, at))
    ensures element.next == old(element.next) && element.prev == old(element.prev)
  {
    hide Without;
    ghost var n := |ring|;
    assert Linked(ring, at);
    element.prev.next := element.next;
    element.next.prev := element.prev;

    if n > 1 {
      ghost var rest := Without(ring, at);
      WithoutDistinct(ring, at);
      forall i | 0 <= i < n - 1
        ensures Linked(rest, i)
      {
        WithoutAt(ring, at, i);
        WithoutAt(ring, at, Succ(i, n - 1));
        WithoutAt(ring, at, Pred(i, n - 1));
        assert old(Linked(ring, Skip(i, at)));
      }
    }
  }

  /** `ln_list_rm_init`: the element becomes a ring of its own, if it is not one already. */
  method RemoveInit(element: Node, ghost ring: seq<Node>, ghost at: nat)
    requires IsRing(ring) && at < |ring| && element == ring[at]
    modifies element, element.prev, element.next
    ensures |ring| > 1 ==> IsRing(Without(ring, at))
    ensures IsRing([element])
  {
    Remove(element, ring, at);
    assert |ring| > 1 ==> element !in Without(ring, at);
    element.next := element;
    element.prev := element;
  }

  // ---------- traversals ----------

  function Reversed(s: seq<Node>): (r: seq<Node>)
    ensures |r| == |s|
    ensures forall i :: 0 <= i < |s| ==> r[i] == s[|s| - 1 - i]
  {
    if s == [] then [] else Reversed(s[1..]) + [s[0]]
  }

  /** `LN_LIST_FOR_EACH_ENTRY`: the elements in order, without the head. */
  method ForEach(head: Node, ghost ring: seq<Node>) returns (visited: seq<Node>)
    requires IsRing(ring) && head == ring[0]
    ensures visited == ring[1..]
  {
    visited := [];
    assert Linked(ring, 0);
    var entry := head.next;
    while entry != head
      invariant |visited| < |ring| && visited == ring[1..|visited| + 1]
      invariant entry == ring[Succ(|visited|, |ring|)]
      decreases |ring| - |visited|
    {
      visited := visited + [entry];
      assert Linked(ring, |visited|);
      entry := entry.next;
    }
  }

  /** `LN_LIST_FOR_EACH_ENTRY_REVERSE`: the mirror image. */
  method ForEachReverse(head: Node, ghost ring: seq<Node>) returns (visited: seq<Node>)
    requires IsRing(ring) && head == ring[0]
    ensures visited == Reversed(ring[1..])
  {
    visited := [];
    assert Linked(ring, 0);
    var entry := head.prev;
    ghost var n := |ring|;
    while entry != head
      invariant |visited| < n && forall k :: 0 <= k < |visited| ==> visited[k] == ring[n - 1 - k]
      invariant entry == ring[Pred(if visited == [] then 0 else n - |visited|, n)]
      decreases n - |visited|
    {
      visited := visited + [entry];
      assert Linked(ring, n - |visited|);
      entry := entry.prev;
    }
    assert |visited| == n - 1;
  }

  /** The elements whose position is to be kept. */
  function Kept(s: seq<Node>, keep: seq<bool>): seq<Node>
    requires |s| == |keep|
  {
    if s == [] then []
    else Kept(s[..|s| - 1], keep[..|s| - 1]) + if keep[|s| - 1] then [s[|s| - 1]] else []
  }

  /** The positions before `n` that are kept. */
  ghost function Chosen(keep: seq<bool>, n: nat): set<nat>
    requires n <= |keep|
  {
    set i: nat | i < n && keep[i]
  }

  lemma ChosenPrefix(keep: seq<bool>, n: nat, i: nat)
    requires i <= n <= |keep|
    ensures Chosen(keep[..n], i) == Chosen(keep, i)
  {}

  lemma {:induction false} KeptSize(s: seq<Node>, keep: seq<bool>)
    requires |s| == |keep|
    ensures |Kept(s, keep)| == |Chosen(keep, |keep|)|
    decreases |s|
  {
    if s == [] {
      assert Chosen(keep, 0) == {};
    } else {
      var n := |s| - 1;
      KeptSize(s[..n], keep[..n]);
      ChosenPrefix(keep, n, n);
      assert Chosen(keep, |keep|) == Chosen(keep, n) + if keep[n] then {n} else {};
    }
  }

  /** What is kept is exactly the chosen elements, each behind those chosen before it. */
  lemma {:induction false} KeptExactly(s: seq<Node>, keep: seq<bool>, i: nat)
    requires i < |s| == |keep|
    ensures |Kept(s, keep)| == |Chosen(keep, |keep|)|
    ensures keep[i] ==> |Chosen(keep, i)| < |Kept(s, keep)| && Kept(s, keep)[|Chosen(keep, i)|] == s[i]
    decreases |s|
  {
    hide Chosen;
    var n := |s| - 1;
    KeptSize(s, keep);
    KeptSize(s[..n], keep[..n]);
    ChosenPrefix(keep, n, i);
    if i < n {
      KeptExactly(s[..n], keep[..n], i);
    }
  }

  /** The ring after the first `v` elements have been visited. */
  function After(ring: seq<Node>, keep: seq<bool>, v: nat): seq<Node>
    requires v + 1 <= |ring| == |keep| + 1
  {
    [ring[0]] + Kept(ring[1..v + 1], keep[..v]) + ring[v + 1..]
  }

  /** Where the next element to visit is by then. */
  function Place(ring: seq<Node>, keep: seq<bool>, v: nat): nat
    requires v + 1 <= |ring| == |keep| + 1
  {
    1 + |Kept(ring[1..v + 1], keep[..v])|
  }

  /** The element to visit after `v` others, or the head at the end. */
  function Entry(ring: seq<Node>, v: nat): Node
    requires v < |ring|
  {
    if v + 1 < |ring| then ring[v + 1] else ring[0]
  }

  lemma {:induction false} KeptAmong(s: seq<Node>, keep: seq<bool>)
    requires |s| == |keep|
    ensures forall x :: x in Kept(s, keep) ==> x in s
  {
    if s != [] {
      KeptAmong(s[..|s| - 1], keep[..|s| - 1]);
    }
  }

  lemma AfterAmong(ring: seq<Node>, keep: seq<bool>, v: nat)
    requires v + 1 <= |ring| == |keep| + 1
    ensures forall x :: x in After(ring, keep, v) ==> x in ring
    ensures |After(ring, keep, v)| > 0 && After(ring, keep, v)[0] == ring[0]
  {
    KeptAmong(ring[1..v + 1], keep[..v]);
  }

  /** The place of the next element, its successor, and the effect of keeping or removing it. */
  lemma AfterStep(ring: seq<Node>, keep: seq<bool>, v: nat)
    requires v + 1 < |ring| == |keep| + 1
    ensures var now, at := After(ring, keep, v), Place(ring, keep, v);
            && 1 <= at < |now| && now[at] == Entry(ring, v) && now[Succ(at, |now|)] == Entry(ring, v + 1)
            && After(ring, keep, v + 1) == if keep[v] then now else Without(now, at)
  {
    var s, k := ring[1..v + 2], keep[..v + 1];
    assert s[..|s| - 1] == ring[1..v + 1] && k[..|s| - 1] == keep[..v];
    var x, rest := ring[v + 1], ring[v + 2..];
    assert ring[v + 1..] == [x] + rest;
    var kept := Kept(ring[1..v + 1], keep[..v]);
    assert Kept(s, k) == kept + if keep[v] then [x] else [];
    hide Kept, Without;
    MiddleStep(ring[0], kept, x, rest);
    assert kept + [] == kept;
  }

  lemma MiddleStep(head: Node, kept: seq<Node>, x: Node, rest: seq<Node>)
    ensures var now, at := [head] + kept + ([x] + rest), 1 + |kept|;
            && at < |now| && now[at] == x && now[Succ(at, |now|)] == (if rest == [] then head else rest[0])
            && Without(now, at) == [head] + kept + rest && now == [head] + (kept + [x]) + rest
  {}

  lemma AfterAll(ring: seq<Node>, keep: seq<bool>)
    requires |ring| == |keep| + 1
    ensures After(ring, keep, 0) == ring
    ensures After(ring, keep, |keep|) == [ring[0]] + Kept(ring[1..], keep)
  {
    assert keep[..|keep|] == keep && ring[1..|keep| + 1] == ring[1..] && ring[|keep| + 1..] == [];
  }

  /** The next pointer of the element that is visited next leads to the one after it. */
  lemma NextEntry(ring: seq<Node>, keep: seq<bool>, v: nat)
    requires v + 1 < |ring| == |keep| + 1 && IsRing(After(ring, keep, v))
    ensures Entry(ring, v).next == Entry(ring, v + 1)
  {
    hide After, Place, Kept, Without;
    AfterStep(ring, keep, v);
    assert Linked(After(ring, keep, v), Place(ring, keep, v));
  }

  /** The body of the loop: it removes the entry or keeps it. */
  method Visit(entry: Node, keepIt: bool, ghost ring: seq<Node>, ghost keep: seq<bool>, ghost v: nat)
    requires v + 1 < |ring| == |keep| + 1 && IsRing(After(ring, keep, v))
    requires entry == Entry(ring, v) && keepIt == keep[v]
    modifies ring
    ensures IsRing(After(ring, keep, v + 1))
  {
    hide After, Place, Kept, Without;
    ghost var now, at := After(ring, keep, v), Place(ring, keep, v);
    AfterAmong(ring, keep, v);
    AfterStep(ring, keep, v);
    if !keepIt {
      assert Linked(now, at);
      assert entry.prev in now && entry.next in now;
      Remove(entry, now, at);
    }
  }

  /**
   `LN_LIST_FOR_EACH_ENTRY_SAFE` with a body that removes any of the entries it visits: every
   element is visited, once and in order, and the ring is left with those that were kept.
   */
  method ForEachSafe(head: Node, keep: seq<bool>, ghost ring: seq<Node>) returns (visited: seq<Node>)
    requires IsRing(ring) && head == ring[0] && |keep| == |ring| - 1
    modifies ring
    ensures visited == ring[1..]
    ensures IsRing([head] + Kept(ring[1..], keep))
  {
    hide After, Kept;
    AfterAll(ring, keep);
    visited := [];
    assert Linked(ring, 0);
    var entry := head.next;
    assert Linked(ring, Succ(0, |ring|));
    var tmp := entry.next;
    if |keep| > 0 {
      HeadApart(ring);
    }
    while entry != head
      invariant |visited| <= |keep| && visited == ring[1..|visited| + 1]
      invariant IsRing(After(ring, keep, |visited|))
      invariant entry == Entry(ring, |visited|)
      invariant |visited| < |keep| ==> tmp == Entry(ring, |visited| + 1)
      decreases |keep| - |visited|
    {
      ghost var v := |visited|;
      Visit(entry, keep[|visited|], ring, keep, v);
      visited := visited + [entry];
      entry := tmp;
      if v + 1 < |keep| {
        NextEntry(ring, keep, v + 1);
      }
      tmp := entry.next;
    }
    hide IsRing, Linked;
    HeadOnlyAtEnd(ring, |visited|);
  }

  lemma HeadApart(ring: seq<Node>)
    requires Distinct(ring) && |ring| > 1
    ensures ring[1] != ring[0]
  {}

  lemma HeadOnlyAtEnd(ring: seq<Node>, v: nat)
    requires Distinct(ring) && v < |ring| && Entry(ring, v) == ring[0]
    ensures v + 1 == |ring|
  {}
}
