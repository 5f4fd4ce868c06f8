/** The circular doubly linked lists that the cache keeps its handles in, link by link. */
module HandleList {
  import opened LruCache

  /** The links of a handle or of a list's dummy head. */
  class Node {
    const id: nat
    var next: Node
    var prev: Node

    /** A list's head starts out as a circle of its own. */
    constructor (id: nat)
      ensures this.id == id && Ring(this, [])
    {
      this.id := id;
      next, prev := this, this;
    }
  }

  function Circle(head: Node, items: seq<Node>): seq<Node> { [head] + items + [head] }

  /** Around the circle from the head: forwards oldest first, and the same way back. */
  ghost predicate Ring(head: Node, items: seq<Node>)
    reads head, items
  {
    var all := Circle(head, items);
    && head !in items && (forall i, j :: 0 <= i < j < |items| ==> items[i] != items[j])
    && forall i :: 0 <= i < |items| + 1 ==> all[i].next == all[i + 1] && all[i + 1].prev == all[i]
  }

  function Numbers(items: seq<Node>): seq<nat> { seq(|items|, i requires 0 <= i < |items| => items[i].id) }

  lemma LastLinked(head: Node, items: seq<Node>)
    requires Ring(head, items)
    ensures head.prev == if items == [] then head else items[|items| - 1]
  {
    var all := Circle(head, items);
    assert all[|items| + 1].prev == all[|items|];
  }

  /** LRU_Append: just before the head, as the newest. */
  method Append(list: Node, e: Node, ghost items: seq<Node>)
    requires Ring(list, items) && e != list && e !in items
    modifies e, list, list.prev
    ensures Ring(list, items + [e])
  {
    LastLinked(list, items);
    ghost var was := Circle(list, items);
    ghost var all := Circle(list, items + [e]);
    assert forall i :: 0 <= i < |items| + 1 ==> was[i].next == was[i + 1] && was[i + 1].prev == was[i];
    e.next := list;
    e.prev := list.prev;
    e.prev.next := e;
    e.next.prev := e;
    forall i | 0 <= i < |items| + 2 ensures all[i].next == all[i + 1] && all[i + 1].prev == all[i] {
      if i < |items| {
        assert was[i] == all[i] && was[i + 1] == all[i + 1];
        assert all[i] != was[|items|] && all[i + 1] != list;
      }
    }
  }

  lemma Neighbours(head: Node, items: seq<Node>, k: nat)
    requires Ring(head, items) && k < |items|
    ensures items[k].prev == if k == 0 then head else items[k - 1]
    ensures items[k].next == if k + 1 == |items| then head else items[k + 1]
  {
    var all := Circle(head, items);
    assert all[k].next == all[k + 1] && all[k + 1].prev == all[k];
    assert all[k + 1].next == all[k + 2] && all[k + 2].prev == all[k + 1];
  }

  /** Nothing else on the circle is the node before the k-th item, or the node after it. */
  lemma Around(head: Node, items: seq<Node>, k: nat)
    requires head !in items && k < |items| && forall i, j :: 0 <= i < j < |items| ==> items[i] != items[j]
    ensures var all := Circle(head, items);
            && (forall i :: 0 <= i < |items| + 1 && i != k ==> all[i] != all[k])
            && (forall i :: 1 <= i < |items| + 2 && i != k + 2 ==> all[i] != all[k + 2])
  {
  }

  lemma CircleWithout(head: Node, items: seq<Node>, k: nat)
    requires k < |items|
    ensures var left := items[..k] + items[k + 1..];
            forall i :: 0 <= i < |left| + 2 ==>
              Circle(head, left)[i] == if i <= k then Circle(head, items)[i] else Circle(head, items)[i + 1]
  {
  }

  /** LRU_Remove: the neighbours are linked to each other, whichever list the handle is in. */
  method Remove(e: Node, ghost head: Node, ghost items: seq<Node>, ghost k: nat)
    requires Ring(head, items) && k < |items| && items[k] == e
    modifies e.next, e.prev
    ensures Ring(head, items[..k] + items[k + 1..]) && e != head && e !in items[..k] + items[k + 1..]
  {
    Neighbours(head, items, k);
    Around(head, items, k);
    CircleWithout(head, items, k);
    ghost var was := Circle(head, items);
    ghost var left := items[..k] + items[k + 1..];
    ghost var all := Circle(head, left);
    assert forall i :: 0 <= i < |items| + 1 ==> was[i].next == was[i + 1] && was[i + 1].prev == was[i];
    assert was[k] == e.prev && was[k + 2] == e.next;
    hide Circle;
    e.next.prev := e.prev;
    e.prev.next := e.next;
    forall i | 0 <= i < |left| + 1 ensures all[i].next == all[i + 1] && all[i + 1].prev == all[i] {
      var j := if i < k then i else i + 1;
      if i != k {
        assert all[i] == was[j] && all[i + 1] == was[j + 1];
      }
    }
  }

  // ----- what the cache does to its lists

  lemma {:induction false} WithoutAt(s: seq<nat>, k: nat)
    requires k < |s| && NoDup(s)
    ensures Without(s, s[k]) == s[..k] + s[k + 1..]
  {
    if k > 0 {
      assert s[0] != s[k];
      WithoutAt(s[1..], k - 1);
      assert s[..k] == [s[0]] + s[1..][..k - 1] && s[k + 1..] == s[1..][k..];
    }
  }

  /** Ref and Unref move a handle from one list to the end of the other; the numbers listed change as in the two
    sequences of the shard. */
  method Move(e: Node, from: Node, to: Node, ghost items: seq<Node>, ghost others: seq<Node>, ghost k: nat)
    requires Ring(from, items) && Ring(to, others) && NoDup(Numbers(items)) && k < |items| && items[k] == e
    requires from != to && from !in others && to !in items && forall n :: n in items ==> n !in others
    modifies e, e.next, e.prev, to, to.prev
    ensures Ring(from, items[..k] + items[k + 1..]) && Numbers(items[..k] + items[k + 1..]) ==
        Without(Numbers(items), e.id)
    ensures Ring(to, others + [e]) && Numbers(others + [e]) == Numbers(others) + [e.id]
  {
    ghost var left := items[..k] + items[k + 1..];
    WithoutAt(Numbers(items), k);
    assert Numbers(left) == Numbers(items)[..k] + Numbers(items)[k + 1..];
    NeighboursIn(from, items, k);
    LastIn(to, others);
    Remove(e, from, items, k);
    assert Ring(to, others);
    LastIn(to, others);
    Append(to, e, others);
  }

  /** Unref, where the last client gives back a cached handle: from the list of handles in use to the newest end of the
    list of idle ones. */
  method UnrefLinks(ghost a: Shard, e: Node, inUse: Node, lru: Node, ghost items: seq<Node>, ghost others: seq<Node>,
      ghost k: nat)
    requires ShardInv(a) && e.id in a.handles && a.handles[e.id].inCache && a.handles[e.id].refs == 2
    requires Ring(inUse, items) && Numbers(items) == a.inUse && Ring(lru, others) && Numbers(others) == a.lru
    requires inUse != lru && inUse !in others && lru !in items && (forall n :: n in items ==> n !in others)
    requires k < |items| && items[k] == e
    modifies e, e.next, e.prev, lru, lru.prev
    ensures Ring(inUse, items[..k] + items[k + 1..]) && Numbers(items[..k] + items[k + 1..]) == Unref(a, e.id).inUse
    ensures Ring(lru, others + [e]) && Numbers(others + [e]) == Unref(a, e.id).lru == a.lru + [e.id]
  {
    WithoutIs(a.lru, e.id);
    Move(e, inUse, lru, items, others, k);
  }

  /** Ref, where a client takes a handle that nobody held: the other way. */
  method RefLinks(ghost a: Shard, e: Node, lru: Node, inUse: Node, ghost items: seq<Node>, ghost others: seq<Node>,
      ghost k: nat)
    requires ShardInv(a) && e.id in a.handles && a.handles[e.id].inCache && a.handles[e.id].refs == 1
    requires Ring(lru, items) && Numbers(items) == a.lru && Ring(inUse, others) && Numbers(others) == a.inUse
    requires lru != inUse && lru !in others && inUse !in items && (forall n :: n in items ==> n !in others)
    requires k < |items| && items[k] == e
    modifies e, e.next, e.prev, inUse, inUse.prev
    ensures Ring(lru, items[..k] + items[k + 1..]) && Numbers(items[..k] + items[k + 1..]) == Ref(a, e.id).lru
    ensures Ring(inUse, others + [e]) && Numbers(others + [e]) == Ref(a, e.id).inUse
  {
    WithoutIs(a.inUse, e.id);
    Move(e, lru, inUse, items, others, k);
  }

  lemma NeighboursIn(head: Node, items: seq<Node>, k: nat)
    requires Ring(head, items) && k < |items|
    ensures (items[k].prev == head || items[k].prev in items) && (items[k].next == head || items[k].next in items)
  {
    Neighbours(head, items, k);
  }

  lemma LastIn(head: Node, items: seq<Node>)
    requires Ring(head, items)
    ensures head.prev == head || head.prev in items
  {
    LastLinked(head, items);
  }
}
