/**
 The intrusive doubly linked list of `src/common/dlist.h`, on heap nodes.

 Every list macro is a method on mutable nodes.  `nodes` is the abstract sequence a list
 stands for; `Valid` ties the four kinds of pointer (`first`, `last`, `next`, `prev`) to it.
 Each method is specified by the sequence operation it refines.
 */
module DList {

  class Node<T> {
    var next: Node?<T>
    var prev: Node?<T>
    const value: T

    constructor (value: T)
      ensures this.value == value
      ensures Unlinked()
    {
      this.value := value;
      next, prev := null, null;
    }

    ghost predicate Unlinked()
      reads this
    {
      next == null && prev == null
    }
  }

  /** The payloads of a sequence of nodes, in order. */
  ghost function Payloads<T>(nodes: seq<Node<T>>): (r: seq<T>)
    ensures |r| == |nodes|
    ensures forall i :: 0 <= i < |nodes| ==> r[i] == nodes[i].value
  {
    seq(|nodes|, i requires 0 <= i < |nodes| => nodes[i].value)
  }

  lemma PayloadsAppend<T>(a: seq<Node<T>>, b: seq<Node<T>>)
    ensures Payloads(a + b) == Payloads(a) + Payloads(b)
  {
  }

  lemma PayloadsTake<T>(a: seq<Node<T>>, k: nat)
    requires k <= |a|
    ensures Payloads(a[..k]) == Payloads(a)[..k]
  {
  }

  class List<T> {
    var first: Node?<T>
    var last: Node?<T>
    ghost var nodes: seq<Node<T>>

    /** The pointers spell out `nodes`, forwards and backwards, and no node occurs twice. */
    ghost predicate Valid()
      reads this, nodes
    {
      && (forall i, j :: 0 <= i < j < |nodes| ==> nodes[i] != nodes[j])
      && (first == if nodes == [] then null else nodes[0])
      && (last == if nodes == [] then null else nodes[|nodes| - 1])
      && (forall i {:trigger nodes[i].next} :: 0 <= i < |nodes| ==>
            nodes[i].next == if i + 1 < |nodes| then nodes[i + 1] else null)
      && (forall i {:trigger nodes[i].prev} :: 0 <= i < |nodes| ==>
            nodes[i].prev == if i > 0 then nodes[i - 1] else null)
    }

    ghost function Contents(): (r: seq<T>)
      reads this
    {
      Payloads(nodes)
    }

    constructor ()
      ensures Valid() && nodes == []
    {
      first, last := null, null;
      nodes := [];
    }

    method InsertHead(n: Node<T>)
      requires Valid() && n !in nodes
      modifies this, nodes, n
      ensures Valid() && nodes == [n] + old(nodes)
    {
      n.prev := null;
      n.next := first;
      if first != null { first.prev := n; }
      first := n;
      if last == null { last := n; }
      nodes := [n] + nodes;
    }

    method InsertTail(n: Node<T>)
      requires Valid() && n !in nodes
      modifies this, nodes, n
      ensures Valid() && nodes == old(nodes) + [n]
    {
      n.next := null;
      n.prev := last;
      if last != null { last.next := n; }
      last := n;
      if first == null { first := n; }
      nodes := nodes + [n];
    }

    method InsertBefore(at: Node<T>, n: Node<T>, ghost k: nat)
      requires Valid() && n !in nodes
      requires k < |nodes| && nodes[k] == at
      modifies this, nodes, n
      ensures Valid() && nodes == old(nodes)[..k] + [n] + old(nodes)[k..]
    {
      ghost var before := nodes;
      n.next := at;
      if at.prev == null { first := n; } else { at.prev.next := n; }
      n.prev := at.prev;
      at.prev := n;
      nodes := before[..k] + [n] + before[k..];
      forall i | 0 <= i < |nodes|
        ensures nodes[i].next == if i + 1 < |nodes| then nodes[i + 1] else null
        ensures nodes[i].prev == if i > 0 then nodes[i - 1] else null
      {
        assert nodes[i] == if i < k then before[i] else if i == k then n else before[i - 1];
      }
    }

    /** Refines deletion of element `k`; the removed node keeps no link into the list. */
    method Remove(n: Node<T>, ghost k: nat)
      requires Valid()
      requires k < |nodes| && nodes[k] == n
      modifies this, nodes
      ensures Valid() && nodes == old(nodes)[..k] + old(nodes)[k + 1..]
      ensures n.Unlinked() && n !in nodes
    {
      ghost var before := nodes;
      if first == n { first := first.next; } else { n.prev.next := n.next; }
      if last == n { last := last.prev; } else { n.next.prev := n.prev; }
      n.prev := null;
      n.next := null;
      nodes := before[..k] + before[k + 1..];
      forall i | 0 <= i < |nodes|
        ensures nodes[i].next == if i + 1 < |nodes| then nodes[i + 1] else null
        ensures nodes[i].prev == if i > 0 then nodes[i - 1] else null
      {
        assert nodes[i] == if i < k then before[i] else before[i + 1];
      }
    }

    /** The macro leaves the old successor's `prev` on `at`: the list stays well linked
        exactly when there is no successor. */
    method InsertAfter(at: Node<T>, n: Node<T>, ghost k: nat)
      requires Valid() && n !in nodes
      requires k < |nodes| && nodes[k] == at
      modifies this, nodes, n
      ensures nodes == old(nodes)[..k + 1] + [n] + old(nodes)[k + 1..]
      ensures Valid() <==> k + 1 == |old(nodes)|
    {
      n.prev := at;
      if at.next == null { last := n; }
      n.next := at.next;
      at.next := n;
      nodes := nodes[..k + 1] + [n] + nodes[k + 1..];
      if k + 1 < |old(nodes)| {
        assert nodes[k + 2] == old(nodes)[k + 1];
        assert nodes[k + 2].prev == at != nodes[k + 1];
      }
    }
  }
}
