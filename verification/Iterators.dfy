/** Cursors over the bottom level: what is left to visit from a node, and the memtable iterator. */
module Iterators {
  import opened Ordering
  import opened Towers
  import opened Chains
  import opened SkipList

  /** The nodes still to be visited from p on. */
  ghost function Rest<K(!new), V>(cmp: Compare<K>, nodes: seq<Node<K, V>>, p: Ptr): seq<int>
    requires TotalOrder(cmp) && Ordered(cmp, nodes) && (p == NULL || Linked(nodes, p, 0))
  {
    if p == NULL then [] else [p] + Chain(cmp, nodes, 0, p)
  }

  lemma RestStep<K(!new), V>(cmp: Compare<K>, nodes: seq<Node<K, V>>, p: Ptr)
    requires TotalOrder(cmp) && Ordered(cmp, nodes) && p != NULL && Linked(nodes, p, 0)
    ensures nodes[p].next[0] == NULL || (Linked(nodes, nodes[p].next[0], 0) && nodes[nodes[p].next[0]].Entry?)
    ensures Rest(cmp, nodes, p) == [p] + Rest(cmp, nodes, nodes[p].next[0])
  {
    if nodes[p].next[0] != NULL { NextShrinksAfter(cmp, nodes, 0, p); }
  }

  lemma RestSorted<K(!new), V>(cmp: Compare<K>, nodes: seq<Node<K, V>>, p: Ptr)
    requires TotalOrder(cmp) && Ordered(cmp, nodes) && (p == NULL || Linked(nodes, p, 0))
    ensures StrictlyIncreasing(cmp, nodes, Rest(cmp, nodes, p))
    ensures forall b :: b in Rest(cmp, nodes, p) <==> p != NULL && Linked(nodes, b, 0) && (b == p || Before(cmp, nodes, p, b))
  {
    if p != NULL {
      ChainIncreasing(cmp, nodes, 0, p);
      ChainMembers(cmp, nodes, 0, p);
    }
  }

  /** The nodes from the first one not below the key on are exactly the nodes not below the key. */
  lemma RestFromKey<K(!new), V>(cmp: Compare<K>, nodes: seq<Node<K, V>>, key: K, p: Ptr)
    requires TotalOrder(cmp) && Ordered(cmp, nodes) && FirstNotBelow(cmp, nodes, 0, key, p)
    ensures forall b :: b in Rest(cmp, nodes, p) <==> Linked(nodes, b, 0) && !Below(cmp, nodes, b, key)
  {
    RestSorted(cmp, nodes, p);
    if p != NULL {
      forall b | Linked(nodes, b, 0) && Before(cmp, nodes, p, b) ensures !Below(cmp, nodes, b, key) {
        BelowCases(cmp, nodes, p, b, key);
      }
    }
  }

  lemma RestFromFirst<K(!new), V>(cmp: Compare<K>, nodes: seq<Node<K, V>>)
    requires TotalOrder(cmp) && Ordered(cmp, nodes)
    ensures var p := nodes[SENTINEL].next[0];
            && (p == NULL || (Linked(nodes, p, 0) && nodes[p].Entry?))
            && Rest(cmp, nodes, p) == Chain(cmp, nodes, 0, SENTINEL)
            && (forall b :: b in Rest(cmp, nodes, p) <==> Linked(nodes, b, 0) && b != SENTINEL)
  {
    ChainMembers(cmp, nodes, 0, SENTINEL);
    RestStep(cmp, nodes, SENTINEL);
  }

  /** `MemtableIterator`. */
  class Cursor<K(==, !new), V> {
    const list: SkipList<K, V>
    var current: Ptr

    ghost predicate Valid()
      reads this, list
    {
      list.Valid() && (current == NULL || (Linked(list.nodes, current, 0) && list.nodes[current].Entry?))
    }

    /** The nodes the cursor has still to show, the current one first. */
    ghost function Remaining(): seq<int>
      reads this, list
      requires Valid()
    {
      Rest(list.cmp, list.nodes, current)
    }

    constructor (list: SkipList<K, V>)
      requires list.Valid()
      ensures Valid() && this.list == list && Remaining() == []
    {
      this.list := list;
      current := NULL;
    }

    method SeekToFirst()
      requires Valid()
      modifies this
      ensures Valid()
      ensures StrictlyIncreasing(list.cmp, list.nodes, Remaining())
      ensures forall b :: b in Remaining() <==> Linked(list.nodes, b, 0) && b != SENTINEL
    {
      RestFromFirst(list.cmp, list.nodes);
      current := list.nodes[SENTINEL].next[0];
      RestSorted(list.cmp, list.nodes, current);
    }

    method Seek(key: K)
      requires Valid()
      modifies this
      ensures Valid()
      ensures StrictlyIncreasing(list.cmp, list.nodes, Remaining())
      ensures forall b :: b in Remaining() <==> Linked(list.nodes, b, 0) && !Below(list.cmp, list.nodes, b, key)
    {
      var t := list.Search(key);
      current := t.succs[0];
      RestFromKey(list.cmp, list.nodes, key, current);
      RestSorted(list.cmp, list.nodes, current);
    }

    method Next()
      requires Valid()
      modifies this
      ensures Valid()
      ensures Remaining() == if old(Remaining()) == [] then [] else old(Remaining())[1..]
    {
      if current != NULL {
        RestStep(list.cmp, list.nodes, current);
        current := list.nodes[current].next[0];
      }
    }

    /** Next until the cursor is invalid. */
    method Drain() returns (out: seq<int>)
      requires Valid()
      modifies this
      ensures Valid() && out == old(Remaining())
    {
      out := [];
      ghost var all := Remaining();
      while current != NULL
        invariant Valid() && all == out + Remaining()
        decreases |Remaining()|
      {
        NextInRest();
        ghost var rest := Remaining();
        assert out + rest == (out + [current]) + rest[1..];
        out := out + [current];
        Next();
      }
      assert out == all;
    }

    /** Seek and then next until the cursor is invalid. */
    method CollectFrom(key: K) returns (out: seq<int>)
      requires Valid()
      modifies this
      ensures Valid()
      ensures StrictlyIncreasing(list.cmp, list.nodes, out)
      ensures forall b :: b in out <==> Linked(list.nodes, b, 0) && !Below(list.cmp, list.nodes, b, key)
    {
      Seek(key);
      out := Drain();
    }

    lemma NextInRest()
      requires Valid() && current != NULL
      ensures Remaining() == [current] + Remaining()[1..]
    {
    }
  }
}
