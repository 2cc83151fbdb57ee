/** The skip list as its one-thread code: search and the two inserts, over arena nodes that are updated in
    place. Without interference every compare-and-swap succeeds. */
module SkipList {
  import opened Ordering
  import opened Towers
  import opened Chains
  import opened ConcurrentSkipList
  import opened SkipListRuns

  /** What `search` must deliver: at every level the last node below the key and the first not below it, and
      the node holding the key exactly when there is one. */
  ghost predicate SearchResult<K, V>(cmp: Compare<K>, nodes: seq<Node<K, V>>, key: K, t: Context)
    requires KeysUnique(nodes)
  {
    && |t.preds| == |t.succs| == MAX_HEIGHT
    && (forall l: nat :: l < MAX_HEIGHT ==>
          LastBelow(cmp, nodes, l, key, t.preds[l]) && FirstNotBelow(cmp, nodes, l, key, t.succs[l]))
    && (t.found != NULL <==> key in Contents(nodes))
    && (t.found != NULL ==> Linked(nodes, t.found, 0) && nodes[t.found].Entry? && nodes[t.found].key == key)
  }

  lemma EmptyLevel<K(!new), V>(cmp: Compare<K>, nodes: seq<Node<K, V>>, l: nat, key: K)
    requires TotalOrder(cmp) && Ordered(cmp, nodes) && l < MAX_HEIGHT
    requires nodes[SENTINEL].next[l] == NULL
    ensures LastBelow(cmp, nodes, l, key, SENTINEL) && FirstNotBelow(cmp, nodes, l, key, NULL)
  {
    Neighbours(cmp, nodes, l, key, SENTINEL);
  }

  lemma LevelsAboveMaxEmpty<K(!new), V>(cmp: Compare<K>, nodes: seq<Node<K, V>>, maxLevel: nat)
    requires Ordered(cmp, nodes) && HeightsWithin(nodes, maxLevel)
    ensures forall m :: maxLevel <= m < MAX_HEIGHT ==> nodes[SENTINEL].next[m] == NULL
  {
    forall m | maxLevel <= m < MAX_HEIGHT ensures nodes[SENTINEL].next[m] == NULL {
      assert LevelOrdered(cmp, nodes, m);
      assert Linked(nodes, SENTINEL, m);
    }
  }

  /** The two neighbours of a key are adjacent. */
  lemma NeighboursAdjacent<K(!new), V>(cmp: Compare<K>, nodes: seq<Node<K, V>>, l: nat, key: K, p: int, s: int)
    requires TotalOrder(cmp) && Ordered(cmp, nodes) && l < MAX_HEIGHT
    requires LastBelow(cmp, nodes, l, key, p) && FirstNotBelow(cmp, nodes, l, key, s)
    ensures nodes[p].next[l] == s
  {
    assert LevelOrdered(cmp, nodes, l);
    var n := nodes[p].next[l];
    if n != NULL {
      assert Before(cmp, nodes, p, n);
      assert n != p && !Before(cmp, nodes, n, p);
    }
    if s != NULL { BelowCases(cmp, nodes, p, s, key); }
  }

  /** Nodes with the same entries on level l have the same neighbours of a key there. */
  lemma NeighboursKept<K(!new), V>(cmp: Compare<K>, nodes: seq<Node<K, V>>, nodes': seq<Node<K, V>>, l: nat, key: K, p: int, s: int)
    requires Grows(nodes, nodes') && (forall a :: Linked(nodes', a, l) ==> Linked(nodes, a, l))
    requires LastBelow(cmp, nodes, l, key, p) && FirstNotBelow(cmp, nodes, l, key, s)
    ensures LastBelow(cmp, nodes', l, key, p) && FirstNotBelow(cmp, nodes', l, key, s)
  {
    assert forall a :: 0 <= a < |nodes| ==> Below(cmp, nodes', a, key) == Below(cmp, nodes, a, key);
    assert forall a, b :: 0 <= a < |nodes| && 0 <= b < |nodes| ==> Before(cmp, nodes', a, b) == Before(cmp, nodes, a, b);
  }

  lemma SearchResultKept<K(!new), V>(cmp: Compare<K>, nodes: seq<Node<K, V>>, nodes': seq<Node<K, V>>, key: K, t: Context)
    requires KeysUnique(nodes) && KeysUnique(nodes') && SearchResult(cmp, nodes, key, t)
    requires Grows(nodes, nodes') && (forall a, l: nat :: Linked(nodes', a, l) ==> Linked(nodes, a, l))
    requires Contents(nodes') == Contents(nodes)
    ensures SearchResult(cmp, nodes', key, t)
  {
    forall l: nat | l < MAX_HEIGHT
      ensures LastBelow(cmp, nodes', l, key, t.preds[l]) && FirstNotBelow(cmp, nodes', l, key, t.succs[l])
    {
      NeighboursKept(cmp, nodes, nodes', l, key, t.preds[l], t.succs[l]);
    }
  }

  lemma AppendUnlinked<K(!new), V>(cmp: Compare<K>, nodes: seq<Node<K, V>>, maxLevel: nat, key: K, value: V, height: nat)
    requires Ordered(cmp, nodes) && HeightsWithin(nodes, maxLevel) && 1 <= height <= MAX_HEIGHT
    ensures var nodes' := nodes + [Entry(key, value, FreshTower(height), 0)];
            && Ordered(cmp, nodes') && HeightsWithin(nodes', if height > maxLevel then height else maxLevel)
            && Grows(nodes, nodes') && Contents(nodes') == Contents(nodes)
            && (forall a, l: nat :: Linked(nodes', a, l) ==> Linked(nodes, a, l))
  {
    var s := State(nodes, maxLevel, []);
    AllocationOk(cmp, s, key, value, height);
    assert nodes + [Entry(key, value, FreshTower(height), 0)] == NewNode(s, key, value, height);
    SameEntriesSameContents(nodes, NewNode(s, key, value, height));
  }

  /** The node's slot once the successor is stored, null successors being skipped. */
  function WithSuccessor<K, V>(nodes: seq<Node<K, V>>, node: NodeId, level: nat, succ: Ptr): seq<Node<K, V>> {
    if succ == NULL then nodes else StoreSlot(nodes, node, level, succ)
  }

  lemma WithSuccessorOk<K(!new), V>(cmp: Compare<K>, nodes: seq<Node<K, V>>, key: K, node: NodeId, pred: NodeId, succ: Ptr)
    requires TotalOrder(cmp) && Ordered(cmp, nodes)
    requires 0 < node < |nodes| && nodes[node].Entry? && nodes[node].key == key
    requires nodes[node].links < |nodes[node].next| && (succ == NULL ==> nodes[node].next[nodes[node].links] == NULL)
    requires LastBelow(cmp, nodes, nodes[node].links, key, pred) && FirstNotBelow(cmp, nodes, nodes[node].links, key, succ)
    requires nodes[node].links == 0 ==> key !in Contents(nodes)
    ensures var nodes' := WithSuccessor(nodes, node, nodes[node].links, succ);
            && Ordered(cmp, nodes') && Grows(nodes, nodes')
            && Contents(nodes') == Contents(nodes)
            && CanLink(cmp, nodes', pred, node)
            && (forall a, m: nat :: Linked(nodes', a, m) <==> Linked(nodes, a, m))
  {
    var level := nodes[node].links;
    var nodes' := WithSuccessor(nodes, node, level, succ);
    NeighboursAdjacent(cmp, nodes, level, key, pred, succ);
    if succ != NULL { StoreOrdered(cmp, nodes, node, level, succ); }
    SameEntriesSameContents(nodes, nodes');
    BelowCases(cmp, nodes, pred, node, key);
    if succ != NULL { SuccessorDiffers(cmp, nodes, key, node, succ); }
    assert cmp(key, key) == Equal;
    assert !Below(cmp, nodes, node, key) && Before(cmp, nodes, pred, node);
  }

  lemma SuccessorDiffers<K(!new), V>(cmp: Compare<K>, nodes: seq<Node<K, V>>, key: K, node: NodeId, succ: NodeId)
    requires TotalOrder(cmp) && Ordered(cmp, nodes)
    requires 0 < node < |nodes| && nodes[node].Entry? && nodes[node].key == key
    requires Linked(nodes, succ, nodes[node].links) && !Below(cmp, nodes, succ, key)
    requires nodes[node].links == 0 ==> key !in Contents(nodes)
    ensures nodes[succ].key != key && Before(cmp, nodes, node, succ)
  {
    if nodes[node].links == 0 {
      ContentsAt(nodes, succ);
    } else {
      assert Linked(nodes, succ, 0) && Linked(nodes, node, 0);
    }
  }

  lemma LinkOneOk<K(!new), V>(cmp: Compare<K>, nodes: seq<Node<K, V>>, key: K, node: NodeId, pred: NodeId, succ: Ptr)
    requires TotalOrder(cmp) && Ordered(cmp, nodes)
    requires 0 < node < |nodes| && nodes[node].Entry? && nodes[node].key == key
    requires nodes[node].links < |nodes[node].next| && (succ == NULL ==> nodes[node].next[nodes[node].links] == NULL)
    requires LastBelow(cmp, nodes, nodes[node].links, key, pred) && FirstNotBelow(cmp, nodes, nodes[node].links, key, succ)
    requires nodes[node].links == 0 ==> key !in Contents(nodes)
    ensures CanLink(cmp, WithSuccessor(nodes, node, nodes[node].links, succ), pred, node)
    ensures var level := nodes[node].links;
            var nodes' := Link(WithSuccessor(nodes, node, level, succ), pred, node);
            && Ordered(cmp, nodes') && Grows(nodes, nodes') && |nodes'| == |nodes|
            && nodes'[node].links == level + 1
            && (forall m :: level < m < |nodes[node].next| ==> nodes'[node].next[m] == nodes[node].next[m])
            && (forall a, m: nat :: m != level && Linked(nodes', a, m) ==> Linked(nodes, a, m))
            && Contents(nodes') == (if level == 0 then Contents(nodes)[key := nodes[node].value] else Contents(nodes))
            && level < |nodes'[pred].next| && nodes'[pred].next[level] == node && nodes'[node].next[level] == succ
  {
    WithSuccessorOk(cmp, nodes, key, node, pred, succ);
    var stored := WithSuccessor(nodes, node, nodes[node].links, succ);
    LinkKeepsOrdered(cmp, stored, pred, node);
    LinkContents(cmp, stored, pred, node);
    LinkGrows(cmp, stored, pred, node);
    LinkFrame(cmp, stored, pred, node);
    GrowsTransitive(nodes, stored, Link(stored, pred, node));
  }

  class SkipList<K(==, !new), V> {
    const cmp: Compare<K>
    var nodes: seq<Node<K, V>>
    var maxLevel: nat

    ghost predicate Valid()
      reads this
    {
      TotalOrder(cmp) && Ordered(cmp, nodes) && HeightsWithin(nodes, maxLevel)
    }

    constructor (cmp: Compare<K>)
      requires TotalOrder(cmp)
      ensures Valid() && this.cmp == cmp && nodes == EmptyList<K, V>() && Contents(nodes) == map[]
    {
      this.cmp := cmp;
      nodes := EmptyList();
      maxLevel := 1;
      new;
      EmptyListOrdered<K, V>(cmp);
      assert forall k :: k !in Contents(nodes);
    }

    /** The inner loop of `search`: moves right on one level while the next key is below the search key. */
    method WalkLevel(key: K, level: nat, start: NodeId) returns (pred: NodeId, curr: Ptr, found: bool)
      requires Valid() && level < MAX_HEIGHT
      requires Linked(nodes, start, level) && Below(cmp, nodes, start, key)
      ensures LastBelow(cmp, nodes, level, key, pred) && FirstNotBelow(cmp, nodes, level, key, curr)
      ensures found <==> curr != NULL && nodes[curr].Entry? && nodes[curr].key == key
    {
      pred, found := start, false;
      curr := nodes[pred].next[level];
      assert LevelOrdered(cmp, nodes, level);
      while curr != NULL
        invariant Linked(nodes, pred, level) && Below(cmp, nodes, pred, key)
        invariant curr == nodes[pred].next[level]
        invariant !found
        decreases |After(cmp, nodes, level, pred)|
      {
        NextShrinksAfter(cmp, nodes, level, pred);
        match cmp(nodes[curr].key, key) {
          case Less =>
            pred := curr;
            curr := nodes[pred].next[level];
          case Equal =>
            found := true;
            break;
          case Greater =>
            break;
        }
      }
      Neighbours(cmp, nodes, level, key, pred);
    }

    method Search(key: K) returns (t: Context)
      requires Valid()
      ensures SearchResult(cmp, nodes, key, t)
    {
      var found: Ptr := NULL;
      var preds := seq(MAX_HEIGHT, _ => SENTINEL);
      var succs: seq<Ptr> := seq(MAX_HEIGHT, _ => NULL);

      var level: nat := maxLevel;
      LevelsAboveMaxEmpty(cmp, nodes, maxLevel);
      while level > 0 && nodes[SENTINEL].next[level - 1] == NULL
        invariant level <= maxLevel <= MAX_HEIGHT == |nodes[SENTINEL].next|
        invariant forall m: nat :: level <= m < MAX_HEIGHT ==> nodes[SENTINEL].next[m] == NULL
      {
        level := level - 1;
      }
      forall m: nat | level <= m < MAX_HEIGHT
        ensures LastBelow(cmp, nodes, m, key, SENTINEL) && FirstNotBelow(cmp, nodes, m, key, NULL)
      {
        EmptyLevel(cmp, nodes, m, key);
      }

      var pred: NodeId := SENTINEL;
      while level >= 1
        invariant level <= MAX_HEIGHT && |preds| == |succs| == MAX_HEIGHT
        invariant Below(cmp, nodes, pred, key) && (level > 0 ==> Linked(nodes, pred, level - 1))
        invariant forall m: nat :: level <= m < MAX_HEIGHT ==>
                    LastBelow(cmp, nodes, m, key, preds[m]) && FirstNotBelow(cmp, nodes, m, key, succs[m])
        invariant found != NULL ==> Linked(nodes, found, 0) && nodes[found].Entry? && nodes[found].key == key
        invariant level == 0 && succs[0] != NULL && nodes[succs[0]].Entry? && nodes[succs[0]].key == key ==> found != NULL
      {
        level := level - 1;
        var curr, equal;
        pred, curr, equal := WalkLevel(key, level, pred);
        if equal {
          found := curr;
        }
        preds := preds[level := pred];
        succs := succs[level := curr];
      }
      PresentAtSuccessor(cmp, nodes, key, succs[0]);
      if found != NULL { ContentsAt(nodes, found); }
      t := Context(found, preds, succs);
    }

    /** Puts a node between its recorded neighbours on its next level: the successor is stored into the node
        unless it is null, then the predecessor's slot is swung. */
    method LinkOne(key: K, node: NodeId, level: nat, pred: NodeId, succ: Ptr)
      requires Valid() && 0 < node < |nodes| && nodes[node].Entry? && nodes[node].key == key
      requires nodes[node].links == level < |nodes[node].next| && nodes[node].next[level] == NULL
      requires LastBelow(cmp, nodes, level, key, pred) && FirstNotBelow(cmp, nodes, level, key, succ)
      requires level == 0 ==> key !in Contents(nodes)
      modifies this`nodes
      ensures Valid() && Grows(old(nodes), nodes) && |nodes| == |old(nodes)|
      ensures nodes[node].links == level + 1
      ensures forall m :: level < m < |nodes[node].next| ==> nodes[node].next[m] == old(nodes[node].next[m])
      ensures forall a, m: nat :: m != level && Linked(nodes, a, m) ==> Linked(old(nodes), a, m)
      ensures nodes[pred].next[level] == node && nodes[node].next[level] == succ
      ensures Contents(nodes) == if level == 0 then old(Contents(nodes)[key := nodes[node].value]) else old(Contents(nodes))
    {
      LinkOneOk(cmp, nodes, key, node, pred, succ);
      if succ != NULL {
        nodes := StoreSlot(nodes, node, level, succ);
      }
      nodes := Link(nodes, pred, node);
    }

    /** Links an allocated node into the levels 0 .. height - 1 between the recorded neighbours. */
    method LinkLevels(t: Context, key: K, node: NodeId)
      requires Valid() && 0 < node < |nodes| && nodes[node].Entry? && nodes[node].key == key
      requires nodes[node].links == 0 && (forall m :: 0 <= m < |nodes[node].next| ==> nodes[node].next[m] == NULL)
      requires SearchResult(cmp, nodes, key, t) && t.found == NULL
      modifies this`nodes
      ensures Valid() && Grows(old(nodes), nodes) && |nodes| == |old(nodes)|
      ensures nodes[node].links == |nodes[node].next|
      ensures Contents(nodes) == old(Contents(nodes))[key := old(nodes[node].value)]
    {
      ghost var start := nodes;
      var height := |nodes[node].next|;
      var level := 0;
      while level < height
        invariant Valid() && Grows(start, nodes) && |nodes| == |start|
        invariant level <= height == |nodes[node].next| && nodes[node].Entry? && nodes[node].key == key
        invariant nodes[node].value == start[node].value
        invariant nodes[node].links == level
        invariant forall m :: level <= m < height ==> nodes[node].next[m] == NULL
        invariant forall m: nat :: level <= m < MAX_HEIGHT ==>
                    LastBelow(cmp, nodes, m, key, t.preds[m]) && FirstNotBelow(cmp, nodes, m, key, t.succs[m])
        invariant Contents(nodes) ==
                  if level == 0 then Contents(start) else Contents(start)[key := start[node].value]
      {
        ghost var before := nodes;
        LinkOne(key, node, level, t.preds[level], t.succs[level]);
        forall m: nat | level + 1 <= m < MAX_HEIGHT
          ensures LastBelow(cmp, nodes, m, key, t.preds[m]) && FirstNotBelow(cmp, nodes, m, key, t.succs[m])
        {
          NeighboursKept(cmp, before, nodes, m, key, t.preds[m], t.succs[m]);
        }
        GrowsTransitive(start, before, nodes);
        level := level + 1;
      }
    }

    /** `insert`: searches first and allocates only when the key is absent. */
    method Insert(key: K, value: V, height: nat) returns (node: NodeId)
      requires Valid() && 1 <= height <= MAX_HEIGHT
      modifies this
      ensures Valid() && Grows(old(nodes), nodes)
      ensures Contents(nodes) == KeepFirst(old(Contents(nodes)), key, value)
      ensures Linked(nodes, node, 0) && nodes[node].Entry? && nodes[node].key == key
    {
      var t := Search(key);
      if t.found != NULL {
        return t.found;
      }
      ghost var start := nodes;
      AppendUnlinked(cmp, nodes, maxLevel, key, value, height);
      node := |nodes|;
      nodes := nodes + [Entry(key, value, FreshTower(height), 0)];
      maxLevel := if height > maxLevel then height else maxLevel;
      SearchResultKept(cmp, start, nodes, key, t);
      ghost var grown := nodes;
      LinkLevels(t, key, node);
      GrowsTransitive(start, grown, nodes);
    }

    /** `insert_with`: allocates first, so a key already present leaves a node that is never linked. */
    method InsertWith(key: K, value: V, height: nat) returns (node: NodeId)
      requires Valid() && 1 <= height <= MAX_HEIGHT
      modifies this
      ensures Valid() && Grows(old(nodes), nodes)
      ensures Contents(nodes) == KeepFirst(old(Contents(nodes)), key, value)
      ensures Linked(nodes, node, 0) && nodes[node].Entry? && nodes[node].key == key
    {
      ghost var start := nodes;
      AppendUnlinked(cmp, nodes, maxLevel, key, value, height);
      node := |nodes|;
      nodes := nodes + [Entry(key, value, FreshTower(height), 0)];
      maxLevel := if height > maxLevel then height else maxLevel;
      ghost var grown := nodes;
      var t := Search(key);
      if t.found != NULL {
        return t.found;
      }
      LinkLevels(t, key, node);
      GrowsTransitive(start, grown, nodes);
    }
  }
}
