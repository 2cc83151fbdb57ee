/** The linked towers of the skip list: nodes in arena order, the order invariant of every level, and the
    facts about linking one more node that both the concurrent protocol and the sequential list rest on.

    A node is named by its position in the arena; position 0 is the sentinel. `links` counts the levels a
    node is linked into, so a node is on level l exactly when l < links. The program has no such counter:
    `ChainMembers` shows that it is exactly reachability from the sentinel. */
module Towers {
  import opened Ordering

  const MAX_HEIGHT: nat := 8
  const SENTINEL: nat := 0
  const NULL: int := -1

  type NodeId = nat
  type Ptr = p: int | p >= NULL witness NULL

  datatype Node<K, V> =
    | Head(next: seq<Ptr>, links: nat)
    | Entry(key: K, value: V, next: seq<Ptr>, links: nat)

  type Compare<!K> = (K, K) -> Ordering

  function FreshTower(height: nat): (t: seq<Ptr>)
    ensures |t| == height
  {
    seq(height, _ => NULL)
  }

  function EmptyList<K, V>(): seq<Node<K, V>> {
    [Head(FreshTower(MAX_HEIGHT), MAX_HEIGHT)]
  }

  /** Towers have one slot for each level of their node; only the first node is the sentinel. */
  ghost predicate Shape<K, V>(nodes: seq<Node<K, V>>) {
    && |nodes| > 0
    && nodes[SENTINEL].Head?
    && |nodes[SENTINEL].next| == nodes[SENTINEL].links == MAX_HEIGHT
    && (forall i :: 0 < i < |nodes| ==>
          nodes[i].Entry? && 1 <= |nodes[i].next| <= MAX_HEIGHT && nodes[i].links <= |nodes[i].next|)
  }

  /** Node a is on level l. */
  predicate Linked<K, V>(nodes: seq<Node<K, V>>, a: int, l: nat) {
    0 <= a < |nodes| && l < nodes[a].links && l < |nodes[a].next|
  }

  /** Node a precedes node b: the sentinel precedes every entry. */
  predicate Before<K, V>(cmp: Compare<K>, nodes: seq<Node<K, V>>, a: int, b: int) {
    && 0 <= a < |nodes| && 0 <= b < |nodes|
    && nodes[b].Entry?
    && (nodes[a].Entry? ==> cmp(nodes[a].key, nodes[b].key) == Less)
  }

  /** Node a is strictly below the search key: the sentinel is below every key. */
  predicate Below<K, V>(cmp: Compare<K>, nodes: seq<Node<K, V>>, a: int, key: K) {
    0 <= a < |nodes| && (nodes[a].Entry? ==> cmp(nodes[a].key, key) == Less)
  }

  /** Level l: every link goes forward to a node of the level, and skips no node of the level. */
  ghost predicate LevelOrdered<K, V>(cmp: Compare<K>, nodes: seq<Node<K, V>>, l: nat) {
    && (forall a :: Linked(nodes, a, l) ==>
          nodes[a].next[l] == NULL ||
          (Linked(nodes, nodes[a].next[l], l) && Before(cmp, nodes, a, nodes[a].next[l])))
    && (forall a, b :: Linked(nodes, a, l) && Linked(nodes, b, l) && Before(cmp, nodes, a, b) ==>
          nodes[a].next[l] != NULL && !Before(cmp, nodes, b, nodes[a].next[l]))
  }

  /** No two nodes of the bottom level hold the same key. */
  ghost predicate KeysUnique<K, V>(nodes: seq<Node<K, V>>) {
    forall a, b ::
      (Linked(nodes, a, 0) && Linked(nodes, b, 0) && nodes[a].Entry? && nodes[b].Entry? &&
       nodes[a].key == nodes[b].key) ==> a == b
  }

  ghost predicate Ordered<K, V>(cmp: Compare<K>, nodes: seq<Node<K, V>>) {
    && Shape(nodes)
    && KeysUnique(nodes)
    && (forall l: nat :: l < MAX_HEIGHT ==> LevelOrdered(cmp, nodes, l))
  }

  /** p is the last node of level l below the key. */
  ghost predicate LastBelow<K, V>(cmp: Compare<K>, nodes: seq<Node<K, V>>, l: nat, key: K, p: int) {
    && Linked(nodes, p, l) && Below(cmp, nodes, p, key)
    && (forall b :: Linked(nodes, b, l) && Below(cmp, nodes, b, key) ==> b == p || Before(cmp, nodes, b, p))
  }

  /** s is the first node of level l not below the key, or null when every node of the level is below it. */
  ghost predicate FirstNotBelow<K, V>(cmp: Compare<K>, nodes: seq<Node<K, V>>, l: nat, key: K, s: int) {
    && (s == NULL || (Linked(nodes, s, l) && !Below(cmp, nodes, s, key)))
    && (forall b :: Linked(nodes, b, l) && !Below(cmp, nodes, b, key) ==>
          s != NULL && (b == s || Before(cmp, nodes, s, b)))
  }

  // ---- Order facts ----

  lemma BeforeTransitive<K(!new), V>(cmp: Compare<K>, nodes: seq<Node<K, V>>, a: int, b: int, c: int)
    requires TotalOrder(cmp)
    requires Before(cmp, nodes, a, b) && Before(cmp, nodes, b, c)
    ensures Before(cmp, nodes, a, c)
  {
  }

  lemma BeforeTotal<K(!new), V>(cmp: Compare<K>, nodes: seq<Node<K, V>>, a: int, b: int)
    requires TotalOrder(cmp) && Shape(nodes) && KeysUnique(nodes)
    requires Linked(nodes, a, 0) && Linked(nodes, b, 0) && a != b
    ensures Before(cmp, nodes, a, b) != Before(cmp, nodes, b, a)
  {
    if nodes[a].Entry? && nodes[b].Entry? {
      assert cmp(nodes[a].key, nodes[b].key) != Equal;
    }
  }

  lemma BelowCases<K(!new), V>(cmp: Compare<K>, nodes: seq<Node<K, V>>, a: int, b: int, key: K)
    requires TotalOrder(cmp) && Shape(nodes) && 0 <= a < |nodes| && 0 <= b < |nodes|
    ensures Below(cmp, nodes, a, key) && !Below(cmp, nodes, b, key) ==> Before(cmp, nodes, a, b)
    ensures Before(cmp, nodes, a, b) && Below(cmp, nodes, b, key) ==> Below(cmp, nodes, a, key)
  {
  }

  /** Standing at a node below the key whose successor is not below it, both neighbours are found. */
  lemma Neighbours<K(!new), V>(cmp: Compare<K>, nodes: seq<Node<K, V>>, l: nat, key: K, p: int)
    requires TotalOrder(cmp) && Ordered(cmp, nodes) && l < MAX_HEIGHT
    requires Linked(nodes, p, l) && Below(cmp, nodes, p, key)
    requires nodes[p].next[l] == NULL || !Below(cmp, nodes, nodes[p].next[l], key)
    ensures LastBelow(cmp, nodes, l, key, p)
    ensures FirstNotBelow(cmp, nodes, l, key, nodes[p].next[l])
  {
    var s := nodes[p].next[l];
    assert LevelOrdered(cmp, nodes, l);
    forall b | Linked(nodes, b, l) && Below(cmp, nodes, b, key) && b != p
      ensures Before(cmp, nodes, b, p)
    {
      BeforeTotal(cmp, nodes, b, p);
      if Before(cmp, nodes, p, b) { BelowCases(cmp, nodes, b, s, key); }
    }
    forall b | Linked(nodes, b, l) && !Below(cmp, nodes, b, key)
      ensures s != NULL && (b == s || Before(cmp, nodes, s, b))
    {
      BelowCases(cmp, nodes, p, b, key);
      if b != s { BeforeTotal(cmp, nodes, b, s); }
    }
  }

  // ---- Linking one node into one level ----

  /** The arena after the slot of `pred` on the next level of `node` is swung to `node`. */
  function Link<K, V>(nodes: seq<Node<K, V>>, pred: int, node: int): (r: seq<Node<K, V>>)
    requires 0 <= pred < |nodes| && 0 <= node < |nodes| && pred != node
    requires nodes[node].links < |nodes[pred].next|
    ensures |r| == |nodes|
  {
    var l := nodes[node].links;
    nodes[pred := nodes[pred].(next := nodes[pred].next[l := node])]
         [node := nodes[node].(links := l + 1)]
  }

  /** What a successful compare-and-swap of a tower slot relies on. */
  ghost predicate CanLink<K, V>(cmp: Compare<K>, nodes: seq<Node<K, V>>, pred: int, node: int) {
    && 0 < node < |nodes|
    && nodes[node].Entry?
    && nodes[node].links < |nodes[node].next|
    && Linked(nodes, pred, nodes[node].links)
    && Before(cmp, nodes, pred, node)
    && nodes[pred].next[nodes[node].links] == nodes[node].next[nodes[node].links]
    && (nodes[pred].next[nodes[node].links] == NULL ||
        Before(cmp, nodes, node, nodes[pred].next[nodes[node].links]))
  }

  lemma LinkFrame<K, V>(cmp: Compare<K>, nodes: seq<Node<K, V>>, pred: int, node: int)
    requires Shape(nodes) && CanLink(cmp, nodes, pred, node)
    ensures var r := Link(nodes, pred, node);
            && Shape(r)
            && (forall a, b :: Before(cmp, r, a, b) == Before(cmp, nodes, a, b))
            && (forall a, l: nat :: Linked(r, a, l) <==> Linked(nodes, a, l) || (a == node && l == nodes[node].links))
            && (forall a, l: nat :: 0 <= a < |nodes| && l < |nodes[a].next| ==>
                  r[a].next[l] == if a == pred && l == nodes[node].links then node else nodes[a].next[l])
  {
  }

  lemma LinkOrdersLevel<K(!new), V>(cmp: Compare<K>, nodes: seq<Node<K, V>>, pred: int, node: int, l: nat)
    requires TotalOrder(cmp) && Ordered(cmp, nodes) && CanLink(cmp, nodes, pred, node) && l < MAX_HEIGHT
    ensures LevelOrdered(cmp, Link(nodes, pred, node), l)
  {
    var r := Link(nodes, pred, node);
    LinkFrame(cmp, nodes, pred, node);
    assert LevelOrdered(cmp, nodes, l);
    if l == nodes[node].links {
      var s := nodes[pred].next[l];
      forall a, b | Linked(r, a, l) && Linked(r, b, l) && Before(cmp, r, a, b)
        ensures r[a].next[l] != NULL && !Before(cmp, r, b, r[a].next[l])
      {
        LinkKeepsGap(cmp, nodes, pred, node, a, b);
      }
    } else {
      forall a, b | Linked(r, a, l) && Linked(r, b, l) && Before(cmp, r, a, b)
        ensures r[a].next[l] != NULL && !Before(cmp, r, b, r[a].next[l])
      {
        assert Linked(nodes, a, l) && Linked(nodes, b, l) && Before(cmp, nodes, a, b);
        assert r[a].next[l] == nodes[a].next[l];
      }
    }
  }

  lemma LinkKeepsGap<K(!new), V>(cmp: Compare<K>, nodes: seq<Node<K, V>>, pred: int, node: int, a: int, b: int)
    requires TotalOrder(cmp) && Ordered(cmp, nodes) && CanLink(cmp, nodes, pred, node)
    requires var r := Link(nodes, pred, node); var l := nodes[node].links;
             Linked(r, a, l) && Linked(r, b, l) && Before(cmp, r, a, b)
    ensures var r := Link(nodes, pred, node); var l := nodes[node].links;
            r[a].next[l] != NULL && !Before(cmp, r, b, r[a].next[l])
  {
    var l := nodes[node].links;
    var r := Link(nodes, pred, node);
    LinkFrame(cmp, nodes, pred, node);
    assert LevelOrdered(cmp, nodes, l);
    var s := nodes[pred].next[l];
    if a == node {
      if b != node { BeforeTransitive(cmp, nodes, pred, node, b); }
    } else if a == pred {
      if b != node && Before(cmp, nodes, b, node) && s != NULL { BeforeTransitive(cmp, nodes, b, node, s); }
    } else if b == node {
      BeforeTotal(cmp, nodes, a, pred);
      if Before(cmp, nodes, pred, a) {
        BeforeTransitive(cmp, nodes, a, node, s);
      } else {
        var n := nodes[a].next[l];
        if Before(cmp, nodes, node, n) { BeforeTransitive(cmp, nodes, pred, node, n); }
      }
    } else {
      assert r[a].next[l] == nodes[a].next[l];
    }
  }

  lemma LinkKeepsKeysUnique<K(!new), V>(cmp: Compare<K>, nodes: seq<Node<K, V>>, pred: int, node: int)
    requires TotalOrder(cmp) && Ordered(cmp, nodes) && CanLink(cmp, nodes, pred, node)
    ensures KeysUnique(Link(nodes, pred, node))
    ensures nodes[node].links == 0 ==>
              forall a :: Linked(nodes, a, 0) && nodes[a].Entry? ==> nodes[a].key != nodes[node].key
  {
    LinkFrame(cmp, nodes, pred, node);
    if nodes[node].links == 0 {
      assert LevelOrdered(cmp, nodes, 0);
      var s := nodes[pred].next[0];
      forall a | Linked(nodes, a, 0) && nodes[a].Entry? ensures nodes[a].key != nodes[node].key {
        if nodes[a].key == nodes[node].key {
          assert cmp(nodes[a].key, nodes[node].key) == Equal;
          assert Before(cmp, nodes, pred, a);
        }
      }
    }
  }

  /** A compare-and-swap that meets `CanLink` keeps every level ordered and every key unique. */
  lemma LinkKeepsOrdered<K(!new), V>(cmp: Compare<K>, nodes: seq<Node<K, V>>, pred: int, node: int)
    requires TotalOrder(cmp) && Ordered(cmp, nodes) && CanLink(cmp, nodes, pred, node)
    ensures Ordered(cmp, Link(nodes, pred, node))
  {
    LinkFrame(cmp, nodes, pred, node);
    LinkKeepsKeysUnique(cmp, nodes, pred, node);
    forall l: nat | l < MAX_HEIGHT ensures LevelOrdered(cmp, Link(nodes, pred, node), l) {
      LinkOrdersLevel(cmp, nodes, pred, node, l);
    }
  }

  lemma EmptyListOrdered<K(!new), V>(cmp: Compare<K>)
    ensures Ordered(cmp, EmptyList<K, V>())
  {
  }
}
