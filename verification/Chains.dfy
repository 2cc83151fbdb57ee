/** Walking the links of one level: the chain from a node ends, is strictly increasing, visits exactly the
    nodes of the level that come after it, and each level's chain is a subsequence of the one below. */
module Chains {
  import opened Ordering
  import opened Towers

  /** The nodes of level l that come after a: what is left to walk. */
  ghost function After<K, V>(cmp: Compare<K>, nodes: seq<Node<K, V>>, l: nat, a: int): set<int> {
    set b | 0 <= b < |nodes| && Linked(nodes, b, l) && Before(cmp, nodes, a, b)
  }

  lemma NextShrinksAfter<K(!new), V>(cmp: Compare<K>, nodes: seq<Node<K, V>>, l: nat, a: int)
    requires TotalOrder(cmp) && Ordered(cmp, nodes) && l < MAX_HEIGHT
    requires Linked(nodes, a, l) && nodes[a].next[l] != NULL
    ensures Linked(nodes, nodes[a].next[l], l) && Before(cmp, nodes, a, nodes[a].next[l])
    ensures After(cmp, nodes, l, a) == After(cmp, nodes, l, nodes[a].next[l]) + {nodes[a].next[l]}
    ensures nodes[a].next[l] !in After(cmp, nodes, l, nodes[a].next[l])
    ensures |After(cmp, nodes, l, nodes[a].next[l])| < |After(cmp, nodes, l, a)|
  {
    assert LevelOrdered(cmp, nodes, l);
    var s := nodes[a].next[l];
    var rest := After(cmp, nodes, l, s);
    forall b | b in After(cmp, nodes, l, a) ensures b in rest + {s} {
      if b != s { BeforeTotal(cmp, nodes, b, s); }
    }
    forall b | b in rest ensures b in After(cmp, nodes, l, a) {
      BeforeTransitive(cmp, nodes, a, s, b);
    }
    assert s !in rest;
    assert After(cmp, nodes, l, a) == rest + {s};
    OneMore(After(cmp, nodes, l, a), rest, s);
  }

  lemma OneMore(more: set<int>, rest: set<int>, s: int)
    requires s !in rest && more == rest + {s}
    ensures |rest| < |more|
  {
  }

  /** The nodes met by following level-l links from a, a itself excluded. */
  ghost function Chain<K(!new), V>(cmp: Compare<K>, nodes: seq<Node<K, V>>, l: nat, a: int): (c: seq<int>)
    requires TotalOrder(cmp) && Ordered(cmp, nodes) && l < MAX_HEIGHT && Linked(nodes, a, l)
    ensures forall i :: 0 <= i < |c| ==> Linked(nodes, c[i], l) && nodes[c[i]].Entry?
    decreases |After(cmp, nodes, l, a)|
  {
    var s := nodes[a].next[l];
    if s == NULL then []
    else
      NextShrinksAfter(cmp, nodes, l, a);
      [s] + Chain(cmp, nodes, l, s)
  }

  ghost predicate StrictlyIncreasing<K, V>(cmp: Compare<K>, nodes: seq<Node<K, V>>, c: seq<int>) {
    forall i, j :: 0 <= i < j < |c| ==> Before(cmp, nodes, c[i], c[j])
  }

  /** The chain from a holds exactly the later nodes of the level. */
  lemma {:induction false} ChainMembers<K(!new), V>(cmp: Compare<K>, nodes: seq<Node<K, V>>, l: nat, a: int)
    requires TotalOrder(cmp) && Ordered(cmp, nodes) && l < MAX_HEIGHT && Linked(nodes, a, l)
    ensures forall b :: b in Chain(cmp, nodes, l, a) <==> Linked(nodes, b, l) && Before(cmp, nodes, a, b)
    decreases |After(cmp, nodes, l, a)|
  {
    var s := nodes[a].next[l];
    if s == NULL {
      assert LevelOrdered(cmp, nodes, l);
    } else {
      NextShrinksAfter(cmp, nodes, l, a);
      ChainMembers(cmp, nodes, l, s);
      forall b ensures b in Chain(cmp, nodes, l, a) <==> Linked(nodes, b, l) && Before(cmp, nodes, a, b) {
        assert Linked(nodes, b, l) && Before(cmp, nodes, a, b) <==> b in After(cmp, nodes, l, a);
        assert Linked(nodes, b, l) && Before(cmp, nodes, s, b) <==> b in After(cmp, nodes, l, s);
      }
    }
  }

  /** Every chain is strictly increasing, hence acyclic. */
  lemma {:induction false} ChainIncreasing<K(!new), V>(cmp: Compare<K>, nodes: seq<Node<K, V>>, l: nat, a: int)
    requires TotalOrder(cmp) && Ordered(cmp, nodes) && l < MAX_HEIGHT && Linked(nodes, a, l)
    ensures StrictlyIncreasing(cmp, nodes, [a] + Chain(cmp, nodes, l, a))
    decreases |After(cmp, nodes, l, a)|
  {
    var s := nodes[a].next[l];
    if s != NULL {
      NextShrinksAfter(cmp, nodes, l, a);
      ChainIncreasing(cmp, nodes, l, s);
      ChainMembers(cmp, nodes, l, a);
      ConsIncreasing(cmp, nodes, a, Chain(cmp, nodes, l, a));
    }
  }

  lemma ConsIncreasing<K, V>(cmp: Compare<K>, nodes: seq<Node<K, V>>, a: int, c: seq<int>)
    requires StrictlyIncreasing(cmp, nodes, c)
    requires forall b :: b in c ==> Before(cmp, nodes, a, b)
    ensures StrictlyIncreasing(cmp, nodes, [a] + c)
  {
    var d := [a] + c;
    forall i, j | 0 <= i < j < |d| ensures Before(cmp, nodes, d[i], d[j]) {
      assert d[j] == c[j - 1] && d[j] in c;
      assert i > 0 ==> d[i] == c[i - 1];
    }
  }

  /** xs can be obtained from ys by dropping elements. */
  ghost predicate Subsequence<T>(xs: seq<T>, ys: seq<T>)
    decreases |ys|
  {
    xs == [] || (ys != [] && Subsequence(if xs[0] == ys[0] then xs[1..] else xs, ys[1..]))
  }

  lemma {:induction false} SortedSubset<K(!new), V>(cmp: Compare<K>, nodes: seq<Node<K, V>>, xs: seq<int>, ys: seq<int>)
    requires TotalOrder(cmp)
    requires StrictlyIncreasing(cmp, nodes, xs) && StrictlyIncreasing(cmp, nodes, ys)
    requires forall i :: 0 <= i < |xs| ==> xs[i] in ys
    requires forall i :: 0 <= i < |ys| ==> 0 <= ys[i] < |nodes| && nodes[ys[i]].Entry?
    ensures Subsequence(xs, ys)
    decreases |ys|
  {
    if xs != [] {
      assert xs[0] in ys;
      SharedFirst(cmp, nodes, xs, ys);
      var xs' := if xs[0] == ys[0] then xs[1..] else xs;
      forall i | 0 <= i < |xs'| ensures xs'[i] in ys[1..] {
        assert xs'[i] in xs && xs'[i] in ys;
      }
      DropIncreasing(cmp, nodes, xs);
      DropIncreasing(cmp, nodes, ys);
      SortedSubset(cmp, nodes, xs', ys[1..]);
    }
  }

  lemma SharedFirst<K(!new), V>(cmp: Compare<K>, nodes: seq<Node<K, V>>, xs: seq<int>, ys: seq<int>)
    requires TotalOrder(cmp)
    requires StrictlyIncreasing(cmp, nodes, xs) && StrictlyIncreasing(cmp, nodes, ys)
    requires xs != [] && xs[0] in ys
    requires forall i :: 0 <= i < |ys| ==> 0 <= ys[i] < |nodes| && nodes[ys[i]].Entry?
    ensures ys[0] in xs ==> xs[0] == ys[0]
    ensures xs[0] == ys[0] ==> ys[0] !in xs[1..]
  {
    var j :| 0 <= j < |ys| && ys[j] == xs[0];
    assert j > 0 ==> Before(cmp, nodes, ys[0], xs[0]);
    assert forall i :: 0 < i < |xs| ==> Before(cmp, nodes, xs[0], xs[i]);
    assert !Before(cmp, nodes, ys[0], ys[0]);
  }

  /** The chain of every level is a subsequence of the chain of the level below it. */
  lemma LevelsNest<K(!new), V>(cmp: Compare<K>, nodes: seq<Node<K, V>>, l: nat)
    requires TotalOrder(cmp) && Ordered(cmp, nodes) && 0 < l < MAX_HEIGHT
    ensures Subsequence(Chain(cmp, nodes, l, SENTINEL), Chain(cmp, nodes, l - 1, SENTINEL))
  {
    var upper, lower := Chain(cmp, nodes, l, SENTINEL), Chain(cmp, nodes, l - 1, SENTINEL);
    ChainMembers(cmp, nodes, l, SENTINEL);
    ChainMembers(cmp, nodes, l - 1, SENTINEL);
    ChainIncreasing(cmp, nodes, l, SENTINEL);
    ChainIncreasing(cmp, nodes, l - 1, SENTINEL);
    DropIncreasing(cmp, nodes, [SENTINEL] + upper);
    DropIncreasing(cmp, nodes, [SENTINEL] + lower);
    assert ([SENTINEL] + upper)[1..] == upper && ([SENTINEL] + lower)[1..] == lower;
    forall i | 0 <= i < |upper| ensures upper[i] in lower {
      assert upper[i] in upper;
      assert Linked(nodes, upper[i], l) && Before(cmp, nodes, SENTINEL, upper[i]);
      assert Linked(nodes, upper[i], l - 1);
    }
    SortedSubset(cmp, nodes, upper, lower);
  }

  lemma DropIncreasing<K, V>(cmp: Compare<K>, nodes: seq<Node<K, V>>, c: seq<int>)
    requires StrictlyIncreasing(cmp, nodes, c) && c != []
    ensures StrictlyIncreasing(cmp, nodes, c[1..])
  {
    forall i, j | 0 <= i < j < |c[1..]| ensures Before(cmp, nodes, c[1..][i], c[1..][j]) {
      assert c[1..][i] == c[i + 1] && c[1..][j] == c[j + 1];
    }
  }

  // ---- The map a list stands for ----

  /** The mapping held by the bottom level. */
  ghost function Contents<K, V>(nodes: seq<Node<K, V>>): map<K, V>
    requires KeysUnique(nodes)
  {
    map a | 0 <= a < |nodes| && Linked(nodes, a, 0) && nodes[a].Entry? :: nodes[a].key := nodes[a].value
  }

  /** Linking an already published node changes no mapping; publishing a node adds exactly its own. */
  lemma LinkContents<K(!new), V>(cmp: Compare<K>, nodes: seq<Node<K, V>>, pred: int, node: int)
    requires TotalOrder(cmp) && Ordered(cmp, nodes) && CanLink(cmp, nodes, pred, node)
    ensures KeysUnique(Link(nodes, pred, node))
    ensures nodes[node].links > 0 ==> Contents(Link(nodes, pred, node)) == Contents(nodes)
    ensures nodes[node].links == 0 ==>
              nodes[node].key !in Contents(nodes) &&
              Contents(Link(nodes, pred, node)) == Contents(nodes)[nodes[node].key := nodes[node].value]
  {
    LinkKeepsKeysUnique(cmp, nodes, pred, node);
    LinkPairs(cmp, nodes, pred, node);
    if nodes[node].links == 0 {
      SameEntry(cmp, nodes, pred, node, node);
      ContentsAt(Link(nodes, pred, node), node);
    }
  }

  lemma LinkPairs<K(!new), V>(cmp: Compare<K>, nodes: seq<Node<K, V>>, pred: int, node: int)
    requires TotalOrder(cmp) && Ordered(cmp, nodes) && CanLink(cmp, nodes, pred, node)
    requires KeysUnique(Link(nodes, pred, node))
    ensures var m, m' := Contents(nodes), Contents(Link(nodes, pred, node));
            && (forall k :: k in m ==> k in m' && m'[k] == m[k] && (nodes[node].links == 0 ==> k != nodes[node].key))
            && (forall k :: k in m' ==> k in m || (k == nodes[node].key && nodes[node].links == 0))
  {
    var m, m' := Contents(nodes), Contents(Link(nodes, pred, node));
    forall k | k in m ensures k in m' && m'[k] == m[k] && (nodes[node].links == 0 ==> k != nodes[node].key) {
      LinkKeepsPair(cmp, nodes, pred, node, k);
    }
    forall k | k in m' ensures k in m || (k == nodes[node].key && nodes[node].links == 0) {
      LinkAddsPair(cmp, nodes, pred, node, k);
    }
  }

  lemma LinkKeepsPair<K(!new), V>(cmp: Compare<K>, nodes: seq<Node<K, V>>, pred: int, node: int, k: K)
    requires TotalOrder(cmp) && Ordered(cmp, nodes) && CanLink(cmp, nodes, pred, node)
    requires KeysUnique(Link(nodes, pred, node)) && k in Contents(nodes)
    ensures k in Contents(Link(nodes, pred, node)) && Contents(Link(nodes, pred, node))[k] == Contents(nodes)[k]
    ensures nodes[node].links == 0 ==> k != nodes[node].key
  {
    var a := ContentsWitness(nodes, k);
    SameEntry(cmp, nodes, pred, node, a);
    SameEntry(cmp, nodes, pred, node, node);
    ContentsAt(Link(nodes, pred, node), a);
  }

  lemma LinkAddsPair<K(!new), V>(cmp: Compare<K>, nodes: seq<Node<K, V>>, pred: int, node: int, k: K)
    requires TotalOrder(cmp) && Ordered(cmp, nodes) && CanLink(cmp, nodes, pred, node)
    requires KeysUnique(Link(nodes, pred, node)) && k in Contents(Link(nodes, pred, node))
    ensures k in Contents(nodes) || (k == nodes[node].key && nodes[node].links == 0)
  {
    var a := ContentsWitness(Link(nodes, pred, node), k);
    SameEntry(cmp, nodes, pred, node, a);
    if Linked(nodes, a, 0) { ContentsAt(nodes, a); }
  }

  lemma ContentsAt<K, V>(nodes: seq<Node<K, V>>, a: int)
    requires KeysUnique(nodes) && Linked(nodes, a, 0) && nodes[a].Entry?
    ensures nodes[a].key in Contents(nodes) && Contents(nodes)[nodes[a].key] == nodes[a].value
  {
  }

  lemma ContentsWitness<K, V>(nodes: seq<Node<K, V>>, k: K) returns (a: int)
    requires KeysUnique(nodes) && k in Contents(nodes)
    ensures Linked(nodes, a, 0) && nodes[a].Entry? && nodes[a].key == k && Contents(nodes)[k] == nodes[a].value
  {
    a :| 0 <= a < |nodes| && Linked(nodes, a, 0) && nodes[a].Entry? && nodes[a].key == k;
  }

  /** The key is present exactly when the first node not below it on the bottom level holds it. */
  lemma PresentAtSuccessor<K(!new), V>(cmp: Compare<K>, nodes: seq<Node<K, V>>, key: K, s: int)
    requires TotalOrder(cmp) && Ordered(cmp, nodes) && FirstNotBelow(cmp, nodes, 0, key, s)
    ensures key in Contents(nodes) <==> s != NULL && nodes[s].Entry? && nodes[s].key == key
    ensures key in Contents(nodes) ==> Contents(nodes)[key] == nodes[s].value
  {
    if key in Contents(nodes) {
      var a := ContentsWitness(nodes, key);
      assert cmp(key, key) == Equal;
      assert !Below(cmp, nodes, a, key);
    }
    if s != NULL && nodes[s].Entry? && nodes[s].key == key { ContentsAt(nodes, s); }
  }

  lemma SameEntry<K, V>(cmp: Compare<K>, nodes: seq<Node<K, V>>, pred: int, node: int, a: int)
    requires Shape(nodes) && CanLink(cmp, nodes, pred, node) && 0 <= a < |nodes|
    ensures var r := Link(nodes, pred, node);
            && r[a].Entry? == nodes[a].Entry?
            && (r[a].Entry? ==> r[a].key == nodes[a].key && r[a].value == nodes[a].value)
            && (Linked(r, a, 0) <==> Linked(nodes, a, 0) || (a == node && nodes[node].links == 0))
  {
    LinkFrame(cmp, nodes, pred, node);
  }
}
