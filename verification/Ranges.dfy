/** The bounded range iterator. The start is found by the list's comparator; the end is checked on raw key
    bytes, whatever the comparator. */
module Ranges {
  import opened InternalKey
  import opened Ordering
  import opened Towers
  import opened Chains
  import opened SkipList
  import opened Iterators

  datatype Bound<K> = Included(key: K) | Excluded(key: K) | Unbounded

  /** The bytes are within an end bound. */
  predicate UnderEnd(end: Bound<Bytes>, key: Bytes) {
    match end
    case Included(b) => CompareBytes(key, b) != Greater
    case Excluded(b) => CompareBytes(key, b) == Less
    case Unbounded => true
  }

  /** The key is within a start bound. */
  predicate OverStart<K>(cmp: Compare<K>, start: Bound<K>, key: K) {
    match start
    case Included(b) => cmp(key, b) != Less
    case Excluded(b) => cmp(key, b) == Greater
    case Unbounded => true
  }

  /** `range` looks for an excluded start bound as for an included one. */
  function AsIncluded<K>(b: Bound<K>): Bound<K> {
    if b.Excluded? then Included(b.key) else b
  }

  ghost predicate FromStart<K, V>(cmp: Compare<K>, nodes: seq<Node<K, V>>, start: Bound<K>, b: int) {
    Linked(nodes, b, 0) && nodes[b].Entry? && OverStart(cmp, start, nodes[b].key)
  }

  // ---- What was asked for, and what is shown ----

  /** Ascending, and exactly the keys within both bounds. */
  ghost predicate RangeSet<K, V>(cmp: Compare<K>, bytes: K -> Bytes, nodes: seq<Node<K, V>>,
                                 start: Bound<K>, end: Bound<Bytes>, out: seq<int>) {
    && StrictlyIncreasing(cmp, nodes, out)
    && (forall b :: b in out <==> FromStart(cmp, nodes, start, b) && UnderEnd(end, bytes(nodes[b].key)))
  }

  /** From the start bound, read as included, to the node no key is beyond the end. */
  ghost predicate Shown<K, V>(cmp: Compare<K>, bytes: K -> Bytes, nodes: seq<Node<K, V>>,
                              start: Bound<K>, end: Bound<Bytes>, b: int) {
    && FromStart(cmp, nodes, AsIncluded(start), b)
    && (forall a :: FromStart(cmp, nodes, AsIncluded(start), a) && (a == b || Before(cmp, nodes, a, b)) ==>
          UnderEnd(end, bytes(nodes[a].key)))
  }

  /** The end bound cuts the list once: no key beyond it comes before one within it. */
  ghost predicate EndAgrees<K, V>(cmp: Compare<K>, bytes: K -> Bytes, nodes: seq<Node<K, V>>,
                                  start: Bound<K>, end: Bound<Bytes>) {
    forall a, b ::
      (FromStart(cmp, nodes, AsIncluded(start), a) && FromStart(cmp, nodes, AsIncluded(start), b) &&
       Before(cmp, nodes, a, b) && UnderEnd(end, bytes(nodes[b].key))) ==> UnderEnd(end, bytes(nodes[a].key))
  }

  ghost predicate StartShown<K, V>(bytes: K -> Bytes, nodes: seq<Node<K, V>>, start: Bound<K>, end: Bound<Bytes>)
    requires KeysUnique(nodes)
  {
    start.Excluded? && start.key in Contents(nodes) && UnderEnd(end, bytes(start.key))
  }

  // ---- The iterator ----

  /** The longest prefix of nodes within the end bound. */
  ghost function TakeUnder<K, V>(bytes: K -> Bytes, nodes: seq<Node<K, V>>, c: seq<int>, end: Bound<Bytes>): (r: seq<int>)
    requires forall i :: 0 <= i < |c| ==> 0 <= c[i] < |nodes| && nodes[c[i]].Entry?
    ensures r <= c
    ensures forall i :: 0 <= i < |r| ==> UnderEnd(end, bytes(nodes[r[i]].key))
    ensures |r| < |c| ==> !UnderEnd(end, bytes(nodes[c[|r|]].key))
  {
    if c == [] || !UnderEnd(end, bytes(nodes[c[0]].key)) then []
    else
      var rest := TakeUnder(bytes, nodes, c[1..], end);
      assert forall i :: 0 <= i < |rest| ==> rest[i] == c[i + 1];
      [c[0]] + rest
  }

  /** Cut off at the first key beyond the end, the nodes from the start on are those that are shown. */
  lemma TakeUnderShown<K(!new), V>(cmp: Compare<K>, bytes: K -> Bytes, nodes: seq<Node<K, V>>, c: seq<int>,
                                   start: Bound<K>, end: Bound<Bytes>)
    requires TotalOrder(cmp) && StrictlyIncreasing(cmp, nodes, c)
    requires forall b :: b in c <==> FromStart(cmp, nodes, AsIncluded(start), b)
    requires forall i :: 0 <= i < |c| ==> 0 <= c[i] < |nodes| && nodes[c[i]].Entry?
    ensures StrictlyIncreasing(cmp, nodes, TakeUnder(bytes, nodes, c, end))
    ensures forall b :: b in TakeUnder(bytes, nodes, c, end) <==> Shown(cmp, bytes, nodes, start, end, b)
  {
    var r := TakeUnder(bytes, nodes, c, end);
    forall i | 0 <= i < |r| ensures Shown(cmp, bytes, nodes, start, end, r[i]) {
      assert r[i] == c[i] && c[i] in c;
      forall a | FromStart(cmp, nodes, AsIncluded(start), a) && (a == c[i] || Before(cmp, nodes, a, c[i]))
        ensures UnderEnd(end, bytes(nodes[a].key))
      {
        var j :| 0 <= j < |c| && c[j] == a;
        assert j <= i;
        assert r[j] == c[j];
      }
    }
    forall b | Shown(cmp, bytes, nodes, start, end, b) ensures b in r {
      var i :| 0 <= i < |c| && c[i] == b;
      assert |r| <= |c|;
      assert |r| < |c| ==> c[|r|] in c;
      assert i < |r|;
      assert r[i] == b;
    }
  }

  /** `RangeIter`. */
  class RangeIter<K(==, !new), V> {
    const list: SkipList<K, V>
    const bytes: K -> Bytes
    const end: Bound<Bytes>
    var start: Ptr

    ghost predicate Valid()
      reads this, list
    {
      list.Valid() && (start == NULL || (Linked(list.nodes, start, 0) && list.nodes[start].Entry?))
    }

    /** The nodes still to be returned. */
    ghost function Remaining(): seq<int>
      reads this, list
      requires Valid()
    {
      RestEntries(list.cmp, list.nodes, start);
      TakeUnder(bytes, list.nodes, Rest(list.cmp, list.nodes, start), end)
    }

    /** `range`. */
    constructor (list: SkipList<K, V>, bytes: K -> Bytes, startBound: Bound<K>, endBound: Bound<Bytes>)
      requires list.Valid()
      ensures Valid() && this.list == list && this.bytes == bytes && this.end == endBound
      ensures startBound.Unbounded? ==> start == list.nodes[SENTINEL].next[0]
      ensures !startBound.Unbounded? ==> FirstNotBelow(list.cmp, list.nodes, 0, startBound.key, start)
    {
      this.list := list;
      this.bytes := bytes;
      this.end := endBound;
      start := NULL;
      new;
      match startBound {
        case Unbounded =>
          RestFromFirst(list.cmp, list.nodes);
          start := list.nodes[SENTINEL].next[0];
        case _ =>
          var t := list.Search(startBound.key);
          start := t.succs[0];
      }
    }

    lemma RemainingStep()
      requires Valid() && start != NULL
      ensures var after := list.nodes[start].next[0];
              && (after == NULL || (Linked(list.nodes, after, 0) && list.nodes[after].Entry?))
              && (forall i :: 0 <= i < |Rest(list.cmp, list.nodes, after)| ==>
                    var b := Rest(list.cmp, list.nodes, after)[i];
                    0 <= b < |list.nodes| && list.nodes[b].Entry?)
              && Remaining() == if !UnderEnd(end, bytes(list.nodes[start].key)) then []
                                else [start] + TakeUnder(bytes, list.nodes, Rest(list.cmp, list.nodes, after), end)
    {
      RestStep(list.cmp, list.nodes, start);
      RestEntries(list.cmp, list.nodes, list.nodes[start].next[0]);
      assert Rest(list.cmp, list.nodes, start)[1..] == Rest(list.cmp, list.nodes, list.nodes[start].next[0]);
    }

    method Next() returns (r: Ptr)
      requires Valid()
      modifies this
      ensures Valid()
      ensures old(Remaining()) == [] ==> r == NULL && Remaining() == []
      ensures old(Remaining()) != [] ==> r != NULL && old(Remaining()) == [r] + Remaining()
    {
      if start == NULL {
        return NULL;
      }
      RemainingStep();
      var key := bytes(list.nodes[start].key);
      match end {
        case Excluded(b) =>
          if CompareBytes(key, b) != Less { return NULL; }
        case Included(b) =>
          if CompareBytes(key, b) == Greater { return NULL; }
        case Unbounded =>
      }
      r := start;
      start := list.nodes[start].next[0];
    }

    /** Next until null. */
    method Collect() returns (out: seq<int>)
      requires Valid()
      modifies this
      ensures Valid() && out == old(Remaining())
    {
      out := [];
      ghost var all := Remaining();
      var r := Next();
      ghost var rest: seq<int> := if r == NULL then [] else [r] + Remaining();
      while r != NULL
        invariant Valid() && all == out + rest
        invariant rest == if r == NULL then [] else [r] + Remaining()
        decreases |rest|
      {
        MoveFirst(out, r, Remaining());
        out := out + [r];
        rest := Remaining();
        r := Next();
      }
    }
  }

  lemma MoveFirst(out: seq<int>, r: int, rest: seq<int>)
    ensures out + ([r] + rest) == (out + [r]) + rest
  {
  }

  lemma RestEntries<K(!new), V>(cmp: Compare<K>, nodes: seq<Node<K, V>>, p: Ptr)
    requires TotalOrder(cmp) && Ordered(cmp, nodes) && (p == NULL || (Linked(nodes, p, 0) && nodes[p].Entry?))
    ensures forall i :: 0 <= i < |Rest(cmp, nodes, p)| ==>
              0 <= Rest(cmp, nodes, p)[i] < |nodes| && nodes[Rest(cmp, nodes, p)[i]].Entry?
  {
  }

  /** The range iterator from its start to its end, on a list of any order: the nodes from the start bound, read
      as included, up to the first key beyond the end bound. */
  method CollectRange<K(==, !new), V>(list: SkipList<K, V>, bytes: K -> Bytes, startBound: Bound<K>, endBound: Bound<Bytes>)
    returns (out: seq<int>)
    requires list.Valid()
    ensures StrictlyIncreasing(list.cmp, list.nodes, out)
    ensures forall b :: b in out <==> Shown(list.cmp, bytes, list.nodes, startBound, endBound, b)
  {
    var iter := new RangeIter(list, bytes, startBound, endBound);
    RestFromBound(list.cmp, list.nodes, startBound, iter.start);
    RestEntries(list.cmp, list.nodes, iter.start);
    TakeUnderShown(list.cmp, bytes, list.nodes, Rest(list.cmp, list.nodes, iter.start), startBound, endBound);
    out := iter.Collect();
  }

  lemma RestFromBound<K(!new), V>(cmp: Compare<K>, nodes: seq<Node<K, V>>, start: Bound<K>, p: Ptr)
    requires TotalOrder(cmp) && Ordered(cmp, nodes)
    requires if start.Unbounded? then p == nodes[SENTINEL].next[0] else FirstNotBelow(cmp, nodes, 0, start.key, p)
    ensures p == NULL || (Linked(nodes, p, 0) && nodes[p].Entry?)
    ensures StrictlyIncreasing(cmp, nodes, Rest(cmp, nodes, p))
    ensures forall b :: b in Rest(cmp, nodes, p) <==> FromStart(cmp, nodes, AsIncluded(start), b)
  {
    if start.Unbounded? {
      RestFromFirst(cmp, nodes);
    } else {
      RestFromKey(cmp, nodes, start.key, p);
    }
    RestSorted(cmp, nodes, p);
  }

  /** Nothing is shown that is beyond a bound: an excluded end is not shown itself. */
  lemma ShownWithin<K(!new), V>(cmp: Compare<K>, bytes: K -> Bytes, nodes: seq<Node<K, V>>,
                                start: Bound<K>, end: Bound<Bytes>, b: int)
    requires Shown(cmp, bytes, nodes, start, end, b)
    ensures Linked(nodes, b, 0) && nodes[b].Entry?
    ensures end.Excluded? ==> CompareBytes(bytes(nodes[b].key), end.key) == Less
    ensures end.Included? ==> CompareBytes(bytes(nodes[b].key), end.key) in {Less, Equal}
    ensures !start.Unbounded? ==> cmp(nodes[b].key, start.key) in {Equal, Greater}
  {
    assert UnderEnd(end, bytes(nodes[b].key));
  }

  /** The range asked for is the entries at or after an included start, after an excluded one, up to an included
      end, and before an excluded one. */
  lemma RangeSetMeans<K(!new), V>(cmp: Compare<K>, bytes: K -> Bytes, nodes: seq<Node<K, V>>,
                                  start: Bound<K>, end: Bound<Bytes>, out: seq<int>, b: int)
    requires RangeSet(cmp, bytes, nodes, start, end, out)
    ensures b in out <==>
            && Linked(nodes, b, 0) && nodes[b].Entry?
            && (start.Included? ==> cmp(nodes[b].key, start.key) in {Equal, Greater})
            && (start.Excluded? ==> cmp(nodes[b].key, start.key) == Greater)
            && (end.Included? ==> CompareBytes(bytes(nodes[b].key), end.key) in {Less, Equal})
            && (end.Excluded? ==> CompareBytes(bytes(nodes[b].key), end.key) == Less)
  {
    assert b in out <==> FromStart(cmp, nodes, start, b) && UnderEnd(end, bytes(nodes[b].key));
  }

  // ---- When that is the range asked for ----

  /** What is shown is the range asked for if and only if the end bound cuts the list once and the start key is
      not excluded, stored and within the end. */
  lemma RangeExactIff<K(!new), V>(cmp: Compare<K>, bytes: K -> Bytes, nodes: seq<Node<K, V>>,
                                  start: Bound<K>, end: Bound<Bytes>, out: seq<int>)
    requires TotalOrder(cmp) && Ordered(cmp, nodes) && StrictlyIncreasing(cmp, nodes, out)
    requires forall b :: b in out <==> Shown(cmp, bytes, nodes, start, end, b)
    ensures RangeSet(cmp, bytes, nodes, start, end, out) <==>
            EndAgrees(cmp, bytes, nodes, start, end) && !StartShown(bytes, nodes, start, end)
  {
    StartsDiffer(cmp, nodes, start);
    if StartShown(bytes, nodes, start, end) {
      var a := ContentsWitness(nodes, start.key);
      assert a !in out || !FromStart(cmp, nodes, start, a);
      if EndAgrees(cmp, bytes, nodes, start, end) { assert Shown(cmp, bytes, nodes, start, end, a); }
    } else if EndAgrees(cmp, bytes, nodes, start, end) {
      ShownIsRange(cmp, bytes, nodes, start, end);
    } else {
      var a, b :| FromStart(cmp, nodes, AsIncluded(start), a) && FromStart(cmp, nodes, AsIncluded(start), b) &&
                  Before(cmp, nodes, a, b) && UnderEnd(end, bytes(nodes[b].key)) && !UnderEnd(end, bytes(nodes[a].key));
      assert b !in out;
      assert FromStart(cmp, nodes, start, b);
    }
  }

  /** The two readings of the start bound differ in the bound's own key alone, which no key of the list is
      below. */
  lemma StartsDiffer<K(!new), V>(cmp: Compare<K>, nodes: seq<Node<K, V>>, start: Bound<K>)
    requires TotalOrder(cmp)
    ensures forall b :: FromStart(cmp, nodes, AsIncluded(start), b) <==>
              FromStart(cmp, nodes, start, b) ||
              (start.Excluded? && Linked(nodes, b, 0) && nodes[b].Entry? && nodes[b].key == start.key)
    ensures forall a, b :: FromStart(cmp, nodes, AsIncluded(start), a) && Linked(nodes, b, 0) && Before(cmp, nodes, a, b) ==>
              FromStart(cmp, nodes, start, b)
  {
    if start.Excluded? {
      assert cmp(start.key, start.key) == Equal;
    }
  }

  lemma ShownIsRange<K(!new), V>(cmp: Compare<K>, bytes: K -> Bytes, nodes: seq<Node<K, V>>, start: Bound<K>, end: Bound<Bytes>)
    requires TotalOrder(cmp) && Ordered(cmp, nodes)
    requires EndAgrees(cmp, bytes, nodes, start, end) && !StartShown(bytes, nodes, start, end)
    ensures forall b :: Shown(cmp, bytes, nodes, start, end, b) <==>
              FromStart(cmp, nodes, start, b) && UnderEnd(end, bytes(nodes[b].key))
  {
    StartsDiffer(cmp, nodes, start);
    forall b ensures Shown(cmp, bytes, nodes, start, end, b) <==>
                     FromStart(cmp, nodes, start, b) && UnderEnd(end, bytes(nodes[b].key))
    {
      if FromStart(cmp, nodes, AsIncluded(start), b) && !FromStart(cmp, nodes, start, b) {
        ContentsAt(nodes, b);
      }
    }
  }

  // ---- When the end bound agrees with the order ----

  /** The list is ascending by raw bytes too. */
  ghost predicate ByteOrdered<K, V>(cmp: Compare<K>, bytes: K -> Bytes, nodes: seq<Node<K, V>>) {
    forall a, b ::
      (FromStart(cmp, nodes, Unbounded, a) && FromStart(cmp, nodes, Unbounded, b) && Before(cmp, nodes, a, b)) ==>
        CompareBytes(bytes(nodes[a].key), bytes(nodes[b].key)) != Greater
  }

  lemma UnderEndDownward(end: Bound<Bytes>, a: Bytes, b: Bytes)
    requires CompareBytes(a, b) != Greater && UnderEnd(end, b)
    ensures UnderEnd(end, a)
  {
    CompareBytesEqual(a, b);
    if !end.Unbounded? {
      CompareBytesEqual(b, end.key);
      if CompareBytes(a, b) == Less && CompareBytes(b, end.key) == Less { CompareBytesTransitive(a, b, end.key); }
    }
  }

  /** Every end bound cuts the list once if and only if the list is ascending by raw bytes. */
  lemma EveryEndAgreesIff<K(!new), V>(cmp: Compare<K>, bytes: K -> Bytes, nodes: seq<Node<K, V>>)
    ensures (forall end :: EndAgrees(cmp, bytes, nodes, Unbounded, end)) <==> ByteOrdered(cmp, bytes, nodes)
  {
    if ByteOrdered(cmp, bytes, nodes) {
      forall end ensures EndAgrees(cmp, bytes, nodes, Unbounded, end) {
        forall a, b | FromStart(cmp, nodes, Unbounded, a) && FromStart(cmp, nodes, Unbounded, b) &&
                      Before(cmp, nodes, a, b) && UnderEnd(end, bytes(nodes[b].key))
          ensures UnderEnd(end, bytes(nodes[a].key))
        {
          UnderEndDownward(end, bytes(nodes[a].key), bytes(nodes[b].key));
        }
      }
    } else {
      var a, b :| FromStart(cmp, nodes, Unbounded, a) && FromStart(cmp, nodes, Unbounded, b) && Before(cmp, nodes, a, b) &&
                  CompareBytes(bytes(nodes[a].key), bytes(nodes[b].key)) == Greater;
      var end := Included(bytes(nodes[b].key));
      CompareBytesEqual(bytes(nodes[b].key), bytes(nodes[b].key));
      assert UnderEnd(end, bytes(nodes[b].key)) && !UnderEnd(end, bytes(nodes[a].key));
      assert !EndAgrees(cmp, bytes, nodes, Unbounded, end);
    }
  }

  /** A list kept in byte order has that property. */
  lemma ByteListAgrees<V>(nodes: seq<Node<Bytes, V>>)
    ensures ByteOrdered(CompareBytes, k => k, nodes)
  {
  }

  lemma {:induction false} SharedPrefix(p: Bytes, x: Bytes, y: Bytes)
    ensures CompareBytes(p + x, p + y) == CompareBytes(x, y)
  {
    if p == [] {
      assert p + x == x && p + y == y;
    } else {
      assert (p + x)[1..] == p[1..] + x && (p + y)[1..] == p[1..] + y;
      SharedPrefix(p[1..], x, y);
    }
  }

  lemma {:induction false} DecidedEarly(a: Bytes, b: Bytes, x: Bytes, y: Bytes)
    requires !(a <= b) && !(b <= a)
    ensures CompareBytes(a + x, b + y) == CompareBytes(a, b)
  {
    assert a != [] && b != [];
    if a[0] == b[0] {
      assert a == [a[0]] + a[1..] && b == [b[0]] + b[1..];
      assert (a + x)[1..] == a[1..] + x && (b + y)[1..] == b[1..] + y;
      DecidedEarly(a[1..], b[1..], x, y);
    }
  }

  function KeyBytes(k: EncodedKey): Bytes { k }

  /** The memtable's order and raw byte order on internal keys: opposite on the versions of one user key, the same
      when neither user key begins with the other. */
  lemma InternalAgainstRaw(a: EncodedKey, b: EncodedKey)
    ensures UserPart(a) == UserPart(b) ==> InternalCompare(a, b) == CompareBytes(KeyBytes(b), KeyBytes(a))
    ensures !(UserPart(a) <= UserPart(b)) && !(UserPart(b) <= UserPart(a)) ==>
              InternalCompare(a, b) == CompareBytes(KeyBytes(a), KeyBytes(b))
  {
    assert a == UserPart(a) + TrailerPart(a) && b == UserPart(b) + TrailerPart(b);
    CompareBytesEqual(UserPart(a), UserPart(b));
    if UserPart(a) == UserPart(b) {
      SharedPrefix(UserPart(a), TrailerPart(b), TrailerPart(a));
    } else if !(UserPart(a) <= UserPart(b)) && !(UserPart(b) <= UserPart(a)) {
      DecidedEarly(UserPart(a), UserPart(b), TrailerPart(a), TrailerPart(b));
    }
  }

  /** Two versions of one user key are enough for some end bound not to agree with the memtable's order. */
  lemma VersionsDisagree<V>(nodes: seq<Node<EncodedKey, V>>, a: int, b: int)
    requires Linked(nodes, a, 0) && nodes[a].Entry? && Linked(nodes, b, 0) && nodes[b].Entry?
    requires nodes[a].key != nodes[b].key && UserPart(nodes[a].key) == UserPart(nodes[b].key)
    ensures !ByteOrdered(InternalCompare, KeyBytes, nodes)
  {
    var x, y := nodes[a].key, nodes[b].key;
    InternalCompareEqual(x, y);
    InternalCompareReverse(x, y);
    InternalAgainstRaw(x, y);
    InternalAgainstRaw(y, x);
    CompareBytesReverse(x, y);
    assert FromStart(InternalCompare, nodes, Unbounded, a) && FromStart(InternalCompare, nodes, Unbounded, b);
    if InternalCompare(x, y) == Less {
      assert Before(InternalCompare, nodes, a, b);
    } else {
      assert Before(InternalCompare, nodes, b, a);
    }
  }

  /** With one version of each user key and no user key the beginning of another, every end bound agrees. */
  lemma PrefixFreeAgrees<V>(nodes: seq<Node<EncodedKey, V>>)
    requires forall a, b :: Linked(nodes, a, 0) && Linked(nodes, b, 0) && nodes[a].Entry? && nodes[b].Entry? && a != b ==>
               !(UserPart(nodes[a].key) <= UserPart(nodes[b].key))
    ensures ByteOrdered(InternalCompare, KeyBytes, nodes)
  {
    forall a, b | FromStart(InternalCompare, nodes, Unbounded, a) && FromStart(InternalCompare, nodes, Unbounded, b) &&
                  Before(InternalCompare, nodes, a, b)
      ensures CompareBytes(KeyBytes(nodes[a].key), KeyBytes(nodes[b].key)) != Greater
    {
      InternalAgainstRaw(nodes[a].key, nodes[b].key);
    }
  }

  // ---- Two lists on which `range` does not show the range ----

  /** One key, and the range of everything after it: the key itself is shown. */
  method ExcludedStartShown(k: Bytes) returns (list: SkipList<Bytes, Bytes>, node: int, out: seq<int>)
    ensures list.Valid() && Contents(list.nodes) == map[k := []]
    ensures node in out && 0 <= node < |list.nodes| && list.nodes[node].Entry? && list.nodes[node].key == k
    ensures !OverStart(CompareBytes, Excluded(k), k)
  {
    BytesTotalOrder();
    list := new SkipList(CompareBytes);
    node := list.Insert(k, [], 1);
    out := CollectRange(list, (b: Bytes) => b, Excluded(k), Unbounded);
    CompareBytesEqual(k, k);
    assert Shown(list.cmp, (b: Bytes) => b, list.nodes, Excluded(k), Unbounded, node);
  }

  method TwoVersions(u: Bytes) returns (list: SkipList<EncodedKey, Bytes>, node: int)
    ensures list.Valid() && list.cmp == InternalCompare
    ensures Contents(list.nodes) == map[Encode(u, 1, Put) := []][Encode(u, 2, Put) := []]
    ensures Linked(list.nodes, node, 0) && list.nodes[node].Entry? && list.nodes[node].key == Encode(u, 2, Put)
  {
    NewerIsBeyond(u);
    InternalTotalOrder();
    list := new SkipList(InternalCompare);
    var _ := list.Insert(Encode(u, 1, Put), [], 1);
    node := list.Insert(Encode(u, 2, Put), [], 1);
  }

  /** Two versions of one user key in the memtable's order, and the range up to the older one's bytes: nothing is
      shown, although the older one is within it. */
  method OlderVersionMissed(u: Bytes) returns (list: SkipList<EncodedKey, Bytes>, out: seq<int>)
    ensures list.Valid() && list.cmp == InternalCompare
    ensures Encode(u, 1, Put) in Contents(list.nodes) && UnderEnd(Included(Encode(u, 1, Put)), Encode(u, 1, Put))
    ensures forall b :: b !in out
  {
    var node;
    list, node := TwoVersions(u);
    out := CollectRange(list, KeyBytes, Unbounded, Included(Encode(u, 1, Put)));
    NewerIsBeyond(u);
    NothingShown(list.nodes, u, node);
  }

  lemma NothingShown(nodes: seq<Node<EncodedKey, Bytes>>, u: Bytes, node: int)
    requires KeysUnique(nodes) && Contents(nodes).Keys <= {Encode(u, 2, Put), Encode(u, 1, Put)}
    requires Linked(nodes, node, 0) && nodes[node].Entry? && nodes[node].key == Encode(u, 2, Put)
    ensures forall b :: !Shown(InternalCompare, KeyBytes, nodes, Unbounded, Included(Encode(u, 1, Put)), b)
  {
    var end: Bound<Bytes> := Included(Encode(u, 1, Put));
    NewerIsBeyond(u);
    assert FromStart(InternalCompare, nodes, Unbounded, node);
    forall b ensures !Shown(InternalCompare, KeyBytes, nodes, Unbounded, end, b) {
      if FromStart(InternalCompare, nodes, Unbounded, b) {
        ContentsAt(nodes, b);
        assert b == node || Before(InternalCompare, nodes, node, b);
      }
    }
  }

  lemma NewerIsBeyond(u: Bytes)
    ensures var newer, older := Encode(u, 2, Put), Encode(u, 1, Put);
            && newer != older && InternalCompare(newer, older) == Less
            && UnderEnd(Included(older), older) && !UnderEnd(Included(older), newer)
  {
    var newer, older := Encode(u, 2, Put), Encode(u, 1, Put);
    DecodeEncode(u, 2, Put);
    DecodeEncode(u, 1, Put);
    InternalCompareIsLogical(newer, older);
    EncodedParts(u, 2, Put);
    EncodedParts(u, 1, Put);
    InternalAgainstRaw(newer, older);
    CompareBytesReverse(newer, older);
    CompareBytesEqual(older, older);
  }
}
