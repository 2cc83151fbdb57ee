/** The memtable: snapshot reads over the skip list of internal keys, against a scan of the whole history. */
module Memtable {
  import opened Ordering
  import opened InternalKey
  import opened Towers
  import opened Chains
  import opened ConcurrentSkipList
  import opened SkipListRuns
  import opened SkipList

  datatype Version = Version(key: EncodedKey, value: Bytes)

  datatype MemReturn = NotFound | Merged | Deleted | Value(value: Bytes) | Panics

  // ---- The specification: one pass over everything ever inserted ----

  /** The version belongs to the lookup's user key and is not newer than the lookup. */
  predicate Visible(v: Version, lookup: EncodedKey) {
    var a, b := Decode(v.key), Decode(lookup);
    a.userKey == b.userKey && (a.seqNo < b.seqNo || (a.seqNo == b.seqNo && a.op <= b.op))
  }

  predicate Newer(a: EncodedKey, b: EncodedKey) {
    Decode(a).seqNo > Decode(b).seqNo || (Decode(a).seqNo == Decode(b).seqNo && Decode(a).op > Decode(b).op)
  }

  datatype MaybeVersion = Missing | Found(v: Version)

  /** The newest visible version of a history; of two inserts of one internal key the first counts. */
  function Newest(history: seq<Version>, lookup: EncodedKey): MaybeVersion {
    if history == [] then Missing
    else
      var best := Newest(history[..|history| - 1], lookup);
      var v := history[|history| - 1];
      if Visible(v, lookup) && (best.Missing? || Newer(v.key, best.v.key)) then Found(v) else best
  }

  /** The answer a version stands for. A kind byte that is not Put, Delete or Merge stops the program. */
  function Interpret(v: Version): MemReturn {
    match KindFromRaw(Decode(v.key).op)
    case Known(Put) => Value(v.value)
    case Known(Delete) => Deleted
    case Known(Merge) => Merged
    case _ => Panics
  }

  /** The answer a stored kind byte asks for. */
  predicate IsAnswer(v: Version, r: MemReturn) {
    var op := Decode(v.key).op;
    && (op == 1 ==> r == Value(v.value))
    && (op == 2 ==> r == Deleted)
    && (op == 3 ==> r == Merged)
    && (op !in {1, 2, 3} ==> r == Panics)
  }

  function ScanHistory(history: seq<Version>, lookup: EncodedKey): MemReturn {
    match Newest(history, lookup)
    case Missing => NotFound
    case Found(v) => Interpret(v)
  }

  /** The mapping a history of inserts leaves behind. */
  function Replay(history: seq<Version>): map<EncodedKey, Bytes> {
    if history == [] then map[]
    else KeepFirst(Replay(history[..|history| - 1]), history[|history| - 1].key, history[|history| - 1].value)
  }

  // ---- Facts about the specification ----

  lemma ReplaySnoc(history: seq<Version>, v: Version)
    ensures Replay(history + [v]) == KeepFirst(Replay(history), v.key, v.value)
  {
    assert (history + [v])[..|history + [v]| - 1] == history;
  }

  lemma {:induction false} ReplayKeys(history: seq<Version>)
    ensures forall i :: 0 <= i < |history| ==> history[i].key in Replay(history)
    ensures forall k :: k in Replay(history) ==> exists i :: 0 <= i < |history| && history[i].key == k
  {
    if history != [] {
      var front := history[..|history| - 1];
      ReplayKeys(front);
      forall i | 0 <= i < |history| ensures history[i].key in Replay(history) {
        assert i < |front| ==> history[i] == front[i];
      }
      forall k | k in Replay(history) ensures exists i :: 0 <= i < |history| && history[i].key == k {
        if k in Replay(front) {
          var i :| 0 <= i < |front| && front[i].key == k;
          assert history[i].key == k;
        } else {
          assert history[|history| - 1].key == k;
        }
      }
    }
  }

  lemma NewerTransitive(a: EncodedKey, b: EncodedKey, c: EncodedKey)
    requires !Newer(b, a) && Newer(c, a)
    ensures !Newer(b, c)
  {
  }

  /** The scan finds a visible version, as the map holds it, that no visible version is newer than; and it
      finds one exactly when there is one. */
  lemma {:induction false} NewestIsMaximal(history: seq<Version>, lookup: EncodedKey)
    ensures var r := Newest(history, lookup);
            && (r.Missing? ==> forall i :: 0 <= i < |history| ==> !Visible(history[i], lookup))
            && (r.Found? ==>
                  && Visible(r.v, lookup)
                  && r.v.key in Replay(history) && Replay(history)[r.v.key] == r.v.value
                  && forall i :: 0 <= i < |history| && Visible(history[i], lookup) ==> !Newer(history[i].key, r.v.key))
  {
    if history != [] {
      var front, v := history[..|history| - 1], history[|history| - 1];
      NewestIsMaximal(front, lookup);
      var best, r := Newest(front, lookup), Newest(history, lookup);
      forall i | 0 <= i < |history| && Visible(history[i], lookup)
        ensures r.Found? && !Newer(history[i].key, r.v.key)
      {
        if i < |front| {
          assert history[i] == front[i];
          if r != best && best.Found? { NewerTransitive(best.v.key, history[i].key, v.key); }
        }
      }
      if r.Found? && r != best { FreshNewest(front, v, lookup); }
    }
  }

  lemma FreshNewest(front: seq<Version>, v: Version, lookup: EncodedKey)
    requires Visible(v, lookup)
    requires forall i :: 0 <= i < |front| && Visible(front[i], lookup) ==>
               Newest(front, lookup).Found? && !Newer(front[i].key, Newest(front, lookup).v.key)
    requires Newest(front, lookup).Missing? || Newer(v.key, Newest(front, lookup).v.key)
    ensures v.key !in Replay(front)
  {
    ReplayKeys(front);
    assert forall i :: 0 <= i < |front| && front[i].key == v.key ==> Visible(front[i], lookup);
  }

  /** Position in the list and age agree: among one user key the newer internal key comes first. */
  lemma VisibleIsNotBelow(v: Version, lookup: EncodedKey)
    ensures Visible(v, lookup) <==>
            UserPart(v.key) == UserPart(lookup) && InternalCompare(v.key, lookup) != Less
  {
    InternalCompareIsLogical(v.key, lookup);
  }

  lemma NewerComesFirst(a: EncodedKey, b: EncodedKey)
    requires UserPart(a) == UserPart(b)
    ensures Newer(a, b) <==> InternalCompare(a, b) == Less
  {
    InternalCompareIsLogical(a, b);
  }

  lemma UserBetween(lo: EncodedKey, mid: EncodedKey, hi: EncodedKey)
    requires InternalCompare(mid, lo) != Less && InternalCompare(hi, mid) != Less
    requires UserPart(lo) == UserPart(hi)
    ensures UserPart(mid) == UserPart(lo)
  {
    var u, w := UserPart(lo), UserPart(mid);
    CompareBytesEqual(w, u);
    CompareBytesEqual(u, w);
    CompareBytesReverse(u, w);
  }

  /** The first node not below the lookup key answers the lookup, whatever history built the list. */
  lemma FirstNotBelowAnswers(nodes: seq<Node<EncodedKey, Bytes>>, history: seq<Version>, lookup: EncodedKey, s: Ptr)
    requires TotalOrder(InternalCompare) && Ordered(InternalCompare, nodes)
    requires Contents(nodes) == Replay(history)
    requires FirstNotBelow(InternalCompare, nodes, 0, lookup, s)
    ensures s == NULL ==> Newest(history, lookup) == Missing
    ensures s != NULL ==>
              && nodes[s].Entry?
              && Newest(history, lookup) ==
                 if UserPart(nodes[s].key) == UserPart(lookup) then Found(Version(nodes[s].key, nodes[s].value)) else Missing
  {
    NewestIsMaximal(history, lookup);
    var r := Newest(history, lookup);
    if r.Found? { VersionInList(nodes, history, lookup, s, r.v); }
    if s != NULL && UserPart(nodes[s].key) == UserPart(lookup) {
      ContentsAt(nodes, s);
      ReplayKeys(history);
      var i :| 0 <= i < |history| && history[i].key == nodes[s].key;
      VisibleIsNotBelow(history[i], lookup);
      assert !Below(InternalCompare, nodes, s, lookup);
      assert Visible(history[i], lookup);
      VisibleIsNotBelow(r.v, lookup);
      NewerComesFirst(nodes[s].key, r.v.key);
      assert !Newer(nodes[s].key, r.v.key);
      assert InternalCompare(nodes[s].key, r.v.key) != Less;
      assert nodes[s].key == r.v.key;
    }
  }

  /** A visible version lies at or after the first node not below the lookup, which then has its user key. */
  lemma VersionInList(nodes: seq<Node<EncodedKey, Bytes>>, history: seq<Version>, lookup: EncodedKey, s: Ptr, v: Version)
    requires TotalOrder(InternalCompare) && Ordered(InternalCompare, nodes)
    requires FirstNotBelow(InternalCompare, nodes, 0, lookup, s)
    requires Visible(v, lookup) && v.key in Contents(nodes) && Contents(nodes)[v.key] == v.value
    ensures s != NULL && nodes[s].Entry? && UserPart(nodes[s].key) == UserPart(lookup)
    ensures nodes[s].key == v.key || InternalCompare(nodes[s].key, v.key) == Less
    ensures nodes[s].key == v.key ==> nodes[s].value == v.value
  {
    VisibleIsNotBelow(v, lookup);
    var a := ContentsWitness(nodes, v.key);
    assert !Below(InternalCompare, nodes, a, lookup);
    InternalCompareReverse(nodes[s].key, v.key);
    UserBetween(lookup, nodes[s].key, v.key);
  }

  // ---- A node's bytes ----

  /** `key.len() as u16`. */
  function StoredKeyLength(key: Bytes): nat { |key| % 0x1_0000 }

  /** `value.len() as u32`. */
  function StoredValueLength(value: Bytes): nat { |value| % 0x1_0000_0000 }

  function Overwrite(memory: Bytes, at: nat, s: Bytes): Bytes
    requires at + |s| <= |memory|
  {
    memory[..at] + s + memory[at + |s|..]
  }

  /** Memory from a node's key on, after the whole key and then the whole value are copied to where the stored
      lengths put them. */
  function Filled(memory: Bytes, key: Bytes, value: Bytes): Bytes
    requires |key| + |value| <= |memory|
  {
    Overwrite(Overwrite(memory, 0, key), StoredKeyLength(key), value)
  }

  predicate Storable(key: Bytes, value: Bytes) {
    StoredKeyLength(key) == |key| && StoredValueLength(value) == |value|
  }

  /** A node gives back the key and the value it was filled with if and only if their lengths fit its 16 and 32
      bits. */
  lemma NodeReadsBackIff(memory: Bytes, key: Bytes, value: Bytes)
    requires |key| + |value| <= |memory|
    ensures var node, k := Filled(memory, key, value), StoredKeyLength(key);
            node[..k] == key && node[k..k + StoredValueLength(value)] == value <==> |key| <= 0xffff && |value| <= 0xffff_ffff
    ensures Storable(key, value) <==> |key| <= 0xffff && |value| <= 0xffff_ffff
  {
    var k := StoredKeyLength(key);
    assert |Overwrite(memory, 0, key)| == |memory|;
    if k == |key| {
      assert Overwrite(memory, 0, key)[..k] == key;
      assert Filled(memory, key, value)[..k] == key;
      assert Filled(memory, key, value)[k..k + |value|] == value;
    }
  }

  // ---- The memtable ----

  class Memtable {
    const list: SkipList<EncodedKey, Bytes>
    ghost var history: seq<Version>

    ghost predicate Valid()
      reads this, list
    {
      list.Valid() && list.cmp == InternalCompare && Contents(list.nodes) == Replay(history)
    }

    constructor ()
      ensures Valid() && history == [] && fresh(list)
    {
      InternalTotalOrder();
      list := new SkipList(InternalCompare);
      history := [];
    }

    /** `insert`: a key that is stored already makes no node. */
    method Insert(key: EncodedKey, value: Bytes, height: nat)
      requires Valid() && (Storable(key, value) || key in Replay(history)) && 1 <= height <= MAX_HEIGHT
      modifies this, list
      ensures Valid() && history == old(history) + [Version(key, value)]
    {
      ReplaySnoc(history, Version(key, value));
      var _ := list.Insert(key, value, height);
      history := history + [Version(key, value)];
    }

    /** `insert_direct`: encodes the internal key straight into the new node. */
    method InsertDirect(userKey: Bytes, seqNo: nat, kind: Kind, value: Bytes, height: nat)
      requires Valid() && Storable(Encode(userKey, seqNo, kind), value) && seqNo < SEQ_LIMIT && 1 <= height <= MAX_HEIGHT
      modifies this, list
      ensures Valid() && history == old(history) + [Version(Encode(userKey, seqNo, kind), value)]
    {
      var key := Encode(userKey, seqNo, kind);
      var _ := list.InsertWith(key, value, height);
      ReplaySnoc(history, Version(key, value));
      history := history + [Version(key, value)];
    }

    /** `first_ge`. */
    method FirstGe(key: EncodedKey) returns (node: Ptr)
      requires Valid()
      ensures FirstNotBelow(InternalCompare, list.nodes, 0, key, node)
    {
      var t := list.Search(key);
      node := t.succs[0];
    }

    /** `get`: the answer is that of a scan of the whole history, for every history of inserts. */
    method Get(key: EncodedKey) returns (r: MemReturn)
      requires Valid()
      ensures r == ScanHistory(history, key)
      ensures match Newest(history, key)
              case Missing => r == NotFound
              case Found(v) => IsAnswer(v, r)
    {
      var node := FirstGe(key);
      FirstNotBelowAnswers(list.nodes, history, key, node);
      if node != NULL {
        var stored, lookup := Decode(list.nodes[node].key), Decode(key);
        if stored.userKey != lookup.userKey {
          return NotFound;
        }
        match KindFromRaw(stored.op) {
          case Known(kind) =>
            match kind {
              case Put => r := Value(list.nodes[node].value);
              case Delete => r := Deleted;
              case Merge => r := Merged;
              case _ => r := Panics;
            }
          case Invalid(_) => r := Panics;
        }
      } else {
        r := NotFound;
      }
    }
  }

  // ---- Snapshot reads ----

  predicate IsVersionOf(v: Version, u: Bytes, s: nat) {
    Decode(v.key).userKey == u && Decode(v.key).seqNo <= s
  }

  /** Reading user key u at snapshot s: the result is the kind and value of a version of u with the greatest
      sequence number not above s, and NotFound exactly when u has no such version. */
  lemma SnapshotRead(history: seq<Version>, u: Bytes, s: nat)
    requires s < SEQ_LIMIT
    ensures var lookup := Encode(u, s, Max);
            var r := Newest(history, lookup);
            && (r.Missing? <==> forall i :: 0 <= i < |history| ==> !IsVersionOf(history[i], u, s))
            && (r.Found? ==>
                  && IsVersionOf(r.v, u, s)
                  && IsAnswer(r.v, ScanHistory(history, lookup))
                  && r.v.key in Replay(history) && Replay(history)[r.v.key] == r.v.value
                  && forall i :: 0 <= i < |history| && IsVersionOf(history[i], u, s) ==>
                       Decode(history[i].key).seqNo <= Decode(r.v.key).seqNo)
            && (ScanHistory(history, lookup) == NotFound <==> r.Missing?)
  {
    NewestOfUser(history, u, s);
  }

  lemma NewestOfUser(history: seq<Version>, u: Bytes, s: nat)
    requires s < SEQ_LIMIT
    ensures var r := Newest(history, Encode(u, s, Max));
            && (r.Missing? <==> forall i :: 0 <= i < |history| ==> !IsVersionOf(history[i], u, s))
            && (r.Found? ==>
                  && IsVersionOf(r.v, u, s)
                  && r.v.key in Replay(history) && Replay(history)[r.v.key] == r.v.value
                  && forall i :: 0 <= i < |history| && IsVersionOf(history[i], u, s) ==> !Newer(history[i].key, r.v.key))
  {
    var lookup := Encode(u, s, Max);
    NewestIsMaximal(history, lookup);
    forall i | 0 <= i < |history| ensures Visible(history[i], lookup) <==> IsVersionOf(history[i], u, s) {
      VisibleIffVersion(history[i], u, s);
    }
    if Newest(history, lookup).Found? { VisibleIffVersion(Newest(history, lookup).v, u, s); }
  }

  /** The version is in the history, and it is the first of its key there. */
  ghost predicate FirstWritten(history: seq<Version>, i: nat, v: Version) {
    i < |history| && history[i] == v && forall j :: 0 <= j < i ==> history[j].key != v.key
  }

  lemma {:induction false} FirstIsKept(history: seq<Version>, i: nat, v: Version)
    requires FirstWritten(history, i, v)
    ensures v.key in Replay(history) && Replay(history)[v.key] == v.value
  {
    var n := |history| - 1;
    if i < n {
      FirstIsKept(history[..n], i, v);
    } else {
      ReplayKeys(history[..n]);
    }
  }

  lemma {:induction false} NewestIsThere(history: seq<Version>, lookup: EncodedKey)
    ensures Newest(history, lookup).Found? ==> Newest(history, lookup).v in history
  {
    if history != [] { NewestIsThere(history[..|history| - 1], lookup); }
  }

  /** Of two versions of a user key neither of which is newer each is the other. */
  lemma SameVersion(a: EncodedKey, b: EncodedKey)
    requires Decode(a).userKey == Decode(b).userKey && !Newer(a, b) && !Newer(b, a)
    ensures a == b
  {
    InternalCompareIsLogical(a, b);
    InternalCompareEqual(a, b);
  }

  lemma NewestIsWritten(history: seq<Version>, i: nat, u: Bytes, s: nat, kind: Kind, value: Bytes, s': nat)
    requires s <= s' < SEQ_LIMIT && FirstWritten(history, i, Version(Encode(u, s, kind), value))
    requires forall j :: 0 <= j < |history| && IsVersionOf(history[j], u, s') ==> !Newer(history[j].key, Encode(u, s, kind))
    ensures Newest(history, Encode(u, s', Max)) == Found(Version(Encode(u, s, kind), value))
  {
    var lookup := Encode(u, s', Max);
    DecodeEncode(u, s, kind);
    assert IsVersionOf(history[i], u, s');
    NewestOfUser(history, u, s');
    NewestIsThere(history, lookup);
    SameVersion(Newest(history, lookup).v.key, Encode(u, s, kind));
    FirstIsKept(history, i, Version(Encode(u, s, kind), value));
  }

  /** What is written is read: a put, a delete or a merge of u at s, of an internal key not written before, is what
      every snapshot from s on reads until a newer version of u comes within it, the value of a put, and of a
      delete and a merge that there was one. */
  lemma WriteIsRead(history: seq<Version>, i: nat, u: Bytes, s: nat, kind: Kind, value: Bytes, s': nat)
    requires s <= s' < SEQ_LIMIT && FirstWritten(history, i, Version(Encode(u, s, kind), value))
    requires forall j :: 0 <= j < |history| && IsVersionOf(history[j], u, s') ==> !Newer(history[j].key, Encode(u, s, kind))
    ensures kind.Put? ==> ScanHistory(history, Encode(u, s', Max)) == Value(value)
    ensures kind.Delete? ==> ScanHistory(history, Encode(u, s', Max)) == Deleted
    ensures kind.Merge? ==> ScanHistory(history, Encode(u, s', Max)) == Merged
  {
    NewestIsWritten(history, i, u, s, kind, value, s');
    DecodeEncode(u, s, kind);
  }

  lemma VisibleIffVersion(v: Version, u: Bytes, s: nat)
    requires s < SEQ_LIMIT
    ensures Visible(v, Encode(u, s, Max)) <==> IsVersionOf(v, u, s)
  {
    DecodeEncode(u, s, Max);
    OpBound(v.key);
  }

  lemma OpBound(key: EncodedKey)
    ensures Decode(key).op < 256
  {
    UnpackParts(FromBigEndian(TrailerPart(key)));
  }

  /** Histories of puts, deletes and merges never stop the reader. */
  lemma PointKindsNeverPanic(history: seq<Version>, lookup: EncodedKey)
    requires forall i :: 0 <= i < |history| ==> Decode(history[i].key).op in {Put.Code(), Delete.Code(), Merge.Code()}
    ensures ScanHistory(history, lookup) != Panics
  {
    NewestIsMaximal(history, lookup);
    if Newest(history, lookup).Found? { ReplayKeys(history); }
  }

  lemma LaterInvisible(v: Version, u: Bytes, s: nat)
    requires s < SEQ_LIMIT && Decode(v.key).seqNo > s
    ensures !Visible(v, Encode(u, s, Max))
  {
    DecodeEncode(u, s, Max);
  }

  lemma NewestSkips(history: seq<Version>, v: Version, lookup: EncodedKey)
    requires !Visible(v, lookup)
    ensures Newest(history + [v], lookup) == Newest(history, lookup)
  {
    assert (history + [v])[..|history + [v]| - 1] == history;
  }

  /** Inserts with larger sequence numbers never change what an older snapshot reads. */
  lemma {:induction false} SnapshotStable(history: seq<Version>, later: seq<Version>, lookup: EncodedKey)
    requires forall i :: 0 <= i < |later| ==> !Visible(later[i], lookup)
    ensures Newest(history + later, lookup) == Newest(history, lookup)
    decreases |later|
  {
    if later == [] {
      assert history + later == history;
    } else {
      var n := |later| - 1;
      SnapshotStable(history, later[..n], lookup);
      NewestSkips(history + later[..n], later[n], lookup);
      assert history + later == history + later[..n] + [later[n]];
    }
  }

  lemma SnapshotIgnoresNewer(history: seq<Version>, later: seq<Version>, u: Bytes, s: nat)
    requires s < SEQ_LIMIT
    requires forall i :: 0 <= i < |later| ==> Decode(later[i].key).seqNo > s
    ensures ScanHistory(history + later, Encode(u, s, Max)) == ScanHistory(history, Encode(u, s, Max))
  {
    forall i | 0 <= i < |later| ensures !Visible(later[i], Encode(u, s, Max)) {
      LaterInvisible(later[i], u, s);
    }
    SnapshotStable(history, later, Encode(u, s, Max));
  }
}
