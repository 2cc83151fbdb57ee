/** Snapshot reads while other threads insert: what a lookup that ends in the middle of any interleaving answers,
    in terms of the versions published by then. */
module MemtableRuns {
  import opened Ordering
  import opened InternalKey
  import opened Towers
  import opened Chains
  import opened ConcurrentSkipList
  import opened SkipListRuns
  import opened Memtable

  type MemState = State<EncodedKey, Bytes>
  type MemAction = Action<EncodedKey, Bytes>

  ghost predicate Run(states: seq<MemState>, acts: seq<MemAction>) {
    Execution(InternalCompare, states, acts)
  }

  /** The versions linked on the bottom level by the first i steps, in the order of their swaps. */
  ghost function Published(states: seq<MemState>, acts: seq<MemAction>, i: nat): seq<Version>
    requires Run(states, acts) && i < |states|
  {
    if i == 0 then []
    else
      var h := Published(states, acts, i - 1);
      var s := states[i - 1];
      if Publishes(s, acts[i - 1]) && s.nodes[s.threads[acts[i - 1].t].node].Entry? then
        h + [Version(s.threads[acts[i - 1].t].key, s.nodes[s.threads[acts[i - 1].t].node].value)]
      else h
  }

  /** What `get` makes of the node its lookup found. */
  function Answered(nodes: seq<Node<EncodedKey, Bytes>>, lookup: EncodedKey, result: Ptr): MemReturn {
    if 0 <= result < |nodes| && nodes[result].Entry? && UserPart(nodes[result].key) == UserPart(lookup) then
      Interpret(Version(nodes[result].key, nodes[result].value))
    else NotFound
  }

  /** The keep-first map of the publications is what replaying them gives. */
  lemma {:induction false} SpecMapIsReplay(states: seq<MemState>, acts: seq<MemAction>, i: nat)
    requires TotalOrder(InternalCompare) && Run(states, acts) && i < |states|
    ensures SpecMap(InternalCompare, states, acts, i) == Replay(Published(states, acts, i))
  {
    if i > 0 {
      SpecMapIsReplay(states, acts, i - 1);
      var s, t := states[i - 1], acts[i - 1].t;
      if Publishes(s, acts[i - 1]) && s.nodes[s.threads[t].node].Entry? {
        ReplaySnoc(Published(states, acts, i - 1), Version(s.threads[t].key, s.nodes[s.threads[t].node].value));
      }
    }
  }

  lemma ContentsArePublished(states: seq<MemState>, acts: seq<MemAction>, i: nat)
    requires TotalOrder(InternalCompare) && Run(states, acts) && i < |states|
    ensures KeysUnique(states[i].nodes) && Contents(states[i].nodes) == Replay(Published(states, acts, i))
  {
    RunRefinesMap(InternalCompare, states, acts, i);
    SpecMapIsReplay(states, acts, i);
  }

  /** Nodes keep their keys and values, so it does not matter when the found node is read. */
  lemma AnsweredKept(nodes: seq<Node<EncodedKey, Bytes>>, nodes': seq<Node<EncodedKey, Bytes>>, lookup: EncodedKey, result: Ptr)
    requires Grows(nodes, nodes') && result < |nodes|
    ensures Answered(nodes', lookup, result) == Answered(nodes, lookup, result)
  {
  }

  /** A lookup whose last load is step i, whatever other threads do before, between and after its loads, answers
      like a scan of the versions published by then. */
  lemma LookupScansPublished(states: seq<MemState>, acts: seq<MemAction>, i: nat, j: nat, lookup: EncodedKey, result: Ptr)
    requires Run(states, acts) && i < |acts| && i < j < |states|
    requires CompletesLookup(InternalCompare, states[i], acts[i], lookup, result)
    ensures Answered(states[j].nodes, lookup, result) == ScanHistory(Published(states, acts, i), lookup)
  {
    InternalTotalOrder();
    ReachableInv(InternalCompare, states, acts, i);
    LookupExact(InternalCompare, states[i], acts[i], lookup, result);
    ContentsArePublished(states, acts, i);
    FirstNotBelowAnswers(states[i].nodes, Published(states, acts, i), lookup, result);
    GrowsOverRun(InternalCompare, states, acts, i, j);
    AnsweredKept(states[i].nodes, states[j].nodes, lookup, result);
  }

  /** Reading user key u at snapshot s under any interleaving: NotFound exactly when no version of u up to s was
      published by the lookup's last load, and otherwise the kind and value of the one with the greatest
      sequence number. */
  lemma ConcurrentSnapshotRead(states: seq<MemState>, acts: seq<MemAction>, i: nat, j: nat,
                               u: Bytes, s: nat, result: Ptr)
      returns (v: MaybeVersion)
    requires Run(states, acts) && i < |acts| && i < j < |states| && s < SEQ_LIMIT
    requires CompletesLookup(InternalCompare, states[i], acts[i], Encode(u, s, Max), result)
    ensures v.Missing? ==> Answered(states[j].nodes, Encode(u, s, Max), result) == NotFound
    ensures v.Found? ==> IsAnswer(v.v, Answered(states[j].nodes, Encode(u, s, Max), result))
    ensures v.Missing? ==> forall k :: 0 <= k < |Published(states, acts, i)| ==> !IsVersionOf(Published(states, acts, i)[k], u, s)
    ensures v.Found? ==>
              && IsVersionOf(v.v, u, s) && v.v in Published(states, acts, i)
              && (forall k :: 0 <= k < |Published(states, acts, i)| && IsVersionOf(Published(states, acts, i)[k], u, s) ==>
                    Decode(Published(states, acts, i)[k].key).seqNo <= Decode(v.v.key).seqNo)
  {
    var lookup := Encode(u, s, Max);
    LookupScansPublished(states, acts, i, j, lookup, result);
    SnapshotRead(Published(states, acts, i), u, s);
    v := Newest(Published(states, acts, i), lookup);
    NewestIsThere(Published(states, acts, i), lookup);
  }

  /** A write that returned before the lookup's last load is read, or a newer one is. */
  lemma FinishedWriteIsRead(states: seq<MemState>, acts: seq<MemAction>, h: nat, t: nat, i: nat, j: nat,
                            u: Bytes, s: nat, result: Ptr)
      returns (v: MaybeVersion)
    requires Run(states, acts) && h <= i < |acts| && i < j < |states| && s < SEQ_LIMIT
    requires t < |states[h].threads| && states[h].threads[t].Inserted?
    requires var k := Decode(states[h].threads[t].key); k.userKey == u && k.seqNo <= s
    requires CompletesLookup(InternalCompare, states[i], acts[i], Encode(u, s, Max), result)
    ensures v.Found? && v.v in Published(states, acts, i) && IsVersionOf(v.v, u, s)
    ensures Decode(v.v.key).seqNo >= Decode(states[h].threads[t].key).seqNo
    ensures IsAnswer(v.v, Answered(states[j].nodes, Encode(u, s, Max), result))
  {
    InternalTotalOrder();
    FinishedInsertStays(InternalCompare, states, acts, h, i, t);
    ContentsArePublished(states, acts, i);
    ReplayKeys(Published(states, acts, i));
    var k :| 0 <= k < |Published(states, acts, i)| && Published(states, acts, i)[k].key == states[h].threads[t].key;
    v := ConcurrentSnapshotRead(states, acts, i, j, u, s, result);
  }

  /** No internal key is published twice. */
  lemma {:induction false} PublishedOnce(states: seq<MemState>, acts: seq<MemAction>, i: nat)
    requires Run(states, acts) && i < |states|
    ensures forall j, k :: 0 <= j < k < |Published(states, acts, i)| ==>
              Published(states, acts, i)[j].key != Published(states, acts, i)[k].key
  {
    if i > 0 {
      PublishedOnce(states, acts, i - 1);
      var before := Published(states, acts, i - 1);
      if Published(states, acts, i) != before {
        InternalTotalOrder();
        RunRefinesMap(InternalCompare, states, acts, i - 1);
        SpecMapIsReplay(states, acts, i - 1);
        ReplayKeys(before);
      }
    }
  }

  /** What is published is read: by a lookup beside any other threads' inserts, whose last load comes after the
      publication and before any newer version of the user key within its snapshot. */
  lemma PublishedIsRead(states: seq<MemState>, acts: seq<MemAction>, h: nat, i: nat, j: nat,
                        u: Bytes, s: nat, kind: Kind, value: Bytes, s': nat, result: Ptr)
    requires Run(states, acts) && i < |acts| && i < j < |states| && s <= s' < SEQ_LIMIT
    requires h < |Published(states, acts, i)| && Published(states, acts, i)[h] == Version(Encode(u, s, kind), value)
    requires forall k :: 0 <= k < |Published(states, acts, i)| && IsVersionOf(Published(states, acts, i)[k], u, s') ==>
               !Newer(Published(states, acts, i)[k].key, Encode(u, s, kind))
    requires CompletesLookup(InternalCompare, states[i], acts[i], Encode(u, s', Max), result)
    ensures kind.Put? ==> Answered(states[j].nodes, Encode(u, s', Max), result) == Value(value)
    ensures kind.Delete? ==> Answered(states[j].nodes, Encode(u, s', Max), result) == Deleted
    ensures kind.Merge? ==> Answered(states[j].nodes, Encode(u, s', Max), result) == Merged
  {
    PublishedOnce(states, acts, i);
    WriteIsRead(Published(states, acts, i), h, u, s, kind, value, s');
    LookupScansPublished(states, acts, i, j, Encode(u, s', Max), result);
  }
}
