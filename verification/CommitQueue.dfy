/** The commit queue's code when nobody interferes: the packed word, the ring of slots, and the batches in it.
    `BatchQueue` interleaves the same accesses. */
module CommitQueue {
  import opened Bits
  import opened HeadTail

  const NO_BATCH: nat := 0

  /** The slot of a logical counter. */
  function SlotOf(c: nat, n: nat): (i: nat)
    requires n > 0
    ensures i < n
  {
    c % n
  }

  /** The slots of the counters from tail on hold the queued batches, oldest first, and the others nothing. */
  ghost predicate Ring(slots: seq<nat>, tail: nat, queued: seq<nat>) {
    && 0 < |slots| && |queued| <= |slots|
    && (forall c: nat :: tail <= c < tail + |queued| ==> slots[SlotOf(c, |slots|)] == queued[c - tail] != NO_BATCH)
    && (forall c: nat :: tail + |queued| <= c < tail + |slots| ==> slots[SlotOf(c, |slots|)] == NO_BATCH)
  }

  lemma RingStore(slots: seq<nat>, tail: nat, queued: seq<nat>, batch: nat)
    requires Ring(slots, tail, queued) && |queued| < |slots| && batch != NO_BATCH
    ensures Ring(slots[SlotOf(tail + |queued|, |slots|) := batch], tail, queued + [batch])
  {
    var h, n := tail + |queued|, |slots|;
    forall c: nat | tail <= c < tail + n && c != h ensures SlotOf(c, n) != SlotOf(h, n) {
      if c < h { SlotsDiffer(c, h, n); } else { SlotsDiffer(h, c, n); }
    }
  }

  lemma RingClear(slots: seq<nat>, tail: nat, queued: seq<nat>)
    requires Ring(slots, tail, queued) && queued != []
    ensures Ring(slots[SlotOf(tail, |slots|) := NO_BATCH], tail + 1, queued[1..])
  {
    var n := |slots|;
    SlotAgain(tail, n);
    forall c: nat | tail < c < tail + n ensures SlotOf(c, n) != SlotOf(tail, n) {
      SlotsDiffer(tail, c, n);
    }
  }

  class CommitQueue {
    var headTail: nat
    const slots: array<nat>
    /** The logical tail, and the batches from there to the head, oldest first. */
    ghost var tail: nat
    ghost var queued: seq<nat>

    ghost predicate Valid()
      reads this, slots
    {
      && QueueSize(slots.Length)
      && headTail == Word(tail + |queued|, tail)
      && Ring(slots[..], tail, queued)
    }

    constructor (n: nat)
      requires QueueSize(n)
      ensures Valid() && queued == [] && slots.Length == n && fresh(slots)
    {
      headTail := 0;
      slots := new nat[n](_ => NO_BATCH);
      tail, queued := 0, [];
      WordParts(0, 0);
    }

    /** The tests and the slot that `enqueue` and `try_dequeue` compute from the word. */
    lemma WordTests()
      requires Valid()
      ensures var h, t, n := Head(headTail), Tail(headTail), slots.Length;
              && (WrappingAdd(t, n) == h <==> |queued| == n)
              && (t == h <==> queued == [])
              && SlotIndex(h, n) == SlotOf(tail + |queued|, n) && SlotIndex(t, n) == SlotOf(tail, n)
    {
      var head := tail + |queued|;
      WordParts(head, tail);
      FullTestExact(head, tail, slots.Length);
      EmptyTestExact(head, tail, slots.Length);
      MaskIsModulo(head, slots.Length);
      MaskIsModulo(tail, slots.Length);
    }

    /** `enqueue`: the batch goes behind the others; the full-queue panic happens exactly when n are queued. */
    method Enqueue(batch: nat) returns (panicked: bool)
      requires Valid() && batch != NO_BATCH
      modifies this, slots
      ensures Valid()
      ensures panicked <==> |old(queued)| == slots.Length
      ensures panicked ==> queued == old(queued) && headTail == old(headTail) && slots[..] == old(slots[..])
      ensures !panicked ==> queued == old(queued) + [batch]
    {
      WordTests();
      var h, t := Head(headTail), Tail(headTail);
      if WrappingAdd(t, slots.Length) == h {
        return true;
      }
      var slot := SlotIndex(h, slots.Length);
      RingStore(slots[..], tail, queued, batch);
      slots[slot] := batch;
      BumpHeadAdvances(tail + |queued|, tail);
      headTail := BumpHead(headTail);
      queued := queued + [batch];
      return false;
    }

    /** `try_dequeue`: the oldest batch if it has been applied, else none. */
    method TryDequeue(applied: set<nat>) returns (batch: nat)
      requires Valid()
      modifies this, slots
      ensures Valid()
      ensures batch == if old(queued) != [] && old(queued)[0] in applied then old(queued)[0] else NO_BATCH
      ensures queued == if batch == NO_BATCH then old(queued) else old(queued)[1..]
    {
      WordTests();
      var h, t := Head(headTail), Tail(headTail);
      if t == h {
        return NO_BATCH;
      }
      var slot := SlotIndex(t, slots.Length);
      batch := slots[slot];
      assert slots[..][SlotOf(tail, slots.Length)] == queued[0];
      if batch == NO_BATCH || batch !in applied {
        return NO_BATCH;
      }
      RepackAdvancesTail(tail + |queued|, tail);
      headTail := Pack(h, WrappingAdd(t, 1));
      RingClear(slots[..], tail, queued);
      slots[slot] := NO_BATCH;
      tail := tail + 1;
      queued := queued[1..];
    }
  }
}
