/** The sequence numbers that `prepare` stamps on batches. The base is what `fetch_add` returned less the
    batch's count, and `fetch_add` returns the value from before the addition. A batch of c operations uses c
    numbers from its base on; one filled only by `put_with` has count zero and uses none. */
module SequenceBase {

  /** The counter before batch i is prepared, batches being prepared one after the other under the queue's
      mutex. */
  function CounterBefore(start: nat, counts: seq<nat>, i: nat): nat
    requires i <= |counts|
  {
    if i == 0 then start else CounterBefore(start, counts, i - 1) + counts[i - 1]
  }

  /** The base as written. Below zero the subtraction overflows. */
  function Base(start: nat, counts: seq<nat>, i: nat): int
    requires i < |counts|
  {
    CounterBefore(start, counts, i) - counts[i]
  }

  predicate Uses(start: nat, counts: seq<nat>, i: nat, number: int)
    requires i < |counts|
  {
    Base(start, counts, i) <= number < Base(start, counts, i) + counts[i]
  }

  /** No sequence number belongs to two batches. */
  ghost predicate Disjoint(start: nat, counts: seq<nat>) {
    forall i: nat, j: nat, number: int :: i < j < |counts| && Uses(start, counts, i, number) ==> !Uses(start, counts, j, number)
  }

  /** No subtraction overflows. */
  ghost predicate NoUnderflow(start: nat, counts: seq<nat>) {
    forall i: nat :: i < |counts| ==> Base(start, counts, i) >= 0
  }

  /** Batches i and j have operations, and none in between has. */
  ghost predicate Follows(counts: seq<nat>, i: nat, j: nat) {
    i < j < |counts| && counts[i] > 0 && counts[j] > 0 && forall k :: i < k < j ==> counts[k] == 0
  }

  /** Among the batches with operations, none is larger than the one prepared before it. */
  ghost predicate NoLargerFollows(counts: seq<nat>) {
    forall i: nat, j: nat :: Follows(counts, i, j) ==> counts[j] <= counts[i]
  }

  /** Batch i is the first with operations. */
  ghost predicate FirstFilled(counts: seq<nat>, i: nat) {
    i < |counts| && counts[i] > 0 && forall k :: 0 <= k < i ==> counts[k] == 0
  }

  lemma {:induction false} CounterGrows(start: nat, counts: seq<nat>, i: nat, j: nat)
    requires i <= j <= |counts|
    ensures CounterBefore(start, counts, i) <= CounterBefore(start, counts, j)
    decreases j
  {
    if i < j { CounterGrows(start, counts, i, j - 1); }
  }

  /** Batches without operations leave the counter alone. */
  lemma {:induction false} CounterStays(start: nat, counts: seq<nat>, i: nat, j: nat)
    requires i <= j <= |counts| && forall k :: i <= k < j ==> counts[k] == 0
    ensures CounterBefore(start, counts, j) == CounterBefore(start, counts, i)
    decreases j
  {
    if i < j { CounterStays(start, counts, i, j - 1); }
  }

  lemma CounterAfter(start: nat, counts: seq<nat>, i: nat, j: nat)
    requires Follows(counts, i, j)
    ensures CounterBefore(start, counts, j) == CounterBefore(start, counts, i) + counts[i]
  {
    CounterStays(start, counts, i + 1, j);
  }

  /** The last batch with operations before j, at i or later. */
  lemma {:induction false} Preceding(counts: seq<nat>, i: nat, j: nat, k: nat) returns (p: nat)
    requires i < k <= j < |counts| && counts[i] > 0 && counts[j] > 0
    requires forall m :: k <= m < j ==> counts[m] == 0
    ensures i <= p && Follows(counts, p, j)
    decreases k
  {
    if counts[k - 1] > 0 { p := k - 1; } else { p := Preceding(counts, i, j, k - 1); }
  }

  /** As written, batches get disjoint sequence numbers if and only if no batch with operations is larger than
      the last such batch prepared before it. */
  lemma DisjointIffNoLargerFollows(start: nat, counts: seq<nat>)
    ensures Disjoint(start, counts) <==> NoLargerFollows(counts)
  {
    if NoLargerFollows(counts) {
      forall i: nat, j: nat, number: int | i < j < |counts| && Uses(start, counts, i, number)
        ensures !Uses(start, counts, j, number)
      {
        if counts[j] > 0 {
          var p := Preceding(counts, i, j, j);
          CounterAfter(start, counts, p, j);
          CounterGrows(start, counts, i, p);
        }
      }
    } else {
      var i: nat, j: nat :| Follows(counts, i, j) && counts[j] > counts[i];
      CounterAfter(start, counts, i, j);
      var number := CounterBefore(start, counts, i) - 1;
      assert Uses(start, counts, i, number) && Uses(start, counts, j, number);
    }
  }

  /** Sizes that never grow are bounded by the first. */
  lemma {:induction false} FirstIsLargest(counts: seq<nat>, first: nat, i: nat)
    requires FirstFilled(counts, first) && NoLargerFollows(counts) && first <= i < |counts|
    ensures counts[i] <= counts[first]
    decreases i
  {
    if first < i && counts[i] > 0 {
      var p := Preceding(counts, first, i, i);
      FirstIsLargest(counts, first, p);
    }
  }

  lemma FindFirst(counts: seq<nat>, i: nat) returns (first: nat)
    requires i < |counts| && counts[i] > 0
    ensures first <= i && FirstFilled(counts, first)
    decreases i
  {
    if k: nat :| k < i && counts[k] > 0 { first := FindFirst(counts, k); } else { first := i; }
  }

  /** Every batch gets its own numbers and no subtraction overflows if and only if, besides, the counter starts
      no lower than the size of the first batch with operations. */
  lemma NumbersSoundIff(start: nat, counts: seq<nat>)
    ensures Disjoint(start, counts) && NoUnderflow(start, counts) <==>
            NoLargerFollows(counts) && forall i: nat :: FirstFilled(counts, i) ==> counts[i] <= start
  {
    DisjointIffNoLargerFollows(start, counts);
    forall i: nat | FirstFilled(counts, i) ensures Base(start, counts, i) == start - counts[i] {
      CounterStays(start, counts, 0, i);
    }
    if NoLargerFollows(counts) && forall i: nat :: FirstFilled(counts, i) ==> counts[i] <= start {
      forall i: nat | i < |counts| ensures Base(start, counts, i) >= 0 {
        CounterGrows(start, counts, 0, i);
        if counts[i] > 0 {
          var first := FindFirst(counts, i);
          FirstIsLargest(counts, first, i);
        }
      }
    }
  }

  /** No subtraction overflows if and only if each batch is no larger than the operations counted before it. */
  lemma NoUnderflowIff(start: nat, counts: seq<nat>)
    ensures NoUnderflow(start, counts) <==> forall i: nat :: i < |counts| ==> counts[i] <= CounterBefore(start, counts, i)
  {
    assert forall i: nat :: i < |counts| ==> (Base(start, counts, i) >= 0 <==> counts[i] <= CounterBefore(start, counts, i));
  }

  /** From zero, where the program's counter starts, that is so only if no batch has any operations. */
  lemma UnderflowFromZero(counts: seq<nat>)
    ensures NoUnderflow(0, counts) <==> forall i :: 0 <= i < |counts| ==> counts[i] == 0
  {
    if i: nat :| i < |counts| && counts[i] > 0 {
      var first := FindFirst(counts, i);
      CounterStays(0, counts, 0, first);
      assert Base(0, counts, first) < 0;
    } else {
      forall i: nat | i < |counts| ensures Base(0, counts, i) >= 0 { CounterGrows(0, counts, 0, i); }
    }
  }

  /** The first batch of all, of one operation. */
  lemma FirstBatchUnderflows()
    ensures Base(0, [1], 0) == -1
  {
    assert CounterBefore(0, [1], 0) == 0;
  }

  /** Two batches of one and two operations share a number. */
  lemma SharedNumber()
    ensures Uses(10, [1, 2], 0, 9) && Uses(10, [1, 2], 1, 9)
    ensures !Disjoint(10, [1, 2])
  {
    assert CounterBefore(10, [1, 2], 0) == 10 && CounterBefore(10, [1, 2], 1) == 11;
    DisjointIffNoLargerFollows(10, [1, 2]);
    assert Follows([1, 2], 0, 1);
  }
}
