/** Two runs in which the commit queue breaks its promise: one in which `enqueue` does not wait for its slot,
    and one in which a consumer sleeps through 2^32 dequeues. */
module QueueFailures {
  import opened HeadTail
  import opened BatchQueue
  import opened QueueRuns
  import opened Runs
  import opened Sequences

  /** The steps of the theorems about all runs: enqueue finds its slot null, and a claim is fresh. */
  predicate Careful(s: State, act: Action) {
    Enabled(s, act) && Waits(s, act) && Fresh(s, act)
  }

  /** Two actions, each allowed where it is taken, twice over. */
  lemma FourTimes(allowed: (State, Action) -> bool, s: State, act: Action, last: State)
    requires var s1 := Step(s, act); var s2 := Step(s1, act); var s3 := Step(s2, act);
             allowed(s, act) && allowed(s1, act) && allowed(s2, act) && allowed(s3, act) && last == Step(s3, act)
    ensures Leads(allowed, Step, s, last)
  {
    var s2 := Step(Step(s, act), act);
    LeadsTwice(allowed, Step, s, act);
    LeadsTwice(allowed, Step, s2, act);
    LeadsTransitive(allowed, Step, s, s2, last);
  }

  lemma Then(allowed: (State, Action) -> bool, s: State, mid: State, act: Action, last: State)
    requires Leads(allowed, Step, s, mid) && allowed(mid, act) && Step(mid, act) == last
    ensures Leads(allowed, Step, s, last)
  {
    LeadsOne(allowed, Step, mid, act);
    LeadsTransitive(allowed, Step, s, mid, last);
  }

  /** The queue after one whole `enqueue`. */
  function Published(s: State, b: Batch): State
    requires |s.slots| > 0
  {
    s.(slots := s.slots[|s.enqueued| % |s.slots| := b], word := Word(|s.enqueued| + 1, |s.returned|),
       enqueued := s.enqueued + [b])
  }

  ghost predicate CanPublish(s: State, b: Batch) {
    && CountersOk(s) && s.producer.Resting? && b in s.holders && b !in s.enqueued
    && |s.enqueued| < |s.returned| + |s.slots|
  }

  /** One whole `enqueue` without interference. */
  lemma PublishSteps(s: State, b: Batch)
    requires CanPublish(s, b)
    ensures var s1 := Step(s, BeginEnqueue(b)); var s2 := Step(s1, Produce); var s3 := Step(s2, Produce);
            var s4 := Step(s3, Produce);
            && Enabled(s, BeginEnqueue(b)) && Enabled(s1, Produce) && Enabled(s2, Produce) && Enabled(s3, Produce)
            && Enabled(s4, Produce) && Step(s4, Produce) == Published(s, b)
            && (s.slots[|s.enqueued| % |s.slots|] == NO_BATCH ==>
                  Waits(s1, Produce) && Waits(s2, Produce) && Waits(s3, Produce) && Waits(s4, Produce))
  {
    var h, t := |s.enqueued|, |s.returned|;
    WordParts(h, t);
    FullTestExact(h, t, |s.slots|);
    SameSlot(s, h);
    BumpHeadAdvances(h, t);
  }

  lemma PublishAlone(s: State, b: Batch)
    requires CanPublish(s, b)
    ensures Leads(Enabled, Step, s, Published(s, b))
  {
    PublishSteps(s, b);
    var s1 := Step(s, BeginEnqueue(b));
    LeadsOne(Enabled, Step, s, BeginEnqueue(b));
    FourTimes(Enabled, s1, Produce, Published(s, b));
    LeadsTransitive(Enabled, Step, s, s1, Published(s, b));
  }

  lemma PublishCarefully(s: State, b: Batch)
    requires CanPublish(s, b) && s.slots[|s.enqueued| % |s.slots|] == NO_BATCH
    ensures Leads(Careful, Step, s, Published(s, b))
  {
    PublishSteps(s, b);
    var s1 := Step(s, BeginEnqueue(b));
    LeadsOne(Careful, Step, s, BeginEnqueue(b));
    FourTimes(Careful, s1, Produce, Published(s, b));
    LeadsTransitive(Careful, Step, s, s1, Published(s, b));
  }

  /** The queue after one `try_dequeue` up to its compare-and-swap, and one access short of that. */
  function Claimed(s: State, c: nat): State
    requires c < |s.consumers| && |s.returned| < |s.enqueued|
  {
    var t := |s.returned|;
    s.(word := Word(|s.enqueued|, t + 1), returned := s.returned + [s.enqueued[t]],
       consumers := s.consumers[c := Clearing(t, s.enqueued[t], s.word)])
  }

  function AboutToClaim(s: State, c: nat): State
    requires c < |s.consumers| && |s.returned| < |s.enqueued|
  {
    s.(consumers := s.consumers[c := Claiming(s.word, |s.enqueued|, |s.returned|, s.enqueued[|s.returned|])])
  }

  ghost predicate CanClaim(s: State, c: nat) {
    && CountersOk(s) && PublishedIntact(s) && c < |s.consumers| && s.consumers[c].Away?
    && |s.returned| < |s.enqueued| && s.enqueued[|s.returned|] in s.applied
  }

  lemma ClaimSteps(s: State, c: nat)
    requires CanClaim(s, c)
    ensures var s1 := Step(s, BeginDequeue(c)); var s2 := Step(s1, Consume(c)); var s3 := Step(s2, Consume(c));
            && Enabled(s, BeginDequeue(c)) && Enabled(s1, Consume(c)) && Enabled(s2, Consume(c))
            && Enabled(s3, Consume(c)) && Step(s3, Consume(c)) == AboutToClaim(s, c)
            && Fresh(s1, Consume(c)) && Fresh(s2, Consume(c)) && Fresh(s3, Consume(c))
  {
    var h, t := |s.enqueued|, |s.returned|;
    WordParts(h, t);
    EmptyTestExact(h, t, |s.slots|);
    SameSlot(s, t);
    assert s.enqueued[t] in s.enqueued;
  }

  /** A `try_dequeue` without interference up to just before its compare-and-swap. */
  lemma ApproachAlone(s: State, c: nat)
    requires CanClaim(s, c)
    ensures Leads(Careful, Step, s, AboutToClaim(s, c))
  {
    ClaimSteps(s, c);
    var s1 := Step(s, BeginDequeue(c));
    LeadsOne(Careful, Step, s, BeginDequeue(c));
    LeadsTwice(Careful, Step, s1, Consume(c));
    LeadsTransitive(Careful, Step, s, s1, Step(Step(s1, Consume(c)), Consume(c)));
    Then(Careful, s, Step(Step(s1, Consume(c)), Consume(c)), Consume(c), AboutToClaim(s, c));
  }

  /** And with it. */
  lemma ClaimAlone(s: State, c: nat)
    requires CanClaim(s, c)
    ensures Leads(Careful, Step, s, Claimed(s, c))
  {
    ApproachAlone(s, c);
    WordParts(|s.enqueued|, |s.returned|);
    RepackAdvancesTail(|s.enqueued|, |s.returned|);
    assert Step(AboutToClaim(s, c), Consume(c)) == Claimed(s, c);
    Then(Careful, s, AboutToClaim(s, c), Consume(c), Claimed(s, c));
  }

  // ---- Without the wait ----

  // Batch 1 is claimed and its consumer stalls; batch 2 goes through the other slot; batch 3 is published
  // into the slot of batch 1.
  const STALLED: Consumer := Clearing(0, 1, Word(1, 0))
  const RESERVED1: State := State(Word(0, 0), [0, 0], {}, {1}, Resting, [Away, Away], [], [])
  const PUBLISHED1: State := State(Word(1, 0), [1, 0], {}, {1}, Resting, [Away, Away], [1], [])
  const APPLIED1: State := State(Word(1, 0), [1, 0], {1}, {1}, Resting, [Away, Away], [1], [])
  const CLAIMED1: State := State(Word(1, 1), [1, 0], {1}, {1}, Resting, [STALLED, Away], [1], [1])
  const RESERVED2: State := State(Word(1, 1), [1, 0], {1}, {1, 2}, Resting, [STALLED, Away], [1], [1])
  const PUBLISHED2: State := State(Word(2, 1), [1, 2], {1}, {1, 2}, Resting, [STALLED, Away], [1, 2], [1])
  const APPLIED2: State := State(Word(2, 1), [1, 2], {1, 2}, {1, 2}, Resting, [STALLED, Away], [1, 2], [1])
  const CLAIMED2: State :=
    State(Word(2, 2), [1, 2], {1, 2}, {1, 2}, Resting, [STALLED, Clearing(1, 2, Word(2, 1))], [1, 2], [1, 2])
  const CLEARED2: State :=
    State(Word(2, 2), [1, 0], {1, 2}, {1, 2}, Resting, [STALLED, Dequeued(2)], [1, 2], [1, 2])
  const RELEASED2: State :=
    State(Word(2, 2), [1, 0], {1, 2}, {1}, Resting, [STALLED, Dequeued(2)], [1, 2], [1, 2])
  const RESERVED3: State :=
    State(Word(2, 2), [1, 0], {1, 2}, {1, 3}, Resting, [STALLED, Dequeued(2)], [1, 2], [1, 2])
  const PUBLISHED3: State :=
    State(Word(3, 2), [3, 0], {1, 2}, {1, 3}, Resting, [STALLED, Dequeued(2)], [1, 2, 3], [1, 2])
  const LOST3: State :=
    State(Word(3, 2), [0, 0], {1, 2}, {1, 3}, Resting, [Dequeued(1), Dequeued(2)], [1, 2, 3], [1, 2])

  lemma FirstBatch()
    ensures Leads(Enabled, Step, Init(2, 2), APPLIED1)
  {
    assert Step(Init(2, 2), Reserve(1)) == RESERVED1;
    LeadsOne(Enabled, Step, Init(2, 2), Reserve(1));
    PublishAlone(RESERVED1, 1);
    assert Published(RESERVED1, 1) == PUBLISHED1;
    LeadsTransitive(Enabled, Step, Init(2, 2), RESERVED1, PUBLISHED1);
    Then(Enabled, Init(2, 2), PUBLISHED1, Apply(1), APPLIED1);
  }

  lemma FirstClaim()
    ensures Leads(Enabled, Step, APPLIED1, CLAIMED1)
  {
    ClaimAlone(APPLIED1, 0);
    var last := Claimed(APPLIED1, 0);
    assert last.returned == [1] && last.consumers == [STALLED, Away];
    assert last == CLAIMED1;
    LeadsMore(Careful, Enabled, Step, APPLIED1, CLAIMED1);
  }

  lemma SecondBatch()
    ensures Leads(Enabled, Step, CLAIMED1, APPLIED2)
  {
    assert Step(CLAIMED1, Reserve(2)) == RESERVED2;
    LeadsOne(Enabled, Step, CLAIMED1, Reserve(2));
    PublishAlone(RESERVED2, 2);
    assert Published(RESERVED2, 2) == PUBLISHED2;
    LeadsTransitive(Enabled, Step, CLAIMED1, RESERVED2, PUBLISHED2);
    Then(Enabled, CLAIMED1, PUBLISHED2, Apply(2), APPLIED2);
  }

  lemma SecondClaim()
    ensures Leads(Enabled, Step, APPLIED2, CLAIMED2)
  {
    assert APPLIED2.enqueued[|APPLIED2.returned|] == 2;
    ClaimAlone(APPLIED2, 1);
    var last := Claimed(APPLIED2, 1);
    assert last.returned == [1, 2] && last.consumers == [STALLED, Clearing(1, 2, Word(2, 1))];
    assert last == CLAIMED2;
    LeadsMore(Careful, Enabled, Step, APPLIED2, CLAIMED2);
  }

  lemma SecondClear()
    ensures Leads(Enabled, Step, CLAIMED2, RELEASED2)
  {
    WordParts(2, 1);
    SameSlot(CLAIMED2, 1);
    assert Step(CLAIMED2, Consume(1)) == CLEARED2;
    LeadsOne(Enabled, Step, CLAIMED2, Consume(1));
    Then(Enabled, CLAIMED2, CLEARED2, Release(2), RELEASED2);
  }

  lemma ThirdBatch()
    ensures Leads(Enabled, Step, RELEASED2, PUBLISHED3)
  {
    assert Step(RELEASED2, Reserve(3)) == RESERVED3;
    LeadsOne(Enabled, Step, RELEASED2, Reserve(3));
    PublishAlone(RESERVED3, 3);
    assert Published(RESERVED3, 3) == PUBLISHED3;
    LeadsTransitive(Enabled, Step, RELEASED2, RESERVED3, PUBLISHED3);
  }

  lemma Erasure()
    ensures Leads(Enabled, Step, PUBLISHED3, LOST3)
    ensures !PublishedIntact(LOST3)
  {
    WordParts(1, 0);
    SameSlot(PUBLISHED3, 0);
    assert Step(PUBLISHED3, Consume(0)) == LOST3;
    LeadsOne(Enabled, Step, PUBLISHED3, Consume(0));
    assert LOST3.slots[2 % 2] == NO_BATCH && LOST3.enqueued[2] == 3;
  }

  /** The program as written loses a batch: with two slots and two consumers there is a run at whose end
      batch 3 is published and unclaimed but its slot is null. A permit is returned only after the dequeue
      that claimed its batch has finished. */
  lemma LostBatch()
    ensures Leads(Enabled, Step, Init(2, 2), LOST3)
    ensures LOST3.enqueued == [1, 2, 3] && LOST3.returned == [1, 2] && LOST3.slots == [NO_BATCH, NO_BATCH]
    ensures !PublishedIntact(LOST3)
  {
    FirstBatch();
    FirstClaim();
    SecondBatch();
    SecondClaim();
    SecondClear();
    ThirdBatch();
    Erasure();
    LeadsTransitive(Enabled, Step, Init(2, 2), APPLIED1, CLAIMED1);
    LeadsTransitive(Enabled, Step, Init(2, 2), CLAIMED1, APPLIED2);
    LeadsTransitive(Enabled, Step, Init(2, 2), APPLIED2, CLAIMED2);
    LeadsTransitive(Enabled, Step, Init(2, 2), CLAIMED2, RELEASED2);
    LeadsTransitive(Enabled, Step, Init(2, 2), RELEASED2, PUBLISHED3);
    LeadsTransitive(Enabled, Step, Init(2, 2), PUBLISHED3, LOST3);
  }

  // ---- With the word recurring ----

  /** Nothing is queued and nobody but consumer c is on the way. */
  ghost predicate Quiet(s: State, c: nat, d: nat, b: Batch) {
    && CountersOk(s) && |s.enqueued| == |s.returned| && s.producer.Resting?
    && c < |s.consumers| && d < |s.consumers| && c != d && s.consumers[d].Away?
    && (forall i :: 0 <= i < |s.slots| ==> s.slots[i] == NO_BATCH)
    && s.holders == {} && b > 0 && (forall x :: x in s.enqueued ==> x < b)
  }

  /** The queue after b has come and gone. */
  function AfterRound(s: State, b: Batch): State {
    s.(word := Word(|s.enqueued| + 1, |s.returned| + 1), enqueued := s.enqueued + [b], returned := s.returned + [b],
       applied := s.applied + {b})
  }

  /** The queue with b published and applied and nothing else in it. */
  function Offered(s: State, b: Batch): State
    requires |s.slots| > 0
  {
    var p := Published(s.(holders := {b}), b);
    p.(applied := p.applied + {b})
  }

  lemma Offer(s: State, c: nat, d: nat, b: Batch)
    requires Quiet(s, c, d, b)
    ensures |s.slots| > 0 && Leads(Careful, Step, s, Offered(s, b))
  {
    PowerOfTwoPositive(|s.slots|);
    var s1 := s.(holders := {b});
    assert b !in s.enqueued;
    assert Step(s, Reserve(b)) == s1;
    LeadsOne(Careful, Step, s, Reserve(b));
    PublishCarefully(s1, b);
    LeadsTransitive(Careful, Step, s, s1, Published(s1, b));
    Then(Careful, s, Published(s1, b), Apply(b), Offered(s, b));
  }

  lemma OfferedClaimable(s: State, c: nat, d: nat, b: Batch)
    requires Quiet(s, c, d, b) && |s.slots| > 0
    ensures CanClaim(Offered(s, b), d) && Offered(s, b).enqueued[|s.returned|] == b
  {
    var o := Offered(s, b);
    assert b !in s.enqueued;
    assert o.enqueued == s.enqueued + [b] && Distinct(o.enqueued);
    assert o.returned == o.enqueued[..|o.returned|];
  }

  /** One batch goes through beside the stalled consumer. */
  lemma Round(s: State, c: nat, d: nat, b: Batch)
    requires Quiet(s, c, d, b)
    ensures Leads(Careful, Step, s, AfterRound(s, b))
  {
    Offer(s, c, d, b);
    OfferedClaimable(s, c, d, b);
    var o := Offered(s, b);
    var s4 := Claimed(o, d);
    ClaimAlone(o, d);
    LeadsTransitive(Careful, Step, s, o, s4);
    FinishRound(s, c, d, b);
  }

  /** The queue once the consumer of b has cleared its slot, and once it has left. */
  function Cleared(s: State, d: nat, b: Batch): State
    requires d < |s.consumers|
  {
    AfterRound(s, b).(holders := {b}, consumers := s.consumers[d := Dequeued(b)])
  }

  lemma ClearStep(s: State, c: nat, d: nat, b: Batch)
    requires Quiet(s, c, d, b) && |s.slots| > 0
    ensures var s4 := Claimed(Offered(s, b), d);
            Careful(s4, Consume(d)) && Step(s4, Consume(d)) == Cleared(s, d, b)
  {
    var t := |s.returned|;
    var s4 := Claimed(Offered(s, b), d);
    WordParts(t + 1, t);
    SameSlot(s4, t);
    assert s.slots[t % |s.slots| := b][t % |s.slots| := NO_BATCH] == s.slots;
    assert s4.enqueued[t] == b;
    assert s4.consumers[d := Dequeued(b)] == s.consumers[d := Dequeued(b)];
  }

  lemma FinishRound(s: State, c: nat, d: nat, b: Batch)
    requires Quiet(s, c, d, b) && |s.slots| > 0
    requires Leads(Careful, Step, s, Claimed(Offered(s, b), d))
    ensures Leads(Careful, Step, s, AfterRound(s, b))
  {
    ClearStep(s, c, d, b);
    var s5 := Cleared(s, d, b);
    Then(Careful, s, Claimed(Offered(s, b), d), Consume(d), s5);
    LeaveAndRelease(s, c, d, b);
    LeadsTransitive(Careful, Step, s, s5, AfterRound(s, b));
  }

  lemma LeaveAndRelease(s: State, c: nat, d: nat, b: Batch)
    requires Quiet(s, c, d, b) && |s.slots| > 0
    ensures Leads(Careful, Step, Cleared(s, d, b), AfterRound(s, b))
  {
    var s5, s6 := Cleared(s, d, b), AfterRound(s, b).(holders := {b});
    LeadsSelf(Careful, Step, s5);
    assert s5.consumers[d := Away] == s.consumers;
    Then(Careful, s5, s5, Leave(d), s6);
    assert {b} - {b} == {};
    Then(Careful, s5, s6, Release(b), AfterRound(s, b));
  }

  lemma RoundQuiet(s: State, c: nat, d: nat, b: Batch)
    requires Quiet(s, c, d, b)
    ensures Quiet(AfterRound(s, b), c, d, b + 1) && AfterRound(s, b).consumers == s.consumers
  {
    var r := AfterRound(s, b);
    assert b !in s.enqueued && s.returned == s.enqueued;
    assert r.returned == r.enqueued[..|r.returned|];
  }

  /** Any number of batches goes through beside a stalled consumer. */
  lemma {:induction false} Rounds(s: State, c: nat, d: nat, b: Batch, k: nat) returns (last: State)
    requires Quiet(s, c, d, b)
    ensures Leads(Careful, Step, s, last) && Quiet(last, c, d, b + k)
    ensures |last.enqueued| == |s.enqueued| + k && s.enqueued <= last.enqueued
    ensures last.consumers == s.consumers && last.slots == s.slots
    decreases k
  {
    if k == 0 {
      LeadsSelf(Careful, Step, s);
      last := s;
    } else {
      Round(s, c, d, b);
      RoundQuiet(s, c, d, b);
      last := Rounds(AfterRound(s, b), c, d, b + 1, k - 1);
      LeadsTransitive(Careful, Step, s, AfterRound(s, b), last);
    }
  }

  // Consumer 0 stalls just before it claims batch 1; consumer 1 takes batch 1.
  const ABOUT: Consumer := Claiming(Word(1, 0), 1, 0, 1)
  const READY1: State := State(Word(1, 0), [1, 0], {1}, {1}, Resting, [ABOUT, Away], [1], [])
  const TAKEN1: State :=
    State(Word(1, 1), [1, 0], {1}, {1}, Resting, [ABOUT, Clearing(0, 1, Word(1, 0))], [1], [1])
  const CLEARED1: State := State(Word(1, 1), [0, 0], {1}, {1}, Resting, [ABOUT, Dequeued(1)], [1], [1])
  const LEFT1: State := State(Word(1, 1), [0, 0], {1}, {1}, Resting, [ABOUT, Away], [1], [1])
  const QUIET1: State := State(Word(1, 1), [0, 0], {1}, {}, Resting, [ABOUT, Away], [1], [1])

  lemma StalledBesideFirst()
    ensures Leads(Careful, Step, Init(2, 2), READY1)
  {
    FirstReserved();
    FirstPublished();
    LeadsTransitive(Careful, Step, Init(2, 2), RESERVED1, APPLIED1);
    Approached();
    LeadsTransitive(Careful, Step, Init(2, 2), APPLIED1, READY1);
  }

  lemma FirstReserved()
    ensures Leads(Careful, Step, Init(2, 2), RESERVED1)
  {
    assert Step(Init(2, 2), Reserve(1)) == RESERVED1;
    LeadsOne(Careful, Step, Init(2, 2), Reserve(1));
  }

  lemma FirstPublished()
    ensures Leads(Careful, Step, RESERVED1, APPLIED1)
  {
    PublishCarefully(RESERVED1, 1);
    assert Published(RESERVED1, 1) == PUBLISHED1;
    Then(Careful, RESERVED1, PUBLISHED1, Apply(1), APPLIED1);
  }

  lemma Approached()
    ensures Leads(Careful, Step, APPLIED1, READY1)
  {
    ApproachAlone(APPLIED1, 0);
    var last := AboutToClaim(APPLIED1, 0);
    assert last.consumers == READY1.consumers;
    assert last == READY1;
  }

  lemma FirstClaimed()
    ensures Leads(Careful, Step, READY1, TAKEN1)
  {
    ClaimAlone(READY1, 1);
    var last := Claimed(READY1, 1);
    assert last.returned == [1] && last.consumers == TAKEN1.consumers;
    assert last == TAKEN1;
  }

  lemma FirstCleared()
    ensures Careful(TAKEN1, Consume(1)) && Step(TAKEN1, Consume(1)) == CLEARED1
  {
    WordParts(1, 0);
    SameSlot(TAKEN1, 0);
  }

  lemma FirstLeft()
    ensures Careful(CLEARED1, Leave(1)) && Step(CLEARED1, Leave(1)) == LEFT1
  {
  }

  lemma FirstReleased()
    ensures Careful(LEFT1, Release(1)) && Step(LEFT1, Release(1)) == QUIET1
  {
  }

  lemma FirstTaken()
    ensures Leads(Careful, Step, READY1, QUIET1)
  {
    FirstClaimed();
    FirstCleared();
    FirstLeft();
    FirstReleased();
    Then(Careful, READY1, TAKEN1, Consume(1), CLEARED1);
    Then(Careful, READY1, CLEARED1, Leave(1), LEFT1);
    Then(Careful, READY1, LEFT1, Release(1), QUIET1);
  }

  /** A consumer that sleeps through 2^32 - 1 more batches finds its word again. Its compare-and-swap succeeds,
      returns batch 1 a second time, and skips the batch that is at the front. Every step before that is one of
      those that the theorems about all runs allow. */
  lemma ReturnedTwice() returns (s: State)
    ensures Leads(Careful, Step, Init(2, 2), s)
    ensures Enabled(s, Consume(0)) && Waits(s, Consume(0)) && !Fresh(s, Consume(0))
    ensures var s' := Next(s, Consume(0));
            && 1 in s.returned && s'.returned == s.returned + [1] && !(s'.returned <= s'.enqueued)
            && |s'.returned| == |s'.enqueued| && s'.enqueued[|s.returned|] !in s'.returned
  {
    StalledBesideFirst();
    FirstTaken();
    LeadsTransitive(Careful, Step, Init(2, 2), READY1, QUIET1);
    var k: nat := WORD32 - 1;
    var last := Rounds(QUIET1, 0, 1, 2, k);
    LeadsTransitive(Careful, Step, Init(2, 2), QUIET1, last);
    Offer(last, 0, 1, 2 + k);
    s := Offered(last, 2 + k);
    LeadsTransitive(Careful, Step, Init(2, 2), last, s);
    SecondReturn(last, s, 2 + k);
  }

  lemma SecondReturn(last: State, s: State, b: Batch)
    requires Quiet(last, 0, 1, b) && |last.slots| > 0 && s == Offered(last, b) && b > 1
    requires |last.enqueued| == WORD32 && [1] <= last.enqueued && last.consumers[0] == ABOUT
    ensures Enabled(s, Consume(0)) && Waits(s, Consume(0)) && !Fresh(s, Consume(0))
    ensures var s' := Next(s, Consume(0));
            && 1 in s.returned && s'.returned == s.returned + [1] && !(s'.returned <= s'.enqueued)
            && |s'.returned| == |s'.enqueued| && s'.enqueued[|s.returned|] !in s'.returned
  {
    WordRepeats(1, 0);
    assert s.word == Word(1 + WORD32, WORD32) == Word(1, 0);
    var s' := Next(s, Consume(0));
    assert s.returned == last.returned == last.enqueued;
    assert last.enqueued[0] == 1;
    assert s'.returned[WORD32] == 1 && s'.enqueued[WORD32] == b;
    assert b !in last.enqueued;
  }
}
