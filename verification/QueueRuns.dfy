/** What holds over whole runs of the commit queue, and exactly when `enqueue` may skip its wait. */
module QueueRuns {
  import opened HeadTail
  import opened BatchQueue
  import opened Runs
  import opened Sequences

  /** The invariant holds throughout every run in which enqueue finds its slot null. */
  lemma {:induction false} ReachableInv(n: nat, states: seq<State>, acts: seq<Action>, i: nat)
    requires QueueSize(n) && Execution(n, states, acts) && i < |states|
    ensures Inv(states[i])
  {
    if i == 0 {
      InitInv(n, |states[0].consumers|);
    } else {
      ReachableInv(n, states, acts, i - 1);
      NextKeepsInv(states[i - 1], acts[i - 1]);
    }
  }

  /** First in, first out, each once, and only when applied: at every point the claimed batches are a prefix
      of the published ones. No published slot is overwritten or erased, and "Queue full" is unreachable. */
  lemma DequeuesInOrder(n: nat, states: seq<State>, acts: seq<Action>, i: nat)
    requires QueueSize(n) && Execution(n, states, acts) && i < |states|
    ensures var s := states[i];
            && s.returned <= s.enqueued
            && Distinct(s.returned)
            && (forall b :: b in s.returned ==> b in s.applied)
            && PublishedIntact(s)
            && !s.producer.Panicked?
            && |s.enqueued| <= |s.returned| + |s.slots|
            && (forall c :: 0 <= c < |s.consumers| && s.consumers[c].Dequeued? ==> s.consumers[c].batch in s.returned)
  {
    ReachableInv(n, states, acts, i);
    var s := states[i];
    forall c | 0 <= c < |s.consumers| && s.consumers[c].Dequeued? ensures s.consumers[c].batch in s.returned {
      assert ConsumerOk(s, s.consumers[c]);
    }
  }

  /** The batch a call returns is the one its own compare-and-swap took from the front. A compare-and-swap that
      loses changes nothing, and the call goes round again with the word as it is, unless the queue is empty. */
  lemma ClaimReturnsFront(s: State, c: nat)
    requires Inv(s) && Enabled(s, Consume(c)) && Fresh(s, Consume(c)) && s.consumers[c].Claiming?
    ensures var s' := Next(s, Consume(c));
            if s.word == s.consumers[c].word then
              && |s.returned| < |s.enqueued|
              && s'.returned == s.returned + [s.enqueued[|s.returned|]]
              && s'.consumers[c].Clearing?
              && s'.consumers[c].batch == s.enqueued[|s.returned|]
            else
              s' == SetConsumer(s, c, if |s.returned| == |s.enqueued| then Nothing
                                      else Holding(s.word, |s.enqueued|, |s.returned|))
  {
    if s.word == s.consumers[c].word { ClaimTakesFront(s, c); } else { ExamineExact(s); }
  }

  /** At the top of the loop a call ends exactly if the queue is empty. */
  lemma ExamineExact(s: State)
    requires Inv(s)
    ensures Examine(s.word, |s.enqueued|, |s.returned|) ==
            if |s.returned| == |s.enqueued| then Nothing else Holding(s.word, |s.enqueued|, |s.returned|)
  {
    WordParts(|s.enqueued|, |s.returned|);
    EmptyTestExact(|s.enqueued|, |s.returned|, |s.slots|);
  }

  /** A consumer that reads its slot while its word's batch is the oldest reads the oldest batch. */
  lemma SlotReadAtFront(s: State, c: nat)
    requires Inv(s) && c < |s.consumers| && s.consumers[c].Holding? && s.consumers[c].t == |s.returned|
    ensures var s' := Next(s, Consume(c)); var pc := s.consumers[c];
            s'.consumers[c] == Judging(pc.word, pc.h, pc.t, s.enqueued[pc.t])
  {
    assert ConsumerOk(s, s.consumers[c]);
    WordParts(s.consumers[c].h, s.consumers[c].t);
    SameSlot(s, s.consumers[c].t);
    assert s.enqueued[s.consumers[c].t] in s.enqueued;
  }

  /** When the words agree, the claim of a consumer that read the oldest batch keeps first in, first out,
      exactly if it comes fewer than 2^32 dequeues after the load of its word. Later, an old batch is
      returned again and the oldest one skipped. */
  lemma ClaimKeepsOrderIffFresh(s: State, c: nat)
    requires Inv(s) && c < |s.consumers| && s.consumers[c].Claiming? && s.word == s.consumers[c].word
    requires s.consumers[c].t < |s.enqueued| && s.consumers[c].batch == s.enqueued[s.consumers[c].t]
    ensures var s' := Next(s, Consume(c)); s'.returned <= s'.enqueued <==> Fresh(s, Consume(c))
  {
    var pc, s' := s.consumers[c], Next(s, Consume(c));
    assert s'.returned == s.returned + [pc.batch];
    assert s'.returned <= s'.enqueued ==> s'.returned[|s.returned|] == s.enqueued[|s.returned|];
    if Fresh(s, Consume(c)) { ClaimTakesFront(s, c); }
  }

  // ---- When a call finds nothing ----

  /** A step ends a call with nothing if and only if it finds the queue empty, at the start or after a lost
      compare-and-swap, or the slot null, or the batch it read not applied. */
  lemma NothingIff(s: State, c: nat)
    requires Inv(s) && Enabled(s, Consume(c))
    ensures var pc := s.consumers[c];
            Next(s, Consume(c)).consumers[c].Nothing? <==>
            || (pc.Entering? && |s.returned| == |s.enqueued|)
            || (pc.Claiming? && s.word != pc.word && |s.returned| == |s.enqueued|)
            || (pc.Holding? && s.slots[pc.t % |s.slots|] == NO_BATCH)
            || (pc.Judging? && pc.batch !in s.applied)
  {
    assert ConsumerOk(s, s.consumers[c]);
    ExamineExact(s);
    if s.consumers[c].Holding? {
      WordParts(s.consumers[c].h, s.consumers[c].t);
      SameSlot(s, s.consumers[c].t);
    }
  }

  /** The position a call is after. */
  function Ticket(pc: Consumer): Option<nat> {
    match pc
    case Holding(_, _, t) => Some(t)
    case Judging(_, _, t, _) => Some(t)
    case Claiming(_, _, t, _) => Some(t)
    case _ => None
  }

  /** A call gets a position only when it is the front. */
  lemma TicketIsFront(s: State, act: Action, c: nat)
    requires Enabled(s, act) && c < |s.consumers| == |Next(s, act).consumers|
    requires Ticket(Next(s, act).consumers[c]).Some? && Ticket(Next(s, act).consumers[c]) != Ticket(s.consumers[c])
    ensures Ticket(Next(s, act).consumers[c]) == Some(|s.returned|) && Next(s, act).returned == s.returned
  {
  }

  /** Only a claim, by a call that has a position and gives it up, adds to the returned batches. */
  lemma OnlyClaimsReturn(s: State, act: Action)
    requires Enabled(s, act) && Next(s, act).returned != s.returned
    ensures act.Consume? && s.consumers[act.c].Claiming? && |Next(s, act).returned| == |s.returned| + 1
    ensures |Next(s, act).consumers| == |s.consumers| && Ticket(Next(s, act).consumers[act.c]).None?
  {
  }

  /** Step m is the claim of position t by a call of another consumer than c. */
  ghost predicate ClaimedByOther(states: seq<State>, acts: seq<Action>, m: nat, c: nat, t: nat) {
    && m < |acts| && m + 1 < |states| && acts[m].Consume? && acts[m].c != c
    && |states[m].returned| == t < |states[m].enqueued|
    && states[m + 1].returned == states[m].returned + [states[m].enqueued[t]]
  }

  /** Consumer c is after position t from state m to state i. */
  ghost predicate HadPosition(states: seq<State>, m: nat, i: nat, c: nat, t: nat) {
    m <= i < |states| && forall k :: m <= k <= i ==> c < |states[k].consumers| && Ticket(states[k].consumers[c]) == Some(t)
  }

  /** A call that has a position which has been claimed got it before that claim, and another made the claim. */
  lemma {:induction false} ClaimedMeanwhile(n: nat, states: seq<State>, acts: seq<Action>, i: nat, c: nat, t: nat) returns (m: nat)
    requires QueueSize(n) && Execution(n, states, acts) && i < |states| && c < |states[i].consumers|
    requires Ticket(states[i].consumers[c]) == Some(t) && t < |states[i].returned|
    ensures m < i && ClaimedByOther(states, acts, m, c, t) && HadPosition(states, m, i, c, t)
  {
    var p, act := states[i - 1], acts[i - 1];
    assert states[i] == Next(p, act) && |states[i].consumers| == |p.consumers|;
    if Ticket(p.consumers[c]) != Some(t) { TicketIsFront(p, act, c); }
    if t < |p.returned| {
      m := ClaimedMeanwhile(n, states, acts, i - 1, c, t);
    } else {
      m := i - 1;
      OnlyClaimsReturn(p, act);
      ReachableInv(n, states, acts, i - 1);
      ClaimReturnsFront(p, act.c);
    }
  }

  /** Why a call ends with nothing. At its last step the queue is empty; or the batch it read is not applied; or the
      batch of the position it was after has been claimed by another call since it loaded its word. */
  lemma NothingMeans(n: nat, states: seq<State>, acts: seq<Action>, i: nat, c: nat)
    requires QueueSize(n) && Execution(n, states, acts) && i < |acts|
    requires acts[i] == Consume(c) && states[i + 1].consumers[c].Nothing?
    ensures var s := states[i]; var pc := s.consumers[c];
            || |s.returned| == |s.enqueued|
            || (pc.Judging? && pc.batch !in s.applied)
            || (Ticket(pc).Some? && exists m :: 0 <= m < i && ClaimedByOther(states, acts, m, c, Ticket(pc).value) &&
                                                HadPosition(states, m, i, c, Ticket(pc).value))
  {
    var s := states[i];
    ReachableInv(n, states, acts, i);
    NothingIff(s, c);
    assert ConsumerOk(s, s.consumers[c]);
    assert |s.returned| < |s.enqueued| ==> s.enqueued[|s.returned|] in s.enqueued;
    if s.consumers[c].Holding? && s.consumers[c].t < |s.returned| {
      var m := ClaimedMeanwhile(n, states, acts, i, c, s.consumers[c].t);
    }
  }

  /** `enqueue` panics exactly if n batches are published and not claimed. */
  lemma PanicsIffFull(s: State)
    requires CountersOk(s) && s.producer.Checking?
    ensures ProduceStep(s).producer.Panicked? <==> |s.enqueued| == |s.returned| + |s.slots|
    ensures !ProduceStep(s).producer.Panicked? ==> ProduceStep(s).producer == Inspecting(s.producer.batch, |s.enqueued| % WORD32)
  {
    WordParts(|s.enqueued|, |s.returned|);
    FullTestExact(|s.enqueued|, |s.returned|, |s.slots|);
  }

  // ---- A dequeue that nobody disturbs ----

  function Step(s: State, act: Action): State {
    if Enabled(s, act) then Next(s, act) else s
  }

  /** The front batch is with consumer c and its slot is null. */
  function Dequeues(s: State, c: nat): State
    requires c < |s.consumers| && |s.returned| < |s.enqueued| && |s.slots| > 0
  {
    var t := |s.returned|;
    SetConsumer(s.(word := Word(|s.enqueued|, t + 1), returned := s.returned + [s.enqueued[t]],
                   slots := s.slots[t % |s.slots| := NO_BATCH]),
                c, Dequeued(s.enqueued[t]))
  }

  lemma OwnStep(s: State, base: State, pc: Consumer, base': State, pc': Consumer, c: nat)
    requires c < |base.consumers| && base'.consumers == base.consumers
    requires Alone(Enabled, Step, s, Consume(c), SetConsumer(base, c, pc))
    requires Enabled(SetConsumer(base, c, pc), Consume(c))
    requires ConsumeStep(SetConsumer(base, c, pc), c) == SetConsumer(base'.(consumers := base.consumers[c := pc]), c, pc')
    ensures Alone(Enabled, Step, s, Consume(c), SetConsumer(base', c, pc'))
  {
    assert base.consumers[c := pc][c := pc'] == base.consumers[c := pc'];
    AloneThen(Enabled, Step, s, Consume(c), SetConsumer(base, c, pc), SetConsumer(base', c, pc'));
  }

  /** A `try_dequeue` that nobody disturbs returns the front batch and nulls its slot if there is one and it is
      applied, and nothing otherwise. */
  lemma DequeueAlone(s: State, c: nat)
    requires Inv(s) && c < |s.consumers| && s.consumers[c].Entering?
    ensures Alone(Enabled, Step, s, Consume(c),
                  if |s.returned| < |s.enqueued| && s.enqueued[|s.returned|] in s.applied then Dequeues(s, c)
                  else SetConsumer(s, c, Nothing))
  {
    assert s.consumers[c := Entering] == s.consumers;
    AloneSelf(Enabled, Step, s, Consume(c));
    ExamineExact(s);
    if |s.returned| == |s.enqueued| {
      OwnStep(s, s, Entering, s, Nothing, c);
    } else {
      var h, t := |s.enqueued|, |s.returned|;
      var b := s.enqueued[t];
      OwnStep(s, s, Entering, s, Holding(s.word, h, t), c);
      FrontSlot(s);
      OwnStep(s, s, Holding(s.word, h, t), s, Judging(s.word, h, t, b), c);
      if b in s.applied {
        OwnStep(s, s, Judging(s.word, h, t, b), s, Claiming(s.word, h, t, b), c);
        ClaimAndClear(s, c);
      } else {
        OwnStep(s, s, Judging(s.word, h, t, b), s, Nothing, c);
      }
    }
  }

  lemma FrontSlot(s: State)
    requires Inv(s) && |s.returned| < |s.enqueued|
    ensures Slot(s.slots, Index(Tail(s.word), s.slots)) == s.enqueued[|s.returned|] != NO_BATCH
    ensures Index(Tail(s.word), s.slots) == |s.returned| % |s.slots|
  {
    WordParts(|s.enqueued|, |s.returned|);
    SameSlot(s, |s.returned|);
    assert s.enqueued[|s.returned|] in s.enqueued;
  }

  lemma ClaimAndClear(s: State, c: nat)
    requires Inv(s) && c < |s.consumers| && |s.returned| < |s.enqueued|
    requires Alone(Enabled, Step, s, Consume(c),
                   SetConsumer(s, c, Claiming(s.word, |s.enqueued|, |s.returned|, s.enqueued[|s.returned|])))
    ensures Alone(Enabled, Step, s, Consume(c), Dequeues(s, c))
  {
    var h, t := |s.enqueued|, |s.returned|;
    var b := s.enqueued[t];
    FrontSlot(s);
    RepackAdvancesTail(h, t);
    WordParts(h, t);
    var claimed := s.(word := Word(h, t + 1), returned := s.returned + [b]);
    OwnStep(s, s, Claiming(s.word, h, t, b), claimed, Clearing(t, b, s.word), c);
    var cleared := claimed.(slots := s.slots[t % |s.slots| := NO_BATCH]);
    OwnStep(s, claimed, Clearing(t, b, s.word), cleared, Dequeued(b), c);
  }

  // ---- Who owns a slot that is not null ----

  ghost predicate OwnedSlot(s: State, k: nat) {
    || (exists i :: |s.returned| <= i < |s.enqueued| && PositionOf(i, |s.slots|) == k)
    || (s.producer.Bumping? && PositionOf(|s.enqueued|, |s.slots|) == k)
    || (exists c :: 0 <= c < |s.consumers| && s.consumers[c].Clearing? && PositionOf(s.consumers[c].t, |s.slots|) == k)
  }

  function PositionOf(i: nat, n: nat): nat {
    if n == 0 then 0 else i % n
  }

  /** A slot that is not null is published, being published, or claimed and not yet cleared. */
  ghost predicate SlotsOwned(s: State) {
    forall k :: 0 <= k < |s.slots| && s.slots[k] != NO_BATCH ==> OwnedSlot(s, k)
  }

  lemma OwnedMonotone(s: State, s': State, k: nat)
    requires OwnedSlot(s, k) && |s'.slots| == |s.slots| && |s'.consumers| == |s.consumers|
    requires s'.enqueued == s.enqueued && s'.returned == s.returned
    requires s.producer.Bumping? ==> s'.producer.Bumping?
    requires forall c :: 0 <= c < |s.consumers| && s.consumers[c].Clearing? ==>
               s'.consumers[c] == s.consumers[c] || PositionOf(s.consumers[c].t, |s.slots|) != k
    ensures OwnedSlot(s', k)
  {
    if c :| 0 <= c < |s.consumers| && s.consumers[c].Clearing? && PositionOf(s.consumers[c].t, |s.slots|) == k {
      assert s'.consumers[c].Clearing?;
    }
  }

  lemma ProduceKeepsOwned(s: State)
    requires Inv(s) && SlotsOwned(s) && Enabled(s, Produce)
    ensures SlotsOwned(ProduceStep(s))
  {
    var s' := ProduceStep(s);
    SameSlot(s, |s.enqueued|);
    forall k | 0 <= k < |s'.slots| && s'.slots[k] != NO_BATCH ensures OwnedSlot(s', k) {
      if s.producer.Bumping? {
        BumpOwned(s, k);
      } else if s.producer.Storing? {
        if k != PositionOf(|s.enqueued|, |s.slots|) { OwnedMonotone(s, s', k); }
      } else {
        OwnedMonotone(s, s', k);
      }
    }
  }

  /** The batch being published is published. */
  lemma BumpOwned(s: State, k: nat)
    requires |s.returned| <= |s.enqueued| && s.producer.Bumping? && OwnedSlot(s, k)
    ensures OwnedSlot(ProduceStep(s), k)
  {
    var s' := ProduceStep(s);
    if PositionOf(|s.enqueued|, |s.slots|) == k {
      assert |s'.returned| <= |s.enqueued| < |s'.enqueued| && PositionOf(|s.enqueued|, |s'.slots|) == k;
    } else if i :| |s.returned| <= i < |s.enqueued| && PositionOf(i, |s.slots|) == k {
      assert |s'.returned| <= i < |s'.enqueued| && PositionOf(i, |s'.slots|) == k;
    }
  }

  lemma ConsumeKeepsOwned(s: State, c: nat)
    requires Inv(s) && SlotsOwned(s) && Enabled(s, Consume(c)) && Fresh(s, Consume(c))
    ensures SlotsOwned(ConsumeStep(s, c))
  {
    var s' := ConsumeStep(s, c);
    var pc := s.consumers[c];
    assert ConsumerOk(s, pc);
    if pc.Clearing? { SameSlot(s, pc.t); }
    forall k | 0 <= k < |s'.slots| && s'.slots[k] != NO_BATCH ensures OwnedSlot(s', k) {
      if pc.Claiming? && s.word == pc.word {
        ClaimTakesFront(s, c);
        assert s'.consumers[c].Clearing? && s'.consumers[c].t == |s.returned|;
        if i :| |s.returned| <= i < |s.enqueued| && PositionOf(i, |s.slots|) == k {
          if i > |s.returned| { assert |s'.returned| <= i < |s'.enqueued| && PositionOf(i, |s'.slots|) == k; }
        } else if d :| 0 <= d < |s.consumers| && s.consumers[d].Clearing? && PositionOf(s.consumers[d].t, |s.slots|) == k {
          assert s'.consumers[d] == s.consumers[d];
        }
      } else {
        OwnedMonotone(s, s', k);
      }
    }
  }

  lemma NextKeepsOwned(s: State, act: Action)
    requires Inv(s) && SlotsOwned(s) && Enabled(s, act) && Fresh(s, act)
    ensures SlotsOwned(Next(s, act))
  {
    match act
    case Produce => ProduceKeepsOwned(s);
    case Consume(c) => ConsumeKeepsOwned(s, c);
    case _ =>
      var s' := Next(s, act);
      forall k | 0 <= k < |s'.slots| && s'.slots[k] != NO_BATCH ensures OwnedSlot(s', k) {
        OwnedMonotone(s, s', k);
      }
  }

  lemma {:induction false} ReachableOwned(n: nat, states: seq<State>, acts: seq<Action>, i: nat)
    requires QueueSize(n) && Execution(n, states, acts) && i < |states|
    ensures SlotsOwned(states[i])
  {
    if i > 0 {
      ReachableInv(n, states, acts, i - 1);
      ReachableOwned(n, states, acts, i - 1);
      NextKeepsOwned(states[i - 1], acts[i - 1]);
    }
  }

  // ---- Skipping the wait ----

  /** The producer goes from looking at its slot to advancing the head, and then consumer c takes a step. */
  function PublishThenStep(s: State, c: nat): State
    requires c < |s.consumers|
  {
    ConsumeStep(ProduceStep(ProduceStep(ProduceStep(s))), c)
  }

  /** A consumer that has claimed the producer's slot but not cleared it erases what is published there. */
  lemma UnclearedSlotIsErased(s: State, c: nat)
    requires Inv(s) && s.producer.Inspecting? && c < |s.consumers| && s.consumers[c].Clearing?
    requires PositionOf(s.consumers[c].t, |s.slots|) == PositionOf(|s.enqueued|, |s.slots|)
    ensures var s' := PublishThenStep(s, c);
            && |s'.returned| <= |s.enqueued| < |s'.enqueued|
            && s'.enqueued[|s.enqueued|] == s.producer.batch
            && s'.slots[PositionOf(|s.enqueued|, |s.slots|)] == NO_BATCH
            && !PublishedIntact(s')
  {
    var h := |s.enqueued|;
    assert ConsumerOk(s, s.consumers[c]);
    SameSlot(s, h);
    SameSlot(s, s.consumers[c].t);
    var s' := PublishThenStep(s, c);
    assert s'.enqueued == s.enqueued + [s.producer.batch];
    assert s.producer.batch in s.holders;
    assert s'.slots[h % |s'.slots|] == NO_BATCH && s'.enqueued[h] != NO_BATCH;
  }

  /** From any state the queue can be in, publishing without waiting can lose the batch exactly when the slot
      the producer looks at is not null. */
  lemma SkippingTheWaitIsSafeIffNull(s: State)
    requires Inv(s) && SlotsOwned(s) && s.producer.Inspecting?
    ensures Waits(s, Produce) <==>
            forall c :: 0 <= c < |s.consumers| && s.consumers[c].Clearing? ==> PublishedIntact(PublishThenStep(s, c))
  {
    var h := |s.enqueued|;
    SameSlot(s, h);
    var k := PositionOf(h, |s.slots|);
    if Waits(s, Produce) {
      forall c | 0 <= c < |s.consumers| && s.consumers[c].Clearing? ensures PublishedIntact(PublishThenStep(s, c)) {
        var s1 := ProduceStep(s);
        NextKeepsInv(s, Produce);
        NextKeepsInv(s1, Produce);
        NextKeepsInv(ProduceStep(s1), Produce);
        NextKeepsInv(ProduceStep(ProduceStep(s1)), Consume(c));
      }
    } else {
      assert OwnedSlot(s, k);
      if i :| |s.returned| <= i < h && PositionOf(i, |s.slots|) == k { SlotsDiffer(i, h, |s.slots|); }
      var c :| 0 <= c < |s.consumers| && s.consumers[c].Clearing? && PositionOf(s.consumers[c].t, |s.slots|) == k;
      UnclearedSlotIsErased(s, c);
    }
  }
}
