/** The commit queue: one producer under the commit mutex, any number of consumers, and the permits that
    bound how many batches are between reservation and release. Every atomic access is one step.

    `enqueue` is modelled as written: it looks at its slot once and goes on. Its comment promises to wait
    until the slot is null; `Waits` says that a step keeps that promise. */
module BatchQueue {
  import opened Bits
  import opened HeadTail
  import opened Sequences

  type Batch = nat

  const NO_BATCH: Batch := 0

  datatype Producer =
    | Resting
    | Checking(batch: Batch)               // about to load the word
    | Inspecting(batch: Batch, head: nat)  // about to look at the slot
    | Storing(batch: Batch, head: nat)     // about to store the batch
    | Bumping(batch: Batch)                // about to advance the head
    | Panicked(batch: Batch)               // "Queue full"

  /** A consumer carries the word it loaded; h and t are the logical counters at that load. */
  datatype Consumer =
    | Away
    | Entering                                              // about to load the word
    | Holding(word: nat, h: nat, t: nat)                    // about to load the slot
    | Judging(word: nat, h: nat, t: nat, batch: Batch)      // about to load the batch's state
    | Claiming(word: nat, h: nat, t: nat, batch: Batch)     // about to compare-and-swap the word
    | Clearing(t: nat, batch: Batch, word: nat)             // about to null the slot
    | Dequeued(batch: Batch)
    | Nothing

  datatype State = State(
    word: nat,
    slots: seq<Batch>,
    applied: set<Batch>,
    holders: set<Batch>,        // batches whose committer holds a permit
    producer: Producer,
    consumers: seq<Consumer>,
    enqueued: seq<Batch>,       // every batch ever published, in order
    returned: seq<Batch>)       // every batch claimed, in compare-and-swap order

  datatype Action =
    | Reserve(batch: Batch)
    | BeginEnqueue(batch: Batch)
    | Produce
    | Apply(batch: Batch)
    | BeginDequeue(c: nat)
    | Consume(c: nat)
    | Leave(c: nat)
    | Release(batch: Batch)

  function Init(n: nat, consumerCount: nat): State {
    State(Word(0, 0), seq(n, _ => NO_BATCH), {}, {}, Resting, seq(consumerCount, _ => Away), [], [])
  }

  function Store(slots: seq<Batch>, i: nat, b: Batch): seq<Batch> {
    if i < |slots| then slots[i := b] else slots
  }

  function Slot(slots: seq<Batch>, i: nat): Batch {
    if i < |slots| then slots[i] else NO_BATCH
  }

  function Index(counter: nat, slots: seq<Batch>): nat {
    if |slots| > 0 then SlotIndex(counter, |slots|) else 0
  }

  /** `enqueue`, one atomic access at a time. */
  function ProduceStep(s: State): State {
    match s.producer
    case Checking(b) =>
      if WrappingAdd(Tail(s.word), |s.slots|) == Head(s.word) then s.(producer := Panicked(b))
      else s.(producer := Inspecting(b, Head(s.word)))
    case Inspecting(b, head) => s.(producer := Storing(b, head))
    case Storing(b, head) => s.(slots := Store(s.slots, Index(head, s.slots), b), producer := Bumping(b))
    case Bumping(b) => s.(word := BumpHead(s.word), enqueued := s.enqueued + [b], producer := Resting)
    case _ => s
  }

  function SetConsumer(s: State, c: nat, pc: Consumer): State
    requires c < |s.consumers|
  {
    s.(consumers := s.consumers[c := pc])
  }

  /** The top of the `try_dequeue` loop with a word in hand. */
  function Examine(word: nat, h: nat, t: nat): Consumer {
    if Tail(word) == Head(word) then Nothing else Holding(word, h, t)
  }

  function Claim(s: State, c: nat): State
    requires c < |s.consumers| && s.consumers[c].Claiming?
  {
    var pc := s.consumers[c];
    if s.word == pc.word then
      SetConsumer(s.(word := Pack(Head(pc.word), WrappingAdd(Tail(pc.word), 1)), returned := s.returned + [pc.batch]),
                  c, Clearing(pc.t, pc.batch, pc.word))
    else SetConsumer(s, c, Examine(s.word, |s.enqueued|, |s.returned|))
  }

  /** `try_dequeue`, one atomic access at a time. */
  function ConsumeStep(s: State, c: nat): State
    requires c < |s.consumers|
  {
    match s.consumers[c]
    case Entering => SetConsumer(s, c, Examine(s.word, |s.enqueued|, |s.returned|))
    case Holding(word, h, t) =>
      var b := Slot(s.slots, Index(Tail(word), s.slots));
      SetConsumer(s, c, if b == NO_BATCH then Nothing else Judging(word, h, t, b))
    case Judging(word, h, t, b) =>
      SetConsumer(s, c, if b in s.applied then Claiming(word, h, t, b) else Nothing)
    case Claiming(_, _, _, _) => Claim(s, c)
    case Clearing(t, b, word) =>
      SetConsumer(s.(slots := Store(s.slots, Index(Tail(word), s.slots), NO_BATCH)), c, Dequeued(b))
    case _ => s
  }

  /** What clients may do: a permit is reserved for a new batch while fewer than n are held; a batch with a
      permit is enqueued once; it is applied after it is published; its permit goes back once it has been
      claimed. */
  predicate Enabled(s: State, act: Action) {
    match act
    case Reserve(b) => b != NO_BATCH && b !in s.holders && b !in s.enqueued && |s.holders| < |s.slots|
    case BeginEnqueue(b) => s.producer.Resting? && b in s.holders && b !in s.enqueued
    case Produce => !s.producer.Resting? && !s.producer.Panicked?
    case Apply(b) => b in s.enqueued
    case BeginDequeue(c) => c < |s.consumers| && s.consumers[c].Away?
    case Consume(c) =>
      c < |s.consumers| && !(s.consumers[c].Away? || s.consumers[c].Dequeued? || s.consumers[c].Nothing?)
    case Leave(c) => c < |s.consumers| && (s.consumers[c].Dequeued? || s.consumers[c].Nothing?)
    case Release(b) => b in s.holders && b in s.returned
  }

  function Next(s: State, act: Action): State
    requires Enabled(s, act)
  {
    match act
    case Reserve(b) => s.(holders := s.holders + {b})
    case BeginEnqueue(b) => s.(producer := Checking(b))
    case Produce => ProduceStep(s)
    case Apply(b) => s.(applied := s.applied + {b})
    case BeginDequeue(c) => SetConsumer(s, c, Entering)
    case Consume(c) => ConsumeStep(s, c)
    case Leave(c) => SetConsumer(s, c, Away)
    case Release(b) => s.(holders := s.holders - {b})
  }

  /** When the producer inspects its slot, the slot is null: what the comment in `enqueue` promises. */
  predicate Waits(s: State, act: Action) {
    act.Produce? && s.producer.Inspecting? ==> Slot(s.slots, Index(s.producer.head, s.slots)) == NO_BATCH
  }

  /** A consumer's compare-and-swap comes fewer than 2^32 dequeues after its load of the word. */
  predicate Fresh(s: State, act: Action) {
    act.Consume? && act.c < |s.consumers| && s.consumers[act.c].Claiming? ==>
      |s.returned| < s.consumers[act.c].t + WORD32
  }

  ghost predicate Execution(n: nat, states: seq<State>, acts: seq<Action>) {
    && |states| == |acts| + 1
    && states[0] == Init(n, |states[0].consumers|)
    && (forall i :: 0 <= i < |acts| ==>
          Enabled(states[i], acts[i]) && states[i + 1] == Next(states[i], acts[i]) &&
          Waits(states[i], acts[i]) && Fresh(states[i], acts[i]))
  }

  // ---- The invariant ----

  /** Every published and unclaimed slot holds its batch. */
  ghost predicate PublishedIntact(s: State) {
    |s.slots| > 0 &&
    forall i :: |s.returned| <= i < |s.enqueued| ==> s.slots[i % |s.slots|] == s.enqueued[i]
  }

  ghost predicate CountersOk(s: State) {
    && QueueSize(|s.slots|)
    && |s.returned| <= |s.enqueued| <= |s.returned| + |s.slots|
    && s.word == Word(|s.enqueued|, |s.returned|)
    && s.returned == s.enqueued[..|s.returned|]
    && Distinct(s.enqueued)
    && NO_BATCH !in s.enqueued
    && (forall b :: b in s.returned ==> b in s.applied)
  }

  ghost predicate HoldersOk(s: State) {
    && |s.holders| <= |s.slots|
    && NO_BATCH !in s.holders
    && (forall i :: |s.returned| <= i < |s.enqueued| ==> s.enqueued[i] in s.holders)
  }

  ghost predicate InHand(s: State, b: Batch) {
    b in s.holders && b !in s.enqueued
  }

  ghost predicate ProducerOk(s: State)
    requires |s.slots| > 0
  {
    var h := |s.enqueued|;
    match s.producer
    case Resting => true
    case Checking(b) => InHand(s, b)
    case Inspecting(b, head) => InHand(s, b) && head == h % WORD32 && h < |s.returned| + |s.slots|
    case Storing(b, head) =>
      InHand(s, b) && head == h % WORD32 && h < |s.returned| + |s.slots| && s.slots[h % |s.slots|] == NO_BATCH
    case Bumping(b) => InHand(s, b) && h < |s.returned| + |s.slots| && s.slots[h % |s.slots|] == b
    case Panicked(b) => false
  }

  /** The first position not yet given to a batch, counting the one being stored. */
  function Reach(s: State): nat {
    |s.enqueued| + if s.producer.Bumping? then 1 else 0
  }

  ghost predicate TicketOk(s: State, word: nat, h: nat, t: nat) {
    && word == Word(h, t)
    && t < h <= t + |s.slots| && h <= |s.enqueued| && t <= |s.returned|
  }

  ghost predicate ConsumerOk(s: State, pc: Consumer)
    requires |s.slots| > 0
  {
    match pc
    case Holding(word, h, t) => TicketOk(s, word, h, t)
    case Judging(word, h, t, b) => TicketOk(s, word, h, t) && (t == |s.returned| ==> b == s.enqueued[t])
    case Claiming(word, h, t, b) =>
      TicketOk(s, word, h, t) && (t == |s.returned| ==> b == s.enqueued[t]) && b in s.applied
    case Clearing(t, b, word) =>
      && t < |s.returned|
      && Tail(word) == t % WORD32
      && b == s.returned[t]
      && Reach(s) <= t + |s.slots|
      && s.slots[t % |s.slots|] == b
    case Dequeued(b) => b in s.returned
    case _ => true
  }

  ghost predicate ClaimsDiffer(cs: seq<Consumer>) {
    forall i, j :: 0 <= i < j < |cs| && cs[i].Clearing? && cs[j].Clearing? ==> cs[i].t != cs[j].t
  }

  ghost predicate Inv(s: State) {
    && CountersOk(s)
    && PublishedIntact(s)
    && HoldersOk(s)
    && ProducerOk(s)
    && (forall c :: 0 <= c < |s.consumers| ==> ConsumerOk(s, s.consumers[c]))
    && ClaimsDiffer(s.consumers)
  }

  // ---- Steps ----

  lemma SameSlot(s: State, t: nat)
    requires QueueSize(|s.slots|)
    ensures Index(t % WORD32, s.slots) == t % |s.slots|
  {
    MaskIsModulo(t, |s.slots|);
  }

  /** With every queued batch and the one in hand holding a permit, there is room in the queue. */
  lemma RoomForHeld(s: State, b: Batch)
    requires CountersOk(s) && HoldersOk(s) && InHand(s, b)
    ensures |s.enqueued| < |s.returned| + |s.slots|
  {
    var queued := s.enqueued[|s.returned|..];
    DistinctCount(queued);
    var q := set x | x in queued;
    assert forall x :: x in queued ==> x in s.enqueued;
    assert b !in q;
    assert q + {b} <= s.holders by {
      forall x | x in queued ensures x in s.holders {
        var i :| 0 <= i < |queued| && queued[i] == x;
        assert s.enqueued[|s.returned| + i] == x;
      }
    }
    SubsetCount(q + {b}, s.holders);
    assert |q + {b}| == |q| + 1;
  }

  lemma {:induction false} DistinctCount<T>(s: seq<T>)
    requires Distinct(s)
    ensures |set x | x in s| == |s|
  {
    if s != [] {
      DistinctCount(s[1..]);
      var rest := set x | x in s[1..];
      assert s[0] !in rest;
      assert (set x | x in s) == rest + {s[0]};
    }
  }

  lemma {:induction false} SubsetCount<T>(a: set<T>, b: set<T>)
    requires a <= b
    ensures |a| <= |b|
  {
    if a != {} {
      var x :| x in a;
      SubsetCount(a - {x}, b - {x});
    }
  }

  lemma ProduceOk(s: State)
    requires Inv(s) && Enabled(s, Produce) && Waits(s, Produce)
    ensures Inv(ProduceStep(s))
  {
    var h, t, n := |s.enqueued|, |s.returned|, |s.slots|;
    WordParts(h, t);
    SameSlot(s, h);
    match s.producer
    case Checking(b) =>
      FullTestExact(h, t, n);
      RoomForHeld(s, b);
      assert ProducerOk(ProduceStep(s));
      SameMemory(s, ProduceStep(s));
    case Inspecting(b, head) =>
      SameMemory(s, ProduceStep(s));
    case Storing(b, head) =>
      StoreOk(s);
    case Bumping(b) =>
      BumpOk(s);
  }

  /** Steps that leave the queue's memory and history alone keep the consumers' facts. */
  lemma SameMemory(s: State, s': State)
    requires Inv(s)
    requires s'.word == s.word && s'.slots == s.slots && s'.enqueued == s.enqueued && s'.returned == s.returned
    requires s.applied <= s'.applied
    requires s'.consumers == s.consumers && Reach(s') == Reach(s)
    requires HoldersOk(s') && ProducerOk(s')
    ensures Inv(s')
  {
    forall c | 0 <= c < |s'.consumers| ensures ConsumerOk(s', s'.consumers[c]) {
      assert ConsumerOk(s, s.consumers[c]);
    }
  }

  lemma StoreOk(s: State)
    requires Inv(s) && s.producer.Storing?
    ensures Inv(ProduceStep(s))
  {
    var h, n := |s.enqueued|, |s.slots|;
    var s' := ProduceStep(s);
    SameSlot(s, h);
    assert s'.slots == s.slots[h % n := s.producer.batch];
    forall i | |s.returned| <= i < h ensures s'.slots[i % n] == s.enqueued[i] {
      SlotsDiffer(i, h, n);
    }
    forall c | 0 <= c < |s.consumers| ensures ConsumerOk(s', s'.consumers[c]) {
      assert ConsumerOk(s, s.consumers[c]);
      if s.consumers[c].Clearing? {
        var i := s.consumers[c].t;
        assert s.returned[i] == s.enqueued[i] && s.enqueued[i] in s.enqueued;
        if h == i + n { SlotAgain(i, n); }
        SlotsDiffer(i, h, n);
      }
    }
  }

  lemma BumpOk(s: State)
    requires Inv(s) && s.producer.Bumping?
    ensures Inv(ProduceStep(s))
  {
    var h, t := |s.enqueued|, |s.returned|;
    var s' := ProduceStep(s);
    BumpHeadAdvances(h, t);
    assert s'.returned == s'.enqueued[..t];
    assert forall x :: x in s'.enqueued ==> x in s.enqueued || x == s.producer.batch;
    forall i | t <= i < h + 1 ensures s'.slots[i % |s.slots|] == s'.enqueued[i] && s'.enqueued[i] in s'.holders {
      assert i < h ==> s'.enqueued[i] == s.enqueued[i];
    }
    forall c | 0 <= c < |s.consumers| ensures ConsumerOk(s', s'.consumers[c]) {
      assert ConsumerOk(s, s.consumers[c]);
    }
  }

  lemma SetConsumerOk(s: State, c: nat, pc: Consumer)
    requires Inv(s) && c < |s.consumers| && !pc.Clearing? && ConsumerOk(s, pc)
    ensures Inv(SetConsumer(s, c, pc))
  {
    var s' := SetConsumer(s, c, pc);
    forall d | 0 <= d < |s'.consumers| ensures ConsumerOk(s', s'.consumers[d]) {
      assert d != c ==> ConsumerOk(s, s.consumers[d]);
    }
  }

  lemma ExamineOk(s: State)
    requires Inv(s)
    ensures ConsumerOk(s, Examine(s.word, |s.enqueued|, |s.returned|))
  {
    WordParts(|s.enqueued|, |s.returned|);
    EmptyTestExact(|s.enqueued|, |s.returned|, |s.slots|);
  }

  /** A claim that is fresh succeeds only on the batch at the front of the queue. */
  lemma ClaimTakesFront(s: State, c: nat)
    requires Inv(s) && c < |s.consumers| && s.consumers[c].Claiming? && Fresh(s, Consume(c))
    requires s.word == s.consumers[c].word
    ensures s.consumers[c].t == |s.returned| < |s.enqueued| == s.consumers[c].h
    ensures s.consumers[c].batch == s.enqueued[|s.returned|]
  {
    var pc := s.consumers[c];
    assert ConsumerOk(s, pc);
    WordInjective(pc.h, pc.t, |s.enqueued|, |s.returned|, |s.slots|);
  }

  lemma ClaimOk(s: State, c: nat)
    requires Inv(s) && c < |s.consumers| && s.consumers[c].Claiming? && Fresh(s, Consume(c))
    ensures Inv(Claim(s, c))
  {
    var pc, h, t := s.consumers[c], |s.enqueued|, |s.returned|;
    assert ConsumerOk(s, pc);
    if s.word == pc.word {
      var s' := Claim(s, c);
      ClaimTakesFront(s, c);
      RepackAdvancesTail(h, t);
      WordParts(h, t);
      assert s'.returned == s.enqueued[..t + 1];
      forall x | x in s'.returned ensures x in s'.applied { assert x in s.returned || x == pc.batch; }
      ClaimConsumersOk(s, c);
      ClaimsStillDiffer(s, c);
    } else {
      ExamineOk(s);
      SetConsumerOk(s, c, Examine(s.word, h, t));
    }
  }

  lemma OtherClaimed(s: State, c: nat, pc: Consumer)
    requires Inv(s) && c < |s.consumers| && s.consumers[c].Claiming? && s.word == s.consumers[c].word
    requires ConsumerOk(s, pc)
    ensures ConsumerOk(Claim(s, c), pc)
  {
    var s' := Claim(s, c);
    assert s'.returned == s.returned + [s.consumers[c].batch] && s'.enqueued == s.enqueued && s'.applied == s.applied;
  }

  lemma ClaimantOk(s: State, c: nat)
    requires Inv(s) && c < |s.consumers| && s.consumers[c].Claiming? && Fresh(s, Consume(c))
    requires s.word == s.consumers[c].word
    ensures ConsumerOk(Claim(s, c), Claim(s, c).consumers[c])
  {
    ClaimTakesFront(s, c);
    assert ConsumerOk(s, s.consumers[c]);
    WordParts(|s.enqueued|, |s.returned|);
  }

  lemma ClaimsStillDiffer(s: State, c: nat)
    requires Inv(s) && c < |s.consumers| && s.consumers[c].Claiming? && Fresh(s, Consume(c))
    requires s.word == s.consumers[c].word
    ensures ClaimsDiffer(Claim(s, c).consumers)
  {
    ClaimTakesFront(s, c);
    forall d | 0 <= d < |s.consumers| && s.consumers[d].Clearing? ensures s.consumers[d].t < |s.returned| {
      assert ConsumerOk(s, s.consumers[d]);
    }
  }

  lemma ClaimConsumersOk(s: State, c: nat)
    requires Inv(s) && c < |s.consumers| && s.consumers[c].Claiming? && Fresh(s, Consume(c))
    requires s.word == s.consumers[c].word
    ensures forall d :: 0 <= d < |Claim(s, c).consumers| ==> ConsumerOk(Claim(s, c), Claim(s, c).consumers[d])
  {
    ClaimantOk(s, c);
    forall d | 0 <= d < |s.consumers| && d != c ensures ConsumerOk(Claim(s, c), s.consumers[d]) {
      OtherClaimed(s, c, s.consumers[d]);
    }
  }

  lemma ClearOk(s: State, c: nat)
    requires Inv(s) && c < |s.consumers| && s.consumers[c].Clearing?
    ensures Inv(ConsumeStep(s, c))
  {
    var pc, n := s.consumers[c], |s.slots|;
    assert ConsumerOk(s, pc);
    var s' := ConsumeStep(s, c);
    SameSlot(s, pc.t);
    var k := pc.t % n;
    assert s'.slots == s.slots[k := NO_BATCH];
    forall i | |s.returned| <= i < |s.enqueued| ensures s'.slots[i % n] == s.enqueued[i] {
      SlotsDiffer(pc.t, i, n);
    }
    if s.producer.Bumping? { SlotsDiffer(pc.t, |s.enqueued|, n); }
    assert s.returned[pc.t] == pc.batch;
    forall d | 0 <= d < |s'.consumers| ensures ConsumerOk(s', s'.consumers[d]) {
      if d != c {
        assert ConsumerOk(s, s.consumers[d]);
        if s.consumers[d].Clearing? {
          var t := s.consumers[d].t;
          assert t != pc.t;
          if t < pc.t { SlotsDiffer(t, pc.t, n); } else { SlotsDiffer(pc.t, t, n); }
        }
      }
    }
  }

  lemma ConsumeOk(s: State, c: nat)
    requires Inv(s) && Enabled(s, Consume(c)) && Fresh(s, Consume(c))
    ensures Inv(ConsumeStep(s, c))
  {
    var pc := s.consumers[c];
    assert ConsumerOk(s, pc);
    match pc
    case Entering =>
      ExamineOk(s);
      SetConsumerOk(s, c, Examine(s.word, |s.enqueued|, |s.returned|));
    case Holding(word, h, t) =>
      WordParts(h, t);
      SameSlot(s, t);
      var b := Slot(s.slots, Index(Tail(word), s.slots));
      SetConsumerOk(s, c, if b == NO_BATCH then Nothing else Judging(word, h, t, b));
    case Judging(word, h, t, b) =>
      SetConsumerOk(s, c, if b in s.applied then Claiming(word, h, t, b) else Nothing);
    case Claiming(_, _, _, _) => ClaimOk(s, c);
    case Clearing(_, _, _) => ClearOk(s, c);
  }

  /** Every step that waits for its slot and claims in time keeps the invariant. */
  lemma NextKeepsInv(s: State, act: Action)
    requires Inv(s) && Enabled(s, act) && Waits(s, act) && Fresh(s, act)
    ensures Inv(Next(s, act))
  {
    match act
    case Produce => ProduceOk(s);
    case Consume(c) => ConsumeOk(s, c);
    case BeginDequeue(c) => SetConsumerOk(s, c, Entering);
    case Leave(c) => SetConsumerOk(s, c, Away);
    case Reserve(b) => SameMemory(s, Next(s, act));
    case BeginEnqueue(b) => SameMemory(s, Next(s, act));
    case Apply(b) => SameMemory(s, Next(s, act));
    case Release(b) => ReleaseOk(s, b);
  }

  lemma ReleaseOk(s: State, b: Batch)
    requires Inv(s) && Enabled(s, Release(b))
    ensures Inv(Next(s, Release(b)))
  {
    var s' := Next(s, Release(b));
    var k :| 0 <= k < |s.returned| && s.returned[k] == b;
    assert s.enqueued[k] == b;
    SubsetCount(s'.holders, s.holders);
    assert b in s.enqueued;
    SameMemory(s, s');
  }

  lemma InitInv(n: nat, consumerCount: nat)
    requires QueueSize(n)
    ensures Inv(Init(n, consumerCount))
  {
    PowerOfTwoPositive(n);
  }

  lemma PowerOfTwoPositive(n: nat)
    requires IsPowerOfTwo(n)
    ensures n > 0
  {
  }
}
