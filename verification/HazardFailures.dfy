/** What the lock bit of the free list protects when the head was loaded before the bit was set: a run in which
    two threads come to hold one record, and exactly when that cannot happen. */
module HazardFailures {
  import opened HazardDomain
  import opened HazardRuns
  import opened Runs
  import opened Sequences

  // ---- What soundness is ----

  /** The thread is about to read the links of a record, and of nothing else. */
  predicate NotWild(s: State, pc: Pc) {
    && (pc.WalkFirst? ==> 0 <= pc.stolen < |s.recs|)
    && (pc.Walk? ==> pc.next == NULL || 0 <= pc.next < |s.recs|)
  }

  /** Each record is in f or with a thread, in one place only. */
  ghost predicate Parted(s: State, f: seq<nat>) {
    && (forall t :: 0 <= t < |s.threads| ==> Distinct(Owned(s.threads[t])))
    && (forall id: nat :: id < |s.recs| && id !in f ==> exists t :: 0 <= t < |s.threads| && id in Owned(s.threads[t]))
    && (forall id, t :: 0 <= t < |s.threads| && id in Owned(s.threads[t]) ==> id !in f)
    && (forall id, t, u ::
          (0 <= t < |s.threads| && 0 <= u < |s.threads| && id in Owned(s.threads[t]) && id in Owned(s.threads[u])) ==> t == u)
  }

  /** The links from the head of the free list lead over some records to null, those records and the ones the
      threads hold part all records among them, and no thread follows a link of something that is no record. */
  ghost predicate Sound(s: State) {
    && (forall t :: 0 <= t < |s.threads| ==> NotWild(s, s.threads[t]))
    && (exists f: seq<nat> :: Chain(s.recs, f, NULL) && s.availHead == First(f) && Parted(s, f))
  }

  lemma InvSound(s: State)
    requires Inv(s)
    ensures Sound(s)
  {
    forall t | 0 <= t < |s.threads|
      ensures NotWild(s, s.threads[t]) && Distinct(Owned(s.threads[t]))
      ensures forall id :: 0 <= id < |s.recs| ==> (s.owner[id] == t <==> id in Owned(s.threads[t]))
      ensures forall id :: id in Owned(s.threads[t]) ==> id < |s.recs|
    {
      assert ThreadOk(s, t);
      WalkNotWild(s, t);
      OwnedInRange(s, t);
    }
    forall id: nat | id < |s.recs| && id !in s.free ensures exists t :: 0 <= t < |s.threads| && id in Owned(s.threads[t]) {
      assert id in Owned(s.threads[s.owner[id]]);
    }
    assert Parted(s, s.free);
  }

  lemma WalkNotWild(s: State, t: nat)
    requires Inv(s) && t < |s.threads|
    ensures NotWild(s, s.threads[t])
  {
    assert ThreadOk(s, t);
  }

  lemma OwnedInRange(s: State, t: nat)
    requires Inv(s) && t < |s.threads|
    ensures forall id :: id in Owned(s.threads[t]) ==> id < |s.recs|
  {
    assert ThreadOk(s, t);
  }

  // ---- One thread's own steps ----

  lemma StepKeepsCount(s: State, t: nat)
    requires t < |s.threads|
    ensures |ContinueStep(s, t, false).threads| == |s.threads|
  {
  }

  /** The state after k more steps of thread t and of nobody else. Once it holds its array it stays as it is. */
  function Solo(s: State, t: nat, k: nat): (s': State)
    requires t < |s.threads|
    ensures |s'.threads| == |s.threads|
    decreases k
  {
    StepKeepsCount(s, t);
    if k == 0 then s else Solo(ContinueStep(s, t, false), t, k - 1)
  }

  lemma {:induction false} SoloMore(s: State, t: nat, j: nat, k: nat)
    requires t < |s.threads|
    ensures Solo(s, t, j + k) == Solo(Solo(s, t, j), t, k)
    decreases j
  {
    if j > 0 {
      SoloMore(ContinueStep(s, t, false), t, j - 1, k);
    }
  }

  /** From the lock bit to the array in hand. */
  predicate PastLock(pc: Pc) {
    pc.WalkFirst? || pc.Walk? || pc.NullTail? || pc.Fill? || pc.Make? || pc.LinkTail? || pc.Holding?
  }

  lemma PastLockStep(s: State, t: nat)
    requires t < |s.threads| && PastLock(s.threads[t])
    ensures |ContinueStep(s, t, false).threads| == |s.threads| && PastLock(ContinueStep(s, t, false).threads[t])
    ensures s.threads[t].Holding? ==> ContinueStep(s, t, false) == s
  {
  }

  lemma {:induction false} SoloSound(s: State, t: nat, k: nat)
    requires Inv(s) && t < |s.threads| && PastLock(s.threads[t])
    ensures Sound(Solo(s, t, k))
    decreases k
  {
    if k == 0 {
      InvSound(s);
    } else {
      PastLockStep(s, t);
      if !s.threads[t].Holding? { ContinueOk(s, t, false); }
      SoloSound(ContinueStep(s, t, false), t, k - 1);
    }
  }

  // ---- A stale head ----

  /** The walk ends, having cut off every record it went over, and touches no other thread. */
  lemma {:induction false} WalkEnds(s: State, t: nat) returns (k: nat)
    requires t < |s.threads| && s.threads[t].Walk?
    ensures var s' := Solo(s, t, k);
            && s'.recs == s.recs && s'.threads[t].NullTail? && s.threads[t].run <= s'.threads[t].taken
            && (forall u :: 0 <= u < |s.threads| && u != t ==> s'.threads[u] == s.threads[u])
            && (forall j: nat :: Along(s, t, j) ==> CutFrom(s, s', t, j))
    decreases if s.threads[t].n >= s.threads[t].k then s.threads[t].n - s.threads[t].k else 0
  {
    var pc, s1 := s.threads[t], ContinueStep(s, t, false);
    if pc.next != NULL && pc.k < pc.n {
      var k1 := WalkEnds(s1, t);
      k := k1 + 1;
      forall j: nat | Along(s, t, j) ensures Along(s1, t, j) { AlongStep(s, t, j); }
    } else {
      k := 1;
      assert Solo(s, t, 1) == Solo(s1, t, 0) == s1;
      forall j: nat | Along(s, t, j) ensures CutFrom(s, s1, t, j) {
        assert |s1.threads[t].taken| == pc.k;
      }
    }
  }

  /** The walk goes along the free list from its j-th record. */
  ghost predicate Along(s: State, t: nat, j: nat)
    requires t < |s.threads| && s.threads[t].Walk?
  {
    var pc := s.threads[t];
    && Chain(s.recs, s.free, NULL) && pc.k >= 1 && j + pc.k <= |s.free|
    && pc.run == s.free[j..j + pc.k] && pc.next == First(s.free[j + pc.k..])
  }

  /** The walk has taken the records of the free list from the j-th on, as many as it took. */
  ghost predicate CutFrom(s: State, s': State, t: nat, j: nat)
    requires t < |s'.threads| && s'.threads[t].NullTail?
  {
    var end := j + |s'.threads[t].taken|;
    end <= |s.free| && s'.threads[t].taken == s.free[j..end] && s'.availHead == First(s.free[end..])
  }

  lemma AlongStep(s: State, t: nat, j: nat)
    requires t < |s.threads| && s.threads[t].Walk? && Along(s, t, j)
    requires s.threads[t].next != NULL && s.threads[t].k < s.threads[t].n
    ensures Along(ContinueStep(s, t, false), t, j)
  {
    var pc := s.threads[t];
    ChainAt(s.recs, s.free, j + pc.k);
    assert s.free[j..j + pc.k + 1] == s.free[j..j + pc.k] + [s.free[j + pc.k]];
  }

  /** The links lead over one sequence of records only. */
  lemma {:induction false} ChainUnique(recs: seq<Rec>, f: seq<nat>, g: seq<nat>)
    requires Chain(recs, f, NULL) && Chain(recs, g, NULL) && First(f) == First(g)
    ensures f == g
    decreases |f|
  {
    if f != [] && g != [] {
      ChainTail(recs, f);
      ChainTail(recs, g);
      ChainUnique(recs, f[1..], g[1..]);
      assert f == [f[0]] + f[1..] && g == [g[0]] + g[1..];
    }
  }

  lemma ChainTail(recs: seq<Rec>, c: seq<nat>)
    requires Chain(recs, c, NULL) && c != []
    ensures Chain(recs, c[1..], NULL) && First(c[1..]) == recs[c[0]].avail
  {
    assert c == [c[0]] + c[1..];
    ChainParts(recs, [c[0]], c[1..], NULL);
    ChainAt(recs, c, 0);
  }

  /** The head that was loaded has become another thread's: both have it. */
  lemma OwnedTwice(s: State, t: nat, u: nat, id: nat)
    requires t < |s.threads| && u < |s.threads| && t != u
    requires id in Owned(s.threads[t]) && id in Owned(s.threads[u])
    ensures !Sound(s)
  {
  }

  /** It is on the free list but not first: the records before it are lost. */
  lemma FrontLost(s: State, s': State, t: nat, j: nat)
    requires Inv(s) && t < |s.threads| == |s'.threads| && s.threads[t].LockAvail?
    requires 0 < j && s'.recs == s.recs && s'.threads[t].NullTail? && s'.threads[t].taken != [] && CutFrom(s, s', t, j)
    requires forall u :: 0 <= u < |s.threads| && u != t ==> s'.threads[u] == s.threads[u]
    ensures !Sound(s')
  {
    var lost, end := s.free[0], j + |s'.threads[t].taken|;
    NotInLater(s.free, j, end);
    forall u | 0 <= u < |s.threads| ensures lost !in Owned(s'.threads[u]) {
      assert ThreadOk(s, u) && lost in s.free;
    }
    assert s.free == s.free[..end] + s.free[end..];
    ChainParts(s.recs, s.free[..end], s.free[end..], NULL);
    forall f: seq<nat> | Chain(s'.recs, f, NULL) && s'.availHead == First(f) ensures lost !in f {
      ChainUnique(s.recs, f, s.free[end..]);
    }
    NowhereUnsound(s', lost);
  }

  lemma NotInLater(f: seq<nat>, j: nat, end: nat)
    requires Distinct(f) && 0 < j <= end <= |f|
    ensures f[0] !in f[j..end] && f[0] !in f[end..]
  {
  }

  lemma NowhereUnsound(s: State, id: nat)
    requires id < |s.recs| && forall t :: 0 <= t < |s.threads| ==> id !in Owned(s.threads[t])
    requires forall f: seq<nat> :: Chain(s.recs, f, NULL) && s.availHead == First(f) ==> id !in f
    ensures !Sound(s)
  {
  }

  /** Whatever else the loaded head is by now, the thread's own steps go wrong. */
  lemma StaleUnsound(s: State, t: nat) returns (k: nat)
    requires Inv(s) && t < |s.threads| && s.threads[t].LockAvail? && s.lock.Free?
    requires s.threads[t].seen != s.availHead
    ensures !Sound(Solo(s, t, k))
  {
    var s1 := ContinueStep(s, t, false);
    if s.threads[t].seen == TAGGED {
      k := 1;
      TaggedUnsound(s, t);
    } else {
      assert ThreadOk(s, t);
      var s2 := ContinueStep(s1, t, false);
      var k2 := WalkEnds(s2, t);
      k := k2 + 2;
      assert Solo(s, t, k) == Solo(s1, t, k2 + 1) == Solo(s2, t, k2);
      WalkedUnsound(s, s2, Solo(s2, t, k2), t);
    }
  }

  /** A walk that starts at no record. */
  lemma TaggedUnsound(s: State, t: nat)
    requires t < |s.threads| && s.threads[t].LockAvail? && s.lock.Free? && s.threads[t].seen == TAGGED
    ensures !Sound(Solo(s, t, 1))
  {
    var s1 := ContinueStep(s, t, false);
    assert Solo(s, t, 1) == Solo(s1, t, 0) == s1;
    assert !NotWild(s1, s1.threads[t]);
  }

  /** Two steps after setting the bit. */
  lemma WalkStarted(s: State, t: nat)
    requires t < |s.threads| && s.threads[t].LockAvail? && s.lock.Free? && 0 <= s.threads[t].seen < |s.recs|
    ensures var s2, seen := ContinueStep(ContinueStep(s, t, false), t, false), s.threads[t].seen;
            && |s2.threads| == |s.threads| && s2.recs == s.recs && s2.free == s.free
            && s2.threads[t] == Walk(s.threads[t].n, seen, seen, 1, s.recs[seen].avail, [seen])
            && (forall u :: 0 <= u < |s.threads| && u != t ==> s2.threads[u] == s.threads[u])
  {
  }

  lemma WalkedUnsound(s: State, s2: State, s': State, t: nat)
    requires Inv(s) && t < |s.threads| == |s'.threads| && s.threads[t].LockAvail? && s.lock.Free?
    requires s.threads[t].seen != s.availHead && 0 <= s.threads[t].seen < |s.recs|
    requires s2 == ContinueStep(ContinueStep(s, t, false), t, false)
    requires s'.recs == s2.recs && s'.threads[t].NullTail? && s2.threads[t].run <= s'.threads[t].taken
    requires forall u :: 0 <= u < |s2.threads| && u != t ==> s'.threads[u] == s2.threads[u]
    requires forall j: nat :: Along(s2, t, j) ==> CutFrom(s2, s', t, j)
    ensures !Sound(s')
  {
    var seen: nat := s.threads[t].seen;
    WalkStarted(s, t);
    if s.owner[seen] == NOBODY {
      var j := StartsAlong(s, s2, t, seen);
      FrontLost(s, s', t, j);
    } else {
      var u := s.owner[seen];
      assert ThreadOk(s, u) && ThreadOk(s, t);
      assert s'.threads[t].taken[0] == seen;
      OwnedTwice(s', t, u, seen);
    }
  }

  /** A walk that starts at a free record goes along the free list from there. */
  lemma StartsAlong(s: State, s2: State, t: nat, seen: nat) returns (j: nat)
    requires FreeOk(s) && seen < |s.recs| && s.owner[seen] == NOBODY && t < |s2.threads| && s2.threads[t].Walk?
    requires s2.recs == s.recs && s2.free == s.free
    requires s2.threads[t].k == 1 && s2.threads[t].run == [seen] && s2.threads[t].next == s.recs[seen].avail
    ensures j < |s.free| && s.free[j] == seen && Along(s2, t, j)
  {
    j :| j < |s.free| && s.free[j] == seen;
    ChainAt(s.recs, s.free, j);
    assert s.free[j..j + 1] == [seen];
  }

  /** A thread that sets the lock bit on a free list goes on to take its records soundly if and only if the head
      it had loaded is still the head: it never follows a link of what is no record, no record is lost, and none
      comes to be in two places. Otherwise one of these happens, in its own steps alone. */
  lemma LockSoundIffFresh(s: State, t: nat)
    requires Inv(s) && t < |s.threads| && s.threads[t].LockAvail? && s.lock.Free?
    ensures (forall k: nat :: Sound(Solo(s, t, k))) <==> s.threads[t].seen == s.availHead
    ensures s.threads[t].seen == s.availHead <==> Fresh(s, Continue(t, false))
  {
    SeenIsRecord(s, t);
    if s.threads[t].seen == s.availHead {
      forall k: nat ensures Sound(Solo(s, t, k)) { FreshSound(s, t, k); }
    } else {
      var k := StaleUnsound(s, t);
    }
  }

  lemma SeenIsRecord(s: State, t: nat)
    requires Inv(s) && t < |s.threads| && s.threads[t].LockAvail?
    ensures s.threads[t].seen != NULL
  {
    assert ThreadOk(s, t);
  }

  lemma FreshSound(s: State, t: nat, k: nat)
    requires Inv(s) && t < |s.threads| && s.threads[t].LockAvail? && s.lock.Free? && s.threads[t].seen == s.availHead
    ensures Sound(Solo(s, t, k))
  {
    SeenIsRecord(s, t);
    if k == 0 {
      InvSound(s);
    } else {
      LockOk(s, t);
      assert PastLock(ContinueStep(s, t, false).threads[t]);
      SoloSound(ContinueStep(s, t, false), t, k - 1);
    }
  }

  // ---- Two threads and one record ----

  lemma Then(s: State, mid: State, act: Action, last: State)
    requires Leads(Enabled, Step, s, mid) && Enabled(mid, act) && Next(mid, act) == last
    ensures Leads(Enabled, Step, s, last)
  {
    LeadsOne(Enabled, Step, mid, act);
    LeadsTransitive(Enabled, Step, s, mid, last);
  }

  function Two(availHead: int, lock: Lock, first: Pc, second: Pc, free: seq<nat>, owner: int): State {
    State([Rec(NULL, NULL)], 0, availHead, lock, [first, second], [0], free, [owner])
  }

  const HELD: State := Two(NULL, Free, Holding(1, [0]), Idle, [], 0)
  const RETURNED: State := Two(0, Free, Idle, Idle, [0], NOBODY)
  const BOTH_LOADED: State := Two(0, Free, LockAvail(1, 0), LockAvail(1, 0), [0], NOBODY)
  const ONE_HOLDS: State := Two(NULL, Free, LockAvail(1, 0), Holding(1, [0]), [], 1)
  const BOTH_HOLD: State := Two(NULL, Free, Holding(1, [0]), Holding(1, [0]), [], 0)

  /** A record made, and about to be put on the first list. */
  const MADE: State := State([Rec(NULL, NULL)], NULL, NULL, Free, [Make(1, NULL, [], 0, NULL), Idle], [], [], [0])

  lemma StartMaking()
    ensures Leads(Enabled, Step, Init(2), MADE)
  {
    var s0, c := Init(2), Continue(0, false);
    LeadsSelf(Enabled, Step, s0);
    var s1 := s0.(threads := [LoadAvail(1), Idle]);
    Then(s0, s0, Acquire(0, 1), s1);
    var s2 := s0.(threads := [Fill(1, NULL, NULL, [], []), Idle]);
    Then(s0, s1, c, s2);
    Then(s0, s2, c, MADE);
  }

  /** One thread makes the record. */
  lemma MakeOne()
    ensures Leads(Enabled, Step, Init(2), HELD)
  {
    var s0, s3, c := Init(2), MADE, Continue(0, false);
    StartMaking();
    assert [] + [0] == [0];
    var s4 := Two(NULL, Free, LinkTail(1, NULL, [], 0), Idle, [], 0);
    Then(s0, s3, c, s4);
    var s5 := Two(NULL, Free, Fill(1, NULL, 0, [0], []), Idle, [], 0);
    Then(s0, s4, c, s5);
    Then(s0, s5, c, HELD);
  }

  /** And gives it back. */
  lemma GiveBack()
    ensures Leads(Enabled, Step, HELD, RETURNED)
  {
    var c := Continue(0, false);
    LeadsSelf(Enabled, Step, HELD);
    var s1 := Two(NULL, Free, PushLoad([0]), Idle, [], 0);
    Then(HELD, HELD, Release(0), s1);
    var s2 := Two(NULL, Free, PushStore([0], NULL), Idle, [], 0);
    Then(HELD, s1, c, s2);
    var s3 := Two(NULL, Free, PushSwing([0], NULL), Idle, [], 0);
    Then(HELD, s2, c, s3);
    SwingBack(s3, c);
    Then(HELD, s3, c, RETURNED);
  }

  lemma SwingBack(s3: State, c: Action)
    requires s3 == Two(NULL, Free, PushSwing([0], NULL), Idle, [], 0) && c == Continue(0, false)
    ensures Enabled(s3, c) && Next(s3, c) == RETURNED
  {
    assert SetOwner([0], [0], NOBODY) == [NOBODY];
    assert [0] + s3.free == [0];
  }

  /** Both threads load the head. */
  lemma BothLoad()
    ensures Leads(Enabled, Step, RETURNED, BOTH_LOADED)
  {
    var s0 := RETURNED;
    LeadsSelf(Enabled, Step, s0);
    var s1 := Two(0, Free, LoadAvail(1), Idle, [0], NOBODY);
    Then(s0, s0, Acquire(0, 1), s1);
    var s2 := Two(0, Free, LockAvail(1, 0), Idle, [0], NOBODY);
    Then(s0, s1, Continue(0, false), s2);
    var s3 := Two(0, Free, LockAvail(1, 0), LoadAvail(1), [0], NOBODY);
    Then(s0, s2, Acquire(1, 1), s3);
    Then(s0, s3, Continue(1, false), BOTH_LOADED);
  }

  /** The second thread takes the record. */
  lemma SecondWalks()
    ensures Leads(Enabled, Step, BOTH_LOADED, Two(NULL, Free, LockAvail(1, 0), NullTail(1, 0, 0, [0]), [], 1))
  {
    var s0, first, c := BOTH_LOADED, LockAvail(1, 0), Continue(1, false);
    LeadsSelf(Enabled, Step, s0);
    var s1 := Two(0, HeldBy(1), first, WalkFirst(1, 0), [0], NOBODY);
    Then(s0, s0, c, s1);
    var s2 := Two(0, HeldBy(1), first, Walk(1, 0, 0, 1, NULL, [0]), [0], NOBODY);
    assert AddRun([], 0) == [0];
    Then(s0, s1, c, s2);
    SecondCuts();
    Then(s0, s2, c, Two(NULL, Free, first, NullTail(1, 0, 0, [0]), [], 1));
  }

  lemma SecondCuts()
    ensures var s := Two(0, HeldBy(1), LockAvail(1, 0), Walk(1, 0, 0, 1, NULL, [0]), [0], NOBODY); var c := Continue(1, false);
            Enabled(s, c) && Next(s, c) == Two(NULL, Free, LockAvail(1, 0), NullTail(1, 0, 0, [0]), [], 1)
  {
    var s := Two(0, HeldBy(1), LockAvail(1, 0), Walk(1, 0, 0, 1, NULL, [0]), [0], NOBODY);
    assert s.free[1..] == [] && SetOwner([NOBODY], [0], 1) == [1];
  }

  lemma SecondFills()
    ensures Leads(Enabled, Step, Two(NULL, Free, LockAvail(1, 0), NullTail(1, 0, 0, [0]), [], 1), ONE_HOLDS)
  {
    var first, c := LockAvail(1, 0), Continue(1, false);
    var s3 := Two(NULL, Free, first, NullTail(1, 0, 0, [0]), [], 1);
    LeadsSelf(Enabled, Step, s3);
    var s4 := Two(NULL, Free, first, Fill(1, 0, NULL, [], [0]), [], 1);
    Then(s3, s3, c, s4);
    var s5 := Two(NULL, Free, first, Fill(1, NULL, 0, [0], []), [], 1);
    assert s4.threads[1].got + [0] == [0] && s4.threads[1].rest[1..] == [];
    Then(s3, s4, c, s5);
    Then(s3, s5, c, ONE_HOLDS);
  }

  /** The first thread sets the bit on the null head and walks from the head it had loaded. */
  lemma FirstWalksToo()
    ensures Leads(Enabled, Step, ONE_HOLDS, Two(NULL, Free, NullTail(1, 0, 0, [0]), Holding(1, [0]), [], 0))
  {
    var s0, second, c := ONE_HOLDS, Holding(1, [0]), Continue(0, false);
    LeadsSelf(Enabled, Step, s0);
    var s1 := Two(NULL, HeldBy(0), WalkFirst(1, 0), second, [], 1);
    Then(s0, s0, c, s1);
    var s2 := Two(NULL, HeldBy(0), Walk(1, 0, 0, 1, NULL, [0]), second, [], 1);
    assert AddRun([], 0) == [0];
    Then(s0, s1, c, s2);
    FirstCuts();
    Then(s0, s2, c, Two(NULL, Free, NullTail(1, 0, 0, [0]), second, [], 0));
  }

  lemma FirstCuts()
    ensures var s := Two(NULL, HeldBy(0), Walk(1, 0, 0, 1, NULL, [0]), Holding(1, [0]), [], 1); var c := Continue(0, false);
            Enabled(s, c) && Next(s, c) == Two(NULL, Free, NullTail(1, 0, 0, [0]), Holding(1, [0]), [], 0)
  {
    assert SetOwner([1], [0], 0) == [0];
  }

  lemma FirstFillsToo()
    ensures Leads(Enabled, Step, Two(NULL, Free, NullTail(1, 0, 0, [0]), Holding(1, [0]), [], 0), BOTH_HOLD)
  {
    var second, c := Holding(1, [0]), Continue(0, false);
    var s3 := Two(NULL, Free, NullTail(1, 0, 0, [0]), second, [], 0);
    LeadsSelf(Enabled, Step, s3);
    var s4 := Two(NULL, Free, Fill(1, 0, NULL, [], [0]), second, [], 0);
    Then(s3, s3, c, s4);
    var s5 := Two(NULL, Free, Fill(1, NULL, 0, [0], []), second, [], 0);
    assert s4.threads[0].got + [0] == [0] && s4.threads[0].rest[1..] == [];
    Then(s3, s4, c, s5);
    Then(s3, s5, c, BOTH_HOLD);
  }

  /** As written, two threads can hold the same record at the same time. */
  lemma SharedRecord()
    ensures Leads(Enabled, Step, Init(2), BOTH_HOLD)
    ensures BOTH_HOLD.threads[0] == Holding(1, [0]) == BOTH_HOLD.threads[1]
  {
    MakeOne();
    GiveBack();
    BothLoad();
    SecondWalks();
    SecondFills();
    FirstWalksToo();
    FirstFillsToo();
    LeadsTransitive(Enabled, Step, Init(2), HELD, RETURNED);
    LeadsTransitive(Enabled, Step, Init(2), RETURNED, BOTH_LOADED);
    var cut := Two(NULL, Free, LockAvail(1, 0), NullTail(1, 0, 0, [0]), [], 1);
    LeadsTransitive(Enabled, Step, Init(2), BOTH_LOADED, cut);
    LeadsTransitive(Enabled, Step, Init(2), cut, ONE_HOLDS);
    var again := Two(NULL, Free, NullTail(1, 0, 0, [0]), Holding(1, [0]), [], 0);
    LeadsTransitive(Enabled, Step, Init(2), ONE_HOLDS, again);
    LeadsTransitive(Enabled, Step, Init(2), again, BOTH_HOLD);
  }
}
