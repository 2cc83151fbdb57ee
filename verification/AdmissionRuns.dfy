/** What an acquire comes to: it is refused and goes to sleep only at a count of zero, it takes a permit when
    nobody disturbs it, and a free permit always finds a taker among those that wait. */
module AdmissionRuns {
  import opened Counting
  import opened Admission
  import opened Runs

  function Step(s: State, act: Action): State {
    if Enabled(s, act) then Next(s, act) else s
  }

  // ---- When a permit is refused ----

  /** A thread comes to be refused, goes from its slow attempt back to looking at the count, or decides to sleep,
      only in a step that finds the count zero. */
  lemma RefusedOnlyAtZero(s: State, act: Action, t: nat)
    requires Enabled(s, act) && t < |s.threads| == |Next(s, act).threads|
    requires var pc, pc' := s.threads[t], Next(s, act).threads[t];
             || (pc'.Refused? && !pc.Refused?)
             || (pc'.Check? && (pc.SlowLoad? || pc.SlowCas?))
             || (pc'.GoSleep? && !pc.GoSleep?)
    ensures s.count == 0 && act == Continue(t)
  {
  }

  /** And at zero it is. */
  lemma RefusedAtZero(s: State, t: nat)
    requires t < |s.threads| && s.count == 0
    ensures s.threads[t].FastLoad? ==> ContinueStep(s, t).threads[t].Refused?
    ensures s.threads[t].FastCas? ==> ContinueStep(s, t).threads[t].Refused?
    ensures s.threads[t].Check? ==> ContinueStep(s, t).threads[t].GoSleep?
    ensures s.threads[t].SlowLoad? || s.threads[t].SlowCas? ==> ContinueStep(s, t).threads[t].Check?
  {
  }

  // ---- Threads that nobody disturbs ----

  /** One step of a thread from pc to pc', in which base becomes base' apart from the thread itself. */
  lemma Then(s: State, base: State, pc: Pc, base': State, pc': Pc, t: nat)
    requires t < |base.threads| && base'.threads == base.threads
    requires Alone(Enabled, Step, s, Continue(t), Set(base, t, pc))
    requires Enabled(Set(base, t, pc), Continue(t))
    requires ContinueStep(Set(base, t, pc), t) == Set(base'.(threads := base.threads[t := pc]), t, pc')
    ensures Alone(Enabled, Step, s, Continue(t), Set(base', t, pc'))
  {
    assert base.threads[t := pc][t := pc'] == base.threads[t := pc'];
    AloneThen(Enabled, Step, s, Continue(t), Set(base, t, pc), Set(base', t, pc'));
  }

  lemma Start(s: State, t: nat)
    requires t < |s.threads|
    ensures Alone(Enabled, Step, s, Continue(t), Set(s, t, s.threads[t]))
  {
    assert s.threads[t := s.threads[t]] == s.threads;
    AloneSelf(Enabled, Step, s, Continue(t));
  }

  /** The thread has a permit that was free. */
  function Acquired(s: State, t: nat): State
    requires t < |s.threads| && s.count > 0
  {
    Set(s.(count := s.count - 1), t, Held)
  }

  /** `try_acquire` takes a free permit, exactly one. */
  lemma TryAcquireAlone(s: State, t: nat)
    requires t < |s.threads| && s.threads[t].FastLoad? && s.count > 0
    ensures Step(Step(s, Continue(t)), Continue(t)) == Acquired(s, t)
    ensures Enabled(s, Continue(t)) && Enabled(Step(s, Continue(t)), Continue(t))
    ensures Alone(Enabled, Step, s, Continue(t), Acquired(s, t))
  {
    Start(s, t);
    Then(s, s, FastLoad, s, FastCas(s.count), t);
    Then(s, s, FastCas(s.count), s.(count := s.count - 1), Held, t);
    assert s.threads[t := FastCas(s.count)][t := Held] == s.threads[t := Held];
  }

  /** A thread on the slow path that has the mutex takes a free permit and gives the mutex back. */
  lemma SlowAcquireAlone(s: State, t: nat)
    requires t < |s.threads| && s.mutex == OwnedBy(t) && s.count > 0
    requires s.threads[t].Check? || s.threads[t].SlowLoad? || s.threads[t].SlowCas?
    ensures Alone(Enabled, Step, s, Continue(t), Acquired(s, t).(mutex := Free))
  {
    var taken, pc := s.(count := s.count - 1), s.threads[t];
    Start(s, t);
    if pc.Check? { Then(s, s, Check, s, SlowLoad, t); }
    if !pc.SlowCas? {
      Then(s, s, SlowLoad, s, SlowCas(s.count), t);
    } else if pc.cur != s.count || pc.cur == 0 {
      Then(s, s, pc, s, SlowCas(s.count), t);
    }
    Then(s, s, SlowCas(s.count), taken, HeldLocked, t);
    Then(s, taken, HeldLocked, taken.(mutex := Free), Held, t);
  }

  /** A thread that waits for the mutex, to look at the count again, takes a free permit once the mutex is free. */
  lemma WaiterAcquiresAlone(s: State, t: nat)
    requires t < |s.threads| && s.mutex.Free? && s.count > 0 && (s.threads[t].Lock? || s.threads[t].Woken?)
    ensures Alone(Enabled, Step, s, Continue(t), Acquired(s, t))
  {
    var s1 := Set(s.(mutex := OwnedBy(t)), t, Check);
    AloneOne(Enabled, Step, s, Continue(t), s1);
    SlowAcquireAlone(s1, t);
    assert s.threads[t := Check][t := Held] == s.threads[t := Held];
    AloneTransitive(Enabled, Step, s, Continue(t), s1, Acquired(s, t));
  }

  /** A holder gives its permit back, under the mutex. */
  lemma ReleaseAddsOne(s: State, t: nat)
    requires t < |s.threads| && s.threads[t].ReleaseLock? && s.mutex.Free? && s.count < s.limit
    ensures Alone(Enabled, Step, s, Continue(t), Set(s.(count := s.count + 1, mutex := OwnedBy(t)), t, ReleaseNotify))
  {
    var o := s.(mutex := OwnedBy(t));
    Start(s, t);
    Then(s, s, ReleaseLock, o, ReleaseAdd, t);
    Then(s, o, ReleaseAdd, o.(count := s.count + 1), ReleaseNotify, t);
  }

  /** The assertion of `release` fails exactly if the count was at its limit. */
  lemma ReleaseAssertsRoom(s: State, t: nat)
    requires t < |s.threads| && s.threads[t].ReleaseAdd?
    ensures ContinueStep(s, t).count == s.count + 1
    ensures ContinueStep(s, t).threads[t].Overflowed? <==> s.count >= s.limit
    ensures ContinueStep(s, t).threads[t].ReleaseNotify? <==> s.count < s.limit
  {
  }

  /** And then wakes a sleeper, if there is one. */
  lemma NotifyWakesOne(s: State, t: nat, w: nat)
    requires Enabled(s, Notify(t, w))
    ensures var s' := Next(s, Notify(t, w));
            && s'.count == s.count && s'.mutex == s.mutex && |s'.threads| == |s.threads| && s'.threads[t].ReleaseUnlock?
            && (AnyAsleep(s.threads) ==> w != t && s.threads[w].Sleeping? && s'.threads[w].Woken?)
            && (forall u :: 0 <= u < |s.threads| && u != t && !(u == w && AnyAsleep(s.threads)) ==> s'.threads[u] == s.threads[u])
  {
  }

  // ---- A free permit is taken ----

  /** The steps of threads in the middle of a call: nobody begins, gives up or wakes for no reason. */
  predicate Drives(s: State, act: Action) {
    Enabled(s, act) && (act.Continue? || act.Notify?)
  }

  lemma AloneDrives(s: State, t: nat, last: State)
    requires Alone(Enabled, Step, s, Continue(t), last)
    ensures Leads(Drives, Step, s, last)
  {
    var k: nat :| Again(Enabled, Step, s, Continue(t), k) == last;
    AgainDrives(s, t, k);
  }

  lemma {:induction false} AgainDrives(s: State, t: nat, k: nat)
    ensures Leads(Drives, Step, s, Again(Enabled, Step, s, Continue(t), k))
    decreases k
  {
    LeadsSelf(Drives, Step, s);
    if k > 0 && Enabled(s, Continue(t)) {
      LeadsOne(Drives, Step, s, Continue(t));
      AgainDrives(Step(s, Continue(t)), t, k - 1);
      LeadsTransitive(Drives, Step, s, Step(s, Continue(t)), Again(Enabled, Step, s, Continue(t), k));
    }
  }

  /** A thread that waits for a permit on the slow path. */
  predicate Waiting(pc: Pc) { pc.Sleeping? || Awake(pc) }

  /** One of those that waited has a permit. */
  ghost predicate Served(s: State, s': State, t: nat) {
    && t < |s.threads| == |s'.threads| && Waiting(s.threads[t]) && s'.threads[t].Held?
  }

  /** While a thread sleeps and a permit is free, the threads in the middle of a call can go on, without any new
      call, until one that waited holds a permit. */
  lemma FreePermitIsTaken(limit: nat, states: seq<State>, acts: seq<Action>, i: nat) returns (last: State, t: nat)
    requires Execution(limit, states, acts) && i < |states|
    requires AnyAsleep(states[i].threads) && states[i].count > 0
    ensures Leads(Drives, Step, states[i], last) && Served(states[i], last, t)
  {
    ReachableInv(limit, states, acts, i);
    last, t := SleeperServed(states[i]);
  }

  lemma SleeperServed(s: State) returns (last: State, t: nat)
    requires Inv(s) && AnyAsleep(s.threads) && s.count > 0
    ensures Leads(Drives, Step, s, last) && Served(s, last, t)
  {
    if s.mutex.Free? {
      last, t := WaiterServed(s);
    } else {
      t := s.mutex.t;
      assert HasMutex(s.threads[t]);
      if Awake(s.threads[t]) {
        last := Acquired(s, t).(mutex := Free);
        SlowAcquireAlone(s, t);
        AloneDrives(s, t, last);
      } else {
        last, t := OwnerLeaves(s);
      }
    }
  }

  /** With the mutex free an awake thread takes the permit. */
  lemma WaiterServed(s: State) returns (last: State, t: nat)
    requires Inv(s) && AnyAsleep(s.threads) && s.count > 0 && s.mutex.Free?
    ensures Leads(Drives, Step, s, last) && Served(s, last, t)
  {
    CountPositive(s.threads, Awake);
    CountPositive(s.threads, Notifying);
    t :| 0 <= t < |s.threads| && (Awake(s.threads[t]) || Notifying(s.threads[t]));
    assert !HasMutex(s.threads[t]);
    last := Acquired(s, t);
    WaiterAcquiresAlone(s, t);
    AloneDrives(s, t, last);
  }

  /** The owner of the mutex that does not want a permit gives the mutex back, having woken a sleeper if it was
      releasing. */
  lemma OwnerLeaves(s: State) returns (last: State, t: nat)
    requires Inv(s) && AnyAsleep(s.threads) && s.count > 0 && s.mutex.OwnedBy? && !Awake(s.threads[s.mutex.t])
    ensures Leads(Drives, Step, s, last) && Served(s, last, t)
    decreases match s.threads[s.mutex.t] case ReleaseAdd => 2 case ReleaseNotify => 1 case _ => 0
  {
    var o := s.mutex.t;
    assert HasMutex(s.threads[o]);
    if s.threads[o].ReleaseNotify? {
      last, t := NotifierLeaves(s);
    } else {
      var s1 := Step(s, Continue(o));
      ContinueOk(s, o);
      LeadsOne(Drives, Step, s, Continue(o));
      assert forall u :: 0 <= u < |s.threads| && u != o ==> s1.threads[u] == s.threads[u];
      var w :| 0 <= w < |s.threads| && s.threads[w].Sleeping?;
      assert s1.threads[w].Sleeping?;
      if s.threads[o].ReleaseAdd? {
        last, t := OwnerLeaves(s1);
      } else {
        last, t := WaiterServed(s1);
      }
      LeadsTransitive(Drives, Step, s, s1, last);
    }
  }

  /** A notification and the unlocking after it. */
  lemma Woke(s: State, o: nat, t: nat) returns (last: State)
    requires o < |s.threads| && s.threads[o].ReleaseNotify? && s.mutex == OwnedBy(o)
    requires t < |s.threads| && s.threads[t].Sleeping?
    ensures Leads(Drives, Step, s, last)
    ensures |last.threads| == |s.threads| && last.threads[t].Woken? && last.mutex.Free? && last.count == s.count
  {
    var s1 := Step(s, Notify(o, t));
    last := Step(s1, Continue(o));
    LeadsOne(Drives, Step, s, Notify(o, t));
    LeadsOne(Drives, Step, s1, Continue(o));
    LeadsTransitive(Drives, Step, s, s1, last);
  }

  lemma NotifierLeaves(s: State) returns (last: State, t: nat)
    requires Inv(s) && AnyAsleep(s.threads) && s.count > 0 && s.mutex.OwnedBy? && s.threads[s.mutex.t].ReleaseNotify?
    ensures Leads(Drives, Step, s, last) && Served(s, last, t)
  {
    var o := s.mutex.t;
    t :| 0 <= t < |s.threads| && s.threads[t].Sleeping?;
    var s2 := Woke(s, o, t);
    last := Acquired(s2, t);
    WaiterAcquiresAlone(s2, t);
    AloneDrives(s2, t, last);
    LeadsTransitive(Drives, Step, s, s2, last);
  }
}
