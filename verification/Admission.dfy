/** The counting semaphore that admits writers to the pipeline: a compare-and-swap fast path, and a slow path
    with a mutex and a condition variable. Every atomic access, lock, unlock, wait and notify is one step. */
module Admission {
  import opened Counting

  datatype Pc =
    | Idle
    | FastLoad                // try_acquire: about to load the count
    | FastCas(cur: nat)       // try_acquire: about to compare-and-swap
    | Refused                 // try_acquire returned false
    | Lock                    // slow path: waiting for the mutex
    | Check                   // has the mutex, about to load the count
    | GoSleep                 // has the mutex, saw zero, about to wait
    | Sleeping                // waiting on the condition variable, without the mutex
    | Woken                   // notified, waiting for the mutex
    | SlowLoad                // has the mutex, try_acquire
    | SlowCas(cur: nat)
    | HeldLocked              // has a permit, about to drop the mutex
    | Held                    // has a permit
    | ReleaseLock             // release: has a permit, waiting for the mutex
    | ReleaseAdd              // has the mutex, about to add the permit back
    | ReleaseNotify           // has the mutex, about to notify one waiter
    | ReleaseUnlock           // about to drop the mutex
    | Overflowed              // the assertion in release failed

  datatype Mutex = Free | OwnedBy(t: nat)

  datatype State = State(limit: nat, count: nat, mutex: Mutex, threads: seq<Pc>)

  datatype Action =
    | Begin(t: nat)            // start try_acquire
    | Retry(t: nat)            // refused: spin once more
    | GiveUp(t: nat)           // refused: leave without a permit
    | GoSlow(t: nat)           // refused: take the slow path
    | BeginRelease(t: nat)
    | Continue(t: nat)
    | Notify(t: nat, woken: nat)
    | SpuriousWake(t: nat)

  function Init(limit: nat, threadCount: nat): State {
    State(limit, limit, Free, seq(threadCount, _ => Idle))
  }

  predicate NeedsMutex(pc: Pc) { pc.Lock? || pc.Woken? || pc.ReleaseLock? }

  predicate HasMutex(pc: Pc) {
    pc.Check? || pc.GoSleep? || pc.SlowLoad? || pc.SlowCas? || pc.HeldLocked? ||
    pc.ReleaseAdd? || pc.ReleaseNotify? || pc.ReleaseUnlock?
  }

  predicate HasPermit(pc: Pc) { pc.HeldLocked? || pc.Held? || pc.ReleaseLock? || pc.ReleaseAdd? }

  /** On the slow path, awake, and bound to look at the count again. */
  predicate Awake(pc: Pc) { pc.Lock? || pc.Woken? || pc.Check? || pc.SlowLoad? || pc.SlowCas? }

  predicate Notifying(pc: Pc) { pc.ReleaseNotify? }

  predicate AnyAsleep(threads: seq<Pc>) { exists i :: 0 <= i < |threads| && threads[i].Sleeping? }

  /** The loop of `try_acquire` with the last value it saw in hand. */
  function Attempt(cur: nat, slow: bool): Pc {
    if cur == 0 then (if slow then Check else Refused) else (if slow then SlowCas(cur) else FastCas(cur))
  }

  function Set(s: State, t: nat, pc: Pc): State
    requires t < |s.threads|
  {
    s.(threads := s.threads[t := pc])
  }

  predicate Enabled(s: State, act: Action) {
    && act.t < |s.threads|
    && var pc := s.threads[act.t];
       match act
       case Begin(_) => pc.Idle?
       case Retry(_) => pc.Refused?
       case GiveUp(_) => pc.Refused?
       case GoSlow(_) => pc.Refused?
       case BeginRelease(_) => pc.Held?
       case Continue(_) =>
         if NeedsMutex(pc) then s.mutex.Free?
         else pc.FastLoad? || pc.FastCas? || (HasMutex(pc) && !pc.ReleaseNotify?)
       case Notify(_, w) =>
         pc.ReleaseNotify? && (AnyAsleep(s.threads) ==> w < |s.threads| && s.threads[w].Sleeping?)
       case SpuriousWake(_) => pc.Sleeping?
  }

  function ContinueStep(s: State, t: nat): State
    requires t < |s.threads|
  {
    match s.threads[t]
    case FastLoad => Set(s, t, Attempt(s.count, false))
    case FastCas(cur) =>
      if s.count == cur && cur > 0 then Set(s.(count := cur - 1), t, Held) else Set(s, t, Attempt(s.count, false))
    case Lock => Set(s.(mutex := OwnedBy(t)), t, Check)
    case Woken => Set(s.(mutex := OwnedBy(t)), t, Check)
    case Check => Set(s, t, if s.count == 0 then GoSleep else SlowLoad)
    case GoSleep => Set(s.(mutex := Free), t, Sleeping)
    case SlowLoad => Set(s, t, Attempt(s.count, true))
    case SlowCas(cur) =>
      if s.count == cur && cur > 0 then Set(s.(count := cur - 1), t, HeldLocked) else Set(s, t, Attempt(s.count, true))
    case HeldLocked => Set(s.(mutex := Free), t, Held)
    case ReleaseLock => Set(s.(mutex := OwnedBy(t)), t, ReleaseAdd)
    case ReleaseAdd => Set(s.(count := s.count + 1), t, if s.count < s.limit then ReleaseNotify else Overflowed)
    case ReleaseUnlock => Set(s.(mutex := Free), t, Idle)
    case _ => s
  }

  function Next(s: State, act: Action): State
    requires Enabled(s, act)
  {
    match act
    case Begin(t) => Set(s, t, FastLoad)
    case Retry(t) => Set(s, t, FastLoad)
    case GiveUp(t) => Set(s, t, Idle)
    case GoSlow(t) => Set(s, t, Lock)
    case BeginRelease(t) => Set(s, t, ReleaseLock)
    case Continue(t) => ContinueStep(s, t)
    case Notify(t, w) =>
      if AnyAsleep(s.threads) then Set(Set(s, w, Woken), t, ReleaseUnlock) else Set(s, t, ReleaseUnlock)
    case SpuriousWake(t) => Set(s, t, Woken)
  }

  ghost predicate Execution(limit: nat, states: seq<State>, acts: seq<Action>) {
    && |states| == |acts| + 1
    && states[0] == Init(limit, |states[0].threads|)
    && (forall i :: 0 <= i < |acts| ==> Enabled(states[i], acts[i]) && states[i + 1] == Next(states[i], acts[i]))
  }

  // ---- The invariant ----

  /** Free permits and held permits add up to the limit. */
  ghost predicate PermitsConserved(s: State) {
    s.count + Count(s.threads, HasPermit) == s.limit
  }

  ghost predicate MutexOk(s: State) {
    && (forall t :: 0 <= t < |s.threads| ==> (HasMutex(s.threads[t]) <==> s.mutex == OwnedBy(t)))
    && (s.mutex.OwnedBy? ==> s.mutex.t < |s.threads|)
  }

  /** While anyone sleeps, every free permit has an awake thread, or a release about to notify, to claim it. */
  ghost predicate NoLostWakeup(s: State) {
    AnyAsleep(s.threads) ==> s.count <= Count(s.threads, Awake) + Count(s.threads, Notifying)
  }

  ghost predicate Inv(s: State) {
    && PermitsConserved(s)
    && MutexOk(s)
    && NoLostWakeup(s)
    && (forall t :: 0 <= t < |s.threads| && s.threads[t].GoSleep? ==> s.count == 0)
    && (forall t :: 0 <= t < |s.threads| ==> !s.threads[t].Overflowed?)
  }

  /** The bookkeeping of one thread's change of place. */
  lemma SetCounts(threads: seq<Pc>, t: nat, pc: Pc)
    requires t < |threads|
    ensures var u := threads[t := pc];
            && Count(u, HasPermit) == Count(threads, HasPermit) - (if HasPermit(threads[t]) then 1 else 0) + (if HasPermit(pc) then 1 else 0)
            && Count(u, Awake) == Count(threads, Awake) - (if Awake(threads[t]) then 1 else 0) + (if Awake(pc) then 1 else 0)
            && Count(u, Notifying) == Count(threads, Notifying) - (if Notifying(threads[t]) then 1 else 0) + (if Notifying(pc) then 1 else 0)
            && (AnyAsleep(u) ==> AnyAsleep(threads) || pc.Sleeping?)
  {
    CountUpdate(threads, t, pc, HasPermit);
    CountUpdate(threads, t, pc, Awake);
    CountUpdate(threads, t, pc, Notifying);
    var u := threads[t := pc];
    if i :| 0 <= i < |u| && u[i].Sleeping? {
      assert i != t ==> threads[i].Sleeping?;
    }
  }

  lemma ReleaseHasRoom(s: State, t: nat)
    requires Inv(s) && t < |s.threads| && HasPermit(s.threads[t])
    ensures s.count < s.limit
  {
    CountPositive(s.threads, HasPermit);
  }

  function Bit(b: bool): int { if b then 1 else 0 }

  /** Thread t alone moves, and its own share of each balance is kept. */
  ghost predicate Balanced(s: State, t: nat, s': State) {
    && t < |s.threads| == |s'.threads| && s'.limit == s.limit
    && s'.threads == s.threads[t := s'.threads[t]] && !s'.threads[t].Overflowed?
    && var pc, pc' := s.threads[t], s'.threads[t];
       && s'.count + Bit(HasPermit(pc')) == s.count + Bit(HasPermit(pc))
       && (HasMutex(pc') <==> s'.mutex == OwnedBy(t))
       && (s'.mutex == s.mutex || ((s.mutex == Free || s.mutex == OwnedBy(t)) && (s'.mutex == Free || s'.mutex == OwnedBy(t))))
       && (pc'.Sleeping? || pc'.GoSleep? ==> s'.count == 0)
       && (pc'.Sleeping? ||
           s'.count == 0 || s'.count - s.count <= Bit(Awake(pc')) - Bit(Awake(pc)) + Bit(Notifying(pc')) - Bit(Notifying(pc)))
       && (s'.count > s.count ==> HasMutex(pc))
  }

  lemma MoveOk(s: State, t: nat, s': State)
    requires Inv(s) && Balanced(s, t, s')
    ensures Inv(s')
  {
    SetCounts(s.threads, t, s'.threads[t]);
  }

  lemma ContinueBalanced(s: State, t: nat)
    requires t < |s.threads| && Enabled(s, Continue(t))
    requires HasMutex(s.threads[t]) <==> s.mutex == OwnedBy(t)
    requires s.threads[t].GoSleep? ==> s.count == 0
    requires s.threads[t].ReleaseAdd? ==> s.count < s.limit
    ensures Balanced(s, t, ContinueStep(s, t))
  {
    if HasMutex(s.threads[t]) { InsideBalanced(s, t); } else { OutsideBalanced(s, t); }
  }

  lemma InsideBalanced(s: State, t: nat)
    requires t < |s.threads| && HasMutex(s.threads[t]) && s.mutex == OwnedBy(t)
    requires s.threads[t].GoSleep? ==> s.count == 0
    requires s.threads[t].ReleaseAdd? ==> s.count < s.limit
    requires !s.threads[t].ReleaseNotify?
    ensures Balanced(s, t, ContinueStep(s, t))
  {
  }

  lemma OutsideBalanced(s: State, t: nat)
    requires t < |s.threads| && Enabled(s, Continue(t)) && !HasMutex(s.threads[t]) && s.mutex != OwnedBy(t)
    ensures Balanced(s, t, ContinueStep(s, t))
  {
  }

  lemma ContinueOk(s: State, t: nat)
    requires Inv(s) && Enabled(s, Continue(t))
    ensures Inv(ContinueStep(s, t))
  {
    if s.threads[t].ReleaseAdd? { ReleaseHasRoom(s, t); }
    ContinueBalanced(s, t);
    MoveOk(s, t, ContinueStep(s, t));
  }

  lemma NotifyOk(s: State, t: nat, w: nat)
    requires Inv(s) && Enabled(s, Notify(t, w))
    ensures Inv(Next(s, Notify(t, w)))
  {
    if AnyAsleep(s.threads) {
      WakeOk(s, t, w);
    } else {
      SetCounts(s.threads, t, ReleaseUnlock);
    }
  }

  /** What the notifier gives up the woken thread takes on. */
  lemma WakeOk(s: State, t: nat, w: nat)
    requires Inv(s) && t < |s.threads| && s.threads[t].ReleaseNotify? && w < |s.threads| && s.threads[w].Sleeping?
    ensures Inv(Set(Set(s, w, Woken), t, ReleaseUnlock))
  {
    WakeCounts(s.threads, t, w);
  }

  lemma WakeCounts(threads: seq<Pc>, t: nat, w: nat)
    requires t < |threads| && threads[t].ReleaseNotify? && w < |threads| && threads[w].Sleeping?
    ensures var u := threads[w := Woken][t := ReleaseUnlock];
            && Count(u, HasPermit) == Count(threads, HasPermit)
            && Count(u, Awake) + Count(u, Notifying) == Count(threads, Awake) + Count(threads, Notifying)
  {
    SetCounts(threads, w, Woken);
    SetCounts(threads[w := Woken], t, ReleaseUnlock);
  }

  lemma NextKeepsInv(s: State, act: Action)
    requires Inv(s) && Enabled(s, act)
    ensures Inv(Next(s, act))
  {
    match act
    case Continue(t) => ContinueOk(s, t);
    case Notify(t, w) => NotifyOk(s, t, w);
    case _ =>
      OtherBalanced(s, act);
      MoveOk(s, act.t, Next(s, act));
  }

  lemma OtherBalanced(s: State, act: Action)
    requires Enabled(s, act) && !act.Continue? && !act.Notify?
    requires HasMutex(s.threads[act.t]) <==> s.mutex == OwnedBy(act.t)
    ensures Balanced(s, act.t, Next(s, act))
  {
  }

  lemma InitInv(limit: nat, threadCount: nat)
    ensures Inv(Init(limit, threadCount))
  {
    CountNone(Init(limit, threadCount).threads, HasPermit);
  }

  // ---- Whole runs ----

  /** In every reachable state permits are conserved, no wake-up is lost, and the release assertion holds. */
  lemma {:induction false} ReachableInv(limit: nat, states: seq<State>, acts: seq<Action>, i: nat)
    requires Execution(limit, states, acts) && i < |states|
    ensures Inv(states[i]) && states[i].limit == limit
  {
    if i == 0 {
      InitInv(limit, |states[0].threads|);
    } else {
      ReachableInv(limit, states, acts, i - 1);
      NextKeepsInv(states[i - 1], acts[i - 1]);
    }
  }

  /** No more than limit threads ever hold a permit at once. */
  lemma AtMostLimitHeld(limit: nat, states: seq<State>, acts: seq<Action>, i: nat)
    requires Execution(limit, states, acts) && i < |states|
    ensures Count(states[i].threads, HasPermit) <= limit
    ensures states[i].count == limit - Count(states[i].threads, HasPermit)
  {
    ReachableInv(limit, states, acts, i);
  }

  /** If no thread is on its way to look at the count or to notify, sleepers sleep because every permit is held. */
  lemma SleepersWaitForHolders(limit: nat, states: seq<State>, acts: seq<Action>, i: nat)
    requires Execution(limit, states, acts) && i < |states|
    requires AnyAsleep(states[i].threads)
    requires forall t :: 0 <= t < |states[i].threads| ==> !Awake(states[i].threads[t]) && !Notifying(states[i].threads[t])
    ensures Count(states[i].threads, HasPermit) == limit
  {
    ReachableInv(limit, states, acts, i);
    CountNone(states[i].threads, Awake);
    CountNone(states[i].threads, Notifying);
  }
}
