/** What runs over the hazard records promise when no head is stale. `HazardFailures` has the other case. */
module HazardRuns {
  import opened HazardDomain
  import opened Sequences

  /** In every run in which a head is still the head when its lock bit is set, the free list is the chain
      from its head to null, each record is on it or with exactly one thread, once, and every record not just
      being made is on the first list. */
  lemma RecordsPartitioned(states: seq<State>, acts: seq<Action>, i: nat, id: nat)
    requires FreshExecution(states, acts) && i < |states| && id < |states[i].recs|
    ensures var s := states[i];
            && Chain(s.recs, s.free, NULL) && s.availHead == First(s.free)
            && Distinct(s.free) && (forall t :: 0 <= t < |s.threads| ==> Distinct(Owned(s.threads[t])))
            && (id !in s.free ==> exists t :: 0 <= t < |s.threads| && id in Owned(s.threads[t]))
            && (forall t :: 0 <= t < |s.threads| && id in Owned(s.threads[t]) ==> id !in s.free)
            && (forall t, u ::
                  (0 <= t < |s.threads| && 0 <= u < |s.threads| &&
                   id in Owned(s.threads[t]) && id in Owned(s.threads[u])) ==> t == u)
            && (id in s.published || exists t :: 0 <= t < |s.threads| && s.threads[t].Make? && s.threads[t].rec == id)
  {
    ReachableInv(states, acts, i);
    var s := states[i];
    forall t | 0 <= t < |s.threads|
      ensures Distinct(Owned(s.threads[t])) && (s.owner[id] == t <==> id in Owned(s.threads[t]))
    {
      assert ThreadOk(s, t);
    }
    if id !in s.free { assert id in Owned(s.threads[s.owner[id]]); }
  }

  /** An array that was asked for n records is n distinct records, each linked to the next and the last to
      null, which is what the assertion in `release_many` wants of it. */
  lemma ArrayExact(states: seq<State>, acts: seq<Action>, i: nat, t: nat)
    requires FreshExecution(states, acts) && i < |states| && t < |states[i].threads| && states[i].threads[t].Holding?
    ensures var s := states[i]; var h := s.threads[t];
            && |h.got| == h.n >= 1 && Distinct(h.got)
            && (forall j :: 0 <= j < h.n ==> h.got[j] < |s.recs|)
            && (forall j, k :: 0 <= j && k == j + 1 && k < h.n ==> s.recs[h.got[j]].avail == h.got[k])
            && s.recs[h.got[h.n - 1]].avail == NULL
  {
    ReachableInv(states, acts, i);
    assert ThreadOk(states[i], t);
  }

  function Step(s: State, act: Action): State {
    if Enabled(s, act) then Next(s, act) else s
  }

  /** As many records as were asked for, or all that are free if those are fewer. */
  function Share(n: nat, free: seq<nat>): nat { if n < |free| then n else |free| }

  /** What a step does to the recorded free list. */
  ghost predicate FreeListEffect(s: State, act: Action, s': State)
    requires Enabled(s, act)
  {
    || s'.free == s.free
    || (act.Continue? && act.t < |s'.threads| && s.threads[act.t].Walk? && s'.threads[act.t].NullTail? &&
        s.free == s'.threads[act.t].taken + s'.free && |s'.threads[act.t].taken| == Share(s.threads[act.t].n, s.free))
    || (act.Continue? && act.t < |s'.threads| && s.threads[act.t].PushSwing? && s'.threads[act.t].Idle? &&
        s'.free == s.threads[act.t].got + s.free)
  }

  lemma StepEffect(s: State, act: Action)
    requires Inv(s) && Enabled(s, act)
    ensures FreeListEffect(s, act, Next(s, act))
  {
    assert ThreadOk(s, act.t);
    if act.Continue? && s.threads[act.t].Walk? {
      assert s.free == s.free[..s.threads[act.t].k] + s.free[s.threads[act.t].k..];
    }
  }

  /** The free list is always the chain from its head to null. Only the end of a walk takes from it, as many
      records as were asked for or all of them, from its front and leaving the rest alone; only a successful swing
      adds to it, in front, the array in its order. */
  lemma FreeListStep(states: seq<State>, acts: seq<Action>, i: nat)
    requires FreshExecution(states, acts) && i < |acts|
    ensures Chain(states[i].recs, states[i].free, NULL) && states[i].availHead == First(states[i].free)
    ensures Chain(states[i + 1].recs, states[i + 1].free, NULL) && states[i + 1].availHead == First(states[i + 1].free)
    ensures FreeListEffect(states[i], acts[i], states[i + 1])
  {
    ReachableInv(states, acts, i);
    ReachableInv(states, acts, i + 1);
    StepEffect(states[i], acts[i]);
  }

  /** Records are never freed: what is on the first list stays there. */
  lemma PublishedGrows(s: State, act: Action)
    requires Enabled(s, act)
    ensures forall id :: id in s.published ==> id in Next(s, act).published
    ensures |s.recs| <= |Next(s, act).recs|
  {
    var s' := Next(s, act);
    if s'.published != s.published { assert s'.published == [s.threads[act.t].rec] + s.published; }
  }
}
