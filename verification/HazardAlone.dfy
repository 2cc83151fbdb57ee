/** What acquiring and releasing hazard records comes to when nobody disturbs it. */
module HazardAlone {
  import opened HazardDomain
  import opened HazardRuns
  import opened Runs
  import opened Sequences

  /** Steps of thread t alone lead from s to last. */
  ghost predicate Solo(s: State, t: nat, last: State) {
    Alone(Enabled, Step, s, Continue(t, false), last)
  }

  lemma SoloStep(s: State, t: nat)
    requires Enabled(s, Continue(t, false))
    ensures Solo(s, t, ContinueStep(s, t, false))
  {
    AloneOne(Enabled, Step, s, Continue(t, false), ContinueStep(s, t, false));
  }

  lemma SoloTwo(s: State, t: nat, mid: State, last: State)
    requires Solo(s, t, mid) && Solo(mid, t, last)
    ensures Solo(s, t, last)
  {
    AloneTransitive(Enabled, Step, s, Continue(t, false), mid, last);
  }

  /** The numbers from a to b. */
  function Made(a: nat, b: nat): (r: seq<nat>)
    requires a <= b
    ensures |r| == b - a && forall i :: 0 <= i < |r| ==> r[i] == a + i
    decreases b - a
  {
    if a == b then [] else [a] + Made(a + 1, b)
  }

  /** The other threads are where they were. */
  ghost predicate OthersKept(s: State, last: State, t: nat) {
    |last.threads| == |s.threads| && forall u :: 0 <= u < |s.threads| && u != t ==> last.threads[u] == s.threads[u]
  }

  // ---- Filling the array ----

  /** From a state with m records the thread has come to hold those in hand and as many new ones as were missing. */
  ghost predicate Filled(s: State, last: State, t: nat, n: nat, inHand: seq<nat>) {
    && |inHand| <= n && |last.recs| == |s.recs| + (n - |inHand|)
    && OthersKept(s, last, t) && t < |last.threads| && last.threads[t] == Holding(n, inHand + Made(|s.recs|, |last.recs|))
    && last.free == s.free && last.availHead == s.availHead && last.lock == s.lock
  }

  /** A record made, published and chained. */
  lemma MakeAlone(s: State, t: nat) returns (last: State)
    requires Inv(s) && t < |s.threads| && s.threads[t].Fill? && s.threads[t].rest == [] && |s.threads[t].got| < s.threads[t].n
    ensures Solo(s, t, last) && Inv(last) && OthersKept(s, last, t) && |last.recs| == |s.recs| + 1
    ensures last.free == s.free && last.availHead == s.availHead && last.lock == s.lock
    ensures var pc := s.threads[t]; last.threads[t] == Fill(pc.n, NULL, |s.recs|, pc.got + [|s.recs|], [])
  {
    assert ThreadOk(s, t);
    var s1 := Ahead(s, t, s);
    var s2 := Ahead(s, t, s1);
    last := Ahead(s, t, s2);
  }

  lemma FilledMore(s: State, s1: State, last: State, t: nat, n: nat, got: seq<nat>)
    requires |got| < n && OthersKept(s, s1, t) && |s1.recs| == |s.recs| + 1
    requires s1.free == s.free && s1.availHead == s.availHead && s1.lock == s.lock
    requires Filled(s1, last, t, n, got + [|s.recs|])
    ensures Filled(s, last, t, n, got)
  {
    assert got + [|s.recs|] + Made(|s1.recs|, |last.recs|) == got + Made(|s.recs|, |last.recs|);
  }

  lemma {:induction false} FillAlone(s: State, t: nat) returns (last: State)
    requires Inv(s) && t < |s.threads| && s.threads[t].Fill?
    ensures Solo(s, t, last) && Filled(s, last, t, s.threads[t].n, s.threads[t].got + s.threads[t].rest)
    decreases s.threads[t].n - |s.threads[t].got|
  {
    var pc, s1 := s.threads[t], ContinueStep(s, t, false);
    assert ThreadOk(s, t);
    SoloStep(s, t);
    if |pc.got| >= pc.n {
      last := s1;
      assert pc.got + pc.rest + Made(|s.recs|, |s.recs|) == pc.got;
    } else if pc.rest != [] {
      ContinueOk(s, t, false);
      last := FillAlone(s1, t);
      SoloTwo(s, t, s1, last);
      assert pc.got + [pc.rest[0]] + pc.rest[1..] == pc.got + pc.rest;
    } else {
      var made := MakeAlone(s, t);
      last := FillAlone(made, t);
      SoloTwo(s, t, made, last);
      assert pc.got + [|s.recs|] + [] == pc.got + [|s.recs|] && pc.got + pc.rest == pc.got;
      FilledMore(s, made, last, t, pc.n, pc.got);
    }
  }

  // ---- Walking the free list ----

  /** The thread has taken its share of the free list and is about to cut it off. */
  ghost predicate Took(s: State, last: State, t: nat, n: nat) {
    var m := Share(n, s.free);
    && last.recs == s.recs && OthersKept(s, last, t) && t < |last.threads|
    && last.threads[t].NullTail? && last.threads[t].n == n && last.threads[t].taken == s.free[..m]
    && last.free == s.free[m..] && last.lock.Free?
  }

  lemma {:induction false} WalkAlone(s: State, t: nat) returns (last: State)
    requires Inv(s) && t < |s.threads| && s.threads[t].Walk?
    ensures Solo(s, t, last) && Inv(last) && Took(s, last, t, s.threads[t].n)
    decreases s.threads[t].n - s.threads[t].k
  {
    var pc, s1 := s.threads[t], ContinueStep(s, t, false);
    assert ThreadOk(s, t);
    SoloStep(s, t);
    ContinueOk(s, t, false);
    if pc.next != NULL && pc.k < pc.n {
      last := WalkAlone(s1, t);
      SoloTwo(s, t, s1, last);
    } else {
      last := s1;
    }
  }

  /** The thread holds n records: its share of those that were free, in their order, and then new ones. The rest of
      the free list is as it was. */
  ghost predicate Acquires(s: State, last: State, t: nat, n: nat) {
    var m := Share(n, s.free);
    && |last.recs| == |s.recs| + (n - m)
    && OthersKept(s, last, t) && t < |last.threads|
    && last.threads[t] == Holding(n, s.free[..m] + Made(|s.recs|, |last.recs|))
    && last.free == s.free[m..] && last.lock.Free?
  }

  lemma LockedAlone(s: State, t: nat) returns (last: State)
    requires Inv(s) && t < |s.threads| && s.threads[t].LockAvail? && s.lock.Free? && s.free != [] && s.threads[t].seen == s.availHead
    ensures Solo(s, t, last) && Inv(last) && t < |last.threads| && last.threads[t].Walk? && last.threads[t].n == s.threads[t].n
    ensures last.recs == s.recs && last.free == s.free && OthersKept(s, last, t)
  {
    assert ThreadOk(s, t);
    var s1 := ContinueStep(s, t, false);
    SoloStep(s, t);
    ContinueOk(s, t, false);
    last := ContinueStep(s1, t, false);
    SoloStep(s1, t);
    ContinueOk(s1, t, false);
    SoloTwo(s, t, s1, last);
  }

  /** From the walk to the array. */
  lemma TookAlone(s: State, t: nat, n: nat, took: State) returns (last: State)
    requires Inv(took) && Took(s, took, t, n)
    ensures Solo(took, t, last) && Acquires(s, last, t, n)
  {
    assert ThreadOk(took, t);
    var cut := ContinueStep(took, t, false);
    SoloStep(took, t);
    ContinueOk(took, t, false);
    last := FillAlone(cut, t);
    SoloTwo(took, t, cut, last);
    assert [] + took.threads[t].taken == took.threads[t].taken;
  }

  /** `acquire_many` that nobody disturbs. */
  lemma AcquireAlone(s: State, t: nat) returns (last: State)
    requires Inv(s) && t < |s.threads| && s.threads[t].LoadAvail? && s.lock.Free?
    ensures Solo(s, t, last) && Acquires(s, last, t, s.threads[t].n)
  {
    assert ThreadOk(s, t);
    var n, s1 := s.threads[t].n, ContinueStep(s, t, false);
    SoloStep(s, t);
    ContinueOk(s, t, false);
    if s.free == [] {
      last := FillAlone(s1, t);
      SoloTwo(s, t, s1, last);
      var none: seq<nat> := [];
      assert none + none == none && s.free[..0] == none;
    } else {
      var walking := LockedAlone(s1, t);
      SoloTwo(s, t, s1, walking);
      var took := WalkAlone(walking, t);
      SoloTwo(s, t, walking, took);
      last := TookAlone(s, t, n, took);
      SoloTwo(s, t, took, last);
    }
  }

  /** `release_many` that nobody disturbs puts the array in front of the free list, in its order. */
  lemma ReleaseAlone(s: State, t: nat) returns (last: State)
    requires Inv(s) && t < |s.threads| && s.threads[t].PushLoad? && s.lock.Free?
    ensures Solo(s, t, last) && OthersKept(s, last, t) && t < |last.threads| && last.threads[t].Idle?
    ensures last.free == s.threads[t].got + s.free && |last.recs| == |s.recs| && last.lock.Free?
    ensures Inv(last)
  {
    var s1 := Ahead(s, t, s);
    var s2 := Ahead(s, t, s1);
    last := Ahead(s, t, s2);
  }

  /** One more step of a thread that is not about to set the lock bit. */
  lemma Ahead(s: State, t: nat, mid: State) returns (last: State)
    requires Inv(mid) && Enabled(mid, Continue(t, false)) && !mid.threads[t].LockAvail? && (mid == s || Solo(s, t, mid))
    ensures last == ContinueStep(mid, t, false) && Inv(last) && Solo(s, t, last)
  {
    last := ContinueStep(mid, t, false);
    SoloStep(mid, t);
    ContinueOk(mid, t, false);
    if mid != s { SoloTwo(s, t, mid, last); }
  }
}
