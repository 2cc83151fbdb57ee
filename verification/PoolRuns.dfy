/** Where the pool's batches come from and go to: what each acquire hands out and each release keeps, and when a
    batch is made. */
module PoolRuns {
  import opened BatchPool
  import opened PoolStacks
  import opened Runs
  import opened Sequences

  // ---- When a batch is made ----

  /** A thread that is about to refill has an empty cache. */
  ghost predicate RefillsEmpty(s: State) {
    forall t: nat :: t < |s.threads| && s.threads[t].Refill? ==> At(s, Cached(t)) == []
  }

  /** The step is one of thread t, or of none, and leaves the other threads and their caches alone. */
  ghost predicate OtherCachesKept(s: State, s': State, t: nat) {
    && |s'.threads| == |s.threads|
    && (forall u: nat :: u < |s.threads| && u != t ==> s'.threads[u] == s.threads[u] && At(s', Cached(u)) == At(s, Cached(u)))
  }

  function Actor(act: Action): nat {
    match act
    case Acquire(t) => t
    case Release(t, _) => t
    case Continue(t) => t
    case Teardown(t) => t
    case Use(_, _) => 0
    case Abandon(_) => 0
  }

  lemma {:induction false} DropAllKeepsOthers(s: State, t: nat)
    requires t < |s.threads|
    ensures OtherCachesKept(s, DropAll(s, t), t) && DropAll(s, t).threads == s.threads
    ensures |DropAll(s, t).place| == |s.place|
    decreases |At(s, Cached(t))|
  {
    if At(s, Cached(t)) != [] {
      var s' := Pop(s, Cached(t), Dropped, Idle);
      if |At(s', Cached(t))| < |At(s, Cached(t))| { DropAllKeepsOthers(s', t); }
    }
  }

  lemma WithShardKeeps(c: Config, s: State, t: nat)
    requires c.shards > 0
    ensures var s1 := WithShard(c, s, t).0; s1.held == s.held && s1.threads == s.threads && s1.place == s.place && s1.state == s.state
  {
  }

  lemma OwnSteps(c: Config, s: State, act: Action)
    requires ValidConfig(c) && Enabled(c, s, act) && !act.Use? && !act.Abandon?
    ensures OtherCachesKept(s, Next(c, s, act), Actor(act))
  {
    match act
    case Acquire(t) => WithShardKeeps(c, s, t);
    case Release(t, k) => WithShardKeeps(c, s, t);
    case Continue(t) => ContinueOwn(c, s, t);
    case Teardown(t) => DropAllKeepsOthers(s, t);
  }

  lemma ContinueOwn(c: Config, s: State, t: nat)
    requires t < |s.threads|
    ensures OtherCachesKept(s, ContinueStep(c, s, t), t)
  {
    match s.threads[t]
    case Resting =>
    case Refill(shard) => RefillOwn(s, t, shard);
    case Hydrate(shard, batch) => HydrateOwn(c, s, t, shard, batch);
    case Spill(shard, batch) => SpillOwn(c, s, t, shard, batch);
  }

  lemma RefillOwn(s: State, t: nat, shard: nat)
    ensures OtherCachesKept(s, RefillStep(s, t, shard), t)
  {
  }

  lemma HydrateOwn(c: Config, s: State, t: nat, shard: nat, batch: nat)
    ensures OtherCachesKept(s, HydrateStep(c, s, t, shard, batch), t)
  {
  }

  lemma SpillOwn(c: Config, s: State, t: nat, shard: nat, batch: nat)
    ensures OtherCachesKept(s, SpillStep(c, s, t, shard, batch), t)
  {
  }

  /** A step that goes on never starts a refill. */
  lemma ContinueEndsRefill(c: Config, s: State, t: nat)
    requires t < |s.threads|
    ensures |ContinueStep(c, s, t).threads| == |s.threads| && !ContinueStep(c, s, t).threads[t].Refill?
  {
  }

  lemma NextRefillsEmpty(c: Config, s: State, act: Action)
    requires Inv(c, s) && RefillsEmpty(s) && Enabled(c, s, act)
    ensures RefillsEmpty(Next(c, s, act))
  {
    if !act.Use? && !act.Abandon? {
      OwnSteps(c, s, act);
      match act
      case Acquire(t) => WithShardKeeps(c, s, t);
      case Release(t, k) => WithShardKeeps(c, s, t);
      case Teardown(t) => DropAllKeepsOthers(s, t);
      case Continue(t) => ContinueEndsRefill(c, s, t);
    }
  }

  lemma {:induction false} ReachableRefillsEmpty(c: Config, states: seq<State>, acts: seq<Action>, i: nat)
    requires Execution(c, states, acts) && i < |states|
    ensures RefillsEmpty(states[i])
  {
    if i > 0 {
      ReachableRefillsEmpty(c, states, acts, i - 1);
      ReachableInv(c, states, acts, i - 1);
      NextRefillsEmpty(c, states[i - 1], acts[i - 1]);
    }
  }

  /** In every run a batch is made only for a thread that acquires one while its cache and its shard are both
      empty, and then exactly one. */
  lemma MadeOnlyWhenEmpty(c: Config, states: seq<State>, acts: seq<Action>, i: nat)
    requires Execution(c, states, acts) && i < |acts| && |states[i + 1].place| != |states[i].place|
    ensures |states[i + 1].place| == |states[i].place| + 1 && acts[i].Continue?
    ensures var s, t := states[i], acts[i].t;
            t < |s.threads| && s.threads[t].Refill? && At(s, Cached(t)) == [] && At(s, Sharded(s.threads[t].shard)) == []
  {
    var s, act := states[i], acts[i];
    ReachableRefillsEmpty(c, states, acts, i);
    match act
    case Acquire(t) => WithShardKeeps(c, s, t);
    case Release(t, k) => WithShardKeeps(c, s, t);
    case Teardown(t) => DropAllKeepsOthers(s, t);
    case _ =>
  }

  // ---- Calls that nobody disturbs ----

  function Allowed(c: Config): (State, Action) -> bool { (s, act) => Enabled(c, s, act) }

  function StepOf(c: Config): (State, Action) -> State {
    (s, act) => if ValidConfig(c) && Enabled(c, s, act) then Next(c, s, act) else s
  }

  /** Only the lists of these places differ. */
  ghost predicate OnlyAt(s: State, s': State, places: set<Place>) {
    s'.held.Keys == s.held.Keys && forall p :: p in s.held && p !in places ==> At(s', p) == At(s, p)
  }

  /** A popped list: what is left, and the order in which the others came off. */
  ghost predicate Popped(was: seq<nat>, left: seq<nat>, moved: seq<nat>) {
    left <= was && Reverses(moved, was[|left|..])
  }

  lemma PoppedMore(was: seq<nat>, left: seq<nat>, moved: seq<nat>)
    requires was != [] && Popped(was[..|was| - 1], left, moved)
    ensures Popped(was, left, [was[|was| - 1]] + moved)
  {
    var front, top := was[..|was| - 1], was[|was| - 1];
    assert was == front + [top];
    assert was[|left|..] == front[|left|..] + [top];
  }

  /** What the hydrating loop and the return after it lead to. */
  ghost predicate Hydration(c: Config, s: State, t: nat, shard: nat, batch: nat, last: State, moved: seq<nat>) {
    && |moved| == Hydrated(|At(s, Sharded(shard))|, |At(s, Cached(t))|, c.cacheCap)
    && Popped(At(s, Sharded(shard)), At(last, Sharded(shard)), moved)
    && At(last, Cached(t)) == At(s, Cached(t)) + moved
    && At(last, Live) == At(s, Live) + [batch] && At(last, Hand(t)) == []
    && OnlyAt(s, last, {Sharded(shard), Cached(t), Live, Hand(t)})
    && |last.place| == |s.place| && t < |s.threads| && last.threads == s.threads[t := Resting]
  }

  lemma HydrateDone(c: Config, s: State, t: nat)
    requires Inv(c, s) && t < c.threads && s.threads[t].Hydrate?
    requires |At(s, Cached(t))| >= c.cacheCap / 2 || At(s, Sharded(s.threads[t].shard)) == []
    ensures Hydration(c, s, t, s.threads[t].shard, s.threads[t].batch, ContinueStep(c, s, t), [])
  {
    assert ThreadOk(c, s, t);
    assert ListOk(s, Hand(t)) && s.threads[t].batch in s.held[Hand(t)];
  }

  lemma HydrateOne(c: Config, s: State, t: nat)
    requires Inv(c, s) && t < c.threads && s.threads[t].Hydrate?
    requires |At(s, Cached(t))| < c.cacheCap / 2 && At(s, Sharded(s.threads[t].shard)) != []
    ensures var shard := Sharded(s.threads[t].shard); var s1 := ContinueStep(c, s, t); var list := At(s, shard);
            && At(s1, shard) == list[..|list| - 1] && At(s1, Cached(t)) == At(s, Cached(t)) + [list[|list| - 1]]
            && OnlyAt(s, s1, {shard, Cached(t)}) && |s1.place| == |s.place| && s1.threads == s.threads
  {
    assert ThreadOk(c, s, t);
    var shard := Sharded(s.threads[t].shard);
    assert ListOk(s, shard) && Last(s.held[shard]) in s.held[shard];
  }

  lemma HydrationMore(c: Config, s: State, t: nat, shard: nat, batch: nat, s1: State, last: State, moved: seq<nat>)
    requires var list := At(s, Sharded(shard));
             && list != [] && |At(s, Cached(t))| < c.cacheCap / 2
             && At(s1, Sharded(shard)) == list[..|list| - 1] && At(s1, Cached(t)) == At(s, Cached(t)) + [list[|list| - 1]]
    requires OnlyAt(s, s1, {Sharded(shard), Cached(t)}) && |s1.place| == |s.place| && s1.threads == s.threads
    requires Live in s.held && Hydration(c, s1, t, shard, batch, last, moved)
    ensures Hydration(c, s, t, shard, batch, last, [At(s, Sharded(shard))[|At(s, Sharded(shard))| - 1]] + moved)
  {
    PoppedMore(At(s, Sharded(shard)), At(last, Sharded(shard)), moved);
  }

  /** A thread that is filling its cache takes batches off its shard's top until the cache is half full or the shard
      empty, and returns the batch it holds. */
  lemma {:induction false} HydrateAlone(c: Config, s: State, t: nat) returns (last: State, moved: seq<nat>)
    requires Inv(c, s) && t < c.threads && s.threads[t].Hydrate?
    ensures Alone(Allowed(c), StepOf(c), s, Continue(t), last)
    ensures Hydration(c, s, t, s.threads[t].shard, s.threads[t].batch, last, moved)
    decreases |At(s, Sharded(s.threads[t].shard))|
  {
    var shard, batch := s.threads[t].shard, s.threads[t].batch;
    var s1 := ContinueStep(c, s, t);
    AloneOne(Allowed(c), StepOf(c), s, Continue(t), s1);
    if |At(s, Cached(t))| < c.cacheCap / 2 && At(s, Sharded(shard)) != [] {
      HydrateOne(c, s, t);
      HydrateOk(c, s, t);
      var rest;
      last, rest := HydrateAlone(c, s1, t);
      AloneTransitive(Allowed(c), StepOf(c), s, Continue(t), s1, last);
      HydrationMore(c, s, t, shard, batch, s1, last, rest);
      moved := [At(s, Sharded(shard))[|At(s, Sharded(shard))| - 1]] + rest;
    } else {
      HydrateDone(c, s, t);
      last, moved := s1, [];
    }
  }

  /** `acquire_object` hands out the top of a cache that is not empty, and leaves all other lists alone. */
  lemma AcquireFromCache(c: Config, s: State, t: nat)
    requires Inv(c, s) && Enabled(c, s, Acquire(t)) && At(s, Cached(t)) != []
    ensures var s', cache := Next(c, s, Acquire(t)), At(s, Cached(t));
            && At(s', Live) == At(s, Live) + [cache[|cache| - 1]] && At(s', Cached(t)) == cache[..|cache| - 1]
            && OnlyAt(s, s', {Live, Cached(t)}) && s'.threads == s.threads && |s'.place| == |s.place|
  {
    assert ListOk(s, Cached(t)) && Last(s.held[Cached(t)]) in s.held[Cached(t)];
  }

  /** The thread has the batch it will return in its hand: the top of its shard, or a new one if that is empty. */
  lemma RefillTakes(c: Config, s: State, t: nat)
    requires Inv(c, s) && t < c.threads && s.threads[t].Refill?
    ensures var shard := s.threads[t].shard; var list := At(s, Sharded(shard)); var s1 := ContinueStep(c, s, t);
            && s1.threads == s.threads[t := Hydrate(shard, if list == [] then |s.place| else list[|list| - 1])]
            && At(s1, Sharded(shard)) == (if list == [] then [] else list[..|list| - 1])
            && OnlyAt(s, s1, {Sharded(shard), Hand(t)})
            && |s1.place| == if list == [] then |s.place| + 1 else |s.place|
  {
    assert ThreadOk(c, s, t);
    var shard := Sharded(s.threads[t].shard);
    if At(s, shard) != [] { assert ListOk(s, shard) && Last(s.held[shard]) in s.held[shard]; }
  }

  /** What acquiring with an empty cache leads to: the top of the shard handed out, or a batch made if the shard is
      empty too, and the cache filled from what is left of the shard, top first, up to half. */
  ghost predicate Acquisition(c: Config, s: State, t: nat, shard: nat, last: State, moved: seq<nat>) {
    var list := At(s, Sharded(shard));
    var left := if list == [] then [] else list[..|list| - 1];
    && At(last, Live) == At(s, Live) + [if list == [] then |s.place| else list[|list| - 1]]
    && |moved| == Min(|left|, c.cacheCap / 2)
    && Popped(left, At(last, Sharded(shard)), moved) && At(last, Cached(t)) == moved
    && |last.place| == (if list == [] then |s.place| + 1 else |s.place|)
    && t < |s.threads| && last.threads == s.threads[t := Resting]
    && OnlyAt(s, last, {Sharded(shard), Cached(t), Live, Hand(t)})
  }

  lemma AcquisitionEnds(c: Config, s: State, t: nat, last: State, moved: seq<nat>)
    requires Inv(c, s) && t < c.threads && s.threads[t].Refill? && At(s, Cached(t)) == []
    requires var s1 := ContinueStep(c, s, t);
             && t < |s1.threads| && s1.threads[t].Hydrate?
             && Hydration(c, s1, t, s1.threads[t].shard, s1.threads[t].batch, last, moved)
    ensures Acquisition(c, s, t, s.threads[t].shard, last, moved)
  {
    var s1, shard := ContinueStep(c, s, t), Sharded(s.threads[t].shard);
    RefillTakes(c, s, t);
    OnlyAtTwice(s, s1, last, {shard, Hand(t)}, {shard, Cached(t), Live, Hand(t)});
    assert s.threads[t := s1.threads[t]][t := Resting] == s.threads[t := Resting];
  }

  /** An acquire with an empty cache that nobody disturbs. */
  lemma AcquireAlone(c: Config, s: State, t: nat) returns (last: State, moved: seq<nat>)
    requires Inv(c, s) && t < c.threads && s.threads[t].Refill? && At(s, Cached(t)) == []
    ensures Alone(Allowed(c), StepOf(c), s, Continue(t), last)
    ensures Acquisition(c, s, t, s.threads[t].shard, last, moved)
  {
    var s1 := ContinueStep(c, s, t);
    AloneOne(Allowed(c), StepOf(c), s, Continue(t), s1);
    RefillTakes(c, s, t);
    RefillOk(c, s, t);
    last, moved := HydrateAlone(c, s1, t);
    AloneTransitive(Allowed(c), StepOf(c), s, Continue(t), s1, last);
    AcquisitionEnds(c, s, t, last, moved);
  }

  // ---- Releases ----

  /** `release` of a batch into a cache with room puts it on top, and changes no other list but that of the live. */
  lemma ReleaseToCache(c: Config, s: State, t: nat, k: nat)
    requires Inv(c, s) && Enabled(c, s, Release(t, k)) && |At(s, Cached(t))| < c.cacheCap
    ensures var s', live := Next(c, s, Release(t, k)), At(s, Live);
            && At(s', Cached(t)) == At(s, Cached(t)) + [live[k]] && At(s', Live) == live[..k] + live[k + 1..]
            && OnlyAt(s, s', {Live, Cached(t)}) && s'.threads == s.threads
  {
    assert ListOk(s, Live) && At(s, Live)[k] in s.held[Live];
  }

  /** What spilling and the push after it lead to: the shard takes the spilled batches, top of the cache first, while
      it has room, and the others are let go. */
  ghost predicate Spillage(c: Config, s: State, t: nat, shard: nat, batch: nat, last: State,
                           spilled: seq<nat>, dropped: seq<nat>) {
    && |spilled| == (if |At(s, Cached(t))| < c.target then 0 else |At(s, Cached(t))| - (c.target - 1)) <= |At(s, Cached(t))|
    && Reverses(spilled, At(s, Cached(t))[|At(s, Cached(t))| - |spilled|..])
    && At(last, Cached(t)) == At(s, Cached(t))[..|At(s, Cached(t))| - |spilled|] + [batch]
    && Parted(At(last, Sharded(shard)), At(s, Sharded(shard)), spilled, dropped, c.shardCap)
    && At(last, Dropped) == At(s, Dropped) + dropped && At(last, Hand(t)) == []
    && OnlyAt(s, last, {Sharded(shard), Cached(t), Dropped, Hand(t)})
    && t < |s.threads| && last.threads == s.threads[t := Resting]
  }

  lemma SpillDone(c: Config, s: State, t: nat)
    requires Inv(c, s) && t < c.threads && s.threads[t].Spill? && |At(s, Cached(t))| < c.target
    ensures Spillage(c, s, t, s.threads[t].shard, s.threads[t].batch, ContinueStep(c, s, t), [], [])
  {
    assert ThreadOk(c, s, t);
    assert ListOk(s, Hand(t)) && s.threads[t].batch in s.held[Hand(t)];
    assert ListOk(s, Sharded(s.threads[t].shard));
    var cache := At(s, Cached(t));
    assert cache[|cache|..] == [] && cache[..|cache|] == cache;
  }

  lemma SpillOne(c: Config, s: State, t: nat)
    requires Inv(c, s) && t < c.threads && s.threads[t].Spill? && |At(s, Cached(t))| >= c.target
    ensures var shard := Sharded(s.threads[t].shard); var s1 := ContinueStep(c, s, t); var cache := At(s, Cached(t));
            var fits := |At(s, shard)| < c.shardCap;
            && At(s1, Cached(t)) == cache[..|cache| - 1]
            && At(s1, shard) == At(s, shard) + (if fits then [cache[|cache| - 1]] else [])
            && At(s1, Dropped) == At(s, Dropped) + (if fits then [] else [cache[|cache| - 1]])
            && OnlyAt(s, s1, {shard, Cached(t), Dropped}) && s1.threads == s.threads
  {
    assert ThreadOk(c, s, t);
    assert ListOk(s, Cached(t)) && Last(s.held[Cached(t)]) in s.held[Cached(t)];
  }

  lemma PartedMore(now: seq<nat>, was: seq<nat>, mid: seq<nat>, x: nat, first: seq<nat>,
                   spilled: seq<nat>, dropped: seq<nat>, cap: nat)
    requires Parted(now, mid, spilled, dropped, cap)
    requires if |was| < cap then mid == was + [x] && first == [] else mid == was && first == [x] && |was| == cap
    ensures Parted(now, was, [x] + spilled, first + dropped, cap)
  {
    if |was| < cap {
      assert (was + [x]) + spilled == was + ([x] + spilled);
    } else {
      assert now == (now + dropped)[..|now|] && was == (was + spilled)[..|was|];
      assert dropped == (now + dropped)[|now|..] && spilled == (was + spilled)[|was|..];
    }
  }

  lemma SpillageMore(c: Config, s: State, t: nat, shard: nat, batch: nat, s1: State, last: State,
                     spilled: seq<nat>, dropped: seq<nat>)
    requires Dropped in s.held && |At(s, Sharded(shard))| <= c.shardCap && 0 < c.target <= |At(s, Cached(t))|
    requires var cache, fits := At(s, Cached(t)), |At(s, Sharded(shard))| < c.shardCap;
             && At(s1, Cached(t)) == cache[..|cache| - 1]
             && At(s1, Sharded(shard)) == At(s, Sharded(shard)) + (if fits then [cache[|cache| - 1]] else [])
             && At(s1, Dropped) == At(s, Dropped) + (if fits then [] else [cache[|cache| - 1]])
             && OnlyAt(s, s1, {Sharded(shard), Cached(t), Dropped}) && s1.threads == s.threads
    requires Spillage(c, s1, t, shard, batch, last, spilled, dropped)
    ensures var cache, fits := At(s, Cached(t)), |At(s, Sharded(shard))| < c.shardCap;
            var top := cache[|cache| - 1];
            Spillage(c, s, t, shard, batch, last, [top] + spilled, (if fits then [] else [top]) + dropped)
  {
    var cache, fits := At(s, Cached(t)), |At(s, Sharded(shard))| < c.shardCap;
    var top := cache[|cache| - 1];
    TopFirst(cache, spilled);
    OnlyAtTwice(s, s1, last, {Sharded(shard), Cached(t), Dropped}, {Sharded(shard), Cached(t), Dropped, Hand(t)});
    PartedMore(At(last, Sharded(shard)), At(s, Sharded(shard)), At(s1, Sharded(shard)), top, if fits then [] else [top],
               spilled, dropped, c.shardCap);
  }

  lemma TopFirst(cache: seq<nat>, spilled: seq<nat>)
    requires cache != [] && |spilled| <= |cache| - 1 && Reverses(spilled, cache[..|cache| - 1][|cache| - 1 - |spilled|..])
    ensures var n := |cache| - 1 - |spilled|;
            Reverses([cache[|cache| - 1]] + spilled, cache[n..]) && cache[..n] == cache[..|cache| - 1][..n]
  {
    var n, front := |cache| - 1 - |spilled|, cache[..|cache| - 1];
    assert cache == front + [cache[|cache| - 1]];
    assert cache[n..] == front[n..] + [cache[|cache| - 1]];
  }

  lemma OnlyAtTwice(s: State, mid: State, last: State, a: set<Place>, b: set<Place>)
    requires OnlyAt(s, mid, a) && OnlyAt(mid, last, b) && a <= b
    ensures OnlyAt(s, last, b)
  {
  }

  /** A release into a full cache spills it down to one below its target and puts the batch on top. */
  lemma {:induction false} SpillAlone(c: Config, s: State, t: nat) returns (last: State, spilled: seq<nat>, dropped: seq<nat>)
    requires Inv(c, s) && t < c.threads && s.threads[t].Spill?
    ensures Alone(Allowed(c), StepOf(c), s, Continue(t), last)
    ensures Spillage(c, s, t, s.threads[t].shard, s.threads[t].batch, last, spilled, dropped)
    decreases |At(s, Cached(t))|
  {
    var shard, batch := s.threads[t].shard, s.threads[t].batch;
    var s1 := ContinueStep(c, s, t);
    AloneOne(Allowed(c), StepOf(c), s, Continue(t), s1);
    if |At(s, Cached(t))| >= c.target {
      SpillOne(c, s, t);
      SpillOk(c, s, t);
      var restSpilled, restDropped;
      last, restSpilled, restDropped := SpillAlone(c, s1, t);
      AloneTransitive(Allowed(c), StepOf(c), s, Continue(t), s1, last);
      assert ThreadOk(c, s, t);
      SpillageMore(c, s, t, shard, batch, s1, last, restSpilled, restDropped);
      var top := At(s, Cached(t))[|At(s, Cached(t))| - 1];
      spilled := [top] + restSpilled;
      dropped := (if |At(s, Sharded(shard))| < c.shardCap then [] else [top]) + restDropped;
    } else {
      SpillDone(c, s, t);
      last, spilled, dropped := s1, [], [];
    }
  }
}
