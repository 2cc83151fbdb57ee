/** The two-tier batch pool under any interleaving of threads: a cache per thread, shards behind mutexes, and
    batches in the hands of callers. A thread's own cache and one locked shard access make one step.
    `PoolStacks` has the arrays. */
module BatchPool {
  import opened Sequences

  datatype RunState = Idle | Acquired | InQueue | WaitingSync | Applied

  predicate ResetSafe(st: RunState) { st.Acquired? || st.Applied? }

  /** Where a batch can be. `Hand` is a call of the pool that is under way. */
  datatype Place = Cached(t: nat) | Sharded(i: nat) | Hand(t: nat) | Live | Dropped

  datatype Pc =
    | Resting
    | Refill(shard: nat)                 // about to take from the shard a batch to return
    | Hydrate(shard: nat, batch: nat)    // filling the cache from the shard
    | Spill(shard: nat, batch: nat)      // the released batch did not fit the cache

  datatype Config = Config(threads: nat, shards: nat, cacheCap: nat, target: nat, shardCap: nat)

  predicate ValidConfig(c: Config) {
    c.shards > 0 && 0 < c.target <= c.cacheCap && c.shardCap > 0
  }

  /** `held` lists what is in each place, `place` the place of each batch ever allocated. */
  datatype State = State(
    held: map<Place, seq<nat>>, place: seq<Place>, state: seq<RunState>,
    shardOf: seq<Option<nat>>, nextShard: nat, threads: seq<Pc>)

  datatype Action =
    | Acquire(t: nat)
    | Release(t: nat, k: nat)         // the k-th live batch
    | Use(k: nat, st: RunState)       // its holder and the pipeline set its state
    | Abandon(k: nat)                 // its holder drops it without releasing it, which frees it
    | Continue(t: nat)
    | Teardown(t: nat)                // the thread's cache is dropped

  function At(s: State, p: Place): seq<nat> { if p in s.held then s.held[p] else [] }

  predicate Enabled(c: Config, s: State, act: Action) {
    match act
    case Acquire(t) => t < c.threads && t < |s.threads| && s.threads[t].Resting?
    case Release(t, k) =>
      && t < c.threads && t < |s.threads| && s.threads[t].Resting?
      && k < |At(s, Live)| && At(s, Live)[k] < |s.state| && ResetSafe(s.state[At(s, Live)[k]])
    case Use(k, st) => k < |At(s, Live)| && !st.Idle?
    case Abandon(k) => k < |At(s, Live)|
    case Continue(t) => t < c.threads && t < |s.threads| && !s.threads[t].Resting?
    case Teardown(t) => t < c.threads && t < |s.threads| && s.threads[t].Resting?
  }

  // ---- Steps ----

  function Init(c: Config): State {
    State(map p: Place | p in AllPlaces(c.threads, c.shards) :: [], [], [],
          seq(c.threads, _ => None), 0, seq(c.threads, _ => Resting))
  }

  function AllPlaces(threads: nat, shards: nat): set<Place> {
    {Live, Dropped} + ThreadPlaces(threads) + ShardPlaces(shards)
  }

  function ThreadPlaces(n: nat): (s: set<Place>)
    ensures forall t: nat :: Cached(t) in s <==> t < n
    ensures forall t: nat :: Hand(t) in s <==> t < n
  {
    if n == 0 then {} else ThreadPlaces(n - 1) + {Cached(n - 1), Hand(n - 1)}
  }

  function ShardPlaces(n: nat): (s: set<Place>)
    ensures forall i: nat :: Sharded(i) in s <==> i < n
  {
    if n == 0 then {} else ShardPlaces(n - 1) + {Sharded(n - 1)}
  }

  /** Batch id leaves p, where rest stays, for q. */
  function Move(s: State, id: nat, p: Place, rest: seq<nat>, q: Place, st: RunState): State {
    if id < |s.place| && id < |s.state| then
      s.(held := s.held[p := rest][q := At(s, q) + [id]], place := s.place[id := q], state := s.state[id := st])
    else s
  }

  function Last(l: seq<nat>): nat
    requires l != []
  {
    l[|l| - 1]
  }

  /** Pops p's last batch and gives it to q. */
  function Pop(s: State, p: Place, q: Place, st: RunState): State
    requires At(s, p) != []
  {
    Move(s, Last(At(s, p)), p, At(s, p)[..|At(s, p)| - 1], q, st)
  }

  function StateOf(s: State, id: nat): RunState { if id < |s.state| then s.state[id] else Idle }

  function Go(s: State, t: nat, pc: Pc): State { if t < |s.threads| then s.(threads := s.threads[t := pc]) else s }

  /** `shard_idx_for_cache`. */
  function WithShard(c: Config, s: State, t: nat): (State, nat)
    requires c.shards > 0
  {
    if t < |s.shardOf| && s.shardOf[t].Some? then (s, s.shardOf[t].value)
    else
      var i := s.nextShard % c.shards;
      (s.(shardOf := if t < |s.shardOf| then s.shardOf[t := Some(i)] else s.shardOf, nextShard := s.nextShard + 1), i)
  }

  /** `acquire_object`. */
  function AcquireStep(c: Config, s: State, t: nat): State
    requires c.shards > 0
  {
    if At(s, Cached(t)) != [] then Pop(s, Cached(t), Live, Acquired)
    else
      var (s1, shard) := WithShard(c, s, t);
      Go(s1, t, Refill(shard))
  }

  /** The first half of `refill_tls_cache`: a batch to return, from the shard or new. */
  function RefillStep(s: State, t: nat, shard: nat): State {
    if At(s, Sharded(shard)) != [] then
      var id := Last(At(s, Sharded(shard)));
      Go(Pop(s, Sharded(shard), Hand(t), StateOf(s, id)), t, Hydrate(shard, id))
    else
      var id := |s.place|;
      Go(s.(held := s.held[Hand(t) := At(s, Hand(t)) + [id]], place := s.place + [Hand(t)], state := s.state + [Acquired]),
         t, Hydrate(shard, id))
  }

  /** Its second half: up to half a cache more, each pushed idle; then the batch is returned. */
  function HydrateStep(c: Config, s: State, t: nat, shard: nat, batch: nat): State {
    if |At(s, Cached(t))| < c.cacheCap / 2 && At(s, Sharded(shard)) != [] then
      Push(c, s, Sharded(shard), t)
    else Go(Move(s, batch, Hand(t), [], Live, Acquired), t, Resting)
  }

  /** A batch from the end of p pushed on the cache; `push` gives it back when there is no room, and
      `refill_tls_cache` would let it go. */
  function Push(c: Config, s: State, p: Place, t: nat): State
    requires At(s, p) != []
  {
    Pop(s, p, if |At(s, Cached(t))| == c.cacheCap then Dropped else Cached(t), Idle)
  }

  /** `release`: the batch is reset, and cached if there is room. */
  function ReleaseStep(c: Config, s: State, t: nat, k: nat): State
    requires c.shards > 0 && k < |At(s, Live)|
  {
    var live := At(s, Live);
    if |At(s, Cached(t))| < c.cacheCap then Move(s, live[k], Live, live[..k] + live[k + 1..], Cached(t), Idle)
    else
      var (s1, shard) := WithShard(c, s, t);
      Go(Move(s1, live[k], Live, live[..k] + live[k + 1..], Hand(t), Acquired), t, Spill(shard, live[k]))
  }

  /** One turn of `spill_cache_to_target_retained`, or the push of the released batch after it. */
  function SpillStep(c: Config, s: State, t: nat, shard: nat, batch: nat): State {
    if |At(s, Cached(t))| >= c.target && At(s, Cached(t)) != [] then
      Pop(s, Cached(t), if |At(s, Sharded(shard))| < c.shardCap then Sharded(shard) else Dropped, Idle)
    else
      Go(Move(s, batch, Hand(t), [], if |At(s, Cached(t))| < c.cacheCap then Cached(t) else Dropped, Idle), t, Resting)
  }

  function AbandonStep(s: State, k: nat): State
    requires k < |At(s, Live)|
  {
    var live := At(s, Live);
    Move(s, live[k], Live, live[..k] + live[k + 1..], Dropped, StateOf(s, live[k]))
  }

  function ContinueStep(c: Config, s: State, t: nat): State {
    if t < |s.threads| then
      match s.threads[t]
      case Resting => s
      case Refill(shard) => RefillStep(s, t, shard)
      case Hydrate(shard, batch) => HydrateStep(c, s, t, shard, batch)
      case Spill(shard, batch) => SpillStep(c, s, t, shard, batch)
    else s
  }

  /** `unref`: every cached batch is dropped. */
  function DropAll(s: State, t: nat): State
    decreases |At(s, Cached(t))|
  {
    if At(s, Cached(t)) == [] then s
    else
      var s' := Pop(s, Cached(t), Dropped, Idle);
      if |At(s', Cached(t))| < |At(s, Cached(t))| then DropAll(s', t) else s'
  }

  function Next(c: Config, s: State, act: Action): State
    requires ValidConfig(c) && Enabled(c, s, act)
  {
    match act
    case Acquire(t) => AcquireStep(c, s, t)
    case Release(t, k) => ReleaseStep(c, s, t, k)
    case Use(k, st) => if At(s, Live)[k] < |s.state| then s.(state := s.state[At(s, Live)[k] := st]) else s
    case Abandon(k) => AbandonStep(s, k)
    case Continue(t) => ContinueStep(c, s, t)
    case Teardown(t) => DropAll(s, t)
  }

  ghost predicate Execution(c: Config, states: seq<State>, acts: seq<Action>) {
    && ValidConfig(c)
    && |states| == |acts| + 1
    && states[0] == Init(c)
    && (forall i :: 0 <= i < |acts| ==> Enabled(c, states[i], acts[i]) && states[i + 1] == Next(c, states[i], acts[i]))
  }

  // ---- The invariant ----

  ghost predicate KeysOk(c: Config, s: State) {
    && s.held.Keys == AllPlaces(c.threads, c.shards)
    && |s.threads| == |s.shardOf| == c.threads
  }

  /** A list and the places agree. */
  ghost predicate ListOk(s: State, p: Place)
    requires p in s.held
  {
    Distinct(s.held[p]) && forall id :: id in s.held[p] ==> id < |s.place| && s.place[id] == p
  }

  ghost predicate PlacesOk(s: State) {
    && |s.place| == |s.state|
    && (forall p :: p in s.held ==> ListOk(s, p))
    && (forall id :: 0 <= id < |s.place| ==> s.place[id] in s.held && id in s.held[s.place[id]])
  }

  /** What is stored is idle, and no list is longer than its array. */
  ghost predicate StoredOk(c: Config, s: State) {
    && |s.place| == |s.state|
    && (forall id :: 0 <= id < |s.place| && (s.place[id].Cached? || s.place[id].Sharded?) ==> s.state[id].Idle?)
    && (forall id :: 0 <= id < |s.place| && s.place[id].Live? ==> !s.state[id].Idle?)
    && (forall p :: p in s.held && p.Cached? ==> |s.held[p]| <= c.cacheCap)
    && (forall p :: p in s.held && p.Sharded? ==> |s.held[p]| <= c.shardCap)
  }

  ghost predicate ThreadOk(c: Config, s: State, t: nat)
    requires t < |s.threads| == |s.shardOf|
  {
    var pc := s.threads[t];
    && At(s, Hand(t)) == (if pc.Hydrate? || pc.Spill? then [pc.batch] else [])
    && (!pc.Resting? ==> pc.shard < c.shards)
    && (s.shardOf[t].Some? ==> s.shardOf[t].value < c.shards)
  }

  ghost predicate Inv(c: Config, s: State) {
    && ValidConfig(c) && KeysOk(c, s) && PlacesOk(s) && StoredOk(c, s)
    && (forall t: nat :: t < c.threads ==> ThreadOk(c, s, t))
  }

  lemma InitInv(c: Config)
    requires ValidConfig(c)
    ensures Inv(c, Init(c))
  {
  }

  /** A move keeps the books. */
  lemma MovePlacesOk(s: State, id: nat, p: Place, rest: seq<nat>, q: Place, st: RunState)
    requires PlacesOk(s) && p in s.held && q in s.held && p != q && id in s.held[p]
    requires Distinct(rest) && forall x :: x in rest <==> x in s.held[p] && x != id
    ensures PlacesOk(Move(s, id, p, rest, q, st))
  {
    var s' := Move(s, id, p, rest, q, st);
    assert ListOk(s, p) && ListOk(s, q);
    forall r | r in s'.held ensures ListOk(s', r) { assert ListOk(s, r); }
  }

  lemma PoppedRest(l: seq<nat>)
    requires Distinct(l) && l != []
    ensures Distinct(l[..|l| - 1]) && Last(l) in l
    ensures forall x :: x in l[..|l| - 1] <==> x in l && x != Last(l)
  {
    assert l == l[..|l| - 1] + [Last(l)];
  }

  lemma RemovedRest(l: seq<nat>, k: nat)
    requires Distinct(l) && k < |l|
    ensures Distinct(l[..k] + l[k + 1..])
    ensures forall x :: x in l[..k] + l[k + 1..] <==> x in l && x != l[k]
  {
    var rest := l[..k] + l[k + 1..];
    forall i, j | 0 <= i < j < |rest| ensures rest[i] != rest[j] {
      assert l[if i < k then i else i + 1] != l[if j < k then j else j + 1];
    }
    forall x | x in rest ensures x in l && x != l[k] {
      var i :| 0 <= i < |rest| && rest[i] == x;
      assert l[if i < k then i else i + 1] == x;
    }
    forall x | x in l && x != l[k] ensures x in rest {
      var i :| 0 <= i < |l| && l[i] == x;
      assert rest[if i < k then i else i - 1] == x;
    }
  }

  lemma MoveStoredOk(c: Config, s: State, id: nat, p: Place, rest: seq<nat>, q: Place, st: RunState)
    requires StoredOk(c, s) && p in s.held && q in s.held && p != q && |rest| <= |s.held[p]|
    requires q.Cached? ==> |s.held[q]| < c.cacheCap && st.Idle?
    requires q.Sharded? ==> |s.held[q]| < c.shardCap && st.Idle?
    requires q.Live? ==> !st.Idle?
    ensures StoredOk(c, Move(s, id, p, rest, q, st))
  {
    if id < |s.place| {
      var s' := Move(s, id, p, rest, q, st);
      assert forall r :: r in s'.held ==> r in s.held;
      assert |s'.held[q]| == |s.held[q]| + 1;
    }
  }

  /** A move into a place with room keeps the rest of the invariant, for every thread whose hand is not p or q. */
  lemma MoveOk(c: Config, s: State, id: nat, p: Place, rest: seq<nat>, q: Place, st: RunState)
    requires Inv(c, s) && p in s.held && q in s.held && p != q && id in s.held[p]
    requires Distinct(rest) && (forall x :: x in rest <==> x in s.held[p] && x != id) && |rest| <= |s.held[p]|
    requires q.Cached? ==> |s.held[q]| < c.cacheCap && st.Idle?
    requires q.Sharded? ==> |s.held[q]| < c.shardCap && st.Idle?
    requires q.Live? ==> !st.Idle?
    ensures var s' := Move(s, id, p, rest, q, st);
            && KeysOk(c, s') && PlacesOk(s') && StoredOk(c, s')
            && (forall t: nat :: t < c.threads && p != Hand(t) && q != Hand(t) ==> ThreadOk(c, s', t))
  {
    var s' := Move(s, id, p, rest, q, st);
    MovePlacesOk(s, id, p, rest, q, st);
    MoveStoredOk(c, s, id, p, rest, q, st);
    assert s'.held.Keys == s.held.Keys;
    forall t: nat | t < c.threads && p != Hand(t) && q != Hand(t) ensures ThreadOk(c, s', t) {
      assert ThreadOk(c, s, t);
    }
  }

  lemma PopOk(c: Config, s: State, p: Place, q: Place, st: RunState)
    requires Inv(c, s) && p in s.held && q in s.held && p != q && s.held[p] != [] && !p.Hand?
    requires q.Cached? ==> |s.held[q]| < c.cacheCap && st.Idle?
    requires q.Sharded? ==> |s.held[q]| < c.shardCap && st.Idle?
    requires q.Live? ==> !st.Idle?
    ensures var s' := Pop(s, p, q, st);
            && KeysOk(c, s') && PlacesOk(s') && StoredOk(c, s')
            && (forall t: nat :: t < c.threads && q != Hand(t) ==> ThreadOk(c, s', t))
  {
    assert ListOk(s, p);
    PoppedRest(s.held[p]);
    MoveOk(c, s, Last(s.held[p]), p, s.held[p][..|s.held[p]| - 1], q, st);
  }

  lemma WithShardOk(c: Config, s: State, t: nat)
    requires Inv(c, s) && t < c.threads
    ensures var (s1, shard) := WithShard(c, s, t);
            Inv(c, s1) && shard < c.shards && s1.held == s.held && s1.threads == s.threads
            && s1.place == s.place && s1.state == s.state
  {
    assert ThreadOk(c, s, t);
    var (s1, _) := WithShard(c, s, t);
    forall p | p in s1.held ensures ListOk(s1, p) { assert ListOk(s, p); }
    forall u: nat | u < c.threads ensures ThreadOk(c, s1, u) { assert ThreadOk(c, s, u); }
  }

  /** A thread that moves on, when the hands are as its new place in the program wants. */
  lemma GoOk(c: Config, s: State, t: nat, pc: Pc)
    requires ValidConfig(c) && KeysOk(c, s) && PlacesOk(s) && StoredOk(c, s) && t < c.threads
    requires forall u: nat :: u < c.threads && u != t ==> ThreadOk(c, s, u)
    requires ThreadOk(c, Go(s, t, pc), t)
    ensures Inv(c, Go(s, t, pc))
  {
    var s' := Go(s, t, pc);
    forall p | p in s'.held ensures ListOk(s', p) { assert ListOk(s, p); }
    forall u: nat | u < c.threads && u != t ensures ThreadOk(c, s', u) { assert ThreadOk(c, s, u); }
  }

  lemma AcquireOk(c: Config, s: State, t: nat)
    requires Inv(c, s) && Enabled(c, s, Acquire(t))
    ensures Inv(c, AcquireStep(c, s, t))
  {
    assert ThreadOk(c, s, t);
    if At(s, Cached(t)) != [] {
      PopOk(c, s, Cached(t), Live, Acquired);
    } else {
      WithShardOk(c, s, t);
      var (s1, shard) := WithShard(c, s, t);
      assert ThreadOk(c, s1, t);
      GoOk(c, s1, t, Refill(shard));
    }
  }

  lemma MadePlacesOk(s: State, t: nat, st: RunState)
    requires PlacesOk(s) && Hand(t) in s.held
    ensures var id := |s.place|;
            PlacesOk(s.(held := s.held[Hand(t) := At(s, Hand(t)) + [id]], place := s.place + [Hand(t)], state := s.state + [st]))
  {
    var id := |s.place|;
    var s' := s.(held := s.held[Hand(t) := At(s, Hand(t)) + [id]], place := s.place + [Hand(t)], state := s.state + [st]);
    forall p | p in s'.held ensures ListOk(s', p) {
      assert ListOk(s, p);
      assert s'.held[p] == if p == Hand(t) then s.held[p] + [id] else s.held[p];
      assert id !in s.held[p];
    }
  }

  lemma RefillOk(c: Config, s: State, t: nat)
    requires Inv(c, s) && t < c.threads && s.threads[t].Refill?
    ensures Inv(c, ContinueStep(c, s, t))
  {
    assert ThreadOk(c, s, t);
    var shard := s.threads[t].shard;
    if At(s, Sharded(shard)) != [] {
      var id := Last(At(s, Sharded(shard)));
      PopOk(c, s, Sharded(shard), Hand(t), StateOf(s, id));
      assert ListOk(s, Sharded(shard)) && id in s.held[Sharded(shard)];
      GoOk(c, Pop(s, Sharded(shard), Hand(t), StateOf(s, id)), t, Hydrate(shard, id));
    } else {
      NewBatchOk(c, s, t, shard);
    }
  }

  lemma NewBatchOk(c: Config, s: State, t: nat, shard: nat)
    requires Inv(c, s) && t < c.threads && s.threads[t] == Refill(shard) && At(s, Sharded(shard)) == []
    ensures Inv(c, RefillStep(s, t, shard))
  {
    assert ThreadOk(c, s, t);
    var id := |s.place|;
    MadePlacesOk(s, t, Acquired);
    var s1 := s.(held := s.held[Hand(t) := At(s, Hand(t)) + [id]], place := s.place + [Hand(t)], state := s.state + [Acquired]);
    assert s1.held.Keys == s.held.Keys;
    forall u: nat | u < c.threads && u != t ensures ThreadOk(c, s1, u) { assert ThreadOk(c, s, u); }
    GoOk(c, s1, t, Hydrate(shard, id));
  }

  lemma HydrateOk(c: Config, s: State, t: nat)
    requires Inv(c, s) && t < c.threads && s.threads[t].Hydrate?
    ensures Inv(c, ContinueStep(c, s, t))
  {
    assert ThreadOk(c, s, t);
    var pc := s.threads[t];
    if |At(s, Cached(t))| < c.cacheCap / 2 && At(s, Sharded(pc.shard)) != [] {
      PopOk(c, s, Sharded(pc.shard), Cached(t), Idle);
    } else {
      FromHandOk(c, s, t, Live, Acquired);
    }
  }

  lemma HandEmptied(c: Config, s: State, t: nat, batch: nat, q: Place, st: RunState)
    requires Inv(c, s) && t < c.threads && At(s, Hand(t)) == [batch]
    requires q in s.held && !q.Hand? && !q.Sharded?
    requires q.Cached? ==> |s.held[q]| < c.cacheCap && st.Idle?
    requires q.Live? ==> !st.Idle?
    ensures var s' := Move(s, batch, Hand(t), [], q, st);
            && KeysOk(c, s') && PlacesOk(s') && StoredOk(c, s') && At(s', Hand(t)) == []
            && s'.threads == s.threads && s'.shardOf == s.shardOf
            && (forall u: nat :: u < c.threads && u != t ==> ThreadOk(c, s', u))
  {
    assert ListOk(s, Hand(t)) && batch in s.held[Hand(t)];
    MoveOk(c, s, batch, Hand(t), [], q, st);
  }

  /** The batch in a thread's hand goes where it belongs, and the call is over. */
  lemma FromHandOk(c: Config, s: State, t: nat, q: Place, st: RunState)
    requires Inv(c, s) && t < c.threads && (s.threads[t].Hydrate? || s.threads[t].Spill?)
    requires q in s.held && !q.Hand? && !q.Sharded?
    requires q.Cached? ==> |s.held[q]| < c.cacheCap && st.Idle?
    requires q.Live? ==> !st.Idle?
    ensures Inv(c, Go(Move(s, s.threads[t].batch, Hand(t), [], q, st), t, Resting))
  {
    assert ThreadOk(c, s, t);
    HandEmptied(c, s, t, s.threads[t].batch, q, st);
    GoOk(c, Move(s, s.threads[t].batch, Hand(t), [], q, st), t, Resting);
  }

  /** The k-th live batch goes elsewhere. */
  lemma FromLiveOk(c: Config, s: State, k: nat, q: Place, st: RunState)
    requires Inv(c, s) && k < |At(s, Live)| && q in s.held && !q.Live? && !q.Sharded?
    requires q.Cached? ==> |s.held[q]| < c.cacheCap && st.Idle?
    ensures var live := At(s, Live);
            var s' := Move(s, live[k], Live, live[..k] + live[k + 1..], q, st);
            && KeysOk(c, s') && PlacesOk(s') && StoredOk(c, s')
            && (forall t: nat :: t < c.threads && q != Hand(t) ==> ThreadOk(c, s', t))
  {
    assert ListOk(s, Live);
    RemovedRest(At(s, Live), k);
    MoveOk(c, s, At(s, Live)[k], Live, At(s, Live)[..k] + At(s, Live)[k + 1..], q, st);
  }

  lemma ReleaseToHandOk(c: Config, s: State, t: nat, k: nat, shard: nat)
    requires Inv(c, s) && t < c.threads && s.threads[t].Resting? && k < |At(s, Live)| && shard < c.shards
    ensures var live := At(s, Live);
            Inv(c, Go(Move(s, live[k], Live, live[..k] + live[k + 1..], Hand(t), Acquired), t, Spill(shard, live[k])))
  {
    var live := At(s, Live);
    assert ThreadOk(c, s, t);
    assert ListOk(s, Live) && live[k] in live;
    FromLiveOk(c, s, k, Hand(t), Acquired);
    GoOk(c, Move(s, live[k], Live, live[..k] + live[k + 1..], Hand(t), Acquired), t, Spill(shard, live[k]));
  }

  lemma ReleaseOk(c: Config, s: State, t: nat, k: nat)
    requires Inv(c, s) && Enabled(c, s, Release(t, k))
    ensures Inv(c, ReleaseStep(c, s, t, k))
  {
    if |At(s, Cached(t))| < c.cacheCap {
      FromLiveOk(c, s, k, Cached(t), Idle);
    } else {
      WithShardOk(c, s, t);
      var (s1, shard) := WithShard(c, s, t);
      ReleaseToHandOk(c, s1, t, k, shard);
    }
  }

  lemma AbandonOk(c: Config, s: State, k: nat)
    requires Inv(c, s) && Enabled(c, s, Abandon(k))
    ensures Inv(c, AbandonStep(s, k))
  {
    FromLiveOk(c, s, k, Dropped, StateOf(s, At(s, Live)[k]));
  }

  lemma SpillOk(c: Config, s: State, t: nat)
    requires Inv(c, s) && t < c.threads && s.threads[t].Spill?
    ensures Inv(c, ContinueStep(c, s, t))
  {
    assert ThreadOk(c, s, t);
    var pc := s.threads[t];
    if |At(s, Cached(t))| >= c.target {
      PopOk(c, s, Cached(t), if |At(s, Sharded(pc.shard))| < c.shardCap then Sharded(pc.shard) else Dropped, Idle);
    } else {
      FromHandOk(c, s, t, Cached(t), Idle);
    }
  }

  lemma {:induction false} DropAllOk(c: Config, s: State, t: nat)
    requires Inv(c, s) && t < c.threads
    ensures Inv(c, DropAll(s, t)) && At(DropAll(s, t), Cached(t)) == []
    decreases |At(s, Cached(t))|
  {
    if At(s, Cached(t)) != [] {
      PopOk(c, s, Cached(t), Dropped, Idle);
      assert ListOk(s, Cached(t)) && Last(s.held[Cached(t)]) in s.held[Cached(t)];
      DropAllOk(c, Pop(s, Cached(t), Dropped, Idle), t);
    }
  }

  lemma UseOk(c: Config, s: State, k: nat, st: RunState)
    requires Inv(c, s) && Enabled(c, s, Use(k, st))
    ensures Inv(c, Next(c, s, Use(k, st)))
  {
    var s' := Next(c, s, Use(k, st));
    assert ListOk(s, Live);
    forall p | p in s'.held ensures ListOk(s', p) { assert ListOk(s, p); }
    forall u: nat | u < c.threads ensures ThreadOk(c, s', u) { assert ThreadOk(c, s, u); }
  }

  lemma NextKeepsInv(c: Config, s: State, act: Action)
    requires Inv(c, s) && Enabled(c, s, act)
    ensures Inv(c, Next(c, s, act))
  {
    match act
    case Acquire(t) => AcquireOk(c, s, t);
    case Release(t, k) => ReleaseOk(c, s, t, k);
    case Use(k, st) => UseOk(c, s, k, st);
    case Abandon(k) => AbandonOk(c, s, k);
    case Teardown(t) => DropAllOk(c, s, t);
    case Continue(t) =>
      if s.threads[t].Refill? { RefillOk(c, s, t); }
      else if s.threads[t].Hydrate? { HydrateOk(c, s, t); }
      else { SpillOk(c, s, t); }
  }

  lemma {:induction false} ReachableInv(c: Config, states: seq<State>, acts: seq<Action>, i: nat)
    requires Execution(c, states, acts) && i < |states|
    ensures Inv(c, states[i])
  {
    if i == 0 {
      InitInv(c);
    } else {
      ReachableInv(c, states, acts, i - 1);
      NextKeepsInv(c, states[i - 1], acts[i - 1]);
    }
  }

  // ---- What the runs promise ----

  /** Through any run each batch ever allocated is in exactly one place, once: with a caller, in one thread's
      cache, in one shard, in the hand of one call, or dropped. */
  lemma Conserved(c: Config, states: seq<State>, acts: seq<Action>, i: nat, id: nat)
    requires Execution(c, states, acts) && i < |states| && id < |states[i].place|
    ensures var s := states[i];
            && (exists p :: p in s.held && id in s.held[p])
            && (forall p, q :: p in s.held && q in s.held && id in s.held[p] && id in s.held[q] ==> p == q)
            && (forall p, j, k :: p in s.held && 0 <= j < k < |s.held[p]| ==> s.held[p][j] != s.held[p][k])
  {
    ReachableInv(c, states, acts, i);
    var s := states[i];
    forall p | p in s.held ensures ListOk(s, p) {}
    assert id in s.held[s.place[id]];
  }

  /** What caches and shards store is idle and within their arrays; batches outside are not idle. */
  lemma StoredIdle(c: Config, states: seq<State>, acts: seq<Action>, i: nat, p: Place)
    requires Execution(c, states, acts) && i < |states| && p in states[i].held
    ensures var s := states[i];
            && (p.Cached? ==> |s.held[p]| <= c.cacheCap) && (p.Sharded? ==> |s.held[p]| <= c.shardCap)
            && (forall id :: id in s.held[p] && (p.Cached? || p.Sharded?) ==> id < |s.state| && s.state[id].Idle?)
            && (forall id :: id in s.held[p] && p.Live? ==> id < |s.state| && !s.state[id].Idle?)
  {
    ReachableInv(c, states, acts, i);
    assert ListOk(states[i], p);
  }

  /** Whatever becomes live between s and s' is acquired. */
  ghost predicate HandsOutAcquired(s: State, s': State) {
    |s.place| == |s.state| && |s'.place| == |s'.state| &&
    forall id :: 0 <= id < |s'.place| && s'.place[id].Live? && !(id < |s.place| && s.place[id].Live?) ==> s'.state[id].Acquired?
  }

  lemma MoveHandsOut(s: State, id: nat, p: Place, rest: seq<nat>, q: Place, st: RunState)
    requires |s.place| == |s.state| && (q.Live? ==> st.Acquired?)
    ensures HandsOutAcquired(s, Move(s, id, p, rest, q, st))
  {
  }

  lemma HydrateHandsOut(c: Config, s: State, t: nat, shard: nat, batch: nat)
    requires |s.place| == |s.state|
    ensures HandsOutAcquired(s, HydrateStep(c, s, t, shard, batch))
  {
    MoveHandsOut(s, batch, Hand(t), [], Live, Acquired);
  }

  lemma SpillHandsOut(c: Config, s: State, t: nat, shard: nat, batch: nat)
    requires |s.place| == |s.state|
    ensures HandsOutAcquired(s, SpillStep(c, s, t, shard, batch))
  {
  }

  lemma RefillHandsOut(s: State, t: nat, shard: nat)
    requires |s.place| == |s.state|
    ensures HandsOutAcquired(s, RefillStep(s, t, shard))
  {
  }

  lemma ContinueHandsOut(c: Config, s: State, t: nat)
    requires |s.place| == |s.state| && t < |s.threads|
    ensures HandsOutAcquired(s, ContinueStep(c, s, t))
  {
    match s.threads[t]
    case Resting =>
    case Refill(shard) => RefillHandsOut(s, t, shard);
    case Hydrate(shard, batch) => HydrateHandsOut(c, s, t, shard, batch);
    case Spill(shard, batch) => SpillHandsOut(c, s, t, shard, batch);
  }

  lemma ReleaseHandsOut(c: Config, s: State, t: nat, k: nat)
    requires Inv(c, s) && Enabled(c, s, Release(t, k))
    ensures HandsOutAcquired(s, ReleaseStep(c, s, t, k))
  {
    WithShardOk(c, s, t);
  }

  lemma AcquireHandsOut(c: Config, s: State, t: nat)
    requires Inv(c, s) && Enabled(c, s, Acquire(t))
    ensures HandsOutAcquired(s, AcquireStep(c, s, t))
  {
    WithShardOk(c, s, t);
  }

  lemma TeardownHandsOut(s: State, t: nat)
    requires |s.place| == |s.state|
    ensures HandsOutAcquired(s, DropAll(s, t))
  {
    forall id: nat | id < |s.place|
      ensures |DropAll(s, t).place| == |s.place| == |DropAll(s, t).state|
      ensures DropAll(s, t).place[id] == s.place[id] || DropAll(s, t).place[id].Dropped?
    {
      DropAllPlaces(s, t, id);
    }
    DropAllPlaces(s, t, |s.place|);
  }

  /** A batch that a caller gets is acquired. */
  lemma HandedOutAcquired(c: Config, s: State, act: Action)
    requires Inv(c, s) && Enabled(c, s, act)
    ensures HandsOutAcquired(s, Next(c, s, act))
  {
    match act
    case Acquire(t) => AcquireHandsOut(c, s, t);
    case Release(t, k) => ReleaseHandsOut(c, s, t, k);
    case Use(k, st) =>
    case Abandon(k) =>
    case Teardown(t) => TeardownHandsOut(s, t);
    case Continue(t) => ContinueHandsOut(c, s, t);
  }

  lemma {:induction false} DropAllPlaces(s: State, t: nat, id: nat)
    ensures |DropAll(s, t).place| == |s.place| && |DropAll(s, t).state| == |s.state|
    ensures id < |s.place| ==> DropAll(s, t).place[id] == s.place[id] || DropAll(s, t).place[id].Dropped?
    decreases |At(s, Cached(t))|
  {
    if At(s, Cached(t)) != [] {
      var s' := Pop(s, Cached(t), Dropped, Idle);
      if |At(s', Cached(t))| < |At(s, Cached(t))| { DropAllPlaces(s', t, id); }
    }
  }

  /** A batch is let go only when its holder drops it, when a thread's cache is torn down or when a cache spills
      into a full shard: neither filling the cache nor pushing the released batch after the spill ever lets one
      go. */
  lemma DroppedOnlyBySpillOrTeardown(c: Config, s: State, act: Action)
    requires Inv(c, s) && Enabled(c, s, act) && At(Next(c, s, act), Dropped) != At(s, Dropped)
    ensures || act.Abandon? || act.Teardown?
            || (act.Continue? && s.threads[act.t].Spill? && |At(s, Cached(act.t))| >= c.target &&
                |At(s, Sharded(s.threads[act.t].shard))| == c.shardCap)
  {
    if act.Continue? { ContinueDrops(c, s, act.t); }
    if act.Release? || act.Acquire? { WithShardOk(c, s, act.t); }
  }

  lemma ContinueDrops(c: Config, s: State, t: nat)
    requires Inv(c, s) && t < c.threads && !s.threads[t].Resting?
    requires At(ContinueStep(c, s, t), Dropped) != At(s, Dropped)
    ensures s.threads[t].Spill? && |At(s, Cached(t))| >= c.target && |At(s, Sharded(s.threads[t].shard))| == c.shardCap
  {
    assert ThreadOk(c, s, t);
  }

  ghost predicate StaysDropped(s: State, s': State) {
    && |s.place| <= |s'.place|
    && forall id :: 0 <= id < |s.place| && s.place[id].Dropped? ==> s'.place[id].Dropped?
  }

  lemma PopStaysDropped(s: State, p: Place, q: Place, st: RunState)
    requires PlacesOk(s) && p in s.held && !p.Dropped? && s.held[p] != []
    ensures StaysDropped(s, Pop(s, p, q, st))
  {
    assert ListOk(s, p);
    PoppedRest(s.held[p]);
  }

  lemma HandStaysDropped(s: State, t: nat, batch: nat, q: Place, st: RunState)
    requires PlacesOk(s) && Hand(t) in s.held && batch in s.held[Hand(t)]
    ensures StaysDropped(s, Go(Move(s, batch, Hand(t), [], q, st), t, Resting))
  {
    assert ListOk(s, Hand(t));
  }

  lemma RefillStaysDropped(c: Config, s: State, t: nat)
    requires Inv(c, s) && t < c.threads && s.threads[t].Refill?
    ensures StaysDropped(s, ContinueStep(c, s, t))
  {
    assert ThreadOk(c, s, t);
    var p := Sharded(s.threads[t].shard);
    if At(s, p) != [] { PopStaysDropped(s, p, Hand(t), StateOf(s, Last(At(s, p)))); }
  }

  lemma HydrateStaysDropped(c: Config, s: State, t: nat)
    requires Inv(c, s) && t < c.threads && s.threads[t].Hydrate?
    ensures StaysDropped(s, ContinueStep(c, s, t))
  {
    assert ThreadOk(c, s, t);
    var p := Sharded(s.threads[t].shard);
    if At(s, p) != [] { PopStaysDropped(s, p, Cached(t), Idle); }
    HandStaysDropped(s, t, s.threads[t].batch, Live, Acquired);
  }

  lemma SpillStaysDropped(c: Config, s: State, t: nat)
    requires Inv(c, s) && t < c.threads && s.threads[t].Spill?
    ensures StaysDropped(s, ContinueStep(c, s, t))
  {
    assert ThreadOk(c, s, t);
    var pc := s.threads[t];
    if At(s, Cached(t)) != [] {
      PopStaysDropped(s, Cached(t), if |At(s, Sharded(pc.shard))| < c.shardCap then Sharded(pc.shard) else Dropped, Idle);
    }
    HandStaysDropped(s, t, pc.batch, if |At(s, Cached(t))| < c.cacheCap then Cached(t) else Dropped, Idle);
  }

  lemma NextStaysDropped(c: Config, s: State, act: Action)
    requires Inv(c, s) && Enabled(c, s, act)
    ensures StaysDropped(s, Next(c, s, act))
  {
    match act
    case Acquire(t) =>
      if At(s, Cached(t)) != [] { PopStaysDropped(s, Cached(t), Live, Acquired); } else { WithShardOk(c, s, t); }
    case Release(t, k) =>
      assert ListOk(s, Live) && At(s, Live)[k] in s.held[Live];
      WithShardOk(c, s, t);
    case Use(k, st) =>
    case Abandon(k) =>
    case Teardown(t) =>
      forall id: nat | id < |s.place| ensures id < |DropAll(s, t).place|
        ensures DropAll(s, t).place[id] == s.place[id] || DropAll(s, t).place[id].Dropped?
      {
        DropAllPlaces(s, t, id);
      }
      DropAllPlaces(s, t, |s.place|);
    case Continue(t) =>
      if s.threads[t].Refill? { RefillStaysDropped(c, s, t); }
      else if s.threads[t].Hydrate? { HydrateStaysDropped(c, s, t); }
      else { SpillStaysDropped(c, s, t); }
  }

  lemma {:induction false} DroppedStays(c: Config, states: seq<State>, acts: seq<Action>, i: nat, j: nat, id: nat)
    requires Execution(c, states, acts) && i <= j < |states|
    requires id < |states[i].place| && states[i].place[id].Dropped?
    ensures id < |states[j].place| && states[j].place[id].Dropped?
    decreases j
  {
    if i < j {
      DroppedStays(c, states, acts, i, j - 1, id);
      ReachableInv(c, states, acts, j - 1);
      NextStaysDropped(c, states[j - 1], acts[j - 1]);
    }
  }

  lemma InOnePlace(c: Config, s: State, id: nat)
    requires Inv(c, s) && id < |s.place|
    ensures forall p :: p in s.held && id in s.held[p] ==> p == s.place[id]
  {
    forall p | p in s.held ensures ListOk(s, p) {}
  }

  /** A batch that was let go is never in a cache, a shard or a caller's hands again. */
  lemma DroppedForGood(c: Config, states: seq<State>, acts: seq<Action>, i: nat, j: nat, id: nat)
    requires Execution(c, states, acts) && i <= j < |states|
    requires id < |states[i].place| && states[i].place[id].Dropped?
    ensures forall p :: p in states[j].held && id in states[j].held[p] ==> p == Dropped
  {
    DroppedStays(c, states, acts, i, j, id);
    ReachableInv(c, states, acts, j);
    InOnePlace(c, states[j], id);
  }

  /** Once the spill is over there is room for the released batch, which goes on top of the cache. */
  lemma SpillMakesRoom(c: Config, s: State, t: nat)
    requires Inv(c, s) && t < c.threads && s.threads[t].Spill? && |At(s, Cached(t))| < c.target
    ensures At(ContinueStep(c, s, t), Cached(t)) == At(s, Cached(t)) + [s.threads[t].batch]
    ensures ContinueStep(c, s, t).threads[t].Resting?
  {
    assert ThreadOk(c, s, t) && ListOk(s, Hand(t)) && s.threads[t].batch in s.held[Hand(t)];
  }
}
