/** The free list of hazard records, shared by any number of threads: records are made and published on one
    list, taken from the free list in runs under a lock bit in its head, and pushed back by compare-and-swap.
    Each shared access is one step. A thread that holds several arrays counts as several threads. */
module HazardDomain {
  import opened Sequences

  const NULL: int := -1
  const NOBODY: int := -1
  /** A pointer loaded with the lock bit in it, which is no record's address. */
  const TAGGED: int := -2

  datatype Rec = Rec(next: int, avail: int)

  datatype Pc =
    | Idle
    | LoadAvail(n: nat)                                            // about to load the free list's head
    | LockAvail(n: nat, seen: int)                                 // about to set the lock bit
    | WalkFirst(n: nat, stolen: int)                               // has the lock, about to load the first link
    | Walk(n: nat, stolen: int, tail: int, k: nat, next: int, run: seq<nat>) // the k records so far, the loop's head
    | NullTail(n: nat, stolen: int, tail: int, taken: seq<nat>)    // about to cut the run off
    | Fill(n: nat, head: int, tail: int, got: seq<nat>, rest: seq<nat>) // filling the array
    | Make(n: nat, tail: int, got: seq<nat>, rec: nat, seen: int)  // about to publish a new record
    | LinkTail(n: nat, tail: int, got: seq<nat>, rec: nat)         // about to chain it to the array
    | Holding(n: nat, got: seq<nat>)                                // has its array of n
    | PushLoad(got: seq<nat>)                                      // about to load the free list's head
    | PushStore(got: seq<nat>, seen: int)                          // about to store the last record's link
    | PushSwing(got: seq<nat>, seen: int)                          // about to compare-and-swap the head

  /** The lock bit, with the thread that set it. */
  datatype Lock = Free | HeldBy(t: nat)

  /** `published`, `free` and `owner` are history: the records on the first list, those on the free list, and
      for each record the thread that has it. */
  datatype State = State(
    recs: seq<Rec>, head: int, availHead: int, lock: Lock, threads: seq<Pc>,
    published: seq<nat>, free: seq<nat>, owner: seq<int>)

  datatype Action =
    | Acquire(t: nat, n: nat)
    | Release(t: nat)
    | Continue(t: nat, spurious: bool) // a weak compare-and-swap may fail for no reason

  function Init(threadCount: nat): State {
    State([], NULL, NULL, Free, seq(threadCount, _ => Idle), [], [], [])
  }

  function Avail(recs: seq<Rec>, p: int): int { if 0 <= p < |recs| then recs[p].avail else NULL }

  function SetAvail(recs: seq<Rec>, p: int, q: int): seq<Rec> {
    if 0 <= p < |recs| then recs[p := recs[p].(avail := q)] else recs
  }

  function SetNext(recs: seq<Rec>, p: int, q: int): seq<Rec> {
    if 0 <= p < |recs| then recs[p := recs[p].(next := q)] else recs
  }

  function SetOwner(owner: seq<int>, ids: seq<nat>, t: int): (r: seq<int>)
    ensures |r| == |owner|
    ensures forall id :: 0 <= id < |owner| ==> r[id] == if id in ids then t else owner[id]
  {
    if ids == [] then owner
    else
      var before := SetOwner(owner, ids[..|ids| - 1], t);
      var last := ids[|ids| - 1];
      assert ids == ids[..|ids| - 1] + [last];
      if last < |owner| then before[last := t] else before
  }

  function Last(s: seq<nat>): int { if s == [] then NULL else s[|s| - 1] }
  function First(s: seq<nat>): int { if s == [] then NULL else s[0] }

  /** The records walked over, with p. */
  function AddRun(run: seq<nat>, p: int): seq<nat> { if p >= 0 then run + [p] else run }

  function Set(s: State, t: nat, pc: Pc): State
    requires t < |s.threads|
  {
    s.(threads := s.threads[t := pc])
  }

  predicate Enabled(s: State, act: Action) {
    match act
    case Acquire(t, n) => t < |s.threads| && s.threads[t].Idle? && n >= 1
    case Release(t) => t < |s.threads| && s.threads[t].Holding?
    case Continue(t, spurious) =>
      && t < |s.threads| && !s.threads[t].Idle? && !s.threads[t].Holding?
      && (spurious ==> s.threads[t].Make?)
  }

  // ---- The steps ----

  /** `try_acquire_available`: the head is loaded first, the bit set after that, and the head that was
      loaded is the one the walk starts from. */
  function LockStep(s: State, t: nat, n: nat, seen: int): State
    requires t < |s.threads|
  {
    if s.lock.Free? then Set(s.(lock := HeldBy(t)), t, WalkFirst(n, seen)) else Set(s, t, LoadAvail(n))
  }

  /** `try_acquire_available_locked`: one turn of the walk, or the store of the rest that ends it. */
  function WalkStep(s: State, t: nat, pc: Pc): State
    requires t < |s.threads| && pc.Walk?
  {
    if pc.next != NULL && pc.k < pc.n then
      Set(s, t, Walk(pc.n, pc.stolen, pc.next, pc.k + 1, Avail(s.recs, pc.next), AddRun(pc.run, pc.next)))
    else
      var k := if pc.k <= |s.free| then pc.k else |s.free|;
      var s' := s.(availHead := pc.next, lock := Free, free := s.free[k..], owner := SetOwner(s.owner, pc.run, t));
      Set(s', t, NullTail(pc.n, pc.stolen, pc.tail, pc.run))
  }

  /** `acquire_many`: the next of the run, or a new record. */
  function FillStep(s: State, t: nat, pc: Pc): State
    requires t < |s.threads| && pc.Fill?
  {
    if |pc.got| >= pc.n then Set(s, t, Holding(pc.n, pc.got))
    else if pc.head >= 0 then
      Set(s, t, Fill(pc.n, Avail(s.recs, pc.head), pc.head, pc.got + [pc.head], if pc.rest == [] then [] else pc.rest[1..]))
    else
      var s' := s.(recs := s.recs + [Rec(NULL, NULL)], owner := s.owner + [t]);
      Set(s', t, Make(pc.n, pc.tail, pc.got, |s.recs|, s.head))
  }

  /** `acquire_new_rec`. */
  function MakeStep(s: State, t: nat, pc: Pc, spurious: bool): State
    requires t < |s.threads| && pc.Make?
  {
    var recs := SetNext(s.recs, pc.rec, pc.seen);
    if s.head == pc.seen && !spurious then
      Set(s.(recs := recs, head := pc.rec, published := [pc.rec] + s.published), t, LinkTail(pc.n, pc.tail, pc.got, pc.rec))
    else Set(s.(recs := recs), t, Make(pc.n, pc.tail, pc.got, pc.rec, s.head))
  }

  /** `push_available`. */
  function SwingStep(s: State, t: nat, pc: Pc): State
    requires t < |s.threads| && pc.PushSwing?
  {
    if s.lock.Free? && s.availHead == pc.seen then
      Set(s.(availHead := First(pc.got), free := pc.got + s.free, owner := SetOwner(s.owner, pc.got, NOBODY)), t, Idle)
    else Set(s, t, PushLoad(pc.got))
  }

  function ContinueStep(s: State, t: nat, spurious: bool): State
    requires t < |s.threads|
  {
    var pc := s.threads[t];
    match pc
    case LoadAvail(n) =>
      Set(s, t, if s.lock.HeldBy? then LockAvail(n, TAGGED)
                else if s.availHead == NULL then Fill(n, NULL, NULL, [], [])
                else LockAvail(n, s.availHead))
    case LockAvail(n, seen) => LockStep(s, t, n, seen)
    case WalkFirst(n, stolen) => Set(s, t, Walk(n, stolen, stolen, 1, Avail(s.recs, stolen), AddRun([], stolen)))
    case Walk(_, _, _, _, _, _) => WalkStep(s, t, pc)
    case NullTail(n, stolen, tail, taken) =>
      Set(s.(recs := SetAvail(s.recs, tail, NULL)), t, Fill(n, stolen, NULL, [], taken))
    case Fill(_, _, _, _, _) => FillStep(s, t, pc)
    case Make(_, _, _, _, _) => MakeStep(s, t, pc, spurious)
    case LinkTail(n, tail, got, rec) =>
      Set(s.(recs := SetAvail(s.recs, tail, rec)), t, Fill(n, NULL, rec, got + [rec], []))
    case PushLoad(got) => Set(s, t, if s.lock.Free? then PushStore(got, s.availHead) else pc)
    case PushStore(got, seen) => Set(s.(recs := SetAvail(s.recs, Last(got), seen)), t, PushSwing(got, seen))
    case PushSwing(_, _) => SwingStep(s, t, pc)
    case _ => s
  }

  function Next(s: State, act: Action): State
    requires Enabled(s, act)
  {
    match act
    case Acquire(t, n) => Set(s, t, LoadAvail(n))
    case Release(t) => Set(s, t, PushLoad(s.threads[t].got))
    case Continue(t, spurious) => ContinueStep(s, t, spurious)
  }

  /** The head loaded before the bit was set is still the head when it is. */
  predicate Fresh(s: State, act: Action)
    requires Enabled(s, act)
  {
    act.Continue? && s.threads[act.t].LockAvail? && s.lock.Free? ==>
      s.availHead != NULL && s.threads[act.t].seen == s.availHead
  }

  ghost predicate Execution(states: seq<State>, acts: seq<Action>) {
    && |states| == |acts| + 1
    && states[0] == Init(|states[0].threads|)
    && (forall i :: 0 <= i < |acts| ==> Enabled(states[i], acts[i]) && states[i + 1] == Next(states[i], acts[i]))
  }

  ghost predicate FreshExecution(states: seq<State>, acts: seq<Action>) {
    && Execution(states, acts)
    && (forall i :: 0 <= i < |acts| ==> Enabled(states[i], acts[i]) && Fresh(states[i], acts[i]))
  }

  // ---- The invariant ----

  /** Each record of s leads to the next. */
  ghost predicate Inner(recs: seq<Rec>, s: seq<nat>) {
    && (forall i :: 0 <= i < |s| ==> s[i] < |recs|)
    && (forall i, j :: 0 <= i && j == i + 1 && j < |s| ==> recs[s[i]].avail == s[j])
  }

  /** And the last one leads to end. */
  ghost predicate Chain(recs: seq<Rec>, s: seq<nat>, end: int) {
    Inner(recs, s) && (s != [] ==> recs[s[|s| - 1]].avail == end)
  }

  ghost predicate NextChain(recs: seq<Rec>, s: seq<nat>) {
    && (forall i :: 0 <= i < |s| ==> s[i] < |recs|)
    && (forall i, j :: 0 <= i && j == i + 1 && j < |s| ==> recs[s[i]].next == s[j])
    && (s != [] ==> recs[s[|s| - 1]].next == NULL)
  }

  predicate Walking(pc: Pc) { pc.WalkFirst? || pc.Walk? }

  /** The records a thread has to itself. */
  function Owned(pc: Pc): seq<nat> {
    match pc
    case NullTail(_, _, _, taken) => taken
    case Fill(_, _, _, got, rest) => got + rest
    case Make(_, _, got, rec, _) => got + [rec]
    case LinkTail(_, _, got, rec) => got + [rec]
    case Holding(_, got) => got
    case PushLoad(got) => got
    case PushStore(got, _) => got
    case PushSwing(got, _) => got
    case _ => []
  }

  ghost predicate PcOk(recs: seq<Rec>, published: seq<nat>, free: seq<nat>, pc: Pc) {
    match pc
    case Idle => true
    case LoadAvail(n) => n >= 1
    case LockAvail(n, seen) => n >= 1 && (seen == TAGGED || 0 <= seen < |recs|)
    case WalkFirst(n, stolen) => n >= 1 && free != [] && stolen == free[0]
    case Walk(n, stolen, tail, k, next, run) =>
      1 <= k <= n && k <= |free| && run == free[..k] && stolen == free[0] && tail == free[k - 1] && next == First(free[k..])
    case NullTail(n, stolen, tail, taken) =>
      taken != [] && |taken| <= n && stolen == taken[0] && tail == Last(taken) && Inner(recs, taken)
    case Fill(n, head, tail, got, rest) =>
      n >= 1 && |got| + |rest| <= n && head == First(rest) && tail == Last(got) && Chain(recs, got + rest, NULL)
    case Make(n, tail, got, rec, _) =>
      |got| < n && tail == Last(got) && Chain(recs, got, NULL) && Chain(recs, [rec], NULL) && rec !in published
    case LinkTail(n, tail, got, rec) =>
      |got| < n && tail == Last(got) && Chain(recs, got, NULL) && Chain(recs, [rec], NULL)
    case Holding(n, got) => n >= 1 && |got| == n && Chain(recs, got, NULL)
    case PushLoad(got) => got != [] && Inner(recs, got)
    case PushStore(got, _) => got != [] && Inner(recs, got)
    case PushSwing(got, seen) => got != [] && Chain(recs, got, seen)
  }

  ghost predicate FreeOk(s: State) {
    && Distinct(s.free) && Chain(s.recs, s.free, NULL) && s.availHead == First(s.free)
    && |s.owner| == |s.recs|
    && (forall id :: 0 <= id < |s.recs| ==> (s.owner[id] == NOBODY <==> id in s.free))
    && (forall id :: 0 <= id < |s.recs| ==> NOBODY <= s.owner[id] < |s.threads|)
  }

  ghost predicate PublishedOk(s: State) {
    && Distinct(s.published) && NextChain(s.recs, s.published) && s.head == First(s.published)
    && (forall id: nat :: id < |s.recs| && id < |s.owner| && id !in s.published ==>
          0 <= s.owner[id] < |s.threads| && s.threads[s.owner[id]].Make? && s.threads[s.owner[id]].rec == id)
  }

  ghost predicate ThreadOk(s: State, t: nat)
    requires t < |s.threads| && |s.owner| == |s.recs|
  {
    var pc := s.threads[t];
    && (Walking(pc) <==> s.lock == HeldBy(t))
    && Distinct(Owned(pc))
    && (forall id :: 0 <= id < |s.recs| ==> (s.owner[id] == t <==> id in Owned(pc)))
    && PcOk(s.recs, s.published, s.free, pc)
  }

  ghost predicate Inv(s: State) {
    && FreeOk(s) && PublishedOk(s)
    && (s.lock.HeldBy? ==> s.lock.t < |s.threads|)
    && (forall t: nat :: t < |s.threads| ==> ThreadOk(s, t))
  }

  // ---- What one thread's step leaves of the others ----

  /** Thread t changed only what it has, or what is free while nobody else has the lock. */
  ghost predicate Confined(s: State, s': State, t: nat) {
    && t < |s.threads| == |s'.threads| && s'.threads == s.threads[t := s'.threads[t]]
    && |s.owner| == |s.recs| <= |s'.recs| == |s'.owner|
    && (forall id :: 0 <= id < |s.recs| && s.owner[id] != t && s.owner[id] != NOBODY ==>
          s'.owner[id] == s.owner[id] && s'.recs[id].avail == s.recs[id].avail)
    && (forall id :: 0 <= id < |s'.recs| && s'.owner[id] != t && s'.owner[id] != NOBODY ==>
          id < |s.recs| && s'.owner[id] == s.owner[id])
    && ((s'.lock == s.lock && s'.free == s.free) ||
        ((s.lock.Free? || s.lock == HeldBy(t)) && (s'.lock.Free? || s'.lock == HeldBy(t))))
    && (s'.published == s.published || (s.threads[t].Make? && s'.published == [s.threads[t].rec] + s.published))
  }

  lemma InnerStable(recs: seq<Rec>, recs': seq<Rec>, c: seq<nat>)
    requires |recs| <= |recs'| && forall i :: 0 <= i < |c| && c[i] < |recs| ==> recs'[c[i]].avail == recs[c[i]].avail
    ensures Inner(recs, c) ==> Inner(recs', c)
    ensures forall end :: Chain(recs, c, end) ==> Chain(recs', c, end)
  {
  }

  lemma PcOkStable(recs: seq<Rec>, recs': seq<Rec>, published: seq<nat>, published': seq<nat>, free: seq<nat>, free': seq<nat>, pc: Pc)
    requires PcOk(recs, published, free, pc) && |recs| <= |recs'|
    requires forall id :: id in Owned(pc) && id < |recs| ==> recs'[id].avail == recs[id].avail
    requires Walking(pc) ==> free' == free
    requires pc.Make? ==> pc.rec !in published'
    ensures PcOk(recs', published', free', pc)
  {
    match pc
    case NullTail(_, _, _, taken) => InnerStable(recs, recs', taken);
    case Fill(_, _, _, got, rest) => InnerStable(recs, recs', got + rest);
    case Make(_, _, got, rec, _) =>
      forall i | 0 <= i < |got| ensures got[i] in Owned(pc) { assert Owned(pc)[i] == got[i]; }
      InnerStable(recs, recs', got);
      assert Owned(pc)[|got|] == rec;
      InnerStable(recs, recs', [rec]);
    case LinkTail(_, _, got, rec) =>
      forall i | 0 <= i < |got| ensures got[i] in Owned(pc) { assert Owned(pc)[i] == got[i]; }
      InnerStable(recs, recs', got);
      assert Owned(pc)[|got|] == rec;
      InnerStable(recs, recs', [rec]);
    case Holding(_, got) => InnerStable(recs, recs', got);
    case PushLoad(got) => InnerStable(recs, recs', got);
    case PushStore(got, _) => InnerStable(recs, recs', got);
    case PushSwing(got, _) => InnerStable(recs, recs', got);
    case _ =>
  }

  lemma OtherOk(s: State, s': State, t: nat, u: nat)
    requires Inv(s) && Confined(s, s', t) && u < |s.threads| && u != t
    ensures ThreadOk(s', u)
  {
    var pc := s.threads[u];
    assert ThreadOk(s, u) && ThreadOk(s, t);
    if pc.Make? {
      assert pc.rec == Owned(pc)[|pc.got|];
      if s.threads[t].Make? { assert s.threads[t].rec == Owned(s.threads[t])[|s.threads[t].got|]; }
    }
    PcOkStable(s.recs, s'.recs, s.published, s'.published, s.free, s'.free, pc);
  }

  lemma OthersOk(s: State, s': State, t: nat)
    requires Inv(s) && Confined(s, s', t)
    ensures forall u: nat :: u < |s'.threads| && u != t ==> ThreadOk(s', u)
  {
    forall u: nat | u < |s'.threads| && u != t ensures ThreadOk(s', u) { OtherOk(s, s', t, u); }
  }

  // ---- Steps ----

  /** A step that changes only the thread itself. */
  lemma LocalOk(s: State, t: nat, pc': Pc)
    requires Inv(s) && t < |s.threads| && Owned(pc') == Owned(s.threads[t])
    requires Walking(pc') == Walking(s.threads[t]) && !pc'.Make? && !s.threads[t].Make?
    requires PcOk(s.recs, s.published, s.free, pc')
    ensures Inv(Set(s, t, pc'))
  {
    assert ThreadOk(s, t);
    OthersOk(s, Set(s, t, pc'), t);
  }

  /** Storing the link of a record the thread has. */
  lemma LinkOk(s: State, t: nat, p: nat, q: int, pc': Pc)
    requires Inv(s) && t < |s.threads| && p < |s.recs| && s.owner[p] == t
    requires Owned(pc') == Owned(s.threads[t])
    requires !Walking(pc') && !Walking(s.threads[t]) && !pc'.Make? && !s.threads[t].Make?
    requires PcOk(SetAvail(s.recs, p, q), s.published, s.free, pc')
    ensures Inv(Set(s.(recs := SetAvail(s.recs, p, q)), t, pc'))
  {
    var s' := Set(s.(recs := SetAvail(s.recs, p, q)), t, pc');
    assert ThreadOk(s, t);
    OthersOk(s, s', t);
    assert p !in s.free;
    InnerStable(s.recs, s'.recs, s.free);
  }

  lemma ChainAt(recs: seq<Rec>, c: seq<nat>, k: nat)
    requires Chain(recs, c, NULL) && k < |c|
    ensures Avail(recs, c[k]) == First(c[k + 1..])
  {
  }

  lemma LockOk(s: State, t: nat)
    requires Inv(s) && t < |s.threads| && s.threads[t].LockAvail? && Fresh(s, Continue(t, false))
    ensures Inv(ContinueStep(s, t, false))
  {
    var pc := s.threads[t];
    assert ThreadOk(s, t);
    if s.lock.Free? {
      OthersOk(s, ContinueStep(s, t, false), t);
    } else {
      LocalOk(s, t, LoadAvail(pc.n));
    }
  }

  lemma WalkOk(s: State, t: nat)
    requires Inv(s) && t < |s.threads| && Walking(s.threads[t])
    ensures Inv(ContinueStep(s, t, false))
  {
    var pc := s.threads[t];
    assert ThreadOk(s, t);
    if pc.WalkFirst? {
      ChainAt(s.recs, s.free, 0);
      assert s.free[..1] == [s.free[0]];
      LocalOk(s, t, Walk(pc.n, pc.stolen, pc.stolen, 1, Avail(s.recs, pc.stolen), AddRun([], pc.stolen)));
    } else if pc.next != NULL && pc.k < pc.n {
      ChainAt(s.recs, s.free, pc.k);
      assert s.free[..pc.k + 1] == s.free[..pc.k] + [s.free[pc.k]];
      LocalOk(s, t, Walk(pc.n, pc.stolen, pc.next, pc.k + 1, Avail(s.recs, pc.next), AddRun(pc.run, pc.next)));
    } else {
      UnlockOk(s, t);
    }
  }

  lemma DistinctParts(a: seq<nat>, b: seq<nat>)
    requires Distinct(a + b)
    ensures Distinct(a) && Distinct(b) && forall id :: id in a ==> id !in b
  {
    forall i, j | 0 <= i < j < |a| ensures a[i] != a[j] { assert (a + b)[i] != (a + b)[j]; }
    forall i, j | 0 <= i < j < |b| ensures b[i] != b[j] { assert (a + b)[|a| + i] != (a + b)[|a| + j]; }
    forall i, j | 0 <= i < |a| && 0 <= j < |b| ensures a[i] != b[j] { assert (a + b)[i] != (a + b)[|a| + j]; }
  }

  lemma DistinctJoin(a: seq<nat>, b: seq<nat>)
    requires Distinct(a) && Distinct(b) && forall id :: id in a ==> id !in b
    ensures Distinct(a + b)
  {
    forall i, j | 0 <= i < j < |a + b| ensures (a + b)[i] != (a + b)[j] {
      if i < |a| <= j { assert a[i] in a && b[j - |a|] in b; }
    }
  }

  lemma ChainParts(recs: seq<Rec>, a: seq<nat>, b: seq<nat>, end: int)
    requires Chain(recs, a + b, end)
    ensures Chain(recs, b, end) && Inner(recs, a) && (b != [] ==> Chain(recs, a, b[0])) && (b == [] ==> Chain(recs, a, end))
  {
    var c := a + b;
    assert forall i :: 0 <= i < |a| ==> c[i] == a[i];
    assert forall i :: 0 <= i < |b| ==> c[|a| + i] == b[i];
    forall i, j | 0 <= i && j == i + 1 && j < |b| ensures recs[b[i]].avail == b[j] {
      assert recs[c[|a| + i]].avail == c[|a| + j];
    }
  }

  lemma ChainJoin(recs: seq<Rec>, a: seq<nat>, b: seq<nat>, end: int)
    requires Chain(recs, b, end) && (if b == [] then Chain(recs, a, end) else Chain(recs, a, b[0]))
    ensures Chain(recs, a + b, end)
  {
    var c := a + b;
    forall i, j | 0 <= i && j == i + 1 && j < |c| ensures recs[c[i]].avail == c[j] {
      if i >= |a| { assert recs[b[i - |a|]].avail == b[j - |a|]; }
    }
  }

  /** The store that ends a walk. */
  function Unlocked(s: State, t: nat, k: nat): State
    requires t < |s.threads| && s.threads[t].Walk? && k <= |s.free|
  {
    var pc := s.threads[t];
    s.(availHead := pc.next, lock := Free, free := s.free[k..], owner := SetOwner(s.owner, s.free[..k], t),
       threads := s.threads[t := NullTail(pc.n, pc.stolen, pc.tail, s.free[..k])])
  }

  lemma UnlockedFreeOk(s: State, t: nat, k: nat)
    requires FreeOk(s) && t < |s.threads| && s.threads[t].Walk? && k <= |s.free| && s.threads[t].next == First(s.free[k..])
    ensures FreeOk(Unlocked(s, t, k))
    ensures Distinct(s.free[..k]) && Inner(s.recs, s.free[..k])
    ensures forall id :: id in s.free[..k] ==> id !in s.free[k..]
  {
    assert s.free == s.free[..k] + s.free[k..];
    DistinctParts(s.free[..k], s.free[k..]);
    ChainParts(s.recs, s.free[..k], s.free[k..], NULL);
  }

  lemma UnlockedConfined(s: State, t: nat, k: nat)
    requires FreeOk(s) && t < |s.threads| && s.threads[t].Walk? && k <= |s.free| && s.lock == HeldBy(t)
    ensures Confined(s, Unlocked(s, t, k), t)
  {
    forall id | 0 <= id < |s.recs| && s.owner[id] != NOBODY ensures Unlocked(s, t, k).owner[id] == s.owner[id] {
      assert id !in s.free;
    }
  }

  lemma UnlockedPublishedOk(s: State, t: nat, k: nat)
    requires FreeOk(s) && PublishedOk(s) && t < |s.threads| && s.threads[t].Walk? && k <= |s.free|
    ensures PublishedOk(Unlocked(s, t, k))
  {
    var s' := Unlocked(s, t, k);
    forall id: nat | id < |s.recs| && id !in s.published
      ensures 0 <= s'.owner[id] < |s'.threads| && s'.threads[s'.owner[id]].Make? && s'.threads[s'.owner[id]].rec == id
    {
      assert id !in s.free;
    }
  }

  lemma UnlockedStep(s: State, t: nat)
    requires Inv(s) && t < |s.threads| && s.threads[t].Walk?
    requires s.threads[t].next == NULL || s.threads[t].k >= s.threads[t].n
    ensures 1 <= s.threads[t].k <= |s.free| && ContinueStep(s, t, false) == Unlocked(s, t, s.threads[t].k)
  {
    assert ThreadOk(s, t);
  }

  lemma UnlockedThreadOk(s: State, t: nat)
    requires FreeOk(s) && t < |s.threads| && s.threads[t].Walk? && ThreadOk(s, t)
    ensures ThreadOk(Unlocked(s, t, s.threads[t].k), t)
  {
    UnlockedFreeOk(s, t, s.threads[t].k);
  }

  /** The store that ends the walk takes the first k free records and leaves the others as they were. */
  lemma UnlockOk(s: State, t: nat)
    requires Inv(s) && t < |s.threads| && s.threads[t].Walk?
    requires s.threads[t].next == NULL || s.threads[t].k >= s.threads[t].n
    ensures Inv(ContinueStep(s, t, false))
  {
    var pc := s.threads[t];
    assert ThreadOk(s, t);
    UnlockedStep(s, t);
    UnlockedFreeOk(s, t, pc.k);
    UnlockedConfined(s, t, pc.k);
    UnlockedPublishedOk(s, t, pc.k);
    UnlockedThreadOk(s, t);
    OthersOk(s, Unlocked(s, t, pc.k), t);
  }

  lemma NullTailOk(s: State, t: nat)
    requires Inv(s) && t < |s.threads| && s.threads[t].NullTail?
    ensures Inv(ContinueStep(s, t, false))
  {
    var pc := s.threads[t];
    assert ThreadOk(s, t);
    var pc' := Fill(pc.n, pc.stolen, NULL, [], pc.taken);
    var recs' := SetAvail(s.recs, pc.tail, NULL);
    assert pc.tail in pc.taken;
    assert [] + pc.taken == pc.taken;
    LastLink(s.recs, pc.taken, NULL);
    LinkOk(s, t, pc.tail, NULL, pc');
  }

  /** Linking the last record of a run decides where the run ends. */
  lemma LastLink(recs: seq<Rec>, c: seq<nat>, q: int)
    requires Inner(recs, c) && Distinct(c) && c != []
    ensures Chain(SetAvail(recs, Last(c), q), c, q)
  {
  }

  lemma FillTakeOk(s: State, t: nat)
    requires Inv(s) && t < |s.threads| && s.threads[t].Fill?
    requires |s.threads[t].got| < s.threads[t].n && s.threads[t].head >= 0
    ensures Inv(ContinueStep(s, t, false))
  {
    var pc := s.threads[t];
    assert ThreadOk(s, t);
    assert pc.got + pc.rest == (pc.got + [pc.head]) + pc.rest[1..];
    ChainParts(s.recs, pc.got, pc.rest, NULL);
    ChainAt(s.recs, pc.rest, 0);
    LocalOk(s, t, Fill(pc.n, Avail(s.recs, pc.head), pc.head, pc.got + [pc.head], pc.rest[1..]));
  }

  lemma FillOk(s: State, t: nat)
    requires Inv(s) && t < |s.threads| && s.threads[t].Fill?
    ensures Inv(ContinueStep(s, t, false))
  {
    var pc := s.threads[t];
    assert ThreadOk(s, t);
    if |pc.got| >= pc.n {
      assert pc.got + pc.rest == pc.got;
      LocalOk(s, t, Holding(pc.n, pc.got));
    } else if pc.head >= 0 {
      FillTakeOk(s, t);
    } else {
      assert pc.rest == [] && pc.got + pc.rest == pc.got;
      NewRecordOk(s, t);
    }
  }

  /** The making of a record. */
  function Made(s: State, t: nat): State
    requires t < |s.threads| && s.threads[t].Fill?
  {
    var pc := s.threads[t];
    s.(recs := s.recs + [Rec(NULL, NULL)], owner := s.owner + [t],
       threads := s.threads[t := Make(pc.n, pc.tail, pc.got, |s.recs|, s.head)])
  }

  lemma MadeListsOk(s: State, t: nat)
    requires FreeOk(s) && PublishedOk(s) && t < |s.threads| && s.threads[t].Fill?
    ensures FreeOk(Made(s, t)) && PublishedOk(Made(s, t))
  {
    InnerStable(s.recs, Made(s, t).recs, s.free);
  }

  lemma NewRecordOk(s: State, t: nat)
    requires Inv(s) && t < |s.threads| && s.threads[t].Fill?
    requires s.threads[t].rest == [] && |s.threads[t].got| < s.threads[t].n
    ensures Inv(ContinueStep(s, t, false))
  {
    var pc := s.threads[t];
    var s' := Made(s, t);
    assert ThreadOk(s, t);
    assert pc.got + pc.rest == pc.got;
    MadeListsOk(s, t);
    OthersOk(s, s', t);
    InnerStable(s.recs, s'.recs, pc.got);
    DistinctJoin(pc.got, [|s.recs|]);
    assert ThreadOk(s', t);
  }

  lemma MakeFreeOk(s: State, t: nat, spurious: bool)
    requires FreeOk(s) && t < |s.threads| && s.threads[t].Make?
    ensures FreeOk(MakeStep(s, t, s.threads[t], spurious))
  {
    InnerStable(s.recs, MakeStep(s, t, s.threads[t], spurious).recs, s.free);
  }

  lemma MakeThreadOk(s: State, t: nat, spurious: bool)
    requires |s.owner| == |s.recs| && t < |s.threads| && s.threads[t].Make? && ThreadOk(s, t)
    ensures ThreadOk(MakeStep(s, t, s.threads[t], spurious), t)
  {
    var pc := s.threads[t];
    var s' := MakeStep(s, t, pc, spurious);
    InnerStable(s.recs, s'.recs, pc.got);
    InnerStable(s.recs, s'.recs, [pc.rec]);
    assert Owned(s'.threads[t]) == Owned(pc);
  }

  lemma MakeOk(s: State, t: nat, spurious: bool)
    requires Inv(s) && t < |s.threads| && s.threads[t].Make?
    ensures Inv(ContinueStep(s, t, spurious))
  {
    var pc := s.threads[t];
    var s' := MakeStep(s, t, pc, spurious);
    assert ThreadOk(s, t);
    assert Owned(pc)[|pc.got|] == pc.rec;
    OthersOk(s, s', t);
    PublishOk(s, t, spurious);
    MakeFreeOk(s, t, spurious);
    MakeThreadOk(s, t, spurious);
  }

  lemma PublishOk(s: State, t: nat, spurious: bool)
    requires FreeOk(s) && PublishedOk(s) && t < |s.threads| && s.threads[t].Make?
    requires s.threads[t].rec !in s.published && s.threads[t].rec < |s.recs| && s.owner[s.threads[t].rec] == t
    ensures PublishedOk(MakeStep(s, t, s.threads[t], spurious))
  {
    var pc := s.threads[t];
    var s' := MakeStep(s, t, pc, spurious);
    if s.head == pc.seen && !spurious {
      assert forall i :: 0 < i < |s'.published| ==> s'.published[i] == s.published[i - 1];
    }
  }

  lemma LinkTailOk(s: State, t: nat)
    requires Inv(s) && t < |s.threads| && s.threads[t].LinkTail?
    ensures Inv(ContinueStep(s, t, false))
  {
    var pc := s.threads[t];
    assert ThreadOk(s, t);
    var pc' := Fill(pc.n, NULL, pc.rec, pc.got + [pc.rec], []);
    assert pc.got + [pc.rec] + [] == pc.got + [pc.rec];
    assert Owned(pc)[|pc.got|] == pc.rec;
    if pc.got == [] {
      assert [] + [pc.rec] == [pc.rec];
      LocalOk(s, t, pc');
    } else {
      assert Owned(pc)[|pc.got| - 1] == pc.tail;
      var recs' := SetAvail(s.recs, pc.tail, pc.rec);
      DistinctParts(pc.got, [pc.rec]);
      LastLink(s.recs, pc.got, pc.rec);
      InnerStable(s.recs, recs', [pc.rec]);
      ChainJoin(recs', pc.got, [pc.rec], NULL);
      LinkOk(s, t, pc.tail, pc.rec, pc');
    }
  }

  lemma PushStoreOk(s: State, t: nat)
    requires Inv(s) && t < |s.threads| && s.threads[t].PushStore?
    ensures Inv(ContinueStep(s, t, false))
  {
    var pc := s.threads[t];
    assert ThreadOk(s, t);
    assert Last(pc.got) in pc.got;
    LastLink(s.recs, pc.got, pc.seen);
    LinkOk(s, t, Last(pc.got), pc.seen, PushSwing(pc.got, pc.seen));
  }

  /** The swing that pushes the array back. */
  function Pushed(s: State, t: nat): State
    requires t < |s.threads| && s.threads[t].PushSwing?
  {
    var got := s.threads[t].got;
    s.(availHead := First(got), free := got + s.free, owner := SetOwner(s.owner, got, NOBODY), threads := s.threads[t := Idle])
  }

  lemma PushedFreeOk(s: State, t: nat)
    requires FreeOk(s) && t < |s.threads| && s.threads[t].PushSwing? && ThreadOk(s, t)
    requires s.availHead == s.threads[t].seen
    ensures FreeOk(Pushed(s, t))
  {
    var pc := s.threads[t];
    DistinctJoin(pc.got, s.free);
    ChainJoin(s.recs, pc.got, s.free, NULL);
  }

  lemma PushedPublishedOk(s: State, t: nat)
    requires FreeOk(s) && PublishedOk(s) && t < |s.threads| && s.threads[t].PushSwing? && ThreadOk(s, t)
    ensures PublishedOk(Pushed(s, t))
  {
  }

  lemma PushedConfined(s: State, t: nat)
    requires FreeOk(s) && t < |s.threads| && s.threads[t].PushSwing? && ThreadOk(s, t) && s.lock.Free?
    ensures Confined(s, Pushed(s, t), t) && ThreadOk(Pushed(s, t), t)
  {
  }

  lemma SwingOk(s: State, t: nat)
    requires Inv(s) && t < |s.threads| && s.threads[t].PushSwing?
    ensures Inv(ContinueStep(s, t, false))
  {
    var pc := s.threads[t];
    assert ThreadOk(s, t);
    if s.lock.Free? && s.availHead == pc.seen {
      PushedOk(s, t);
    } else {
      LocalOk(s, t, PushLoad(pc.got));
    }
  }

  lemma PushedOk(s: State, t: nat)
    requires Inv(s) && t < |s.threads| && s.threads[t].PushSwing? && s.lock.Free? && s.availHead == s.threads[t].seen
    ensures Inv(Pushed(s, t))
  {
    assert ThreadOk(s, t);
    PushedFreeOk(s, t);
    PushedPublishedOk(s, t);
    PushedConfined(s, t);
    OthersOk(s, Pushed(s, t), t);
  }

  lemma ContinueOk(s: State, t: nat, spurious: bool)
    requires Inv(s) && Enabled(s, Continue(t, spurious)) && Fresh(s, Continue(t, spurious))
    ensures Inv(ContinueStep(s, t, spurious))
  {
    var pc := s.threads[t];
    assert ThreadOk(s, t);
    if pc.LoadAvail? {
      LocalOk(s, t, ContinueStep(s, t, spurious).threads[t]);
    } else if pc.LockAvail? {
      LockOk(s, t);
    } else if Walking(pc) {
      WalkOk(s, t);
    } else if pc.NullTail? {
      NullTailOk(s, t);
    } else if pc.Fill? {
      FillOk(s, t);
    } else if pc.Make? {
      MakeOk(s, t, spurious);
    } else if pc.LinkTail? {
      LinkTailOk(s, t);
    } else if pc.PushLoad? {
      LocalOk(s, t, ContinueStep(s, t, spurious).threads[t]);
    } else if pc.PushStore? {
      PushStoreOk(s, t);
    } else {
      SwingOk(s, t);
    }
  }

  lemma NextKeepsInv(s: State, act: Action)
    requires Inv(s) && Enabled(s, act) && Fresh(s, act)
    ensures Inv(Next(s, act))
  {
    assert ThreadOk(s, act.t);
    match act
    case Acquire(t, n) => LocalOk(s, t, LoadAvail(n));
    case Release(t) => LocalOk(s, t, PushLoad(s.threads[t].got));
    case Continue(t, spurious) => ContinueOk(s, t, spurious);
  }

  lemma {:induction false} ReachableInv(states: seq<State>, acts: seq<Action>, i: nat)
    requires FreshExecution(states, acts) && i < |states|
    ensures Inv(states[i])
  {
    if i > 0 {
      ReachableInv(states, acts, i - 1);
      NextKeepsInv(states[i - 1], acts[i - 1]);
    }
  }
}
