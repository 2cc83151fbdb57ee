/** Any number of threads allocating from one arena, each atomic access being one step. The memory's own
    invariant is in `Arena`; here are the interleavings of the bump loop with chunk rollover. */
module ConcurrentArena {
  import opened Arena

  datatype Pc =
    | Idle
    | LoadChunk(l: Layout)                                            // about to load the current chunk
    | LoadBump(l: Layout, chunk: nat)                                 // about to load that chunk's bump
    | CheckFit(l: Layout, chunk: nat, bump: nat)                      // about to read the current chunk's length
    | Swing(l: Layout, chunk: nat, bump: nat, aligned: nat, next: nat) // about to compare-and-swap the bump
    | LockChunks(l: Layout)                                           // waiting for the chunk mutex
    | Recheck(l: Layout)                                              // has the mutex, about to load the current chunk
    | RecheckBump(l: Layout, chunk: nat)
    | RecheckFit(l: Layout, bump: nat)
    | CheckCap(l: Layout)                                             // about to compare with the cap
    | Grow(l: Layout)                                                 // about to add to the allocated bytes
    | Push(l: Layout)                                                 // about to push a chunk
    | Publish(l: Layout)                                              // about to store the current chunk
    | Unlock(l: Layout)
    | UnlockFull(l: Layout)
    | Account(r: Range)                                               // about to add to the used bytes
    | Done(r: Range)
    | Full(l: Layout)
    | Oversize(l: Layout)

  datatype Mutex = Free | OwnedBy(t: nat)

  datatype State = State(m: Memory, allocatedBytes: nat, memoryUsed: nat, mutex: Mutex, threads: seq<Pc>)

  datatype Action =
    | Begin(t: nat, l: Layout)
    | Continue(t: nat, spurious: bool)   // a weak compare-and-swap may fail for no reason
    | Finish(t: nat)
    | ResetArena                         // needs the arena to itself

  function Init(blockSize: nat, cap: nat, threadCount: nat): State {
    State(Memory(blockSize, cap, [Chunk(blockSize, 0)], 0, [], 1), blockSize, 0, Free, seq(threadCount, _ => Idle))
  }

  predicate Resting(pc: Pc) { pc.Idle? || pc.Done? || pc.Full? || pc.Oversize? }

  predicate HasMutex(pc: Pc) {
    pc.Recheck? || pc.RecheckBump? || pc.RecheckFit? || pc.CheckCap? || pc.Grow? || pc.Push? || pc.Publish? ||
    pc.Unlock? || pc.UnlockFull?
  }

  predicate Enabled(s: State, act: Action) {
    match act
    case Begin(t, l) => t < |s.threads| && s.threads[t].Idle? && ValidLayout(l)
    case Continue(t, spurious) =>
      && t < |s.threads|
      && !Resting(s.threads[t])
      && (s.threads[t].LockChunks? ==> s.mutex.Free?)
      && (spurious ==> s.threads[t].Swing?)
    case Finish(t) => t < |s.threads| && Resting(s.threads[t]) && !s.threads[t].Idle?
    case ResetArena => forall t :: 0 <= t < |s.threads| ==> s.threads[t].Idle?
  }

  function Bump(m: Memory, c: nat): nat { if c < |m.chunks| then m.chunks[c].bump else 0 }

  function CurrentLen(m: Memory): nat { if m.current < |m.chunks| then m.chunks[m.current].len else 0 }

  function Set(s: State, t: nat, pc: Pc): State
    requires t < |s.threads|
  {
    s.(threads := s.threads[t := pc])
  }

  function ContinueStep(s: State, t: nat, spurious: bool): State
    requires t < |s.threads|
  {
    match s.threads[t]
    case LoadChunk(l) => Set(s, t, LoadBump(l, s.m.current))
    case LoadBump(l, chunk) => Set(s, t, CheckFit(l, chunk, Bump(s.m, chunk)))
    case CheckFit(l, chunk, bump) =>
      (match AlignmentCheck(bump, l, CurrentLen(s.m))
       case Overflow => Set(s, t, LockChunks(l))
       case Fits(aligned, next) => Set(s, t, Swing(l, chunk, bump, aligned, next)))
    case Swing(l, chunk, bump, aligned, next) =>
      if Bump(s.m, chunk) == bump && !spurious then
        Set(s.(m := Take(s.m, chunk, bump, aligned, l)), t, Account(Range(chunk, bump, aligned, l)))
      else Set(s, t, LoadChunk(l))
    case LockChunks(l) => Set(s.(mutex := OwnedBy(t)), t, Recheck(l))
    case Recheck(l) => Set(s, t, RecheckBump(l, s.m.current))
    case RecheckBump(l, chunk) => Set(s, t, RecheckFit(l, Bump(s.m, chunk)))
    case RecheckFit(l, bump) =>
      Set(s, t, if AlignmentCheck(bump, l, CurrentLen(s.m)).Fits? then Unlock(l) else CheckCap(l))
    case CheckCap(l) => Set(s, t, if s.allocatedBytes + s.m.blockSize > s.m.cap then UnlockFull(l) else Grow(l))
    case Grow(l) => Set(s.(allocatedBytes := s.allocatedBytes + s.m.blockSize), t, Push(l))
    case Push(l) => Set(s.(m := AddChunk(s.m)), t, Publish(l))
    case Publish(l) => Set(s.(m := s.m.(current := if |s.m.chunks| > 0 then |s.m.chunks| - 1 else 0)), t, Unlock(l))
    case Unlock(l) => Set(s.(mutex := Free), t, LoadChunk(l))
    case UnlockFull(l) => Set(s.(mutex := Free), t, Full(l))
    case Account(r) => Set(s.(memoryUsed := s.memoryUsed + r.layout.size), t, Done(r))
    case _ => s
  }

  function Next(s: State, act: Action): State
    requires Enabled(s, act)
  {
    match act
    case Begin(t, l) => Set(s, t, if l.size <= s.m.blockSize then LoadChunk(l) else Oversize(l))
    case Continue(t, spurious) => ContinueStep(s, t, spurious)
    case Finish(t) => Set(s, t, Idle)
    case ResetArena => s.(m := Reset(s.m), memoryUsed := 0)
  }

  ghost predicate Execution(blockSize: nat, cap: nat, states: seq<State>, acts: seq<Action>) {
    && |states| == |acts| + 1
    && states[0] == Init(blockSize, cap, |states[0].threads|)
    && (forall i :: 0 <= i < |acts| ==> Enabled(states[i], acts[i]) && states[i + 1] == Next(states[i], acts[i]))
  }

  // ---- The invariant ----

  ghost predicate ChunkOk(m: Memory, c: nat) {
    c < |m.chunks| && (c == 0 || c >= m.retained)
  }

  /** The layout a thread is working for. */
  function LayoutOf(pc: Pc): Layout {
    if pc.Idle? then Layout(0, 1) else if pc.Account? || pc.Done? then pc.r.layout else pc.l
  }

  ghost predicate PcOk(m: Memory, pc: Pc) {
    && (pc.Idle? || ValidLayout(LayoutOf(pc)))
    && (pc.LoadBump? || pc.CheckFit? || pc.Swing? ==> ChunkOk(m, pc.chunk))
    && (pc.CheckFit? ==> pc.bump <= m.blockSize)
    && (pc.Swing? ==> AlignmentCheck(pc.bump, pc.l, m.blockSize) == Fits(pc.aligned, pc.next))
    && (pc.Publish? ==> |m.chunks| > m.retained)
    && (pc.Account? || pc.Done? ==> pc.r in m.ranges)
  }

  function Pending(pc: Pc): nat { if pc.Account? then pc.r.layout.size else 0 }

  function PendingBytes(threads: seq<Pc>): nat {
    if threads == [] then 0 else Pending(threads[0]) + PendingBytes(threads[1..])
  }

  /** Chunks paid for but not pushed yet. */
  function Unpushed(s: State): nat {
    if s.mutex.OwnedBy? && s.mutex.t < |s.threads| && s.threads[s.mutex.t].Push? then 1 else 0
  }

  ghost predicate BytesOk(s: State) {
    && s.allocatedBytes <= s.m.cap
    && s.allocatedBytes == (|s.m.chunks| + Unpushed(s)) * s.m.blockSize
    && (forall t :: 0 <= t < |s.threads| && s.threads[t].Grow? ==> s.allocatedBytes + s.m.blockSize <= s.m.cap)
  }

  ghost predicate UsedOk(s: State) {
    s.memoryUsed + PendingBytes(s.threads) == SumSizes(s.m.ranges)
  }

  ghost predicate PcsOk(s: State) {
    forall t :: 0 <= t < |s.threads| ==> PcOk(s.m, s.threads[t])
  }

  ghost predicate MutexOk(s: State) {
    && (forall t :: 0 <= t < |s.threads| ==> (HasMutex(s.threads[t]) <==> s.mutex == OwnedBy(t)))
    && (s.mutex.OwnedBy? ==> s.mutex.t < |s.threads|)
  }

  ghost predicate Inv(s: State) {
    MemoryOk(s.m) && MutexOk(s) && BytesOk(s) && UsedOk(s) && PcsOk(s)
  }

  /** Memory as other threads may leave it. */
  ghost predicate Evolves(m: Memory, m': Memory) {
    && m'.blockSize == m.blockSize && m'.cap == m.cap && m'.retained == m.retained
    && |m.chunks| <= |m'.chunks|
    && m.ranges <= m'.ranges
  }

  lemma PcOkStable(m: Memory, m': Memory, pc: Pc)
    requires PcOk(m, pc) && Evolves(m, m')
    ensures PcOk(m', pc)
  {
    if pc.Account? || pc.Done? {
      var i :| 0 <= i < |m.ranges| && m.ranges[i] == pc.r;
      assert m'.ranges[i] == pc.r;
    }
  }

  lemma {:induction false} PendingUpdate(threads: seq<Pc>, t: nat, pc: Pc)
    requires t < |threads|
    ensures PendingBytes(threads[t := pc]) == PendingBytes(threads) - Pending(threads[t]) + Pending(pc)
  {
    var u := threads[t := pc];
    if t == 0 {
      assert u[1..] == threads[1..];
    } else {
      assert u[1..] == threads[1..][t - 1 := pc];
      PendingUpdate(threads[1..], t - 1, pc);
    }
  }

  lemma SetPcsOk(s: State, t: nat, pc': Pc, m': Memory)
    requires PcsOk(s) && t < |s.threads| && Evolves(s.m, m') && PcOk(m', pc')
    ensures PcsOk(Set(s.(m := m'), t, pc'))
  {
    var s' := Set(s.(m := m'), t, pc');
    forall u | 0 <= u < |s'.threads| ensures PcOk(s'.m, s'.threads[u]) {
      if u != t { PcOkStable(s.m, m', s.threads[u]); }
    }
  }

  /** A step that touches neither the mutex nor the chunk list. */
  lemma LocalOk(s: State, t: nat, pc': Pc)
    requires Inv(s) && t < |s.threads| && PcOk(s.m, pc') && HasMutex(pc') == HasMutex(s.threads[t])
    requires Pending(pc') == Pending(s.threads[t]) && pc'.Push? == s.threads[t].Push?
    requires pc'.Grow? ==> s.allocatedBytes + s.m.blockSize <= s.m.cap
    ensures Inv(Set(s, t, pc'))
  {
    var s' := Set(s, t, pc');
    SetPcsOk(s, t, pc', s.m);
    PendingUpdate(s.threads, t, pc');
    assert Unpushed(s') == Unpushed(s);
  }

  /** Taking or giving back the mutex. */
  lemma HandoverOk(s: State, t: nat, mutex': Mutex, pc': Pc)
    requires Inv(s) && t < |s.threads| && PcOk(s.m, pc')
    requires (s.mutex.Free? && mutex' == OwnedBy(t)) || (s.mutex == OwnedBy(t) && mutex'.Free?)
    requires HasMutex(pc') == mutex'.OwnedBy?
    requires Pending(pc') == Pending(s.threads[t]) && !pc'.Push? && !s.threads[t].Push? && !pc'.Grow?
    ensures Inv(Set(s.(mutex := mutex'), t, pc'))
  {
    var s' := Set(s.(mutex := mutex'), t, pc');
    SetPcsOk(s, t, pc', s.m);
    PendingUpdate(s.threads, t, pc');
    assert Unpushed(s') == 0 == Unpushed(s);
    forall u | 0 <= u < |s'.threads| ensures HasMutex(s'.threads[u]) <==> s'.mutex == OwnedBy(u) {
      assert HasMutex(s.threads[u]) <==> s.mutex == OwnedBy(u);
    }
  }

  lemma SwingOk(s: State, t: nat, spurious: bool)
    requires Inv(s) && t < |s.threads| && s.threads[t].Swing?
    ensures Inv(ContinueStep(s, t, spurious))
  {
    var pc := s.threads[t];
    assert PcOk(s.m, pc);
    if Bump(s.m, pc.chunk) == pc.bump && !spurious {
      TakenOk(s, t);
    } else {
      LocalOk(s, t, LoadChunk(pc.l));
    }
  }

  /** The swing that succeeds, named so that each part of the invariant is proved by itself. */
  function Taken(s: State, t: nat): (s': State)
    requires t < |s.threads| && s.threads[t].Swing?
    ensures |s'.threads| == |s.threads|
  {
    var pc := s.threads[t];
    Set(s.(m := Take(s.m, pc.chunk, pc.bump, pc.aligned, pc.l)), t, Account(Range(pc.chunk, pc.bump, pc.aligned, pc.l)))
  }

  lemma TakenMemoryOk(s: State, t: nat)
    requires Inv(s) && t < |s.threads| && s.threads[t].Swing? && Bump(s.m, s.threads[t].chunk) == s.threads[t].bump
    ensures var m' := Taken(s, t).m;
            && MemoryOk(m') && Evolves(s.m, m') && |m'.chunks| == |s.m.chunks|
            && m'.ranges == s.m.ranges + [Taken(s, t).threads[t].r]
  {
    var pc := s.threads[t];
    assert PcOk(s.m, pc);
    TakeOk(s.m, pc.chunk, pc.l);
  }

  lemma TakenOk(s: State, t: nat)
    requires Inv(s) && t < |s.threads| && s.threads[t].Swing? && Bump(s.m, s.threads[t].chunk) == s.threads[t].bump
    ensures Inv(Taken(s, t))
  {
    TakenMemoryOk(s, t);
    TakenPcsOk(s, t);
    TakenUsedOk(s, t);
    assert Unpushed(Taken(s, t)) == Unpushed(s);
  }

  lemma TakenPcsOk(s: State, t: nat)
    requires Inv(s) && t < |s.threads| && s.threads[t].Swing? && Bump(s.m, s.threads[t].chunk) == s.threads[t].bump
    ensures PcsOk(Taken(s, t))
  {
    var s' := Taken(s, t);
    assert PcOk(s.m, s.threads[t]);
    TakenMemoryOk(s, t);
    assert s'.m.ranges[|s.m.ranges|] == s'.threads[t].r;
    SetPcsOk(s, t, s'.threads[t], s'.m);
  }

  /** The bytes are handed out, and not counted yet. */
  lemma TakenUsedOk(s: State, t: nat)
    requires Inv(s) && t < |s.threads| && s.threads[t].Swing? && Bump(s.m, s.threads[t].chunk) == s.threads[t].bump
    ensures UsedOk(Taken(s, t))
  {
    var pc' := Taken(s, t).threads[t];
    TakenMemoryOk(s, t);
    SumSizesSnoc(s.m.ranges, pc'.r);
    PendingUpdate(s.threads, t, pc');
  }

  lemma AccountOk(s: State, t: nat)
    requires Inv(s) && t < |s.threads| && s.threads[t].Account?
    ensures Inv(ContinueStep(s, t, false))
  {
    var r := s.threads[t].r;
    assert PcOk(s.m, s.threads[t]);
    SetPcsOk(s, t, Done(r), s.m);
    PendingUpdate(s.threads, t, Done(r));
    assert Unpushed(ContinueStep(s, t, false)) == Unpushed(s);
  }

  lemma GrowOk(s: State, t: nat)
    requires Inv(s) && t < |s.threads| && s.threads[t].Grow?
    ensures Inv(ContinueStep(s, t, false))
  {
    var pc' := Push(s.threads[t].l);
    var s' := Set(s.(allocatedBytes := s.allocatedBytes + s.m.blockSize), t, pc');
    assert PcOk(s.m, s.threads[t]);
    SetPcsOk(s, t, pc', s.m);
    PendingUpdate(s.threads, t, pc');
    assert HasMutex(s.threads[t]);
    assert Unpushed(s) == 0 && Unpushed(s') == 1;
    assert (|s.m.chunks| + 1) * s.m.blockSize == |s.m.chunks| * s.m.blockSize + s.m.blockSize;
    OnlyOwner(s, t);
  }

  lemma PushOk(s: State, t: nat)
    requires Inv(s) && t < |s.threads| && s.threads[t].Push?
    ensures Inv(ContinueStep(s, t, false))
  {
    var pc' := Publish(s.threads[t].l);
    var s' := Set(s.(m := AddChunk(s.m)), t, pc');
    assert PcOk(s.m, s.threads[t]);
    AddChunkOk(s.m);
    SetPcsOk(s, t, pc', s'.m);
    PendingUpdate(s.threads, t, pc');
    assert HasMutex(s.threads[t]);
    assert Unpushed(s) == 1 && Unpushed(s') == 0;
  }

  lemma PublishStepOk(s: State, t: nat)
    requires Inv(s) && t < |s.threads| && s.threads[t].Publish?
    ensures Inv(ContinueStep(s, t, false))
  {
    var pc' := Unlock(s.threads[t].l);
    var s' := Set(s.(m := s.m.(current := |s.m.chunks| - 1)), t, pc');
    PublishPcsOk(s, t);
    PendingUpdate(s.threads, t, pc');
    assert HasMutex(s.threads[t]);
    assert Unpushed(s') == 0 == Unpushed(s);
  }

  lemma PublishPcsOk(s: State, t: nat)
    requires Inv(s) && t < |s.threads| && s.threads[t].Publish?
    ensures MemoryOk(s.m.(current := |s.m.chunks| - 1))
    ensures PcsOk(Set(s.(m := s.m.(current := |s.m.chunks| - 1)), t, Unlock(s.threads[t].l)))
  {
    assert PcOk(s.m, s.threads[t]);
    PublishOk(s.m);
    SetPcsOk(s, t, Unlock(s.threads[t].l), s.m.(current := |s.m.chunks| - 1));
  }

  /** Only one thread is inside the mutex. */
  lemma OnlyOwner(s: State, t: nat)
    requires MutexOk(s) && t < |s.threads| && HasMutex(s.threads[t])
    ensures forall u :: 0 <= u < |s.threads| && u != t ==> !HasMutex(s.threads[u])
  {
  }

  lemma PublishOk(m: Memory)
    requires MemoryOk(m) && |m.chunks| > m.retained
    ensures MemoryOk(m.(current := |m.chunks| - 1))
  {
    var m' := m.(current := |m.chunks| - 1);
    forall i | 0 <= i < |m'.ranges| ensures RangeOk(m', m'.ranges[i]) {
      assert RangeOk(m, m.ranges[i]);
    }
  }

  lemma ContinueOk(s: State, t: nat, spurious: bool)
    requires Inv(s) && Enabled(s, Continue(t, spurious))
    ensures Inv(ContinueStep(s, t, spurious))
  {
    var pc := s.threads[t];
    assert PcOk(s.m, pc);
    if HasMutex(pc) || pc.LockChunks? {
      InsideOk(s, t);
    } else if pc.Swing? {
      SwingOk(s, t, spurious);
    } else if pc.LoadChunk? {
      LocalOk(s, t, LoadBump(pc.l, s.m.current));
    } else if pc.LoadBump? {
      LocalOk(s, t, CheckFit(pc.l, pc.chunk, Bump(s.m, pc.chunk)));
    } else if pc.CheckFit? {
      LocalOk(s, t, ContinueStep(s, t, spurious).threads[t]);
    } else {
      AccountOk(s, t);
    }
  }

  /** The steps of `try_new_chunk`. */
  lemma InsideOk(s: State, t: nat)
    requires Inv(s) && Enabled(s, Continue(t, false)) && (s.threads[t].LockChunks? || HasMutex(s.threads[t]))
    ensures Inv(ContinueStep(s, t, false))
  {
    var pc := s.threads[t];
    assert PcOk(s.m, pc);
    if pc.LockChunks? {
      HandoverOk(s, t, OwnedBy(t), Recheck(pc.l));
    } else if pc.Unlock? {
      HandoverOk(s, t, Free, LoadChunk(pc.l));
    } else if pc.UnlockFull? {
      HandoverOk(s, t, Free, Full(pc.l));
    } else if pc.Grow? {
      GrowOk(s, t);
    } else if pc.Push? {
      PushOk(s, t);
    } else if pc.Publish? {
      PublishStepOk(s, t);
    } else {
      LocalOk(s, t, ContinueStep(s, t, false).threads[t]);
    }
  }

  lemma {:induction false} PendingNone(threads: seq<Pc>)
    requires forall t :: 0 <= t < |threads| ==> threads[t].Idle?
    ensures PendingBytes(threads) == 0
  {
    if threads != [] { PendingNone(threads[1..]); }
  }

  lemma ResetArenaOk(s: State)
    requires Inv(s) && Enabled(s, ResetArena)
    ensures Inv(Next(s, ResetArena))
  {
    ResetOk(s.m);
    PendingNone(s.threads);
  }

  lemma NextKeepsInv(s: State, act: Action)
    requires Inv(s) && Enabled(s, act)
    ensures Inv(Next(s, act))
  {
    match act
    case Begin(t, l) => LocalOk(s, t, if l.size <= s.m.blockSize then LoadChunk(l) else Oversize(l));
    case Continue(t, spurious) => ContinueOk(s, t, spurious);
    case Finish(t) => LocalOk(s, t, Idle);
    case ResetArena => ResetArenaOk(s);
  }

  lemma InitInv(blockSize: nat, cap: nat, threadCount: nat)
    requires ValidPolicy(blockSize, cap)
    ensures Inv(Init(blockSize, cap, threadCount))
  {
    var s := Init(blockSize, cap, threadCount);
    PendingNone(s.threads);
    assert Unpushed(s) == 0;
    assert PcsOk(s) && MutexOk(s) && UsedOk(s);
  }

  lemma NextKeepsPolicy(s: State, act: Action)
    requires Inv(s) && Enabled(s, act)
    ensures Next(s, act).m.blockSize == s.m.blockSize && Next(s, act).m.cap == s.m.cap
  {
  }

  lemma {:induction false} ReachableInv(blockSize: nat, cap: nat, states: seq<State>, acts: seq<Action>, i: nat)
    requires ValidPolicy(blockSize, cap) && Execution(blockSize, cap, states, acts) && i < |states|
    ensures Inv(states[i]) && states[i].m.blockSize == blockSize && states[i].m.cap == cap
  {
    if i == 0 {
      InitInv(blockSize, cap, |states[0].threads|);
    } else {
      ReachableInv(blockSize, cap, states, acts, i - 1);
      NextKeepsInv(states[i - 1], acts[i - 1]);
      NextKeepsPolicy(states[i - 1], acts[i - 1]);
    }
  }

  /** Under any interleaving, with rollovers and resets, what was handed out since the last reset is pairwise
      disjoint, inside its chunk, aligned, and padded by less than its alignment; every finished allocation
      is among it; and the chunks never exceed the cap. */
  lemma AllocationsSound(blockSize: nat, cap: nat, states: seq<State>, acts: seq<Action>, i: nat)
    requires ValidPolicy(blockSize, cap) && Execution(blockSize, cap, states, acts) && i < |states|
    ensures var s := states[i];
            && (forall j, k :: 0 <= j < k < |s.m.ranges| ==> Disjoint(s.m.ranges[j], s.m.ranges[k]))
            && (forall j :: 0 <= j < |s.m.ranges| ==>
                  var r := s.m.ranges[j];
                  && r.chunk < |s.m.chunks| && r.End() <= blockSize
                  && r.layout.align > 0 && r.start % r.layout.align == 0
                  && r.from <= r.start < r.from + r.layout.align)
            && (forall t :: 0 <= t < |s.threads| && s.threads[t].Done? ==> s.threads[t].r in s.m.ranges)
            && |s.m.chunks| * blockSize <= s.allocatedBytes <= cap
            && s.memoryUsed <= SumSizes(s.m.ranges)
  {
    ReachableInv(blockSize, cap, states, acts, i);
    var s := states[i];
    RangesDisjoint(s.m);
    forall j | 0 <= j < |s.m.ranges|
      ensures RangeOk(s.m, s.m.ranges[j]) && s.m.ranges[j].layout.align > 0
    {
      assert RangeOk(s.m, s.m.ranges[j]);
    }
    forall t | 0 <= t < |s.threads| && s.threads[t].Done? ensures s.threads[t].r in s.m.ranges {
      assert PcOk(s.m, s.threads[t]);
    }
    assert (|s.m.chunks| + 1) * blockSize == |s.m.chunks| * blockSize + blockSize;
  }

  predicate Holds(pc: Pc) { pc.Account? || pc.Done? }

  ghost predicate OwnersOk(s: State) {
    forall t, u :: 0 <= t < |s.threads| && 0 <= u < |s.threads| && t != u && Holds(s.threads[t]) && Holds(s.threads[u]) ==>
      Disjoint(s.threads[t].r, s.threads[u].r)
  }

  lemma TakenKeepsOwners(s: State, t: nat)
    requires Inv(s) && OwnersOk(s)
    requires t < |s.threads| && s.threads[t].Swing? && Bump(s.m, s.threads[t].chunk) == s.threads[t].bump
    ensures OwnersOk(Taken(s, t))
  {
    var s' := Taken(s, t);
    TakenMemoryOk(s, t);
    RangesDisjoint(s'.m);
    var n := |s.m.ranges|;
    forall u | 0 <= u < |s.threads| && u != t && Holds(s.threads[u])
      ensures Disjoint(s'.threads[u].r, s'.threads[t].r)
    {
      assert PcOk(s.m, s.threads[u]);
      var i :| 0 <= i < n && s.m.ranges[i] == s.threads[u].r;
      assert s'.m.ranges[i] == s'.threads[u].r && s'.m.ranges[n] == s'.threads[t].r;
    }
  }

  predicate Takes(s: State, act: Action)
    requires Enabled(s, act)
  {
    && act.Continue? && s.threads[act.t].Swing? && !act.spurious
    && Bump(s.m, s.threads[act.t].chunk) == s.threads[act.t].bump
  }

  /** Only a successful swing gives a thread memory it did not hold. */
  lemma HeldBefore(s: State, act: Action, u: nat)
    requires Enabled(s, act) && u < |s.threads| && !(Takes(s, act) && u == act.t)
    requires |Next(s, act).threads| == |s.threads| && Holds(Next(s, act).threads[u])
    ensures Holds(s.threads[u]) && s.threads[u].r == Next(s, act).threads[u].r
  {
    var s' := Next(s, act);
    if act.Continue? {
      if u == act.t { assert Holds(ContinueStep(s, u, act.spurious).threads[u]); }
    }
  }

  lemma NextKeepsOwners(s: State, act: Action)
    requires Inv(s) && OwnersOk(s) && Enabled(s, act)
    ensures OwnersOk(Next(s, act))
  {
    var s' := Next(s, act);
    if Takes(s, act) {
      TakenKeepsOwners(s, act.t);
    } else {
      assert |s'.threads| == |s.threads|;
      forall t, u | 0 <= t < |s'.threads| && 0 <= u < |s'.threads| && t != u && Holds(s'.threads[t]) && Holds(s'.threads[u])
        ensures Disjoint(s'.threads[t].r, s'.threads[u].r)
      {
        HeldBefore(s, act, t);
        HeldBefore(s, act, u);
      }
    }
  }

  /** Over every run, no two threads hold overlapping memory at the same time. */
  lemma {:induction false} OwnersDisjoint(blockSize: nat, cap: nat, states: seq<State>, acts: seq<Action>, i: nat)
    requires ValidPolicy(blockSize, cap) && Execution(blockSize, cap, states, acts) && i < |states|
    ensures OwnersOk(states[i])
  {
    if i > 0 {
      OwnersDisjoint(blockSize, cap, states, acts, i - 1);
      ReachableInv(blockSize, cap, states, acts, i - 1);
      NextKeepsOwners(states[i - 1], acts[i - 1]);
    }
  }

  /** A thread is told the arena is full only when the cap leaves no room for another chunk. */
  lemma FullMeansCapReached(s: State, t: nat)
    requires Inv(s) && t < |s.threads| && s.threads[t].CheckCap?
    ensures ContinueStep(s, t, false).threads[t].UnlockFull? <==> |s.m.chunks| >= s.m.cap / s.m.blockSize
  {
    ChunkCount(|s.m.chunks|, s.m.blockSize, s.m.cap);
  }
}
