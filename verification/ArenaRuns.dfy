/** What a thread is told by the concurrent arena, and what an allocation comes to that nobody disturbs. */
module ArenaRuns {
  import opened Arena
  import opened ConcurrentArena
  import opened Runs

  // ---- When the arena is reported full ----

  lemma MultiplesApart(x: int, y: int, a: int)
    requires a > 0 && x % a == 0 && y % a == 0 && x > y
    ensures x >= y + a
  {
    var p, q := x / a, y / a;
    assert x == a * p && y == a * q;
    assert p > q;
    assert a * p == a * q + a + a * (p - q - 1);
    assert a * (p - q - 1) >= 0;
  }

  lemma RoundUpMonotone(b: nat, b': nat, a: nat)
    requires a > 0 && b <= b'
    ensures RoundUp(b, a) <= RoundUp(b', a)
  {
    RoundUpBounds(b, a);
    RoundUpBounds(b', a);
    if RoundUp(b, a) > RoundUp(b', a) { MultiplesApart(RoundUp(b, a), RoundUp(b', a), a); }
  }

  lemma OverflowStays(b: nat, b': nat, l: Layout, len: nat)
    requires ValidLayout(l) && b <= b' && AlignmentCheck(b, l, len).Overflow?
    ensures AlignmentCheck(b', l, len).Overflow?
  {
    RoundUpMonotone(b, b', l.align);
  }

  /** The layout does not fit the current chunk. */
  predicate NoRoom(m: Memory, l: Layout) {
    m.current < |m.chunks| && AlignmentCheck(m.chunks[m.current].bump, l, m.blockSize).Overflow?
  }

  /** There are as many chunks as the cap allows. */
  predicate CapReached(m: Memory) {
    m.blockSize > 0 && |m.chunks| >= m.cap / m.blockSize
  }

  predicate ToldFull(pc: Pc) { pc.UnlockFull? || pc.Full? }

  predicate Growing(pc: Pc) { pc.Grow? || pc.Push? || pc.Publish? }

  /** What a thread inside `try_new_chunk` knows of the memory, and one that was told the arena is full. */
  ghost predicate Knows(m: Memory, pc: Pc) {
    && (pc.RecheckBump? ==> pc.chunk == m.current)
    && (pc.RecheckFit? ==> m.current < |m.chunks| && pc.bump <= m.chunks[m.current].bump)
    && (pc.CheckCap? ==> NoRoom(m, pc.l))
    && (ToldFull(pc) ==> NoRoom(m, pc.l) && CapReached(m))
    && (!pc.Idle? ==> (pc.Oversize? <==> LayoutOf(pc).size > m.blockSize))
  }

  ghost predicate AllKnow(s: State) {
    forall t :: 0 <= t < |s.threads| ==> Knows(s.m, s.threads[t])
  }

  /** Once a thread was told the arena is full, no chunk is on its way. */
  ghost predicate NoneGrowing(s: State) {
    forall t, u :: 0 <= t < |s.threads| && 0 <= u < |s.threads| && ToldFull(s.threads[t]) ==> !Growing(s.threads[u])
  }

  /** Bumps go up and chunks are added, while the current chunk stays. */
  ghost predicate Fills(m: Memory, m': Memory) {
    && m'.blockSize == m.blockSize && m'.cap == m.cap && m'.current == m.current
    && |m.chunks| <= |m'.chunks|
    && (forall c :: 0 <= c < |m.chunks| ==> m.chunks[c].bump <= m'.chunks[c].bump)
  }

  lemma KnowsStays(m: Memory, m': Memory, pc: Pc)
    requires Knows(m, pc) && Fills(m, m') && (pc.Idle? || ValidLayout(LayoutOf(pc)))
    ensures Knows(m', pc)
  {
    if pc.CheckCap? || ToldFull(pc) {
      OverflowStays(m.chunks[m.current].bump, m'.chunks[m.current].bump, pc.l, m.blockSize);
    }
  }

  lemma OthersKnow(s: State, t: nat, s': State)
    requires Inv(s) && AllKnow(s) && t < |s.threads| == |s'.threads| && s'.threads == s.threads[t := s'.threads[t]]
    requires Fills(s.m, s'.m) && Knows(s'.m, s'.threads[t])
    ensures AllKnow(s')
  {
    forall u | 0 <= u < |s'.threads| ensures Knows(s'.m, s'.threads[u]) {
      if u != t {
        assert PcOk(s.m, s.threads[u]);
        KnowsStays(s.m, s'.m, s.threads[u]);
      }
    }
  }

  /** Making a chunk current concerns no other thread: none is inside the mutex, and none was told the arena is
      full. */
  lemma PublishKnows(s: State, t: nat)
    requires Inv(s) && AllKnow(s) && NoneGrowing(s) && t < |s.threads| && s.threads[t].Publish?
    ensures AllKnow(ContinueStep(s, t, false))
  {
    var s' := ContinueStep(s, t, false);
    assert HasMutex(s.threads[t]) && Growing(s.threads[t]);
    OnlyOwner(s, t);
    forall u | 0 <= u < |s'.threads| ensures Knows(s'.m, s'.threads[u]) {
      assert Knows(s.m, s.threads[u]);
      assert u != t ==> !HasMutex(s.threads[u]) && !ToldFull(s.threads[u]);
    }
  }

  lemma SwingFills(s: State, t: nat)
    requires Inv(s) && t < |s.threads| && s.threads[t].Swing? && Bump(s.m, s.threads[t].chunk) == s.threads[t].bump
    ensures Fills(s.m, Taken(s, t).m)
  {
    assert PcOk(s.m, s.threads[t]);
    RoundUpBounds(s.threads[t].bump, s.threads[t].l.align);
  }

  lemma SwingKnows(s: State, t: nat, spurious: bool)
    requires Inv(s) && AllKnow(s) && t < |s.threads| && s.threads[t].Swing?
    ensures AllKnow(ContinueStep(s, t, spurious))
  {
    assert Knows(s.m, s.threads[t]);
    if Bump(s.m, s.threads[t].chunk) == s.threads[t].bump && !spurious {
      SwingFills(s, t);
      OthersKnow(s, t, Taken(s, t));
    } else {
      OthersKnow(s, t, ContinueStep(s, t, spurious));
    }
  }

  lemma RecheckKnows(s: State, t: nat)
    requires Inv(s) && AllKnow(s) && t < |s.threads| && s.threads[t].RecheckFit?
    ensures AllKnow(ContinueStep(s, t, false))
  {
    var pc := s.threads[t];
    assert Knows(s.m, pc) && PcOk(s.m, pc);
    if AlignmentCheck(pc.bump, pc.l, s.m.blockSize).Overflow? {
      OverflowStays(pc.bump, s.m.chunks[s.m.current].bump, pc.l, s.m.blockSize);
    }
    OthersKnow(s, t, ContinueStep(s, t, false));
  }

  lemma CheckCapDecides(s: State, t: nat)
    requires Inv(s) && t < |s.threads| && s.threads[t].CheckCap?
    ensures ContinueStep(s, t, false).threads[t] ==
            if CapReached(s.m) then UnlockFull(s.threads[t].l) else Grow(s.threads[t].l)
  {
    assert HasMutex(s.threads[t]);
    assert Unpushed(s) == 0;
    ChunkCount(|s.m.chunks|, s.m.blockSize, s.m.cap);
  }

  lemma LocalKnows(s: State, t: nat, pc': Pc)
    requires Inv(s) && AllKnow(s) && t < |s.threads| && Knows(s.m, pc')
    ensures AllKnow(Set(s, t, pc'))
  {
    OthersKnow(s, t, Set(s, t, pc'));
  }

  lemma ContinueKnows(s: State, t: nat, spurious: bool)
    requires Inv(s) && AllKnow(s) && NoneGrowing(s) && Enabled(s, Continue(t, spurious))
    ensures AllKnow(ContinueStep(s, t, spurious))
  {
    var pc, s' := s.threads[t], ContinueStep(s, t, spurious);
    assert Knows(s.m, pc) && PcOk(s.m, pc);
    if pc.Swing? {
      SwingKnows(s, t, spurious);
    } else if pc.RecheckFit? {
      RecheckKnows(s, t);
    } else if pc.CheckCap? {
      CheckCapDecides(s, t);
      LocalKnows(s, t, s'.threads[t]);
    } else if pc.Publish? {
      PublishKnows(s, t);
    } else {
      PlainKnows(s, t, spurious);
    }
  }

  lemma PlainKnows(s: State, t: nat, spurious: bool)
    requires Inv(s) && AllKnow(s) && Enabled(s, Continue(t, spurious))
    requires var pc := s.threads[t]; !pc.Swing? && !pc.RecheckFit? && !pc.CheckCap? && !pc.Publish?
    ensures AllKnow(ContinueStep(s, t, spurious))
  {
    var s' := ContinueStep(s, t, spurious);
    assert Knows(s.m, s.threads[t]);
    PlainStep(s, t, spurious);
    OthersKnow(s, t, s');
  }

  lemma PlainStep(s: State, t: nat, spurious: bool)
    requires MemoryOk(s.m) && Enabled(s, Continue(t, spurious)) && Knows(s.m, s.threads[t])
    requires var pc := s.threads[t]; !pc.Swing? && !pc.RecheckFit? && !pc.CheckCap? && !pc.Publish?
    ensures var s' := ContinueStep(s, t, spurious); Fills(s.m, s'.m) && Knows(s'.m, s'.threads[t])
    ensures |ContinueStep(s, t, spurious).threads| == |s.threads|
    ensures ContinueStep(s, t, spurious).threads == s.threads[t := ContinueStep(s, t, spurious).threads[t]]
  {
    OneThreadMoves(s, t, spurious);
  }

  lemma OneThreadMoves(s: State, t: nat, spurious: bool)
    requires t < |s.threads|
    ensures |ContinueStep(s, t, spurious).threads| == |s.threads|
    ensures ContinueStep(s, t, spurious).threads == s.threads[t := ContinueStep(s, t, spurious).threads[t]]
  {
  }

  lemma ContinueNoneGrowing(s: State, t: nat, spurious: bool)
    requires Inv(s) && AllKnow(s) && NoneGrowing(s) && Enabled(s, Continue(t, spurious))
    ensures NoneGrowing(ContinueStep(s, t, spurious))
  {
    if s.threads[t].CheckCap? { CheckCapNoneGrowing(s, t); } else { OnlyCheckCapTurns(s, t, spurious); }
  }

  /** No other step starts a chunk or tells a thread that the arena is full. */
  lemma OnlyCheckCapTurns(s: State, t: nat, spurious: bool)
    requires t < |s.threads| && !s.threads[t].CheckCap?
    ensures var s' := ContinueStep(s, t, spurious);
            && |s'.threads| == |s.threads| && s'.threads == s.threads[t := s'.threads[t]]
            && (ToldFull(s'.threads[t]) ==> ToldFull(s.threads[t]))
            && (Growing(s'.threads[t]) ==> Growing(s.threads[t]))
  {
  }

  lemma CheckCapNoneGrowing(s: State, t: nat)
    requires Inv(s) && AllKnow(s) && NoneGrowing(s) && t < |s.threads| && s.threads[t].CheckCap?
    ensures NoneGrowing(ContinueStep(s, t, false))
  {
    assert HasMutex(s.threads[t]);
    OnlyOwner(s, t);
    CheckCapDecides(s, t);
    if CapReached(s.m) {
      assert forall u :: 0 <= u < |s.threads| ==> !Growing(s.threads[u]);
    } else {
      forall u | 0 <= u < |s.threads| ensures !ToldFull(s.threads[u]) {
        assert Knows(s.m, s.threads[u]);
      }
    }
  }

  ghost predicate FullOk(s: State) { AllKnow(s) && NoneGrowing(s) }

  lemma NextFullOk(s: State, act: Action)
    requires Inv(s) && FullOk(s) && Enabled(s, act)
    ensures FullOk(Next(s, act))
  {
    match act
    case Begin(t, l) => LocalKnows(s, t, Next(s, act).threads[t]);
    case Continue(t, spurious) =>
      ContinueKnows(s, t, spurious);
      ContinueNoneGrowing(s, t, spurious);
    case Finish(t) => LocalKnows(s, t, Idle);
    case ResetArena =>
  }

  lemma {:induction false} ReachableFullOk(blockSize: nat, cap: nat, states: seq<State>, acts: seq<Action>, i: nat)
    requires ValidPolicy(blockSize, cap) && Execution(blockSize, cap, states, acts) && i < |states|
    ensures FullOk(states[i])
  {
    if i > 0 {
      ReachableFullOk(blockSize, cap, states, acts, i - 1);
      ReachableInv(blockSize, cap, states, acts, i - 1);
      NextFullOk(states[i - 1], acts[i - 1]);
    }
  }

  /** In every run a thread that was told the arena is full was told so rightly, and it still is: the layout does not
      fit the current chunk, and there are as many chunks as the cap allows. And a thread is told its layout is
      too large exactly if it is larger than a chunk. */
  lemma ToldRightly(blockSize: nat, cap: nat, states: seq<State>, acts: seq<Action>, i: nat, t: nat)
    requires ValidPolicy(blockSize, cap) && Execution(blockSize, cap, states, acts) && i < |states| && t < |states[i].threads|
    ensures var s := states[i]; var pc := s.threads[t];
            && (pc.Full? ==>
                  && |s.m.chunks| >= cap / blockSize
                  && s.m.current < |s.m.chunks| && AlignmentCheck(s.m.chunks[s.m.current].bump, pc.l, blockSize).Overflow?
                  && AllocNext(s.m, pc.l).1 == ArenaFull)
            && (!pc.Idle? ==> (pc.Oversize? <==> LayoutOf(pc).size > blockSize))
            && (pc.Oversize? ==> AllocNext(s.m, pc.l).1 == TooLarge(pc.l.size))
  {
    ReachableFullOk(blockSize, cap, states, acts, i);
    ReachableInv(blockSize, cap, states, acts, i);
    assert Knows(states[i].m, states[i].threads[t]);
  }

  // ---- An allocation that nobody disturbs ----

  function Step(s: State, act: Action): State {
    if Enabled(s, act) then Next(s, act) else s
  }

  function Mine(t: nat): Action { Continue(t, false) }

  /** The memory and the books after an allocation of l that found room in the current chunk. */
  function Given(s: State, t: nat, l: Layout): State
    requires t < |s.threads| && s.m.current < |s.m.chunks|
  {
    var bump := s.m.chunks[s.m.current].bump;
    var aligned := RoundUp(bump, l.align);
    State(Take(s.m, s.m.current, bump, aligned, l), s.allocatedBytes, s.memoryUsed + l.size, s.mutex,
          s.threads[t := Done(Range(s.m.current, bump, aligned, l))])
  }

  /** One step of a thread from pc to pc', in which base becomes base' apart from the thread itself. */
  lemma Then(s: State, base: State, pc: Pc, base': State, pc': Pc, t: nat)
    requires t < |base.threads| && base'.threads == base.threads
    requires Alone(Enabled, Step, s, Mine(t), Set(base, t, pc))
    requires Enabled(Set(base, t, pc), Mine(t))
    requires ContinueStep(Set(base, t, pc), t, false) == Set(base'.(threads := base.threads[t := pc]), t, pc')
    ensures Alone(Enabled, Step, s, Mine(t), Set(base', t, pc'))
  {
    assert base.threads[t := pc][t := pc'] == base.threads[t := pc'];
    AloneThen(Enabled, Step, s, Mine(t), Set(base, t, pc), Set(base', t, pc'));
  }

  lemma Start(s: State, t: nat)
    requires t < |s.threads|
    ensures Alone(Enabled, Step, s, Mine(t), Set(s, t, s.threads[t]))
  {
    assert s.threads[t := s.threads[t]] == s.threads;
    AloneSelf(Enabled, Step, s, Mine(t));
  }

  /** A thread at the top of the bump loop, with the mutex free. */
  ghost predicate AtTop(s: State, t: nat, l: Layout) {
    && MemoryOk(s.m) && t < |s.threads| && s.threads[t] == LoadChunk(l) && s.mutex.Free?
    && ValidLayout(l) && l.size <= s.m.blockSize
  }

  lemma FitAlone(s: State, t: nat, l: Layout)
    requires AtTop(s, t, l) && !NoRoom(s.m, l)
    ensures Alone(Enabled, Step, s, Mine(t), Given(s, t, l))
  {
    var chunk, bump := s.m.current, s.m.chunks[s.m.current].bump;
    var aligned := RoundUp(bump, l.align);
    var swing, account := Swing(l, chunk, bump, aligned, aligned + l.size), Account(Range(chunk, bump, aligned, l));
    var taken := s.(m := Take(s.m, chunk, bump, aligned, l));
    Start(s, t);
    Then(s, s, LoadChunk(l), s, LoadBump(l, chunk), t);
    Then(s, s, LoadBump(l, chunk), s, CheckFit(l, chunk, bump), t);
    Then(s, s, CheckFit(l, chunk, bump), s, swing, t);
    Then(s, s, swing, taken, account, t);
    Then(s, taken, account, taken.(memoryUsed := s.memoryUsed + l.size), Done(account.r), t);
  }

  /** A thread that saw no room, waiting for the mutex. */
  lemma OverflowAlone(s: State, t: nat, l: Layout)
    requires AtTop(s, t, l) && NoRoom(s.m, l)
    ensures Alone(Enabled, Step, s, Mine(t), Set(s, t, LockChunks(l)))
  {
    var chunk, bump := s.m.current, s.m.chunks[s.m.current].bump;
    Start(s, t);
    Then(s, s, LoadChunk(l), s, LoadBump(l, chunk), t);
    Then(s, s, LoadBump(l, chunk), s, CheckFit(l, chunk, bump), t);
    Then(s, s, CheckFit(l, chunk, bump), s, LockChunks(l), t);
  }

  lemma RecheckAlone(s: State, t: nat, l: Layout)
    requires AtTop(s, t, l) && NoRoom(s.m, l)
    ensures Alone(Enabled, Step, Set(s, t, LockChunks(l)), Mine(t), Set(s.(mutex := OwnedBy(t)), t, CheckCap(l)))
  {
    var chunk, bump := s.m.current, s.m.chunks[s.m.current].bump;
    var s0, o := Set(s, t, LockChunks(l)), s.(mutex := OwnedBy(t));
    AloneSelf(Enabled, Step, s0, Mine(t));
    Then(s0, s, LockChunks(l), o, Recheck(l), t);
    Then(s0, o, Recheck(l), o, RecheckBump(l, chunk), t);
    Then(s0, o, RecheckBump(l, chunk), o, RecheckFit(l, bump), t);
    Then(s0, o, RecheckFit(l, bump), o, CheckCap(l), t);
  }

  /** The arena with a fresh chunk made current, and the thread at the top of the loop again. */
  function Grown(s: State, t: nat, l: Layout): State
    requires t < |s.threads|
  {
    Set(s.(m := AddChunk(s.m).(current := |s.m.chunks|), allocatedBytes := s.allocatedBytes + s.m.blockSize), t, LoadChunk(l))
  }

  ghost predicate AtCap(s: State, t: nat, l: Layout) {
    && MemoryOk(s.m) && t < |s.threads| && s.mutex.Free? && s.allocatedBytes == |s.m.chunks| * s.m.blockSize
  }

  lemma CapDecides(s: State, t: nat, l: Layout)
    requires AtCap(s, t, l)
    ensures CapReached(s.m) <==> s.allocatedBytes + s.m.blockSize > s.m.cap
  {
    ChunkCount(|s.m.chunks|, s.m.blockSize, s.m.cap);
  }

  lemma GrowAlone(s: State, t: nat, l: Layout)
    requires AtCap(s, t, l) && !CapReached(s.m)
    ensures Alone(Enabled, Step, Set(s.(mutex := OwnedBy(t)), t, CheckCap(l)), Mine(t), Grown(s, t, l))
  {
    CapDecides(s, t, l);
    var o := s.(mutex := OwnedBy(t));
    var paid := o.(allocatedBytes := s.allocatedBytes + s.m.blockSize);
    var pushed := paid.(m := AddChunk(s.m));
    var s0 := Set(o, t, CheckCap(l));
    AloneSelf(Enabled, Step, s0, Mine(t));
    Then(s0, o, CheckCap(l), o, Grow(l), t);
    Then(s0, o, Grow(l), paid, Push(l), t);
    Then(s0, paid, Push(l), pushed, Publish(l), t);
    PublishAlone(s0, s, t, l);
  }

  lemma PublishAlone(s0: State, s: State, t: nat, l: Layout)
    requires t < |s.threads| && s.mutex.Free?
    requires var pushed := s.(mutex := OwnedBy(t), allocatedBytes := s.allocatedBytes + s.m.blockSize, m := AddChunk(s.m));
             Alone(Enabled, Step, s0, Mine(t), Set(pushed, t, Publish(l)))
    ensures Alone(Enabled, Step, s0, Mine(t), Grown(s, t, l))
  {
    var pushed := s.(mutex := OwnedBy(t), allocatedBytes := s.allocatedBytes + s.m.blockSize, m := AddChunk(s.m));
    var published := pushed.(m := AddChunk(s.m).(current := |s.m.chunks|));
    Then(s0, pushed, Publish(l), published, Unlock(l), t);
    Then(s0, published, Unlock(l), published.(mutex := Free), LoadChunk(l), t);
  }

  lemma FullAlone(s: State, t: nat, l: Layout)
    requires AtCap(s, t, l) && CapReached(s.m)
    ensures Alone(Enabled, Step, Set(s.(mutex := OwnedBy(t)), t, CheckCap(l)), Mine(t), Set(s, t, Full(l)))
  {
    CapDecides(s, t, l);
    var o := s.(mutex := OwnedBy(t));
    var s0 := Set(o, t, CheckCap(l));
    AloneSelf(Enabled, Step, s0, Mine(t));
    Then(s0, o, CheckCap(l), o, UnlockFull(l), t);
    Then(s0, o, UnlockFull(l), s, Full(l), t);
  }

  /** A thread at the top of the loop that nobody disturbs does what the one-thread code does: memory and answer
      are those of `AllocNext`, and the books follow. */
  lemma AllocAlone(s: State, t: nat, l: Layout) returns (last: State)
    requires Inv(s) && t < |s.threads| && s.threads[t] == LoadChunk(l) && s.mutex.Free? && l.size <= s.m.blockSize
    ensures Alone(Enabled, Step, s, Mine(t), last)
    ensures last.m == AllocNext(s.m, l).0 && last.mutex.Free?
    ensures match AllocNext(s.m, l).1
            case Allocated(r) => last.threads == s.threads[t := Done(r)] && last.memoryUsed == s.memoryUsed + l.size
            case ArenaFull => last.threads == s.threads[t := Full(l)] && last.memoryUsed == s.memoryUsed
            case TooLarge(_) => false
    ensures last.allocatedBytes == |last.m.chunks| * s.m.blockSize
  {
    assert PcOk(s.m, s.threads[t]);
    assert Unpushed(s) == 0;
    if !NoRoom(s.m, l) {
      last := Given(s, t, l);
      FitAlone(s, t, l);
    } else {
      OverflowAlone(s, t, l);
      RecheckAlone(s, t, l);
      var asked := Set(s.(mutex := OwnedBy(t)), t, CheckCap(l));
      AloneTransitive(Enabled, Step, s, Mine(t), Set(s, t, LockChunks(l)), asked);
      if CapReached(s.m) {
        last := Set(s, t, Full(l));
        FullAlone(s, t, l);
      } else {
        last := AfterGrowing(s, t, l);
      }
      AloneTransitive(Enabled, Step, s, Mine(t), asked, last);
    }
  }

  lemma AfterGrowing(s: State, t: nat, l: Layout) returns (last: State)
    requires AtCap(s, t, l) && NoRoom(s.m, l) && !CapReached(s.m) && ValidLayout(l) && l.size <= s.m.blockSize
    ensures Alone(Enabled, Step, Set(s.(mutex := OwnedBy(t)), t, CheckCap(l)), Mine(t), last)
    ensures last.m == AllocNext(s.m, l).0 && last.mutex.Free? && AllocNext(s.m, l).1.Allocated?
    ensures last.threads == s.threads[t := Done(AllocNext(s.m, l).1.range)] && last.memoryUsed == s.memoryUsed + l.size
    ensures last.allocatedBytes == |last.m.chunks| * s.m.blockSize
  {
    var g := Grown(s, t, l);
    last := Given(g, t, l);
    GrowAlone(s, t, l);
    GrownFits(s, t, l);
    FitAlone(g, t, l);
    AloneTransitive(Enabled, Step, Set(s.(mutex := OwnedBy(t)), t, CheckCap(l)), Mine(t), g, last);
  }

  /** The fresh chunk has room, and what is given from it is what the one-thread code gives. */
  lemma GrownFits(s: State, t: nat, l: Layout)
    requires AtCap(s, t, l) && NoRoom(s.m, l) && !CapReached(s.m) && ValidLayout(l) && l.size <= s.m.blockSize
    ensures var g := Grown(s, t, l);
            && AtTop(g, t, l) && !NoRoom(g.m, l)
            && AllocNext(s.m, l).1.Allocated? && Given(g, t, l).m == AllocNext(s.m, l).0 && Given(g, t, l).mutex.Free?
            && Given(g, t, l).threads == s.threads[t := Done(AllocNext(s.m, l).1.range)]
            && Given(g, t, l).allocatedBytes == |Given(g, t, l).m.chunks| * s.m.blockSize
  {
    var g := Grown(s, t, l);
    AddChunkOk(s.m);
    FreshChunkFits(s.m, l);
    OneChunkMore(|s.m.chunks|, s.m.blockSize);
    assert g.threads[t := Done(AllocNext(s.m, l).1.range)] == s.threads[t := Done(AllocNext(s.m, l).1.range)];
  }

  lemma OneChunkMore(count: nat, blockSize: nat)
    ensures (count + 1) * blockSize == count * blockSize + blockSize
  {
  }
}
