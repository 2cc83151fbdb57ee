/** The bump arena: chunks of equal size, a bump offset in each, and rollover to a fresh chunk under a hard
    cap. Memory is a set of ranges of (chunk, offset). This module holds the memory itself and the
    one-thread code; `ConcurrentArena` interleaves it. */
module Arena {
  import opened Bits

  const ISIZE_MAX: nat := 0x7fff_ffff_ffff_ffff

  datatype Layout = Layout(size: nat, align: nat)

  /** What the layout type guarantees. */
  predicate ValidLayout(l: Layout) {
    IsPowerOfTwo(l.align) && l.size + (l.align - 1) <= ISIZE_MAX
  }

  datatype Chunk = Chunk(len: nat, bump: nat)

  /** A reservation: bytes from - start are padding, start - start + size are the caller's. */
  datatype Range = Range(chunk: nat, from: nat, start: nat, layout: Layout) {
    function End(): nat { start + layout.size }
  }

  /** `ranges` lists what was handed out since the last reset, in order; `retained` is the number of chunks
      there were at that reset. */
  datatype Memory = Memory(
    blockSize: nat, cap: nat,
    chunks: seq<Chunk>, current: nat,
    ranges: seq<Range>, retained: nat)

  predicate ValidPolicy(blockSize: nat, cap: nat) {
    0 < blockSize <= cap <= ISIZE_MAX && cap % blockSize == 0
  }

  /** The next multiple of a from b on. */
  function RoundUp(b: nat, a: nat): nat {
    if a == 0 then b else b + (a - 1) - (b + (a - 1)) % a
  }

  datatype Fit = Overflow | Fits(aligned: nat, next: nat)

  /** `alignment_check`, given the length of the chunk it looks at. */
  function AlignmentCheck(bump: nat, l: Layout, len: nat): Fit {
    var aligned := RoundUp(bump, l.align);
    if aligned + l.size > len then Overflow else Fits(aligned, aligned + l.size)
  }

  /** The mask of `alignment_check` computes that multiple. */
  lemma MaskRoundsUp(bump: nat, l: Layout)
    requires bump <= ISIZE_MAX && ValidLayout(l)
    ensures And(bump + (l.align - 1), Not(l.align - 1, 64)) == RoundUp(bump, l.align)
  {
    var k := PowerOfTwoExponent(l.align);
    WordPowers();
    if k > 64 { Pow2Monotone(64, k); }
    AndComplementMask(bump + (l.align - 1), k, 64);
  }

  /** Rounding up wastes less than the alignment. */
  lemma RoundUpBounds(b: nat, a: nat)
    requires a > 0
    ensures b <= RoundUp(b, a) < b + a && RoundUp(b, a) % a == 0
    ensures b % a == 0 ==> RoundUp(b, a) == b
  {
    var x := b + (a - 1);
    DivModUnique(x - x % a, a, x / a, 0);
    if b % a == 0 {
      DivModUnique(x, a, b / a, a - 1);
    }
  }

  // ---- The memory invariant ----

  ghost predicate RangeOk(m: Memory, r: Range) {
    && ValidLayout(r.layout)
    && r.chunk < |m.chunks|
    && (r.chunk == 0 || r.chunk >= m.retained)
    && r.start % r.layout.align == 0
    && r.from <= r.start < r.from + r.layout.align
    && r.End() <= m.chunks[r.chunk].bump
  }

  /** Chunks that a reset kept are never allocated from again, the first one excepted. */
  ghost predicate MemoryOk(m: Memory) {
    && ValidPolicy(m.blockSize, m.cap)
    && 0 < m.retained <= |m.chunks|
    && m.current < |m.chunks| && (m.current == 0 || m.current >= m.retained)
    && (forall c :: 0 <= c < |m.chunks| ==> m.chunks[c].bump <= m.chunks[c].len == m.blockSize)
    && (forall c :: 0 < c < m.retained ==> m.chunks[c].bump == 0)
    && (forall i :: 0 <= i < |m.ranges| ==> RangeOk(m, m.ranges[i]))
    && (forall i, j :: 0 <= i < j < |m.ranges| && m.ranges[i].chunk == m.ranges[j].chunk ==>
          m.ranges[i].End() <= m.ranges[j].from)
  }

  predicate Disjoint(a: Range, b: Range) {
    a.chunk != b.chunk || a.End() <= b.start || b.End() <= a.start
  }

  /** Any two ranges handed out since the last reset are disjoint and inside their chunks. */
  lemma RangesDisjoint(m: Memory)
    requires MemoryOk(m)
    ensures forall i, j :: 0 <= i < j < |m.ranges| ==> Disjoint(m.ranges[i], m.ranges[j])
    ensures forall i :: 0 <= i < |m.ranges| ==> m.ranges[i].End() <= m.blockSize
  {
    forall i, j | 0 <= i < j < |m.ranges| ensures Disjoint(m.ranges[i], m.ranges[j]) {
      assert RangeOk(m, m.ranges[i]) && RangeOk(m, m.ranges[j]);
    }
    forall i | 0 <= i < |m.ranges| ensures m.ranges[i].End() <= m.blockSize {
      assert RangeOk(m, m.ranges[i]);
    }
  }

  /** A successful compare-and-swap of a chunk's bump. */
  function Take(m: Memory, c: nat, bump: nat, aligned: nat, l: Layout): Memory {
    if c < |m.chunks| then
      m.(chunks := m.chunks[c := m.chunks[c].(bump := aligned + l.size)], ranges := m.ranges + [Range(c, bump, aligned, l)])
    else m
  }

  function AddChunk(m: Memory): Memory {
    m.(chunks := m.chunks + [Chunk(m.blockSize, 0)])
  }

  function Reset(m: Memory): Memory {
    m.(chunks := seq(|m.chunks|, i requires 0 <= i < |m.chunks| => m.chunks[i].(bump := 0)),
       current := 0, ranges := [], retained := |m.chunks|)
  }

  lemma TakeOk(m: Memory, c: nat, l: Layout)
    requires MemoryOk(m) && ValidLayout(l) && c < |m.chunks| && (c == 0 || c >= m.retained)
    requires AlignmentCheck(m.chunks[c].bump, l, m.blockSize).Fits?
    ensures MemoryOk(Take(m, c, m.chunks[c].bump, RoundUp(m.chunks[c].bump, l.align), l))
  {
    var bump := m.chunks[c].bump;
    RoundUpBounds(bump, l.align);
    var m' := Take(m, c, bump, RoundUp(bump, l.align), l);
    forall i | 0 <= i < |m'.ranges| ensures RangeOk(m', m'.ranges[i]) {
      assert i < |m.ranges| ==> m'.ranges[i] == m.ranges[i] && RangeOk(m, m.ranges[i]);
    }
    forall i, j | 0 <= i < j < |m'.ranges| && m'.ranges[i].chunk == m'.ranges[j].chunk
      ensures m'.ranges[i].End() <= m'.ranges[j].from
    {
      assert m'.ranges[i] == m.ranges[i] && RangeOk(m, m.ranges[i]);
    }
  }

  lemma AddChunkOk(m: Memory)
    requires MemoryOk(m)
    ensures MemoryOk(AddChunk(m)) && MemoryOk(AddChunk(m).(current := |m.chunks|))
  {
    var m' := AddChunk(m);
    forall i | 0 <= i < |m'.ranges| ensures RangeOk(m', m'.ranges[i]) {
      assert RangeOk(m, m.ranges[i]);
    }
    forall i | 0 <= i < |m'.ranges| ensures RangeOk(m'.(current := |m.chunks|), m'.ranges[i]) {
      assert RangeOk(m, m.ranges[i]);
    }
  }

  lemma ResetOk(m: Memory)
    requires MemoryOk(m)
    ensures MemoryOk(Reset(m))
  {
  }

  /** A fresh chunk has room for every layout that is not larger than a chunk. */
  lemma FreshChunkFits(m: Memory, l: Layout)
    requires ValidLayout(l) && l.size <= m.blockSize
    ensures AlignmentCheck(0, l, m.blockSize).Fits?
  {
    DivModUnique(0, l.align, 0, 0);
    RoundUpBounds(0, l.align);
  }

  function SumSizes(ranges: seq<Range>): nat {
    if ranges == [] then 0 else SumSizes(ranges[..|ranges| - 1]) + ranges[|ranges| - 1].layout.size
  }

  lemma SumSizesSnoc(ranges: seq<Range>, r: Range)
    ensures SumSizes(ranges + [r]) == SumSizes(ranges) + r.layout.size
  {
    assert (ranges + [r])[..|ranges + [r]| - 1] == ranges;
  }

  lemma ChunkCount(count: nat, blockSize: nat, cap: nat)
    requires blockSize > 0 && cap % blockSize == 0
    ensures count * blockSize + blockSize > cap <==> count >= cap / blockSize
  {
    var n := cap / blockSize;
    assert cap == n * blockSize;
    assert (count + 1) * blockSize == count * blockSize + blockSize;
    if count >= n {
      assert (count - n) * blockSize >= 0;
      assert count * blockSize == (count - n) * blockSize + n * blockSize;
    } else {
      assert (n - count - 1) * blockSize >= 0;
      assert n * blockSize == (n - count - 1) * blockSize + (count + 1) * blockSize;
    }
  }

  // ---- The one-thread code ----

  datatype AllocResult = Allocated(range: Range) | TooLarge(size: nat) | ArenaFull

  /** What one allocation by one thread does to the memory, and what it answers. */
  function AllocNext(m: Memory, l: Layout): (Memory, AllocResult) {
    if m.current >= |m.chunks| || m.blockSize == 0 then (m, ArenaFull)
    else if l.size > m.blockSize then (m, TooLarge(l.size))
    else
      var bump := m.chunks[m.current].bump;
      match AlignmentCheck(bump, l, m.blockSize)
      case Fits(aligned, _) => (Take(m, m.current, bump, aligned, l), Allocated(Range(m.current, bump, aligned, l)))
      case Overflow =>
        if |m.chunks| >= m.cap / m.blockSize then (m, ArenaFull)
        else
          var c, aligned := |m.chunks|, RoundUp(0, l.align);
          (Take(AddChunk(m).(current := c), c, 0, aligned, l), Allocated(Range(c, 0, aligned, l)))
  }

  lemma LastReplaced<T>(a: seq<T>, b: seq<T>, x: T, y: T)
    ensures b == a + [x] ==> b[|a| := y] == a + [y]
  {
  }

  /** What a successful swing of the current chunk's bump does to the memory. */
  lemma TakenView(m: Memory, l: Layout)
    requires MemoryOk(m) && ValidLayout(l) && AlignmentCheck(m.chunks[m.current].bump, l, m.blockSize).Fits?
    ensures var bump := m.chunks[m.current].bump; var fit := AlignmentCheck(bump, l, m.blockSize);
            var m' := Take(m, m.current, bump, fit.aligned, l); var r := Range(m.current, bump, fit.aligned, l);
            && MemoryOk(m') && m'.ranges == m.ranges + [r] && |m'.chunks| == |m.chunks|
            && m'.chunks == m.chunks[m.current := Chunk(m.blockSize, r.End())] && fit.next == r.End()
            && SumSizes(m'.ranges) == SumSizes(m.ranges) + l.size
  {
    TakeOk(m, m.current, l);
    var fit := AlignmentCheck(m.chunks[m.current].bump, l, m.blockSize);
    SumSizesSnoc(m.ranges, Range(m.current, m.chunks[m.current].bump, fit.aligned, l));
  }

  class Arena {
    const blockSize: nat
    const cap: nat
    var chunks: seq<Chunk>
    var current: nat
    var allocatedBytes: nat
    var memoryUsed: nat
    ghost var ranges: seq<Range>
    ghost var retained: nat

    ghost function View(): Memory
      reads this
    {
      Memory(blockSize, cap, chunks, current, ranges, retained)
    }

    ghost predicate Valid()
      reads this
    {
      && MemoryOk(View())
      && allocatedBytes == |chunks| * blockSize <= cap
      && memoryUsed == SumSizes(ranges)
    }

    constructor (blockSize: nat, cap: nat)
      requires ValidPolicy(blockSize, cap)
      ensures Valid() && this.blockSize == blockSize && this.cap == cap && ranges == [] && |chunks| == 1
    {
      this.blockSize := blockSize;
      this.cap := cap;
      chunks := [Chunk(blockSize, 0)];
      current := 0;
      allocatedBytes := blockSize;
      memoryUsed := 0;
      ranges := [];
      retained := 1;
    }

    /** `try_new_chunk`: succeeds at once if the layout fits after all, fails when the cap is reached, and
        otherwise makes a fresh chunk current. */
    method TryNewChunk(l: Layout) returns (ok: bool)
      requires Valid() && ValidLayout(l) && l.size <= blockSize
      modifies this`chunks, this`current, this`allocatedBytes
      ensures Valid()
      ensures ok <==> AlignmentCheck(old(chunks[current].bump), l, blockSize).Fits? || old(|chunks|) < cap / blockSize
      ensures ok ==> AlignmentCheck(chunks[current].bump, l, blockSize).Fits?
      ensures View() == if !ok || AlignmentCheck(old(chunks[current].bump), l, blockSize).Fits? then old(View())
                        else AddChunk(old(View())).(current := old(|chunks|))
    {
      var bump := chunks[current].bump;
      if AlignmentCheck(bump, l, chunks[current].len).Fits? {
        return true;
      }
      ChunkCount(|chunks|, blockSize, cap);
      if allocatedBytes + blockSize > cap {
        return false;
      }
      AddChunkOk(View());
      FreshChunkFits(View(), l);
      allocatedBytes := allocatedBytes + blockSize;
      chunks := chunks + [Chunk(blockSize, 0)];
      current := |chunks| - 1;
      assert |chunks| * blockSize == (|chunks| - 1) * blockSize + blockSize;
      return true;
    }

    /** The compare-and-swap of the current chunk's bump, which nothing disturbs here. */
    method BumpCurrent(l: Layout) returns (r: Range)
      requires Valid() && ValidLayout(l)
      requires AlignmentCheck(chunks[current].bump, l, blockSize).Fits?
      modifies this`chunks, this`memoryUsed, this`ranges
      ensures Valid()
      ensures var bump := old(chunks[current].bump);
              && r == Range(current, bump, RoundUp(bump, l.align), l)
              && View() == Take(old(View()), current, bump, RoundUp(bump, l.align), l)
    {
      ghost var m := View();
      TakenView(m, l);
      var bump := chunks[current].bump;
      var fit := AlignmentCheck(bump, l, chunks[current].len);
      r := Range(current, bump, fit.aligned, l);
      chunks := chunks[current := chunks[current].(bump := fit.next)];
      ranges := ranges + [r];
      memoryUsed := memoryUsed + l.size;
      assert chunks == Take(m, current, bump, fit.aligned, l).chunks;
    }

    /** `alloc_raw_fallback`. `AllocAnswers` says what this comes to. */
    method Alloc(l: Layout) returns (r: AllocResult)
      requires Valid() && ValidLayout(l)
      modifies this
      ensures Valid()
      ensures View() == AllocNext(old(View()), l).0 && r == AllocNext(old(View()), l).1
    {
      ghost var m := View();
      if l.size > blockSize {
        return TooLarge(l.size);
      }
      if AlignmentCheck(chunks[current].bump, l, chunks[current].len).Overflow? {
        var ok := TryNewChunk(l);
        if !ok {
          return ArenaFull;
        }
        assert View() == AddChunk(m).(current := |m.chunks|);
      }
      var range := BumpCurrent(l);
      r := Allocated(range);
    }

    /** `reset`: every range is given up, every chunk is kept. */
    method ResetAll()
      requires Valid()
      modifies this
      ensures Valid() && ranges == [] && memoryUsed == 0 && current == 0
      ensures |chunks| == |old(chunks)| == retained && allocatedBytes == old(allocatedBytes)
      ensures forall c :: 0 <= c < |chunks| ==> chunks[c].bump == 0
      ensures View() == Reset(old(View()))
    {
      ghost var before := View();
      ResetOk(before);
      var i := 0;
      while i < |chunks|
        invariant 0 <= i <= |chunks| == |old(chunks)|
        invariant forall c :: 0 <= c < i ==> chunks[c] == old(chunks)[c].(bump := 0)
        invariant forall c :: i <= c < |chunks| ==> chunks[c] == old(chunks)[c]
        invariant allocatedBytes == old(allocatedBytes)
      {
        chunks := chunks[i := chunks[i].(bump := 0)];
        i := i + 1;
      }
      current := 0;
      memoryUsed := 0;
      ranges := [];
      retained := |chunks|;
      assert View() == Reset(before);
    }
  }

  /** A fresh range is added to those handed out, from the current chunk or from one new chunk; or the layout is
      larger than a chunk, or there is no room and no chunk to be had, and nothing changes. */
  lemma AllocAnswers(m: Memory, l: Layout)
    requires MemoryOk(m) && ValidLayout(l)
    ensures var (m', r) := AllocNext(m, l);
            && MemoryOk(m') && m'.retained == m.retained
            && (r.TooLarge? <==> l.size > m.blockSize)
            && (r.ArenaFull? <==>
                  l.size <= m.blockSize && |m.chunks| >= m.cap / m.blockSize &&
                  AlignmentCheck(m.chunks[m.current].bump, l, m.blockSize).Overflow?)
            && (!r.Allocated? ==> m' == m)
            && (r.Allocated? ==>
                  && m'.ranges == m.ranges + [r.range] && r.range.layout == l && r.range.chunk == m'.current
                  && (m'.chunks == m.chunks[m.current := Chunk(m.blockSize, r.range.End())] ||
                      m'.chunks == m.chunks + [Chunk(m.blockSize, r.range.End())])
                  && SumSizes(m'.ranges) == SumSizes(m.ranges) + l.size)
  {
    if l.size <= m.blockSize {
      if AlignmentCheck(m.chunks[m.current].bump, l, m.blockSize).Fits? {
        TakenView(m, l);
      } else if |m.chunks| < m.cap / m.blockSize {
        var m1 := AddChunk(m).(current := |m.chunks|);
        AddChunkOk(m);
        FreshChunkFits(m, l);
        TakenView(m1, l);
        LastReplaced(m.chunks, m1.chunks, Chunk(m.blockSize, 0), AllocNext(m, l).0.chunks[|m.chunks|]);
      }
    }
  }

  // ---- What a reset gives back ----

  /** The memory after n allocations of one layout. */
  function AllocTimes(m: Memory, l: Layout, n: nat): Memory {
    if n == 0 then m else AllocNext(AllocTimes(m, l, n - 1), l).0
  }

  /** A whole chunk's worth of bytes. */
  function Block(m: Memory): Layout { Layout(m.blockSize, 1) }

  /** As many chunks as the cap allows. */
  function FullCapacity(m: Memory): nat
    requires m.blockSize > 0
  {
    m.cap / m.blockSize
  }

  /** The bytes counted against the cap are those of the chunks. */
  lemma WithinCapacity(m: Memory)
    requires MemoryOk(m) && |m.chunks| * m.blockSize <= m.cap
    ensures |m.chunks| <= FullCapacity(m)
  {
    assert (|m.chunks| - 1) * m.blockSize + m.blockSize == |m.chunks| * m.blockSize;
    ChunkCount(|m.chunks| - 1, m.blockSize, m.cap);
  }

  lemma RoundUpToOne(b: nat)
    ensures RoundUp(b, 1) == b
  {
  }

  /** After n blocks the current chunk is full, and all blocks but the first have cost a new chunk. */
  lemma {:induction false} BlocksAfterReset(m: Memory, n: nat)
    requires MemoryOk(m) && n <= FullCapacity(m) - (|m.chunks| - 1)
    ensures var r := AllocTimes(Reset(m), Block(m), n);
            && r.blockSize == m.blockSize && r.cap == m.cap && r.current < |r.chunks|
            && |r.chunks| == |m.chunks| + (if n == 0 then 0 else n - 1)
            && r.chunks[r.current].bump == if n == 0 then 0 else m.blockSize
  {
    if n > 0 {
      BlocksAfterReset(m, n - 1);
      RoundUpToOne(0);
      RoundUpToOne(m.blockSize);
    }
  }

  /** After a reset that keeps k chunks exactly FullCapacity - (k - 1) blocks can be allocated, and then the
      arena is full. */
  lemma BlocksUntilFull(m: Memory, n: nat)
    requires MemoryOk(m) && |m.chunks| * m.blockSize <= m.cap && n <= FullCapacity(m) - (|m.chunks| - 1)
    ensures var answer := AllocNext(AllocTimes(Reset(m), Block(m), n), Block(m)).1;
            if n < FullCapacity(m) - (|m.chunks| - 1) then answer.Allocated? else answer == ArenaFull
  {
    WithinCapacity(m);
    BlocksAfterReset(m, n);
    RoundUpToOne(0);
    RoundUpToOne(m.blockSize);
  }

  /** The arena can again hold as much as a new one. */
  ghost predicate CapacityRestored(m: Memory)
    requires m.blockSize > 0
  {
    forall n: nat :: n < FullCapacity(m) ==> AllocNext(AllocTimes(Reset(m), Block(m), n), Block(m)).1.Allocated?
  }

  /** A reset restores the capacity if and only if there was only one chunk. */
  lemma CapacityRestoredIff(m: Memory)
    requires MemoryOk(m) && |m.chunks| * m.blockSize <= m.cap
    ensures CapacityRestored(m) <==> |m.chunks| == 1
  {
    WithinCapacity(m);
    if |m.chunks| == 1 {
      forall n: nat | n < FullCapacity(m) ensures AllocNext(AllocTimes(Reset(m), Block(m), n), Block(m)).1.Allocated? {
        BlocksUntilFull(m, n);
      }
    } else {
      var n: nat := FullCapacity(m) - (|m.chunks| - 1);
      BlocksUntilFull(m, n);
      assert n < FullCapacity(m) && AllocNext(AllocTimes(Reset(m), Block(m), n), Block(m)).1 == ArenaFull;
    }
  }

  /** A new arena that may have two chunks of eight bytes. */
  const TWO_BLOCKS: Memory := Memory(8, 16, [Chunk(8, 0)], 0, [], 1)

  /** It holds two blocks, and after a reset only one. */
  lemma OneBlockAfterReset()
    ensures var l := Layout(8, 1);
            && AllocNext(TWO_BLOCKS, l).1.Allocated?
            && AllocNext(AllocTimes(TWO_BLOCKS, l, 1), l).1.Allocated?
            && var r := Reset(AllocTimes(TWO_BLOCKS, l, 2));
               && AllocNext(r, l).1.Allocated?
               && AllocNext(AllocTimes(r, l, 1), l).1 == ArenaFull
  {
    var l := Layout(8, 1);
    RoundUpToOne(0);
    RoundUpToOne(8);
    var m1 := AllocTimes(TWO_BLOCKS, l, 1);
    assert m1 == AllocNext(AllocTimes(TWO_BLOCKS, l, 0), l).0;
    assert m1.chunks == [Chunk(8, 8)] && m1.current == 0;
    var m2 := AllocTimes(TWO_BLOCKS, l, 2);
    assert m2.chunks == [Chunk(8, 8), Chunk(8, 8)];
    var r := Reset(m2);
    assert r.chunks == [Chunk(8, 0), Chunk(8, 0)];
    var r1 := AllocTimes(r, l, 1);
    assert r1 == AllocNext(AllocTimes(r, l, 0), l).0;
    assert r1.chunks == [Chunk(8, 8), Chunk(8, 0)] && r1.current == 0;
  }
}
