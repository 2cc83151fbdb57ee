/** The packed head/tail word of the batch queue: two 32-bit counters in one 64-bit word, and the unbounded
    counters they stand for. */
module HeadTail {
  import opened Bits

  const WORD32: nat := 0x1_0000_0000
  const WORD64: nat := 0x1_0000_0000_0000_0000
  const MAX_QUEUE: nat := 1024

  function Pack(head: nat, tail: nat): nat {
    Or(ShiftLeft(head, 32), And(tail, WORD32 - 1))
  }

  function Head(word: nat): nat { And(ShiftRight(word, 32), WORD32 - 1) }

  function Tail(word: nat): nat { And(word, WORD32 - 1) }

  /** `wrapping_add` on 32-bit words. */
  function WrappingAdd(x: nat, y: nat): nat { (x + y) % WORD32 }

  /** `fetch_add` of 1 << 32 on the 64-bit word. */
  function BumpHead(word: nat): nat { (word + ShiftLeft(1, 32)) % WORD64 }

  function SlotIndex(counter: nat, n: nat): nat
    requires n > 0
  {
    And(counter, n - 1)
  }

  predicate QueueSize(n: nat) { IsPowerOfTwo(n) && n <= MAX_QUEUE }

  /** The word that holds the logical counters h and t. */
  function Word(h: nat, t: nat): nat { (h % WORD32) * WORD32 + t % WORD32 }

  lemma PackValue(head: nat, tail: nat)
    requires head < WORD32 && tail < WORD32
    ensures Pack(head, tail) == head * WORD32 + tail
    ensures Head(Pack(head, tail)) == head && Tail(Pack(head, tail)) == tail
  {
    PackSum(head, tail);
    PartsOfSum(head, tail, head * WORD32 + tail);
  }

  lemma PackSum(head: nat, tail: nat)
    requires tail < WORD32
    ensures Pack(head, tail) == head * WORD32 + tail
  {
    LowWordSmall(tail);
    ShiftedOr(head, And(tail, WORD32 - 1));
  }

  lemma LowWordSmall(x: nat)
    requires x < WORD32
    ensures And(x, WORD32 - 1) == x
  {
    LowWord(x);
  }

  lemma LowWord(x: nat)
    ensures And(x, WORD32 - 1) == x % WORD32
  {
    WordPowers();
    AndMask(x, 32);
  }

  lemma ShiftedOr(head: nat, tail: nat)
    requires tail < WORD32
    ensures Or(ShiftLeft(head, 32), tail) == head * WORD32 + tail
  {
    WordPowers();
    OrDisjoint(head, tail, 32);
  }

  lemma PartsOfSum(head: nat, tail: nat, w: nat)
    requires head < WORD32 && tail < WORD32 && w == head * WORD32 + tail
    ensures Head(w) == head && Tail(w) == tail
  {
    WordPowers();
    DivModUnique(w, WORD32, head, tail);
    assert ShiftRight(w, 32) == head;
    LowWord(w);
    LowWordSmall(head);
  }

  /** The word is the two counters packed, and unpacking gives back both modulo 2^32. */
  lemma WordParts(h: nat, t: nat)
    ensures Word(h, t) == Pack(h % WORD32, t % WORD32)
    ensures Head(Word(h, t)) == h % WORD32 && Tail(Word(h, t)) == t % WORD32
  {
    PackValue(h % WORD32, t % WORD32);
  }

  lemma ModSucc(x: nat, m: nat)
    requires m > 1
    ensures (x + 1) % m == if x % m == m - 1 then 0 else x % m + 1
  {
    if x % m == m - 1 {
      DivModUnique(x + 1, m, x / m + 1, 0);
    } else {
      DivModUnique(x + 1, m, x / m, x % m + 1);
    }
  }

  lemma OneShifted()
    ensures ShiftLeft(1, 32) == WORD32
  {
    WordPowers();
  }

  lemma AddToHead(head: nat, tail: nat)
    requires head < WORD32 && tail < WORD32
    ensures (head * WORD32 + tail + WORD32) % WORD64 == (if head == WORD32 - 1 then 0 else head + 1) * WORD32 + tail
  {
    var w := head * WORD32 + tail + WORD32;
    if head == WORD32 - 1 {
      assert w == 1 * WORD64 + tail;
      DivModUnique(w, WORD64, 1, tail);
    } else {
      assert w < WORD64;
    }
  }

  /** Adding 1 << 32 advances the head alone, across wrap-around of either counter. */
  lemma BumpHeadAdvances(h: nat, t: nat)
    ensures BumpHead(Word(h, t)) == Word(h + 1, t)
  {
    OneShifted();
    ModSucc(h, WORD32);
    AddToHead(h % WORD32, t % WORD32);
  }

  /** Repacking with the tail advanced by one advances the tail alone. */
  lemma RepackAdvancesTail(h: nat, t: nat)
    ensures Pack(Head(Word(h, t)), WrappingAdd(Tail(Word(h, t)), 1)) == Word(h, t + 1)
  {
    WordParts(h, t);
    WordParts(h, t + 1);
    AddOneWraps(t);
  }

  lemma AddOneWraps(t: nat)
    ensures WrappingAdd(t % WORD32, 1) == (t + 1) % WORD32
  {
    ModSucc(t, WORD32);
  }

  /** Masking a counter with n - 1 is the logical position modulo n. */
  lemma MaskIsModulo(c: nat, n: nat)
    requires QueueSize(n)
    ensures SlotIndex(c % WORD32, n) == c % n
  {
    var k := PowerOfTwoExponent(n);
    AndMask(c % WORD32, k);
    assert Pow2(11) == 2048;
    if k > 10 { Pow2Monotone(11, k); }
    WordPowers();
    Pow2Add(32 - k, k);
    ModOfMod(c, Pow2(32 - k), n);
  }

  lemma ModOfMod(c: nat, m: nat, n: nat)
    requires m > 0 && n > 0 && m * n > 0
    ensures (c % (m * n)) % n == c % n
  {
    var q, r := c / (m * n), c % (m * n);
    assert q * (m * n) == (q * m) * n;
    assert c == (q * m) * n + r;
    assert r == (r / n) * n + r % n;
    assert (q * m) * n + (r / n) * n == (q * m + r / n) * n;
    DivModUnique(c, n, q * m + r / n, r % n);
  }

  lemma ModShift(x: nat, y: nat, m: nat)
    requires 0 < m && x <= y < x + m
    ensures x % m == y % m <==> x == y
  {
    var q, r, e := x / m, x % m, y - x;
    if r + e < m {
      DivModUnique(y, m, q, r + e);
    } else {
      DivModUnique(y, m, q + 1, r + e - m);
    }
  }

  /** Counters less than n apart use different slots. */
  lemma SlotsDiffer(i: nat, j: nat, n: nat)
    requires n > 0 && i < j < i + n
    ensures i % n != j % n
  {
    ModShift(i, j, n);
  }

  /** Counters n apart use the same slot. */
  lemma SlotAgain(i: nat, n: nat)
    requires n > 0
    ensures (i + n) % n == i % n
  {
    DivModUnique(i + n, n, i / n + 1, i % n);
  }

  /** The wrapping full test is exact while at most n batches are queued. */
  lemma FullTestExact(h: nat, t: nat, n: nat)
    requires n < WORD32 && t <= h <= t + n
    ensures WrappingAdd(t % WORD32, n) == h % WORD32 <==> h == t + n
  {
    assert WrappingAdd(t % WORD32, n) == (t + n) % WORD32 by {
      var q, r := (t % WORD32 + n) / WORD32, (t % WORD32 + n) % WORD32;
      DivModUnique(t + n, WORD32, t / WORD32 + q, r);
    }
    ModShift(h, t + n, WORD32);
  }

  /** The empty test is exact while at most n batches are queued. */
  lemma EmptyTestExact(h: nat, t: nat, n: nat)
    requires n < WORD32 && t <= h <= t + n
    ensures h % WORD32 == t % WORD32 <==> h == t
  {
    ModShift(t, h, WORD32);
  }

  /** Within 2^32 dequeues two equal words hold equal counters. */
  lemma WordInjective(h0: nat, t0: nat, h1: nat, t1: nat, n: nat)
    requires n < WORD32 && t0 <= h0 <= t0 + n && t1 <= h1 <= t1 + n && h0 <= h1
    requires t0 <= t1 < t0 + WORD32
    ensures Word(h0, t0) == Word(h1, t1) <==> h0 == h1 && t0 == t1
  {
    if Word(h0, t0) == Word(h1, t1) {
      WordParts(h0, t0);
      WordParts(h1, t1);
      ModShift(t0, t1, WORD32);
      ModShift(h0, h1, WORD32);
    }
  }

  /** A word repeats after exactly 2^32 enqueues and dequeues. */
  lemma WordRepeats(h: nat, t: nat)
    ensures Word(h + WORD32, t + WORD32) == Word(h, t)
  {
    DivModUnique(h + WORD32, WORD32, h / WORD32 + 1, h % WORD32);
    DivModUnique(t + WORD32, WORD32, t / WORD32 + 1, t % WORD32);
  }
}
