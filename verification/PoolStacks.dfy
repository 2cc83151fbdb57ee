/** The arrays of the batch pool: a thread's cache and a shard both keep their batches in the initialised
    prefix of a fixed array. These are the loops of one thread, with the shard's mutex held for each access.
    A batch is a number here; `BatchPool` has the states. */
module PoolStacks {
  /** r is s from its end, which is the order in which a stack gives up its elements. */
  ghost predicate Reverses(r: seq<nat>, s: seq<nat>) {
    |r| == |s| && forall i :: 0 <= i < |r| ==> r[i] == s[|s| - 1 - i]
  }

  function Min(a: nat, b: nat): nat { if a < b then a else b }

  /** The turn of a loop that pops: the top of what is left joins what was popped before. */
  lemma PopStep(was: seq<nat>, n: nat, left: seq<nat>, top: nat, popped: seq<nat>)
    requires n <= |was| && was[..n] == left + [top] && Reverses(popped, was[n..])
    ensures n == |left| + 1 && left == was[..n - 1] && top == was[n - 1]
    ensures Reverses(popped + [top], was[n - 1..])
  {
    assert |was[..n]| == |left| + 1;
    assert was[..n] == was[..n - 1] + [was[n - 1]];
    assert was[..n][n - 1] == was[n - 1];
    assert was[n - 1..] == [top] + was[n..];
  }

  class Stack {
    var len: nat
    const batches: array<nat>

    ghost predicate Valid()
      reads this
    {
      len <= batches.Length
    }

    ghost function Contents(): seq<nat>
      requires Valid()
      reads this, batches
    {
      batches[..len]
    }

    constructor (cap: nat)
      ensures Valid() && Contents() == [] && batches.Length == cap && fresh(batches)
    {
      len := 0;
      batches := new nat[cap](_ => 0);
    }

    /** `push`: on top, or nothing changes. */
    method Push(batch: nat) returns (ok: bool)
      requires Valid()
      modifies this`len, batches
      ensures Valid() && ok == (|old(Contents())| < batches.Length)
      ensures Contents() == if ok then old(Contents()) + [batch] else old(Contents())
    {
      if len == batches.Length {
        return false;
      }
      batches[len] := batch;
      len := len + 1;
      return true;
    }

    /** `pop`: the top, if there is one. */
    method Pop() returns (some: bool, batch: nat)
      requires Valid()
      modifies this`len
      ensures Valid() && some == (old(Contents()) != [])
      ensures if some then old(Contents()) == Contents() + [batch] else Contents() == []
    {
      if len == 0 {
        return false, 0;
      }
      len := len - 1;
      return true, batches[len];
    }
  }

  /** Of the spilled batches the shard took as many as it had room for, the first ones; the others were
      dropped. */
  ghost predicate Parted(now: seq<nat>, was: seq<nat>, spilled: seq<nat>, dropped: seq<nat>, cap: nat) {
    now + dropped == was + spilled && |was| <= |now| <= cap && (dropped != [] ==> |now| == cap)
  }

  /** The handler of a spilled batch: `push_to_global`, or drop it. */
  method PushToGlobal(shard: Stack, batch: nat, ghost was: seq<nat>, ghost spilled: seq<nat>, ghost dropped: seq<nat>,
      ghost more: seq<nat>)
    returns (ghost dropped': seq<nat>)
    requires more == spilled + [batch]
    requires shard.Valid() && Parted(shard.Contents(), was, spilled, dropped, shard.batches.Length)
    modifies shard`len, shard.batches
    ensures shard.Valid() && Parted(shard.Contents(), was, more, dropped', shard.batches.Length)
  {
    ghost var before := shard.Contents();
    var ok := shard.Push(batch);
    assert before + (dropped + [batch]) == (before + dropped) + [batch] == was + more;
    dropped' := if ok then dropped else dropped + [batch];
  }

  /** `spill_cache_to_target_retained` with `push_to_global` as its handler: from the top down to one below
      the target, into the shard while it has room; what does not fit is dropped. */
  method Spill(cache: Stack, shard: Stack, target: nat) returns (ghost spilled: seq<nat>, ghost dropped: seq<nat>)
    requires cache.Valid() && shard.Valid() && cache != shard && cache.batches != shard.batches
    requires 0 < target <= |cache.Contents()|
    modifies cache`len, shard`len, shard.batches
    ensures cache.Valid() && shard.Valid()
    ensures cache.Contents() == old(cache.Contents())[..target - 1]
    ensures Reverses(spilled, old(cache.Contents())[target - 1..])
    ensures Parted(shard.Contents(), old(shard.Contents()), spilled, dropped, shard.batches.Length)
  {
    spilled, dropped := [], [];
    ghost var was, shardWas := cache.Contents(), shard.Contents();
    assert was[|was|..] == [];
    while cache.len >= target
      invariant cache.Valid() && shard.Valid() && target - 1 <= cache.len <= |was|
      invariant cache.Contents() == was[..cache.len]
      invariant Reverses(spilled, was[cache.len..])
      invariant Parted(shard.Contents(), shardWas, spilled, dropped, shard.batches.Length)
      decreases cache.len
    {
      ghost var n := cache.len;
      var _, batch := cache.Pop();
      PopStep(was, n, cache.Contents(), batch, spilled);
      assert cache.len == n - 1 == |cache.Contents()|;
      ghost var more := spilled + [batch];
      dropped := PushToGlobal(shard, batch, shardWas, spilled, dropped, more);
      spilled := more;
    }
  }

  /** How many batches `refill_tls_cache` moves from a shard that has this many left. */
  function Hydrated(left: nat, cacheLen: nat, cacheCap: nat): nat {
    Min(left, if cacheLen < cacheCap / 2 then cacheCap / 2 - cacheLen else 0)
  }

  /** The loop of `refill_tls_cache`: the cache takes from the shard until it is half full or the shard is
      empty. Every push fits. */
  method HydrateCache(cache: Stack, shard: Stack) returns (ghost moved: seq<nat>)
    requires cache.Valid() && shard.Valid() && cache != shard && cache.batches != shard.batches
    modifies cache`len, shard`len, cache.batches
    ensures cache.Valid() && shard.Valid()
    ensures var was := old(shard.Contents());
            var n := |was| - Hydrated(|was|, |old(cache.Contents())|, cache.batches.Length);
            shard.Contents() == was[..n] && cache.Contents() == old(cache.Contents()) + moved && Reverses(moved, was[n..])
  {
    ghost var was, cacheWas := shard.Contents(), cache.Contents();
    moved := [];
    assert was[|was|..] == [];
    while cache.len < cache.batches.Length / 2
      invariant cache.Valid() && shard.Valid() && shard.len <= |was|
      invariant shard.Contents() == was[..shard.len]
      invariant cache.Contents() == cacheWas + moved && Reverses(moved, was[shard.len..])
      invariant |was| - shard.len <= Hydrated(|was|, |cacheWas|, cache.batches.Length)
      decreases shard.len
    {
      ghost var n := shard.len;
      var some, next := shard.Pop();
      if !some {
        break;
      }
      PopStep(was, n, shard.Contents(), next, moved);
      var _ := cache.Push(next);
      moved := moved + [next];
    }
  }

  /** `refill_tls_cache`: the shard's top batch is returned, or a new one, and the cache is hydrated. */
  method RefillTlsCache(cache: Stack, shard: Stack, made: nat) returns (batch: nat, ghost moved: seq<nat>)
    requires cache.Valid() && shard.Valid() && cache != shard && cache.batches != shard.batches
    modifies cache`len, shard`len, cache.batches
    ensures cache.Valid() && shard.Valid()
    ensures var was := old(shard.Contents());
            var left := if was == [] then [] else was[..|was| - 1];
            var n := |left| - Hydrated(|left|, |old(cache.Contents())|, cache.batches.Length);
            && batch == (if was == [] then made else was[|was| - 1])
            && shard.Contents() == left[..n] && cache.Contents() == old(cache.Contents()) + moved && Reverses(moved, left[n..])
  {
    var some, top := shard.Pop();
    batch := if some then top else made;
    moved := HydrateCache(cache, shard);
  }

  /** `acquire_object`: the cache's top batch, or with an empty cache the shard's, or a new one. */
  method AcquireObject(cache: Stack, shard: Stack, made: nat) returns (batch: nat, ghost moved: seq<nat>)
    requires cache.Valid() && shard.Valid() && cache != shard && cache.batches != shard.batches
    modifies cache`len, shard`len, cache.batches
    ensures cache.Valid() && shard.Valid()
    ensures old(cache.Contents()) != [] ==>
              old(cache.Contents()) == cache.Contents() + [batch] && shard.Contents() == old(shard.Contents())
    ensures old(cache.Contents()) == [] ==>
              var was := old(shard.Contents());
              var left := if was == [] then [] else was[..|was| - 1];
              && batch == (if was == [] then made else was[|was| - 1])
              && |moved| == Min(|left|, cache.batches.Length / 2)
              && shard.Contents() == left[..|left| - |moved|] && cache.Contents() == moved
              && Reverses(moved, left[|left| - |moved|..])
  {
    var some, top := cache.Pop();
    if some {
      return top, [];
    }
    batch, moved := RefillTlsCache(cache, shard, made);
  }

  /** `release` of a reset batch: it ends on top of the cache, after a spill if the cache was full. */
  method Release(cache: Stack, shard: Stack, target: nat, batch: nat)
    returns (ghost spilled: seq<nat>, ghost dropped: seq<nat>)
    requires cache.Valid() && shard.Valid() && cache != shard && cache.batches != shard.batches
    requires 0 < target <= cache.batches.Length
    modifies cache`len, shard`len, cache.batches, shard.batches
    ensures cache.Valid() && shard.Valid()
    ensures |old(cache.Contents())| < cache.batches.Length ==>
              cache.Contents() == old(cache.Contents()) + [batch] && shard.Contents() == old(shard.Contents()) && dropped == []
    ensures |old(cache.Contents())| == cache.batches.Length ==>
              && cache.Contents() == old(cache.Contents())[..target - 1] + [batch]
              && shard.Contents() + dropped == old(shard.Contents()) + spilled
              && Reverses(spilled, old(cache.Contents())[target - 1..])
              && (dropped != [] ==> |shard.Contents()| == shard.batches.Length)
  {
    spilled, dropped := [], [];
    var ok := cache.Push(batch);
    if ok {
      return;
    }
    spilled, dropped := Spill(cache, shard, target);
    var again := cache.Push(batch);
    assert again;
  }
}
