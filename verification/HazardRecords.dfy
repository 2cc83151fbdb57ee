/** The hazard records as the domain keeps them: objects on an intrusive list of all records and an intrusive
    free list. This is the code for one thread; `HazardDomain` interleaves it. */
module HazardRecords {
  import opened Sequences

  class HzdPtrRec {
    var next: HzdPtrRec?
    var available: HzdPtrRec?

    constructor ()
      ensures next == null && available == null
    {
      next, available := null, null;
    }
  }

  function First(s: seq<HzdPtrRec>): HzdPtrRec? { if s == [] then null else s[0] }

  ghost predicate AvailableLink(s: seq<HzdPtrRec>, i: nat)
    requires i < |s|
    reads s`available
  {
    s[i].available == First(s[i + 1..])
  }

  /** Distinct records, each linked to the next and the last to null. */
  ghost predicate AvailableChain(s: seq<HzdPtrRec>)
    reads s`available
  {
    Distinct(s) && forall i: nat :: i < |s| ==> AvailableLink(s, i)
  }

  ghost predicate NextLink(s: seq<HzdPtrRec>, i: nat)
    requires i < |s|
    reads s`next
  {
    s[i].next == First(s[i + 1..])
  }

  ghost predicate NextChain(s: seq<HzdPtrRec>)
    reads s`next
  {
    Distinct(s) && forall i: nat :: i < |s| ==> NextLink(s, i)
  }

  /** A run cut out of the free list becomes two chains once its last link is nulled. */
  lemma CutChain(s: seq<HzdPtrRec>, k: nat)
    requires Distinct(s) && 0 < k <= |s| && s[k - 1].available == null
    requires forall i: nat :: i < |s| && i != k - 1 ==> AvailableLink(s, i)
    ensures AvailableChain(s[..k]) && AvailableChain(s[k..])
  {
    forall i: nat | i < k ensures AvailableLink(s[..k], i) {
      assert i < k - 1 ==> AvailableLink(s, i);
    }
    forall i: nat | i < |s| - k ensures AvailableLink(s[k..], i) {
      assert AvailableLink(s, k + i);
      assert s[k..][i + 1..] == s[k + i + 1..];
    }
  }

  /** Two chains become one once the last of the first is linked to the first of the second. */
  lemma JoinChain(a: seq<HzdPtrRec>, b: seq<HzdPtrRec>)
    requires a != [] && Distinct(a) && AvailableChain(b) && forall r :: r in a ==> r !in b
    requires forall i: nat :: i + 1 < |a| ==> AvailableLink(a, i)
    requires a[|a| - 1].available == First(b)
    ensures AvailableChain(a + b)
  {
    var c := a + b;
    forall i, j | 0 <= i < j < |c| ensures c[i] != c[j] {
      assert i < |a| ==> c[i] in a;
      assert j >= |a| ==> c[j] in b;
    }
    forall i: nat | i < |c| ensures AvailableLink(c, i) {
      if i + 1 < |a| {
        assert AvailableLink(a, i);
      } else if i < |a| {
        assert c[i + 1..] == b;
      } else {
        assert AvailableLink(b, i - |a|);
        assert c[i + 1..] == b[i - |a| + 1..];
      }
    }
  }

  ghost function Only(r: HzdPtrRec?): set<HzdPtrRec> { if r == null then {} else {r} }

  /** The records that were there, with n more in front. */
  ghost predicate InFront(now: seq<HzdPtrRec>, was: seq<HzdPtrRec>, n: nat) {
    |now| == |was| + n && now[n..] == was
  }

  lemma OneMoreInFront(now: seq<HzdPtrRec>, was: seq<HzdPtrRec>, n: nat, r: HzdPtrRec)
    requires InFront(now, was, n)
    ensures InFront([r] + now, was, n + 1)
  {
    assert ([r] + now)[n + 1..] == now[n..];
  }

  class HzdDomain {
    var head: HzdPtrRec?
    var availHead: HzdPtrRec?
    var count: nat
    ghost var all: seq<HzdPtrRec>
    ghost var free: seq<HzdPtrRec>

    ghost predicate Valid()
      reads this, all`next, free`available
    {
      && NextChain(all) && head == First(all) && count == |all|
      && AvailableChain(free) && availHead == First(free)
      && (forall r :: r in free ==> r in all)
    }

    constructor ()
      ensures Valid() && all == [] && free == []
    {
      head, availHead, count, all, free := null, null, 0, [], [];
    }

    /** `acquire_new_rec`: a new record in front of all others. */
    method AcquireNewRec() returns (rec: HzdPtrRec)
      requires Valid()
      modifies this`head, this`count, this`all
      ensures Valid() && fresh(rec) && rec.available == null && all == [rec] + old(all)
    {
      rec := new HzdPtrRec();
      rec.next := head;
      head := rec;
      count := count + 1;
      all := [rec] + all;
      forall i: nat | i < |all| ensures NextLink(all, i) {
        if i == 0 {
          assert all[1..] == old(all);
        } else {
          assert old(NextLink(all, i - 1));
          assert all[i + 1..] == old(all)[i..];
        }
      }
    }

    /** `try_acquire_available`, with the lock bit held from the load of the head on: the first n free records,
        or all of them if there are fewer, cut off from the rest. */
    method TryAcquireAvailable(n: nat) returns (first: HzdPtrRec?, k: nat)
      requires Valid() && n >= 1
      modifies this`availHead, this`free, free`available
      ensures Valid()
      ensures k == if |old(free)| < n then |old(free)| else n
      ensures first == First(old(free)[..k]) && AvailableChain(old(free)[..k])
      ensures free == old(free)[k..]
    {
      if availHead == null {
        return null, 0;
      }
      ghost var was := free;
      first := availHead;
      var tail: HzdPtrRec := availHead;
      k := 1;
      assert AvailableLink(was, 0);
      var next := tail.available;
      while next != null && k < n
        invariant 1 <= k <= n && k <= |was| && tail == was[k - 1] && next == First(was[k..])
        decreases n - k
      {
        tail := next;
        assert AvailableLink(was, k);
        next := tail.available;
        k := k + 1;
      }
      availHead := next;
      tail.available := null;
      free := free[k..];
      forall i: nat | i < |was| && i != k - 1 ensures AvailableLink(was, i) {
        assert old(AvailableLink(was, i));
      }
      CutChain(was, k);
    }

    /** `acquire_many`: n distinct records, first those that were free, in their order, then new ones, chained
        in order and ending in null. The rest of the free list is as it was. */
    method AcquireMany(n: nat) returns (got: seq<HzdPtrRec>)
      requires Valid() && n >= 1
      modifies this, free`available
      ensures Valid() && |got| == n && AvailableChain(got)
      ensures var k := if |old(free)| < n then |old(free)| else n;
              && got[..k] == old(free)[..k] && free == old(free)[k..]
              && (forall r :: r in got[k..] ==> fresh(r))
              && InFront(all, old(all), n - k)
      ensures forall r :: r in got ==> r in all && r !in free
    {
      var first, k := TryAcquireAvailable(n);
      ghost var taken := old(free)[..k];
      assert old(free) == taken + free && taken[0..] == taken;
      Apart(taken, free);
      got := FillArray(n, first, taken);
    }

    /** The array of `acquire_many`, given the run that was taken from the free list. */
    method FillArray(n: nat, first: HzdPtrRec?, ghost taken: seq<HzdPtrRec>) returns (got: seq<HzdPtrRec>)
      requires Filling(taken, [], first, null) && |taken| <= n
      modifies this`head, this`count, this`all, taken`available
      ensures Valid() && |got| == n && AvailableChain(got) && got[..|taken|] == taken
      ensures forall r :: r in got[|taken|..] ==> fresh(r)
      ensures InFront(all, old(all), n - |taken|)
      ensures forall r :: r in got ==> r in all && r !in free
    {
      ghost var chain, made: seq<HzdPtrRec> := taken, [];
      var h: HzdPtrRec? := first;
      var tail: HzdPtrRec? := null;
      got := [];
      while |got| < n
        invariant |got| <= n && Filling(chain, got, h, tail)
        invariant chain == taken + made && (made != [] ==> got == chain)
        invariant forall r :: r in made ==> fresh(r)
        invariant InFront(all, old(all), |made|)
        decreases n - |got|
      {
        ghost var allThen, hThen := all, h;
        assert tail != null ==> tail in taken || tail in made;
        var rec;
        rec, h, chain := FillOne(chain, got, h, tail);
        got, tail := got + [rec], rec;
        if hThen == null {
          OneMoreInFront(allThen, old(all), |made|, rec);
          made := made + [rec];
        }
      }
      FillingEnds(chain, got, h, tail, taken, made, n);
    }

    lemma FillingEnds(chain: seq<HzdPtrRec>, got: seq<HzdPtrRec>, h: HzdPtrRec?, tail: HzdPtrRec?,
                      taken: seq<HzdPtrRec>, made: seq<HzdPtrRec>, n: nat)
      requires Filling(chain, got, h, tail) && |got| == n >= |taken|
      requires chain == taken + made && (made != [] ==> got == chain)
      ensures got == chain && got[..|taken|] == taken && got[|taken|..] == made
    {
    }

    /** The array so far is the front of the chain that it will be, and h is where the chain goes on. */
    ghost predicate Filling(chain: seq<HzdPtrRec>, got: seq<HzdPtrRec>, h: HzdPtrRec?, tail: HzdPtrRec?)
      reads this, all`next, free`available, chain`available
    {
      && Valid() && AvailableChain(chain)
      && got <= chain && h == First(chain[|got|..])
      && tail == (if got == [] then null else got[|got| - 1])
      && (forall r :: r in chain ==> r in all && r !in free)
    }

    /** One turn of `acquire_many`: the next of the run, or a new record behind it. */
    method FillOne(ghost chain: seq<HzdPtrRec>, got: seq<HzdPtrRec>, h: HzdPtrRec?, tail: HzdPtrRec?)
      returns (rec: HzdPtrRec, h': HzdPtrRec?, ghost chain': seq<HzdPtrRec>)
      requires Filling(chain, got, h, tail)
      modifies this`head, this`count, this`all, Only(tail)`available
      ensures Filling(chain', got + [rec], h', rec)
      ensures h != null ==> chain' == chain && all == old(all)
      ensures h == null ==> chain' == got + [rec] && got == chain && fresh(rec) && all == [rec] + old(all)
    {
      if h != null {
        assert AvailableLink(chain, |got|);
        assert chain[|got|..][0] == chain[|got|];
        rec, chain' := h, chain;
        h' := rec.available;
      } else {
        assert got == chain;
        rec := Append(got, tail);
        chain' := got + [rec];
        h' := null;
      }
    }

    /** The branch of that loop that makes a record. */
    method Append(ghost got: seq<HzdPtrRec>, tail: HzdPtrRec?) returns (rec: HzdPtrRec)
      requires Valid() && AvailableChain(got) && forall r :: r in got ==> r in all && r !in free
      requires tail == if got == [] then null else got[|got| - 1]
      modifies this`head, this`count, this`all, Only(tail)`available
      ensures Valid() && fresh(rec) && all == [rec] + old(all)
      ensures AvailableChain(got + [rec])
    {
      rec := AcquireNewRec();
      if tail != null {
        tail.available := rec;
      }
      forall i: nat | i + 1 < |got| ensures AvailableLink(got, i) {
        assert old(AvailableLink(got, i));
      }
      assert AvailableLink([rec], 0);
      if got != [] { JoinChain(got, [rec]); } else { assert got + [rec] == [rec]; }
      forall i: nat | i < |free| ensures AvailableLink(free, i) {
        assert free[i] in free;
        assert old(AvailableLink(free, i));
      }
    }

    /** `release_many`, through `push_available`: the array goes back in front of the free list, in its order. */
    method ReleaseMany(got: seq<HzdPtrRec>)
      requires Valid() && got != [] && AvailableChain(got) && forall r :: r in got ==> r in all && r !in free
      modifies this`availHead, this`free, got`available
      ensures Valid() && free == got + old(free) && all == old(all)
    {
      var first, tail := got[0], got[|got| - 1];
      assert AvailableLink(got, |got| - 1);
      assert tail.available == null;
      tail.available := availHead;
      availHead := first;
      forall i: nat | i + 1 < |got| ensures AvailableLink(got, i) {
        assert old(AvailableLink(got, i));
      }
      forall i: nat | i < |free| ensures AvailableLink(free, i) {
        assert free[i] in free;
        assert old(AvailableLink(free, i));
      }
      JoinChain(got, free);
      free := got + free;
    }
  }

  lemma Apart(a: seq<HzdPtrRec>, b: seq<HzdPtrRec>)
    requires Distinct(a + b)
    ensures forall r :: r in a ==> r !in b
  {
    forall i, j | 0 <= i < |a| && 0 <= j < |b| ensures a[i] != b[j] {
      assert (a + b)[i] != (a + b)[|a| + j];
    }
  }
}
