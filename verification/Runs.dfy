/** Finite runs of a state machine. A machine is given by when an action may be taken and what it leads to. */
module Runs {
  /** The actions lead from s to last, each allowed where it is taken. */
  ghost predicate Reaches<S, A>(allowed: (S, A) -> bool, step: (S, A) -> S, s: S, acts: seq<A>, last: S)
    decreases |acts|
  {
    if acts == [] then s == last
    else allowed(s, acts[0]) && Reaches(allowed, step, step(s, acts[0]), acts[1..], last)
  }

  lemma ReachesCons<S, A>(allowed: (S, A) -> bool, step: (S, A) -> S, s: S, act: A, rest: seq<A>, last: S)
    requires allowed(s, act) && Reaches(allowed, step, step(s, act), rest, last)
    ensures Reaches(allowed, step, s, [act] + rest, last)
  {
    var all := [act] + rest;
    assert all[0] == act && all[1..] == rest;
  }

  lemma {:induction false} ReachesConcat<S, A>(allowed: (S, A) -> bool, step: (S, A) -> S,
                                              s: S, a: seq<A>, mid: S, b: seq<A>, last: S)
    requires Reaches(allowed, step, s, a, mid) && Reaches(allowed, step, mid, b, last)
    ensures Reaches(allowed, step, s, a + b, last)
    decreases |a|
  {
    if a == [] {
      assert a + b == b;
    } else {
      ReachesConcat(allowed, step, step(s, a[0]), a[1..], mid, b, last);
      ReachesCons(allowed, step, s, a[0], a[1..] + b, last);
      assert [a[0]] + (a[1..] + b) == a + b;
    }
  }

  /** Some run leads from s to last. */
  ghost predicate Leads<S, A(!new)>(allowed: (S, A) -> bool, step: (S, A) -> S, s: S, last: S) {
    exists acts: seq<A> :: Reaches(allowed, step, s, acts, last)
  }

  lemma LeadsOne<S, A(!new)>(allowed: (S, A) -> bool, step: (S, A) -> S, s: S, act: A)
    requires allowed(s, act)
    ensures Leads(allowed, step, s, step(s, act))
  {
    assert Reaches(allowed, step, step(s, act), [], step(s, act));
    ReachesCons(allowed, step, s, act, [], step(s, act));
  }

  lemma LeadsSelf<S, A(!new)>(allowed: (S, A) -> bool, step: (S, A) -> S, s: S)
    ensures Leads(allowed, step, s, s)
  {
    assert Reaches(allowed, step, s, [], s);
  }

  lemma LeadsTransitive<S, A(!new)>(allowed: (S, A) -> bool, step: (S, A) -> S, s: S, mid: S, last: S)
    requires Leads(allowed, step, s, mid) && Leads(allowed, step, mid, last)
    ensures Leads(allowed, step, s, last)
  {
    var a :| Reaches(allowed, step, s, a, mid);
    var b :| Reaches(allowed, step, mid, b, last);
    ReachesConcat(allowed, step, s, a, mid, b, last);
  }

  lemma LeadsTwice<S, A(!new)>(allowed: (S, A) -> bool, step: (S, A) -> S, s: S, act: A)
    requires allowed(s, act) && allowed(step(s, act), act)
    ensures Leads(allowed, step, s, step(step(s, act), act))
  {
    LeadsOne(allowed, step, s, act);
    LeadsOne(allowed, step, step(s, act), act);
    LeadsTransitive(allowed, step, s, step(s, act), step(step(s, act), act));
  }

  /** A run that is allowed more narrowly is a run. */
  lemma {:induction false} ReachesMore<S(!new), A(!new)>(narrow: (S, A) -> bool, wide: (S, A) -> bool, step: (S, A) -> S,
                                                        s: S, acts: seq<A>, last: S)
    requires forall x, a :: narrow(x, a) ==> wide(x, a)
    requires Reaches(narrow, step, s, acts, last)
    ensures Reaches(wide, step, s, acts, last)
    decreases |acts|
  {
    if acts != [] { ReachesMore(narrow, wide, step, step(s, acts[0]), acts[1..], last); }
  }

  lemma LeadsMore<S(!new), A(!new)>(narrow: (S, A) -> bool, wide: (S, A) -> bool, step: (S, A) -> S, s: S, last: S)
    requires forall x, a :: narrow(x, a) ==> wide(x, a)
    requires Leads(narrow, step, s, last)
    ensures Leads(wide, step, s, last)
  {
    var acts :| Reaches(narrow, step, s, acts, last);
    ReachesMore(narrow, wide, step, s, acts, last);
  }

  // ---- One action again and again: a thread that nobody disturbs ----

  function Again<S, A>(allowed: (S, A) -> bool, step: (S, A) -> S, s: S, act: A, k: nat): S {
    if k == 0 || !allowed(s, act) then s else Again(allowed, step, step(s, act), act, k - 1)
  }

  lemma {:induction false} AgainMore<S, A>(allowed: (S, A) -> bool, step: (S, A) -> S, s: S, act: A, j: nat, k: nat)
    ensures Again(allowed, step, s, act, j + k) == Again(allowed, step, Again(allowed, step, s, act, j), act, k)
  {
    if j > 0 && allowed(s, act) { AgainMore(allowed, step, step(s, act), act, j - 1, k); }
  }

  /** The action leads from s to last if nothing else happens. */
  ghost predicate Alone<S, A>(allowed: (S, A) -> bool, step: (S, A) -> S, s: S, act: A, last: S) {
    exists k: nat :: Again(allowed, step, s, act, k) == last
  }

  lemma AloneSelf<S, A>(allowed: (S, A) -> bool, step: (S, A) -> S, s: S, act: A)
    ensures Alone(allowed, step, s, act, s)
  {
    assert Again(allowed, step, s, act, 0) == s;
  }

  lemma AloneOne<S, A>(allowed: (S, A) -> bool, step: (S, A) -> S, s: S, act: A, last: S)
    requires allowed(s, act) && step(s, act) == last
    ensures Alone(allowed, step, s, act, last)
  {
    assert Again(allowed, step, last, act, 0) == last;
    assert Again(allowed, step, s, act, 1) == last;
  }

  lemma AloneTransitive<S, A>(allowed: (S, A) -> bool, step: (S, A) -> S, s: S, act: A, mid: S, last: S)
    requires Alone(allowed, step, s, act, mid) && Alone(allowed, step, mid, act, last)
    ensures Alone(allowed, step, s, act, last)
  {
    var j: nat :| Again(allowed, step, s, act, j) == mid;
    var k: nat :| Again(allowed, step, mid, act, k) == last;
    AgainMore(allowed, step, s, act, j, k);
  }

  lemma AloneThen<S, A>(allowed: (S, A) -> bool, step: (S, A) -> S, s: S, act: A, mid: S, last: S)
    requires Alone(allowed, step, s, act, mid) && allowed(mid, act) && step(mid, act) == last
    ensures Alone(allowed, step, s, act, last)
  {
    AloneOne(allowed, step, mid, act, last);
    AloneTransitive(allowed, step, s, act, mid, last);
  }

  /** What an action alone leads to, a run leads to. */
  lemma {:induction false} AgainLeads<S, A(!new)>(allowed: (S, A) -> bool, step: (S, A) -> S, s: S, act: A, k: nat)
    ensures Leads(allowed, step, s, Again(allowed, step, s, act, k))
  {
    LeadsSelf(allowed, step, s);
    if k > 0 && allowed(s, act) {
      LeadsOne(allowed, step, s, act);
      AgainLeads(allowed, step, step(s, act), act, k - 1);
      LeadsTransitive(allowed, step, s, step(s, act), Again(allowed, step, s, act, k));
    }
  }

  lemma AloneLeads<S, A(!new)>(allowed: (S, A) -> bool, step: (S, A) -> S, s: S, act: A, last: S)
    requires Alone(allowed, step, s, act, last)
    ensures Leads(allowed, step, s, last)
  {
    var k: nat :| Again(allowed, step, s, act, k) == last;
    AgainLeads(allowed, step, s, act, k);
  }
}
