/** The concurrent skip list's operations when nobody disturbs them: a thread left alone in the middle of an insert or
    a lookup finishes, and from its beginning an operation does what the one-thread code does. */
module SkipListAlone {
  import opened Ordering
  import opened Towers
  import opened Chains
  import opened ConcurrentSkipList
  import opened SkipListRuns
  import opened SkipList
  import opened Runs

  function Allowed<K, V>(): (State<K, V>, Action<K, V>) -> bool { (s, act) => Enabled(s, act) }

  function StepOf<K, V>(cmp: Compare<K>): (State<K, V>, Action<K, V>) -> State<K, V> {
    (s, act) => if Enabled(s, act) then Next(cmp, s, act) else s
  }

  /** Steps of thread t alone lead from s to last. */
  ghost predicate Solo<K, V>(cmp: Compare<K>, s: State<K, V>, t: nat, last: State<K, V>) {
    Alone(Allowed(), StepOf(cmp), s, Continue(t), last)
  }

  function AtPc<K, V>(s: State<K, V>, t: nat, pc: Pc<K, V>): State<K, V>
    requires t < |s.threads|
  {
    s.(threads := s.threads[t := pc])
  }

  predicate Goes<K, V>(pc: Pc<K, V>) { pc.Start? || pc.Skip? || pc.Walk? || pc.Store? || pc.Cas? }

  /** One step of thread t from pc to pc', with the nodes as nodes' afterwards. */
  lemma Then<K, V>(cmp: Compare<K>, s: State<K, V>, base: State<K, V>, t: nat, pc: Pc<K, V>, nodes': seq<Node<K,
                   V>>, pc': Pc<K, V>)
    requires t < |base.threads| && Goes(pc) && Solo(cmp, s, t, AtPc(base, t, pc))
    requires ContinueStep(cmp, AtPc(base, t, pc), t) == State(nodes', base.maxLevel, base.threads[t := pc][t := pc'])
    ensures Solo(cmp, s, t, AtPc(base.(nodes := nodes'), t, pc'))
  {
    assert base.threads[t := pc][t := pc'] == base.threads[t := pc'];
    AloneThen(Allowed(), StepOf(cmp), s, Continue(t), AtPc(base, t, pc), AtPc(base.(nodes := nodes'), t, pc'));
  }

  lemma SoloSelf<K, V>(cmp: Compare<K>, s: State<K, V>, t: nat)
    requires t < |s.threads|
    ensures Solo(cmp, s, t, AtPc(s, t, s.threads[t]))
  {
    assert s.threads[t := s.threads[t]] == s.threads;
    AloneSelf(Allowed(), StepOf(cmp), s, Continue(t));
  }

  // ---- Searching ----

  /** The context has both neighbours of the key on the levels from `from` up. */
  ghost predicate Known<K, V>(cmp: Compare<K>, nodes: seq<Node<K, V>>, key: K, ctx: Context, from: nat) {
    && |ctx.preds| == |ctx.succs| == MAX_HEIGHT
    && (forall m: nat :: from <= m < MAX_HEIGHT ==>
          LastBelow(cmp, nodes, m, key, ctx.preds[m]) && FirstNotBelow(cmp, nodes, m, key, ctx.succs[m]))
    && (ctx.found != NULL ==> Linked(nodes, ctx.found, 0) && nodes[ctx.found].Entry? && nodes[ctx.found].key == key)
  }

  lemma KnownMore<K(!new), V>(cmp: Compare<K>, nodes: seq<Node<K, V>>, key: K, ctx: Context, level: nat, pred: NodeId)
    requires TotalOrder(cmp) && Ordered(cmp, nodes) && level < MAX_HEIGHT && Known(cmp, nodes, key, ctx, level + 1)
    requires Linked(nodes, pred, level) && Below(cmp, nodes, pred, key)
    requires !IsBelow(cmp, nodes, Load(nodes, pred, level), key)
    ensures var curr := Load(nodes, pred, level);
            Known(cmp, nodes, key, Record(ctx, level, pred, curr, IsEqual(cmp, nodes, curr, key)), level)
  {
    var curr := Load(nodes, pred, level);
    assert LevelOrdered(cmp, nodes, level);
    Neighbours(cmp, nodes, level, key, pred);
    assert curr != NULL ==> Linked(nodes, curr, 0);
  }

  lemma KnownAll<K(!new), V>(cmp: Compare<K>, nodes: seq<Node<K, V>>, key: K, ctx: Context)
    requires TotalOrder(cmp) && Ordered(cmp, nodes) && Known(cmp, nodes, key, ctx, 0)
    requires ctx.succs[0] != NULL && nodes[ctx.succs[0]].Entry? && nodes[ctx.succs[0]].key == key ==> ctx.found != NULL
    ensures SearchResult(cmp, nodes, key, ctx)
  {
    PresentAtSuccessor(cmp, nodes, key, ctx.succs[0]);
    if ctx.found != NULL { ContentsAt(nodes, ctx.found); }
  }

  /** A walk ends, and one that knows the neighbours above ends knowing all. */
  lemma {:induction false} WalkAlone<K(!new), V>(cmp: Compare<K>, s: State<K, V>, base: State<K, V>, t: nat,
                                       job: Job<K, V>, level: nat, pred: NodeId, ctx: Context)
      returns (last: Context)
    requires TotalOrder(cmp) && Ordered(cmp, base.nodes) && t < |base.threads| && level < MAX_HEIGHT
    requires Linked(base.nodes, pred, level) && Below(cmp, base.nodes, pred, job.key)
    requires Solo(cmp, s, t, AtPc(base, t, Walk(job, level, pred, ctx)))
    ensures Solo(cmp, s, t, AtPc(base, t, AfterSearch(job, last)))
    ensures Known(cmp, base.nodes, job.key, ctx, level + 1) ==> SearchResult(cmp, base.nodes, job.key, last)
    decreases level, |After(cmp, base.nodes, level, pred)|
  {
    var nodes, curr := base.nodes, Load(base.nodes, pred, level);
    assert LevelOrdered(cmp, nodes, level);
    var pc' := WalkStep(cmp, nodes, job, level, pred, ctx);
    Then(cmp, s, base, t, Walk(job, level, pred, ctx), nodes, pc');
    if IsBelow(cmp, nodes, curr, job.key) {
      NextShrinksAfter(cmp, nodes, level, pred);
      last := WalkAlone(cmp, s, base, t, job, level, curr, ctx);
    } else {
      var equal := IsEqual(cmp, nodes, curr, job.key);
      var ctx' := Record(ctx, level, pred, curr, equal);
      if Known(cmp, nodes, job.key, ctx, level + 1) { KnownMore(cmp, nodes, job.key, ctx, level, pred); }
      if level == 0 {
        last := ctx';
        if Known(cmp, nodes, job.key, ctx, 1) { KnownAll(cmp, nodes, job.key, last); }
      } else {
        last := WalkAlone(cmp, s, base, t, job, level - 1, pred, ctx');
      }
    }
  }

  lemma NothingAbove<K(!new), V>(cmp: Compare<K>, nodes: seq<Node<K, V>>, key: K, level: nat)
    requires TotalOrder(cmp) && Ordered(cmp, nodes) && level <= MAX_HEIGHT
    requires forall m :: level <= m < MAX_HEIGHT ==> nodes[SENTINEL].next[m] == NULL
    ensures Known(cmp, nodes, key, NoContext(), level)
  {
    forall m: nat | level <= m < MAX_HEIGHT
      ensures LastBelow(cmp, nodes, m, key, SENTINEL) && FirstNotBelow(cmp, nodes, m, key, NULL)
    {
      EmptyLevel(cmp, nodes, m, key);
    }
  }

  /** Looking for the highest level in use ends too. */
  lemma {:induction false} SkipAlone<K(!new), V>(cmp: Compare<K>, s: State<K, V>, base: State<K, V>, t: nat,
                                       job: Job<K, V>, level: nat)
      returns (last: Context)
    requires TotalOrder(cmp) && Ordered(cmp, base.nodes) && t < |base.threads| && 1 <= level <= MAX_HEIGHT
    requires Solo(cmp, s, t, AtPc(base, t, Skip(job, level)))
    ensures Solo(cmp, s, t, AtPc(base, t, AfterSearch(job, last)))
    ensures (forall m :: level <= m < MAX_HEIGHT ==> base.nodes[SENTINEL].next[m] == NULL) ==>
              SearchResult(cmp, base.nodes, job.key, last)
    decreases level
  {
    var nodes := base.nodes;
    Then(cmp, s, base, t, Skip(job, level), nodes, SkipStep(nodes, job, level));
    var empty := forall m :: level <= m < MAX_HEIGHT ==> nodes[SENTINEL].next[m] == NULL;
    if Load(nodes, SENTINEL, level - 1) != NULL {
      if empty { NothingAbove(cmp, nodes, job.key, level); }
      last := WalkAlone(cmp, s, base, t, job, level - 1, SENTINEL, NoContext());
    } else if level == 1 {
      last := NoContext();
      if empty {
        NothingAbove(cmp, nodes, job.key, 0);
        KnownAll(cmp, nodes, job.key, last);
      }
    } else {
      last := SkipAlone(cmp, s, base, t, job, level - 1);
    }
  }

  /** A search that nobody disturbs finds both neighbours of its key on every level, and the key's node exactly if
      there is one. */
  lemma SearchAlone<K(!new), V>(cmp: Compare<K>, s: State<K, V>, base: State<K, V>, t: nat, job: Job<K,
                      V>) returns (last: Context)
    requires TotalOrder(cmp) && Ordered(cmp, base.nodes) && HeightsWithin(base.nodes, base.maxLevel) && t < |base.threads|
    requires Solo(cmp, s, t, AtPc(base, t, Start(job)))
    ensures Solo(cmp, s, t, AtPc(base, t, AfterSearch(job, last)))
    ensures SearchResult(cmp, base.nodes, job.key, last)
  {
    Then(cmp, s, base, t, Start(job), base.nodes, Skip(job, base.maxLevel));
    LevelsAboveMaxEmpty(cmp, base.nodes, base.maxLevel);
    last := SkipAlone(cmp, s, base, t, job, base.maxLevel);
  }

  // ---- Linking ----

  /** A thread about to link its node on a level, knowing its neighbours from there up. */
  ghost predicate Linking<K(!new), V>(cmp: Compare<K>, nodes: seq<Node<K, V>>, key: K, node: NodeId, level: nat,
                            ctx: Context) {
    && Ordered(cmp, nodes) && 0 < node < |nodes| && nodes[node].Entry? && nodes[node].key == key
    && nodes[node].links == level < |nodes[node].next| <= MAX_HEIGHT
    && (forall m :: level < m < |nodes[node].next| ==> nodes[node].next[m] == NULL)
    && Known(cmp, nodes, key, ctx, level)
    && (ctx.succs[level] == NULL ==> nodes[node].next[level] == NULL)
    && (level == 0 ==> key !in Contents(nodes))
  }

  /** The nodes once a thread has stored its successor and swung its predecessor. */
  function Joined<K, V>(nodes: seq<Node<K, V>>, node: NodeId, level: nat, ctx: Context): seq<Node<K, V>>
    requires level < |ctx.preds| && level < |ctx.succs|
  {
    MarkLinked(StoreSlot(WithSuccessor(nodes, node, level, ctx.succs[level]), ctx.preds[level], level, node), node, level + 1)
  }

  /** The swap of an undisturbed thread succeeds. */
  lemma JoinSwings<K(!new), V>(cmp: Compare<K>, nodes: seq<Node<K, V>>, key: K, node: NodeId, level: nat, ctx: Context)
    requires TotalOrder(cmp) && Linking(cmp, nodes, key, node, level, ctx)
    ensures var stored, pred := WithSuccessor(nodes, node, level, ctx.succs[level]), ctx.preds[level];
            && pred < |stored| == |nodes| && level < |stored[pred].next| && Load(stored, pred, level) == ctx.succs[level]
            && Height(stored, node) == |nodes[node].next|
            && CanLink(cmp, stored, pred, node) && stored[node].links == level
            && Joined(nodes, node, level, ctx) == Link(stored, pred, node)
  {
    LinkOneOk(cmp, nodes, key, node, ctx.preds[level], ctx.succs[level]);
  }

  lemma JoinedOk<K(!new), V>(cmp: Compare<K>, nodes: seq<Node<K, V>>, key: K, node: NodeId, level: nat, ctx: Context)
    requires TotalOrder(cmp) && Linking(cmp, nodes, key, node, level, ctx)
    ensures var nodes' := Joined(nodes, node, level, ctx);
            && Ordered(cmp, nodes') && Grows(nodes, nodes') && nodes'[node].links == level + 1
            && Contents(nodes') == (if level == 0 then Contents(nodes)[key := nodes[node].value] else Contents(nodes))
            && (level + 1 < |nodes[node].next| ==> Linking(cmp, nodes', key, node, level + 1, ctx))
  {
    var nodes' := Joined(nodes, node, level, ctx);
    JoinSwings(cmp, nodes, key, node, level, ctx);
    LinkOneOk(cmp, nodes, key, node, ctx.preds[level], ctx.succs[level]);
    forall m: nat | level + 1 <= m < MAX_HEIGHT
      ensures LastBelow(cmp, nodes', m, key, ctx.preds[m]) && FirstNotBelow(cmp, nodes', m, key, ctx.succs[m])
    {
      NeighboursKept(cmp, nodes, nodes', m, key, ctx.preds[m], ctx.succs[m]);
    }
  }

  lemma JoinAlone<K(!new), V>(cmp: Compare<K>, s: State<K, V>, base: State<K, V>, t: nat, key: K, node: NodeId,
                    level: nat, ctx: Context)
    requires TotalOrder(cmp) && t < |base.threads| && Linking(cmp, base.nodes, key, node, level, ctx)
    requires Solo(cmp, s, t, AtPc(base, t, Store(key, node, level, ctx)))
    ensures Solo(cmp, s, t, AtPc(base.(nodes := Joined(base.nodes, node, level, ctx)), t,
                                 if level + 1 < |base.nodes[node].next| then Store(key, node, level + 1, ctx) else Inserted(key, node)))
  {
    var stored := WithSuccessor(base.nodes, node, level, ctx.succs[level]);
    var mid := base.(nodes := stored);
    JoinSwings(cmp, base.nodes, key, node, level, ctx);
    Then(cmp, s, base, t, Store(key, node, level, ctx), stored, Cas(key, node, level, ctx));
    assert Swings(AtPc(mid, t, Cas(key, node, level, ctx)), t);
    Then(cmp, s, mid, t, Cas(key, node, level, ctx), Joined(base.nodes, node, level, ctx),
         if level + 1 < |base.nodes[node].next| then Store(key, node, level + 1, ctx) else Inserted(key, node));
  }

  /** Linking goes on up to the top of the node's tower. */
  lemma {:induction false} LinkAlone<K(!new), V>(cmp: Compare<K>, s: State<K, V>, base: State<K, V>, t: nat,
                                       key: K, node: NodeId, level: nat, ctx: Context)
      returns (last: State<K, V>)
    requires TotalOrder(cmp) && t < |base.threads| && Linking(cmp, base.nodes, key, node, level, ctx)
    requires Solo(cmp, s, t, AtPc(base, t, Store(key, node, level, ctx)))
    ensures Solo(cmp, s, t, last) && last == AtPc(base.(nodes := last.nodes), t, Inserted(key, node))
    ensures Ordered(cmp, last.nodes) && Grows(base.nodes, last.nodes)
    ensures last.nodes[node].links == |last.nodes[node].next|
    ensures Contents(last.nodes) == if level == 0 then Contents(base.nodes)[key := base.nodes[node].value] else Contents(base.nodes)
    decreases |base.nodes[node].next| - level
  {
    var joined := base.(nodes := Joined(base.nodes, node, level, ctx));
    JoinAlone(cmp, s, base, t, key, node, level, ctx);
    JoinedOk(cmp, base.nodes, key, node, level, ctx);
    if level + 1 < |base.nodes[node].next| {
      last := LinkAlone(cmp, s, joined, t, key, node, level + 1, ctx);
      GrowsTransitive(base.nodes, joined.nodes, last.nodes);
    } else {
      last := AtPc(joined, t, Inserted(key, node));
    }
  }

  // ---- Whole operations ----

  /** A lookup finds the first node not below its key. */
  lemma LookupAlone<K(!new), V>(cmp: Compare<K>, s: State<K, V>, t: nat, key: K) returns (result: Ptr)
    requires TotalOrder(cmp) && Inv(cmp, s) && t < |s.threads| && s.threads[t] == Start(Lookup(key))
    ensures Solo(cmp, s, t, AtPc(s, t, Answer(key, result))) && FirstNotBelow(cmp, s.nodes, 0, key, result)
  {
    SoloSelf(cmp, s, t);
    var ctx := SearchAlone(cmp, s, s, t, Lookup(key));
    result := ctx.succs[0];
  }

  /** An insert whose node is allocated first: afterwards the list is the keep-first update, and the node is on all its
      levels if its key was absent. */
  lemma InsertWithAlone<K(!new), V>(cmp: Compare<K>, s: State<K, V>, t: nat, key: K,
                          node: NodeId) returns (last: State<K, V>)
    requires TotalOrder(cmp) && Inv(cmp, s) && t < |s.threads| && s.threads[t] == Start(Publish(key, node))
    requires node < |s.nodes| && forall m :: 0 <= m < |s.nodes[node].next| ==> s.nodes[node].next[m] == NULL
    ensures Solo(cmp, s, t, last) && t < |last.threads| && last.threads[t].Inserted? && last.threads[t].key == key
    ensures KeysUnique(last.nodes) && s.nodes[node].Entry?
    ensures Contents(last.nodes) == KeepFirst(Contents(s.nodes), key, s.nodes[node].value)
    ensures if key in Contents(s.nodes) then last.nodes == s.nodes
            else last.threads[t].node == node < |last.nodes| && last.nodes[node].links == |last.nodes[node].next|
  {
    assert PcOk(cmp, s.nodes, s.threads[t]);
    SoloSelf(cmp, s, t);
    var ctx := SearchAlone(cmp, s, s, t, Publish(key, node));
    if key in Contents(s.nodes) {
      last := AtPc(s, t, Inserted(key, ctx.found));
    } else {
      last := LinkAlone(cmp, s, s, t, key, node, 0, ctx);
    }
  }

  /** An insert that searches first: it is over if the key is there, and otherwise knows where its node goes. */
  lemma ProbeAlone<K(!new), V>(cmp: Compare<K>, s: State<K, V>, t: nat, key: K, value: V) returns (last: State<K, V>)
    requires TotalOrder(cmp) && Inv(cmp, s) && t < |s.threads| && s.threads[t] == Start(Probe(key, value))
    ensures Solo(cmp, s, t, last) && t < |last.threads| && last == AtPc(s, t, last.threads[t])
    ensures if key in Contents(s.nodes) then last.threads[t].Inserted? && last.threads[t].key == key
            else last.threads[t].Ready? && last.threads[t].key == key && last.threads[t].value == value &&
                 SearchResult(cmp, s.nodes, key, last.threads[t].ctx)
  {
    SoloSelf(cmp, s, t);
    var ctx := SearchAlone(cmp, s, s, t, Probe(key, value));
    last := AtPc(s, t, AfterSearch(Probe(key, value), ctx));
  }

  /** And once it has allocated its node, which is one step, it links it on all its levels. */
  lemma AllocatedAlone<K(!new), V>(cmp: Compare<K>, s: State<K, V>, t: nat, height: nat) returns (last: State<K, V>)
    requires TotalOrder(cmp) && Inv(cmp, s) && Enabled(s, Allocate(t, height))
    requires SearchResult(cmp, s.nodes, s.threads[t].key, s.threads[t].ctx) && s.threads[t].key !in Contents(s.nodes)
    ensures Solo(cmp, Next(cmp, s, Allocate(t, height)), t, last)
    ensures t < |last.threads| && last.threads[t] == Inserted(s.threads[t].key, |s.nodes|)
    ensures KeysUnique(last.nodes) && Contents(last.nodes) == Contents(s.nodes)[s.threads[t].key := s.threads[t].value]
    ensures |s.nodes| < |last.nodes| && last.nodes[|s.nodes|].links == |last.nodes[|s.nodes|].next| == height
  {
    var pc, s1 := s.threads[t], Next(cmp, s, Allocate(t, height));
    AppendUnlinked(cmp, s.nodes, s.maxLevel, pc.key, pc.value, height);
    SearchResultKept(cmp, s.nodes, s1.nodes, pc.key, pc.ctx);
    SoloSelf(cmp, s1, t);
    last := LinkAlone(cmp, s1, s1, t, pc.key, |s.nodes|, 0, pc.ctx);
  }

  // ---- From anywhere ----

  lemma {:induction false} AgainInv<K(!new), V>(cmp: Compare<K>, s: State<K, V>, t: nat, k: nat)
    requires TotalOrder(cmp) && Inv(cmp, s)
    ensures Inv(cmp, Again(Allowed(), StepOf(cmp), s, Continue(t), k))
    decreases k
  {
    if k > 0 && Enabled(s, Continue(t)) {
      NextKeepsInv(cmp, s, Continue(t));
      AgainInv(cmp, Next(cmp, s, Continue(t)), t, k - 1);
    }
  }

  lemma SoloInv<K(!new), V>(cmp: Compare<K>, s: State<K, V>, t: nat, last: State<K, V>)
    requires TotalOrder(cmp) && Inv(cmp, s) && Solo(cmp, s, t, last)
    ensures Inv(cmp, last)
  {
    var k: nat :| Again(Allowed(), StepOf(cmp), s, Continue(t), k) == last;
    AgainInv(cmp, s, t, k);
  }

  /** A thread that starts a search finishes. */
  lemma StartFinishes<K(!new), V>(cmp: Compare<K>, s: State<K, V>, base: State<K, V>, t: nat, job: Job<K,
                        V>) returns (last: State<K, V>)
    requires TotalOrder(cmp) && Inv(cmp, s) && t < |base.threads| && Solo(cmp, s, t, AtPc(base, t, Start(job)))
    ensures Solo(cmp, s, t, last) && t < |last.threads| && !Goes(last.threads[t])
  {
    SoloInv(cmp, s, t, AtPc(base, t, Start(job)));
    var ctx := SearchAlone(cmp, s, base, t, job);
    last := AtPc(base, t, AfterSearch(job, ctx));
    if last.threads[t].Store? {
      SoloInv(cmp, s, t, last);
      assert PcOk(cmp, last.nodes, last.threads[t]);
      last := LinkAlone(cmp, s, base, t, job.key, last.threads[t].node, last.threads[t].level, ctx);
    }
  }

  /** So does one that is linking, with neighbours that may be out of date: a swap that loses starts a search. */
  lemma {:induction false} StoreFinishes<K(!new), V>(cmp: Compare<K>, s: State<K, V>, base: State<K, V>, t: nat,
                                        key: K, node: NodeId, level: nat, ctx: Context)
      returns (last: State<K, V>)
    requires TotalOrder(cmp) && Inv(cmp, s) && t < |base.threads|
    requires Solo(cmp, s, t, AtPc(base, t, Store(key, node, level, ctx)))
    ensures Solo(cmp, s, t, last) && t < |last.threads| && !Goes(last.threads[t])
    decreases Height(base.nodes, node) - level, 1
  {
    var nodes' := if level < |ctx.succs| && ctx.succs[level] != NULL then StoreSlot(base.nodes, node, level, ctx.succs[level])
                  else base.nodes;
    Then(cmp, s, base, t, Store(key, node, level, ctx), nodes', Cas(key, node, level, ctx));
    last := CasFinishes(cmp, s, base.(nodes := nodes'), t, key, node, level, ctx);
  }

  lemma {:induction false} CasFinishes<K(!new), V>(cmp: Compare<K>, s: State<K, V>, base: State<K, V>, t: nat,
                                        key: K, node: NodeId, level: nat, ctx: Context)
      returns (last: State<K, V>)
    requires TotalOrder(cmp) && Inv(cmp, s) && t < |base.threads|
    requires Solo(cmp, s, t, AtPc(base, t, Cas(key, node, level, ctx)))
    ensures Solo(cmp, s, t, last) && t < |last.threads| && !Goes(last.threads[t])
    decreases Height(base.nodes, node) - level, 0
  {
    var at := AtPc(base, t, Cas(key, node, level, ctx));
    if Swings(at, t) {
      var nodes' := MarkLinked(StoreSlot(base.nodes, ctx.preds[level], level, node), node, level + 1);
      var pc' := if level + 1 < Height(base.nodes, node) then Store(key, node, level + 1, ctx) else Inserted(key, node);
      Then(cmp, s, base, t, Cas(key, node, level, ctx), nodes', pc');
      last := AtPc(base.(nodes := nodes'), t, pc');
      if pc'.Store? { last := StoreFinishes(cmp, s, base.(nodes := nodes'), t, key, node, level + 1, ctx); }
    } else {
      var job: Job<K, V> := if level == 0 then Publish(key, node) else Raise(key, node, level);
      Then(cmp, s, base, t, Cas(key, node, level, ctx), base.nodes, Start(job));
      last := StartFinishes(cmp, s, base, t, job);
    }
  }

  /** Wherever a thread is in the middle of a search or an insert, in any reachable state, it finishes if it is left
      alone. */
  lemma FinishesAlone<K(!new), V>(cmp: Compare<K>, s: State<K, V>, t: nat) returns (last: State<K, V>)
    requires TotalOrder(cmp) && Inv(cmp, s) && t < |s.threads| && Goes(s.threads[t])
    ensures Solo(cmp, s, t, last) && t < |last.threads| && !Goes(last.threads[t])
  {
    assert PcOk(cmp, s.nodes, s.threads[t]);
    SoloSelf(cmp, s, t);
    match s.threads[t]
    case Start(job) => last := StartFinishes(cmp, s, s, t, job);
    case Skip(job, level) =>
      var ctx := SkipAlone(cmp, s, s, t, job, level);
      last := SearchedFinishes(cmp, s, t, job, ctx);
    case Walk(job, level, pred, ctx0) =>
      var ctx := WalkAlone(cmp, s, s, t, job, level, pred, ctx0);
      last := SearchedFinishes(cmp, s, t, job, ctx);
    case Store(key, node, level, ctx) => last := StoreFinishes(cmp, s, s, t, key, node, level, ctx);
    case Cas(key, node, level, ctx) => last := CasFinishes(cmp, s, s, t, key, node, level, ctx);
  }

  lemma SearchedFinishes<K(!new), V>(cmp: Compare<K>, s: State<K, V>, t: nat, job: Job<K, V>,
                           ctx: Context) returns (last: State<K, V>)
    requires TotalOrder(cmp) && Inv(cmp, s) && t < |s.threads| && Solo(cmp, s, t, AtPc(s, t, AfterSearch(job, ctx)))
    ensures Solo(cmp, s, t, last) && t < |last.threads| && !Goes(last.threads[t])
  {
    last := AtPc(s, t, AfterSearch(job, ctx));
    var pc := AfterSearch(job, ctx);
    if pc.Store? { last := StoreFinishes(cmp, s, s, t, pc.key, pc.node, pc.level, pc.ctx); }
  }
}
