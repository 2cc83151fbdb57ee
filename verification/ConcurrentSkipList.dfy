/** The lock-free skip list as a state machine: any number of threads insert and look up at once, and each
    atomic load, store or compare-and-swap of a tower slot is one step. Loads and stores outside a tower
    have no effect in the model; `NoWildAccess` shows that none happens. */
module ConcurrentSkipList {
  import opened Ordering
  import opened Towers
  import opened Chains

  /** The traversal context filled by `search`. */
  datatype Context = Context(found: Ptr, preds: seq<NodeId>, succs: seq<Ptr>)

  function NoContext(): Context {
    Context(NULL, seq(MAX_HEIGHT, _ => SENTINEL), seq(MAX_HEIGHT, _ => NULL))
  }

  /** Why a thread is searching: a read, the first probe of `insert`, a (re)try to publish a node on the
      bottom level, or a retry to link a published node on an upper level. */
  datatype Job<K, V> =
    | Lookup(key: K)
    | Probe(key: K, value: V)
    | Publish(key: K, node: NodeId)
    | Raise(key: K, node: NodeId, target: nat)

  /** Where a thread is. */
  datatype Pc<K, V> =
    | Idle
    | Start(job: Job<K, V>)                                        // about to load max_level
    | Skip(job: Job<K, V>, level: nat)                             // about to load the sentinel's slot level - 1
    | Walk(job: Job<K, V>, level: nat, pred: NodeId, ctx: Context) // about to load pred's slot at level
    | Ready(key: K, value: V, ctx: Context)                        // key absent, about to allocate
    | Store(key: K, node: NodeId, level: nat, ctx: Context)        // about to store the successor
    | Cas(key: K, node: NodeId, level: nat, ctx: Context)          // about to swing the predecessor
    | Inserted(key: K, node: NodeId)
    | Answer(key: K, result: Ptr)

  datatype State<K, V> = State(nodes: seq<Node<K, V>>, maxLevel: nat, threads: seq<Pc<K, V>>)

  datatype Action<K, V> =
    | BeginInsert(t: nat, key: K, value: V)
    | BeginInsertWith(t: nat, key: K, value: V, height: nat)
    | BeginLookup(t: nat, key: K)
    | Allocate(t: nat, height: nat)
    | Continue(t: nat)
    | Finish(t: nat)

  function Init<K, V>(threadCount: nat): State<K, V> {
    State(EmptyList(), 1, seq(threadCount, _ => Idle))
  }

  // ---- Steps ----

  function Load<K, V>(nodes: seq<Node<K, V>>, a: int, l: nat): Ptr {
    if 0 <= a < |nodes| && l < |nodes[a].next| then nodes[a].next[l] else NULL
  }

  function StoreSlot<K, V>(nodes: seq<Node<K, V>>, a: int, l: nat, p: Ptr): (r: seq<Node<K, V>>)
    ensures |r| == |nodes|
  {
    if 0 <= a < |nodes| && l < |nodes[a].next| then nodes[a := nodes[a].(next := nodes[a].next[l := p])] else nodes
  }

  predicate IsBelow<K, V>(cmp: Compare<K>, nodes: seq<Node<K, V>>, p: Ptr, key: K) {
    0 <= p < |nodes| && nodes[p].Entry? && cmp(nodes[p].key, key) == Less
  }

  predicate IsEqual<K, V>(cmp: Compare<K>, nodes: seq<Node<K, V>>, p: Ptr, key: K) {
    0 <= p < |nodes| && nodes[p].Entry? && cmp(nodes[p].key, key) == Equal
  }

  /** What a thread does once its search has filled the context. */
  function AfterSearch<K, V>(job: Job<K, V>, ctx: Context): Pc<K, V> {
    match job
    case Lookup(key) => Answer(key, if |ctx.succs| > 0 then ctx.succs[0] else NULL)
    case Probe(key, value) => if ctx.found != NULL then Inserted(key, ctx.found) else Ready(key, value, ctx)
    case Publish(key, node) => if ctx.found != NULL then Inserted(key, ctx.found) else Store(key, node, 0, ctx)
    case Raise(key, node, target) => Store(key, node, target, ctx)
  }

  function Record(ctx: Context, level: nat, pred: NodeId, curr: Ptr, equal: bool): Context {
    if level < |ctx.preds| && level < |ctx.succs| then
      Context(if equal then curr else ctx.found, ctx.preds[level := pred], ctx.succs[level := curr])
    else ctx
  }

  function SkipStep<K, V>(nodes: seq<Node<K, V>>, job: Job<K, V>, level: nat): Pc<K, V> {
    if level == 0 then AfterSearch(job, NoContext())
    else if Load(nodes, SENTINEL, level - 1) != NULL then Walk(job, level - 1, SENTINEL, NoContext())
    else if level == 1 then AfterSearch(job, NoContext())
    else Skip(job, level - 1)
  }

  function WalkStep<K, V>(cmp: Compare<K>, nodes: seq<Node<K, V>>, job: Job<K, V>, level: nat, pred: NodeId, ctx: Context): Pc<K, V> {
    var curr := Load(nodes, pred, level);
    if IsBelow(cmp, nodes, curr, job.key) then Walk(job, level, curr, ctx)
    else
      var ctx' := Record(ctx, level, pred, curr, IsEqual(cmp, nodes, curr, job.key));
      if level == 0 then AfterSearch(job, ctx') else Walk(job, level - 1, pred, ctx')
  }

  /** The compare-and-swap at Cas succeeds. */
  predicate Swings<K, V>(s: State<K, V>, t: nat) {
    && t < |s.threads|
    && s.threads[t].Cas?
    && var pc := s.threads[t];
       (&& pc.level < |pc.ctx.preds| && pc.level < |pc.ctx.succs|
        && pc.ctx.preds[pc.level] < |s.nodes| && pc.level < |s.nodes[pc.ctx.preds[pc.level]].next|
        && pc.node < |s.nodes|
        && Load(s.nodes, pc.ctx.preds[pc.level], pc.level) == pc.ctx.succs[pc.level])
  }

  function Height<K, V>(nodes: seq<Node<K, V>>, node: NodeId): nat {
    if node < |nodes| then |nodes[node].next| else 0
  }

  function MarkLinked<K, V>(nodes: seq<Node<K, V>>, node: NodeId, links: nat): seq<Node<K, V>> {
    if node < |nodes| then nodes[node := nodes[node].(links := links)] else nodes
  }

  function ContinueStep<K, V>(cmp: Compare<K>, s: State<K, V>, t: nat): State<K, V>
    requires t < |s.threads|
  {
    match s.threads[t]
    case Start(job) => s.(threads := s.threads[t := Skip(job, s.maxLevel)])
    case Skip(job, level) => s.(threads := s.threads[t := SkipStep(s.nodes, job, level)])
    case Walk(job, level, pred, ctx) =>
      s.(threads := s.threads[t := WalkStep(cmp, s.nodes, job, level, pred, ctx)])
    case Store(key, node, level, ctx) =>
      var succ := if level < |ctx.succs| then ctx.succs[level] else NULL;
      State(if succ == NULL then s.nodes else StoreSlot(s.nodes, node, level, succ),
            s.maxLevel,
            s.threads[t := Cas(key, node, level, ctx)])
    case Cas(key, node, level, ctx) =>
      if Swings(s, t) then
        State(MarkLinked(StoreSlot(s.nodes, ctx.preds[level], level, node), node, level + 1),
              s.maxLevel,
              s.threads[t := if level + 1 < Height(s.nodes, node) then Store(key, node, level + 1, ctx) else Inserted(key, node)])
      else
        s.(threads := s.threads[t := Start(if level == 0 then Publish(key, node) else Raise(key, node, level))])
    case _ => s
  }

  predicate Enabled<K, V>(s: State<K, V>, act: Action<K, V>) {
    && act.t < |s.threads|
    && var pc := s.threads[act.t];
       match act
       case BeginInsert(_, _, _) => pc.Idle?
       case BeginInsertWith(_, _, _, height) => pc.Idle? && 1 <= height <= MAX_HEIGHT
       case BeginLookup(_, _) => pc.Idle?
       case Allocate(_, height) => pc.Ready? && 1 <= height <= MAX_HEIGHT
       case Continue(_) => pc.Start? || pc.Skip? || pc.Walk? || pc.Store? || pc.Cas?
       case Finish(_) => pc.Inserted? || pc.Answer?
  }

  function NewNode<K, V>(s: State<K, V>, key: K, value: V, height: nat): seq<Node<K, V>> {
    s.nodes + [Entry(key, value, FreshTower(height), 0)]
  }

  function RaiseMax<K, V>(s: State<K, V>, height: nat): nat {
    if height > s.maxLevel then height else s.maxLevel
  }

  function Next<K, V>(cmp: Compare<K>, s: State<K, V>, act: Action<K, V>): State<K, V>
    requires Enabled(s, act)
  {
    var t := act.t;
    match act
    case BeginInsert(_, key, value) => s.(threads := s.threads[t := Start(Probe(key, value))])
    case BeginLookup(_, key) => s.(threads := s.threads[t := Start(Lookup(key))])
    case BeginInsertWith(_, key, value, height) =>
      State(NewNode(s, key, value, height), RaiseMax(s, height), s.threads[t := Start(Publish(key, |s.nodes|))])
    case Allocate(_, height) =>
      var pc := s.threads[t];
      State(NewNode(s, pc.key, pc.value, height), RaiseMax(s, height), s.threads[t := Store(pc.key, |s.nodes|, 0, pc.ctx)])
    case Continue(_) => ContinueStep(cmp, s, t)
    case Finish(_) => s.(threads := s.threads[t := Idle])
  }

  /** An interleaving: the states it passes through and the step taken at each. */
  ghost predicate Execution<K, V>(cmp: Compare<K>, states: seq<State<K, V>>, acts: seq<Action<K, V>>) {
    && |states| == |acts| + 1
    && states[0] == Init(|states[0].threads|)
    && (forall i :: 0 <= i < |acts| ==> Enabled(states[i], acts[i]) && states[i + 1] == Next(cmp, states[i], acts[i]))
  }

  // ---- The invariant ----

  /** What a context says about the levels from `from` up. It stays true as the list grows. */
  ghost predicate ContextOk<K, V>(cmp: Compare<K>, nodes: seq<Node<K, V>>, key: K, ctx: Context, from: nat) {
    && |ctx.preds| == |ctx.succs| == MAX_HEIGHT
    && (forall m :: from <= m < MAX_HEIGHT ==>
          Linked(nodes, ctx.preds[m], m) && Below(cmp, nodes, ctx.preds[m], key) &&
          SuccessorOk(cmp, nodes, key, ctx, m))
    && (ctx.found != NULL ==> Linked(nodes, ctx.found, 0) && nodes[ctx.found].Entry? && nodes[ctx.found].key == key)
  }

  ghost predicate SuccessorOk<K, V>(cmp: Compare<K>, nodes: seq<Node<K, V>>, key: K, ctx: Context, m: nat)
    requires m < |ctx.succs|
  {
    ctx.succs[m] == NULL ||
    (&& Linked(nodes, ctx.succs[m], m)
     && nodes[ctx.succs[m]].Entry?
     && !Below(cmp, nodes, ctx.succs[m], key)
     && (nodes[ctx.succs[m]].key == key ==> ctx.found == ctx.succs[m]))
  }

  /** A thread's own node: linked on the levels below l, untouched above l, and on level l either fresh or
      already pointing at a later node of the level. */
  ghost predicate OwnNode<K, V>(cmp: Compare<K>, nodes: seq<Node<K, V>>, key: K, node: NodeId, l: nat) {
    && 0 < node < |nodes|
    && nodes[node].Entry? && nodes[node].key == key
    && nodes[node].links == l < |nodes[node].next|
    && (forall m :: l < m < |nodes[node].next| ==> nodes[node].next[m] == NULL)
    && (nodes[node].next[l] != NULL ==>
          Linked(nodes, nodes[node].next[l], l) && Before(cmp, nodes, node, nodes[node].next[l]))
  }

  ghost predicate JobOk<K, V>(cmp: Compare<K>, nodes: seq<Node<K, V>>, job: Job<K, V>) {
    match job
    case Publish(key, node) => OwnNode(cmp, nodes, key, node, 0)
    case Raise(key, node, target) => target > 0 && OwnNode(cmp, nodes, key, node, target)
    case _ => true
  }

  function TargetLevel<K, V>(job: Job<K, V>): nat {
    if job.Raise? then job.target else 0
  }

  /** The job's node already points at a successor on its target level, so the search must find one. */
  predicate MustFind<K, V>(nodes: seq<Node<K, V>>, job: Job<K, V>) {
    (job.Publish? || job.Raise?) && Load(nodes, job.node, TargetLevel(job)) != NULL
  }

  ghost predicate PcOk<K, V>(cmp: Compare<K>, nodes: seq<Node<K, V>>, pc: Pc<K, V>) {
    match pc
    case Idle => true
    case Start(job) => JobOk(cmp, nodes, job)
    case Skip(job, level) =>
      JobOk(cmp, nodes, job) && 1 <= level <= MAX_HEIGHT && (MustFind(nodes, job) ==> level > TargetLevel(job))
    case Walk(job, level, pred, ctx) =>
      && JobOk(cmp, nodes, job)
      && level < MAX_HEIGHT
      && Linked(nodes, pred, level) && Below(cmp, nodes, pred, job.key)
      && ContextOk(cmp, nodes, job.key, ctx, level + 1)
      && (MustFind(nodes, job) && level < TargetLevel(job) ==>
            TargetLevel(job) < MAX_HEIGHT && ctx.succs[TargetLevel(job)] != NULL)
    case Ready(key, value, ctx) => ContextOk(cmp, nodes, key, ctx, 0) && ctx.found == NULL
    case Store(key, node, level, ctx) =>
      && OwnNode(cmp, nodes, key, node, level)
      && level < MAX_HEIGHT
      && ContextOk(cmp, nodes, key, ctx, 0)
      && (level == 0 ==> ctx.found == NULL)
      && (nodes[node].next[level] != NULL ==> ctx.succs[level] != NULL)
    case Cas(key, node, level, ctx) =>
      && OwnNode(cmp, nodes, key, node, level)
      && level < MAX_HEIGHT
      && ContextOk(cmp, nodes, key, ctx, 0)
      && (level == 0 ==> ctx.found == NULL)
      && nodes[node].next[level] == ctx.succs[level]
    case Inserted(key, node) => Linked(nodes, node, 0) && nodes[node].Entry? && nodes[node].key == key
    case Answer(key, result) =>
      result == NULL || (Linked(nodes, result, 0) && nodes[result].Entry? && !Below(cmp, nodes, result, key))
  }

  /** The node a thread is inserting. */
  function Owned<K, V>(pc: Pc<K, V>): Ptr {
    match pc
    case Start(job) => OwnedByJob(job)
    case Skip(job, _) => OwnedByJob(job)
    case Walk(job, _, _, _) => OwnedByJob(job)
    case Store(_, node, _, _) => node
    case Cas(_, node, _, _) => node
    case _ => NULL
  }

  function OwnedByJob<K, V>(job: Job<K, V>): Ptr {
    if job.Publish? || job.Raise? then job.node else NULL
  }

  ghost predicate HeightsWithin<K, V>(nodes: seq<Node<K, V>>, maxLevel: nat) {
    1 <= maxLevel <= MAX_HEIGHT && forall i :: 0 < i < |nodes| ==> |nodes[i].next| <= maxLevel
  }

  ghost predicate OwnersDiffer<K, V>(threads: seq<Pc<K, V>>) {
    forall i, j :: 0 <= i < j < |threads| && Owned(threads[i]) != NULL ==> Owned(threads[i]) != Owned(threads[j])
  }

  ghost predicate Inv<K, V>(cmp: Compare<K>, s: State<K, V>) {
    && Ordered(cmp, s.nodes)
    && HeightsWithin(s.nodes, s.maxLevel)
    && (forall t :: 0 <= t < |s.threads| ==> PcOk(cmp, s.nodes, s.threads[t]))
    && OwnersDiffer(s.threads)
  }

  // ---- What other threads' steps leave alone ----

  /** The list only grows: nodes keep their keys, values and heights, and stay on their levels. */
  ghost predicate Grows<K, V>(nodes: seq<Node<K, V>>, nodes': seq<Node<K, V>>) {
    && |nodes| <= |nodes'|
    && (forall i :: 0 <= i < |nodes| ==>
          && nodes'[i].Entry? == nodes[i].Entry?
          && (nodes[i].Entry? ==> nodes'[i].key == nodes[i].key && nodes'[i].value == nodes[i].value)
          && |nodes'[i].next| == |nodes[i].next|
          && nodes[i].links <= nodes'[i].links)
  }

  /** The part of a node that only its owner touches. */
  ghost predicate OwnPartKept<K, V>(nodes: seq<Node<K, V>>, nodes': seq<Node<K, V>>, p: Ptr) {
    0 <= p < |nodes| && p < |nodes'| && |nodes'[p].next| == |nodes[p].next| ==>
      && nodes'[p].links == nodes[p].links
      && (forall m :: nodes[p].links <= m < |nodes[p].next| ==> nodes'[p].next[m] == nodes[p].next[m])
  }

  lemma PcOkStable<K(!new), V>(cmp: Compare<K>, nodes: seq<Node<K, V>>, nodes': seq<Node<K, V>>, pc: Pc<K, V>)
    requires PcOk(cmp, nodes, pc) && Grows(nodes, nodes') && OwnPartKept(nodes, nodes', Owned(pc))
    ensures PcOk(cmp, nodes', pc)
  {
    match pc
    case Start(job) => JobOkStable(cmp, nodes, nodes', job);
    case Skip(job, _) => JobOkStable(cmp, nodes, nodes', job);
    case Walk(job, level, _, ctx) =>
      JobOkStable(cmp, nodes, nodes', job);
      ContextOkStable(cmp, nodes, nodes', job.key, ctx, level + 1);
    case Ready(key, _, ctx) => ContextOkStable(cmp, nodes, nodes', key, ctx, 0);
    case Store(key, node, level, ctx) =>
      ContextOkStable(cmp, nodes, nodes', key, ctx, 0);
    case Cas(key, node, level, ctx) =>
      ContextOkStable(cmp, nodes, nodes', key, ctx, 0);
    case _ =>
  }

  lemma JobOkStable<K, V>(cmp: Compare<K>, nodes: seq<Node<K, V>>, nodes': seq<Node<K, V>>, job: Job<K, V>)
    requires JobOk(cmp, nodes, job) && Grows(nodes, nodes') && OwnPartKept(nodes, nodes', OwnedByJob(job))
    ensures JobOk(cmp, nodes', job) && MustFind(nodes', job) == MustFind(nodes, job)
  {
  }

  lemma ContextOkStable<K, V>(cmp: Compare<K>, nodes: seq<Node<K, V>>, nodes': seq<Node<K, V>>, key: K, ctx: Context, from: nat)
    requires ContextOk(cmp, nodes, key, ctx, from) && Grows(nodes, nodes')
    ensures ContextOk(cmp, nodes', key, ctx, from)
  {
    forall m | from <= m < MAX_HEIGHT
      ensures Linked(nodes', ctx.preds[m], m) && Below(cmp, nodes', ctx.preds[m], key) && SuccessorOk(cmp, nodes', key, ctx, m)
    {
      assert SuccessorOk(cmp, nodes, key, ctx, m);
    }
  }

  /** A step of thread t that respects the other threads keeps the invariant. */
  lemma StepKeepsInv<K(!new), V>(cmp: Compare<K>, s: State<K, V>, t: nat, s': State<K, V>)
    requires Inv(cmp, s) && t < |s.threads| == |s'.threads|
    requires s'.threads == s.threads[t := s'.threads[t]]
    requires Ordered(cmp, s'.nodes) && HeightsWithin(s'.nodes, s'.maxLevel) && Grows(s.nodes, s'.nodes)
    requires PcOk(cmp, s'.nodes, s'.threads[t])
    requires var p := Owned(s'.threads[t]); p == NULL || p == Owned(s.threads[t]) || p >= |s.nodes|
    requires forall p :: p != NULL && p != Owned(s.threads[t]) ==> OwnPartKept(s.nodes, s'.nodes, p)
    ensures Inv(cmp, s')
  {
    forall u | 0 <= u < |s'.threads| ensures PcOk(cmp, s'.nodes, s'.threads[u]) {
      if u != t {
        assert Owned(s.threads[u]) != NULL ==> Owned(s.threads[u]) != Owned(s.threads[t]);
        PcOkStable(cmp, s.nodes, s'.nodes, s.threads[u]);
      }
    }
    forall i, j | 0 <= i < j < |s'.threads| && Owned(s'.threads[i]) != NULL
      ensures Owned(s'.threads[i]) != Owned(s'.threads[j])
    {
      assert PcOk(cmp, s.nodes, s.threads[i]) && PcOk(cmp, s.nodes, s.threads[j]);
      OwnedInRange(cmp, s.nodes, s.threads[i]);
      OwnedInRange(cmp, s.nodes, s.threads[j]);
    }
  }

  lemma OwnedInRange<K, V>(cmp: Compare<K>, nodes: seq<Node<K, V>>, pc: Pc<K, V>)
    requires PcOk(cmp, nodes, pc)
    ensures Owned(pc) < |nodes| || Owned(pc) == NULL
  {
  }

  // ---- Search steps ----

  lemma AfterSearchOk<K(!new), V>(cmp: Compare<K>, nodes: seq<Node<K, V>>, job: Job<K, V>, ctx: Context)
    requires TotalOrder(cmp) && Ordered(cmp, nodes)
    requires JobOk(cmp, nodes, job) && ContextOk(cmp, nodes, job.key, ctx, 0)
    requires MustFind(nodes, job) ==> ctx.succs[TargetLevel(job)] != NULL
    ensures PcOk(cmp, nodes, AfterSearch(job, ctx))
    ensures Owned(AfterSearch(job, ctx)) in {NULL, OwnedByJob(job)}
  {
    assert SuccessorOk(cmp, nodes, job.key, ctx, 0);
  }

  lemma NoContextOk<K, V>(cmp: Compare<K>, nodes: seq<Node<K, V>>, key: K)
    requires Shape(nodes)
    ensures ContextOk(cmp, nodes, key, NoContext(), 0)
  {
  }

  /** A job that must find a successor finds the sentinel's slot on its level occupied. */
  lemma MustFindSentinel<K(!new), V>(cmp: Compare<K>, nodes: seq<Node<K, V>>, job: Job<K, V>)
    requires Ordered(cmp, nodes) && JobOk(cmp, nodes, job) && MustFind(nodes, job)
    ensures TargetLevel(job) < MAX_HEIGHT && nodes[SENTINEL].next[TargetLevel(job)] != NULL
    ensures TargetLevel(job) < Height(nodes, nodes[job.node].next[TargetLevel(job)])
    ensures nodes[job.node].next[TargetLevel(job)] > 0
  {
    var l := TargetLevel(job);
    assert LevelOrdered(cmp, nodes, l);
    assert Before(cmp, nodes, SENTINEL, nodes[job.node].next[l]);
  }

  lemma SkipStepOk<K(!new), V>(cmp: Compare<K>, nodes: seq<Node<K, V>>, job: Job<K, V>, level: nat)
    requires TotalOrder(cmp) && Ordered(cmp, nodes) && PcOk(cmp, nodes, Skip(job, level))
    ensures PcOk(cmp, nodes, SkipStep(nodes, job, level))
    ensures Owned(SkipStep(nodes, job, level)) in {NULL, OwnedByJob(job)}
  {
    NoContextOk(cmp, nodes, job.key);
    if MustFind(nodes, job) { MustFindSentinel(cmp, nodes, job); }
    if Load(nodes, SENTINEL, level - 1) == NULL && level == 1 {
      AfterSearchOk(cmp, nodes, job, NoContext());
    }
  }

  /** While the walk is on the target level of a job that must find a successor, the next slot is not null. */
  lemma MustFindAhead<K(!new), V>(cmp: Compare<K>, nodes: seq<Node<K, V>>, job: Job<K, V>, pred: NodeId)
    requires TotalOrder(cmp) && Ordered(cmp, nodes) && JobOk(cmp, nodes, job) && MustFind(nodes, job)
    requires Linked(nodes, pred, TargetLevel(job)) && Below(cmp, nodes, pred, job.key)
    ensures nodes[pred].next[TargetLevel(job)] != NULL
  {
    var l := TargetLevel(job);
    var s := nodes[job.node].next[l];
    assert LevelOrdered(cmp, nodes, l);
    assert Before(cmp, nodes, pred, job.node) && Before(cmp, nodes, job.node, s);
    BeforeTransitive(cmp, nodes, pred, job.node, s);
  }

  lemma WalkStepOk<K(!new), V>(cmp: Compare<K>, nodes: seq<Node<K, V>>, job: Job<K, V>, level: nat, pred: NodeId, ctx: Context)
    requires TotalOrder(cmp) && Ordered(cmp, nodes) && PcOk(cmp, nodes, Walk(job, level, pred, ctx))
    ensures PcOk(cmp, nodes, WalkStep(cmp, nodes, job, level, pred, ctx))
    ensures Owned(WalkStep(cmp, nodes, job, level, pred, ctx)) in {NULL, OwnedByJob(job)}
  {
    var curr := Load(nodes, pred, level);
    assert LevelOrdered(cmp, nodes, level);
    if !IsBelow(cmp, nodes, curr, job.key) {
      var ctx' := Record(ctx, level, pred, curr, IsEqual(cmp, nodes, curr, job.key));
      RecordOk(cmp, nodes, job.key, ctx, level, pred, curr);
      RecordFinds(cmp, nodes, job, level, pred, ctx);
      if level == 0 {
        AfterSearchOk(cmp, nodes, job, ctx');
      }
    }
  }

  /** Once the walk has left the target level of a job that must find a successor, it has found one. */
  lemma RecordFinds<K(!new), V>(cmp: Compare<K>, nodes: seq<Node<K, V>>, job: Job<K, V>, level: nat, pred: NodeId, ctx: Context)
    requires TotalOrder(cmp) && Ordered(cmp, nodes) && PcOk(cmp, nodes, Walk(job, level, pred, ctx))
    requires MustFind(nodes, job) ==> TargetLevel(job) < MAX_HEIGHT
    ensures var curr := Load(nodes, pred, level);
            var ctx' := Record(ctx, level, pred, curr, IsEqual(cmp, nodes, curr, job.key));
            |ctx'.succs| == MAX_HEIGHT &&
            (MustFind(nodes, job) && level <= TargetLevel(job) ==> ctx'.succs[TargetLevel(job)] != NULL)
  {
    if MustFind(nodes, job) && level == TargetLevel(job) { MustFindAhead(cmp, nodes, job, pred); }
  }

  lemma RecordOk<K(!new), V>(cmp: Compare<K>, nodes: seq<Node<K, V>>, key: K, ctx: Context, level: nat, pred: NodeId, curr: Ptr)
    requires TotalOrder(cmp) && Ordered(cmp, nodes) && level < MAX_HEIGHT
    requires ContextOk(cmp, nodes, key, ctx, level + 1)
    requires Linked(nodes, pred, level) && Below(cmp, nodes, pred, key)
    requires curr == NULL || (Linked(nodes, curr, level) && nodes[curr].Entry? && !Below(cmp, nodes, curr, key))
    ensures ContextOk(cmp, nodes, key, Record(ctx, level, pred, curr, IsEqual(cmp, nodes, curr, key)), level)
  {
    var ctx' := Record(ctx, level, pred, curr, IsEqual(cmp, nodes, curr, key));
    forall m | level <= m < MAX_HEIGHT
      ensures Linked(nodes, ctx'.preds[m], m) && Below(cmp, nodes, ctx'.preds[m], key) && SuccessorOk(cmp, nodes, key, ctx', m)
    {
      if m > level {
        assert SuccessorOk(cmp, nodes, key, ctx, m);
        assert ctx'.succs[m] == ctx.succs[m];
        assert ctx.succs[m] != NULL ==> Linked(nodes, ctx.succs[m], 0);
      }
    }
  }

  // ---- Shared-memory steps ----

  lemma AllocationOk<K(!new), V>(cmp: Compare<K>, s: State<K, V>, key: K, value: V, height: nat)
    requires Inv(cmp, s) && 1 <= height <= MAX_HEIGHT
    ensures Ordered(cmp, NewNode(s, key, value, height)) && HeightsWithin(NewNode(s, key, value, height), RaiseMax(s, height))
    ensures Grows(s.nodes, NewNode(s, key, value, height))
    ensures forall p :: OwnPartKept(s.nodes, NewNode(s, key, value, height), p)
    ensures OwnNode(cmp, NewNode(s, key, value, height), key, |s.nodes|, 0)
  {
    var nodes' := NewNode(s, key, value, height);
    assert forall a, l: nat :: Linked(nodes', a, l) <==> Linked(s.nodes, a, l);
    forall l: nat | l < MAX_HEIGHT ensures LevelOrdered(cmp, nodes', l) {
      assert LevelOrdered(cmp, s.nodes, l);
      forall a, b | Linked(nodes', a, l) && Linked(nodes', b, l) && Before(cmp, nodes', a, b)
        ensures nodes'[a].next[l] != NULL && !Before(cmp, nodes', b, nodes'[a].next[l])
      {
        assert Linked(s.nodes, a, l) && Linked(s.nodes, b, l) && Before(cmp, s.nodes, a, b);
      }
    }
  }

  /** Storing into a slot above a node's linked levels leaves every level as it was. */
  lemma StoreOrdered<K(!new), V>(cmp: Compare<K>, nodes: seq<Node<K, V>>, node: NodeId, l: nat, p: Ptr)
    requires Ordered(cmp, nodes) && 0 < node < |nodes| && nodes[node].links <= l
    ensures Ordered(cmp, StoreSlot(nodes, node, l, p)) && Grows(nodes, StoreSlot(nodes, node, l, p))
    ensures forall q: Ptr :: q != node ==> OwnPartKept(nodes, StoreSlot(nodes, node, l, p), q)
  {
    var nodes' := StoreSlot(nodes, node, l, p);
    assert forall a, m: nat :: Linked(nodes', a, m) <==> Linked(nodes, a, m);
    assert forall a, b :: Before(cmp, nodes', a, b) == Before(cmp, nodes, a, b);
    forall m: nat | m < MAX_HEIGHT ensures LevelOrdered(cmp, nodes', m) {
      assert LevelOrdered(cmp, nodes, m);
      assert forall a :: Linked(nodes', a, m) ==> nodes'[a].next[m] == nodes[a].next[m];
    }
  }

  lemma StoreStepOk<K(!new), V>(cmp: Compare<K>, s: State<K, V>, t: nat)
    requires TotalOrder(cmp) && Inv(cmp, s) && t < |s.threads| && s.threads[t].Store?
    ensures Inv(cmp, ContinueStep(cmp, s, t))
  {
    var pc := s.threads[t];
    assert PcOk(cmp, s.nodes, pc);
    var succ := pc.ctx.succs[pc.level];
    if succ != NULL {
      var s' := ContinueStep(cmp, s, t);
      StoreOrdered(cmp, s.nodes, pc.node, pc.level, succ);
      StorePcOk(cmp, s, t);
      StepKeepsInv(cmp, s, t, s');
    } else {
      LocalStepOk(cmp, s, t, Cas(pc.key, pc.node, pc.level, pc.ctx));
    }
  }

  lemma StorePcOk<K(!new), V>(cmp: Compare<K>, s: State<K, V>, t: nat)
    requires TotalOrder(cmp) && Inv(cmp, s) && t < |s.threads| && s.threads[t].Store?
    requires var pc := s.threads[t]; pc.level < |pc.ctx.succs| && pc.ctx.succs[pc.level] != NULL
    ensures var s' := ContinueStep(cmp, s, t); PcOk(cmp, s'.nodes, s'.threads[t])
  {
    var pc := s.threads[t];
    var s' := ContinueStep(cmp, s, t);
    assert PcOk(cmp, s.nodes, pc);
    StoreOrdered(cmp, s.nodes, pc.node, pc.level, pc.ctx.succs[pc.level]);
    SuccessorIsLater(cmp, s.nodes, pc.key, pc.node, pc.level, pc.ctx);
    ContextOkStable(cmp, s.nodes, s'.nodes, pc.key, pc.ctx, 0);
  }

  /** The recorded successor lies strictly after the thread's own node. */
  lemma SuccessorIsLater<K(!new), V>(cmp: Compare<K>, nodes: seq<Node<K, V>>, key: K, node: NodeId, l: nat, ctx: Context)
    requires TotalOrder(cmp) && Ordered(cmp, nodes) && OwnNode(cmp, nodes, key, node, l) && l < MAX_HEIGHT
    requires ContextOk(cmp, nodes, key, ctx, 0) && (l == 0 ==> ctx.found == NULL)
    requires ctx.succs[l] != NULL
    ensures Linked(nodes, ctx.succs[l], l) && Before(cmp, nodes, node, ctx.succs[l])
  {
    assert SuccessorOk(cmp, nodes, key, ctx, l);
    var succ := ctx.succs[l];
    if l > 0 {
      assert Linked(nodes, node, 0) && Linked(nodes, succ, 0);
    }
    assert nodes[succ].key != key;
  }

  /** A compare-and-swap that succeeds finds exactly the conditions under which linking is sound. */
  lemma CasCanLink<K(!new), V>(cmp: Compare<K>, s: State<K, V>, t: nat)
    requires TotalOrder(cmp) && Inv(cmp, s) && t < |s.threads| && Swings(s, t)
    ensures var pc := s.threads[t];
            && CanLink(cmp, s.nodes, pc.ctx.preds[pc.level], pc.node)
            && s.nodes[pc.node].links == pc.level
            && MarkLinked(StoreSlot(s.nodes, pc.ctx.preds[pc.level], pc.level, pc.node), pc.node, pc.level + 1)
               == Link(s.nodes, pc.ctx.preds[pc.level], pc.node)
  {
    var pc := s.threads[t];
    assert PcOk(cmp, s.nodes, pc);
    if pc.ctx.succs[pc.level] != NULL {
      SuccessorIsLater(cmp, s.nodes, pc.key, pc.node, pc.level, pc.ctx);
    }
  }

  lemma LinkGrows<K, V>(cmp: Compare<K>, nodes: seq<Node<K, V>>, pred: int, node: int)
    requires Shape(nodes) && CanLink(cmp, nodes, pred, node)
    ensures Grows(nodes, Link(nodes, pred, node))
    ensures forall p: Ptr :: p != node ==> OwnPartKept(nodes, Link(nodes, pred, node), p)
  {
    LinkFrame(cmp, nodes, pred, node);
  }

  lemma CasStepOk<K(!new), V>(cmp: Compare<K>, s: State<K, V>, t: nat)
    requires TotalOrder(cmp) && Inv(cmp, s) && t < |s.threads| && s.threads[t].Cas?
    ensures Inv(cmp, ContinueStep(cmp, s, t))
  {
    if Swings(s, t) {
      var s' := ContinueStep(cmp, s, t);
      SwingKeepsNodes(cmp, s, t);
      SwingPcOk(cmp, s, t);
      StepKeepsInv(cmp, s, t, s');
    } else {
      var pc := s.threads[t];
      assert PcOk(cmp, s.nodes, pc);
      LocalStepOk(cmp, s, t, Start(if pc.level == 0 then Publish(pc.key, pc.node) else Raise(pc.key, pc.node, pc.level)));
    }
  }

  /** What a swing does to the nodes. */
  lemma SwingKeepsNodes<K(!new), V>(cmp: Compare<K>, s: State<K, V>, t: nat)
    requires TotalOrder(cmp) && Inv(cmp, s) && t < |s.threads| && Swings(s, t)
    ensures var nodes' := ContinueStep(cmp, s, t).nodes;
            && Ordered(cmp, nodes') && HeightsWithin(nodes', s.maxLevel) && Grows(s.nodes, nodes')
            && (forall p: Ptr :: p != s.threads[t].node ==> OwnPartKept(s.nodes, nodes', p))
  {
    var pc := s.threads[t];
    var pred := pc.ctx.preds[pc.level];
    CasCanLink(cmp, s, t);
    LinkKeepsOrdered(cmp, s.nodes, pred, pc.node);
    LinkGrows(cmp, s.nodes, pred, pc.node);
  }

  /** The thread goes on to the next level of its node, or is done. */
  lemma SwingPcOk<K(!new), V>(cmp: Compare<K>, s: State<K, V>, t: nat)
    requires TotalOrder(cmp) && Inv(cmp, s) && t < |s.threads| && Swings(s, t)
    ensures var s' := ContinueStep(cmp, s, t); PcOk(cmp, s'.nodes, s'.threads[t])
  {
    var pc := s.threads[t];
    var s' := ContinueStep(cmp, s, t);
    assert PcOk(cmp, s.nodes, pc);
    SwingKeepsNodes(cmp, s, t);
    CasCanLink(cmp, s, t);
    LinkFrame(cmp, s.nodes, pc.ctx.preds[pc.level], pc.node);
    ContextOkStable(cmp, s.nodes, s'.nodes, pc.key, pc.ctx, 0);
  }

  lemma LocalStepOk<K(!new), V>(cmp: Compare<K>, s: State<K, V>, t: nat, pc': Pc<K, V>)
    requires Inv(cmp, s) && t < |s.threads|
    requires PcOk(cmp, s.nodes, pc') && Owned(pc') in {NULL, Owned(s.threads[t])}
    ensures Inv(cmp, s.(threads := s.threads[t := pc']))
  {
    StepKeepsInv(cmp, s, t, s.(threads := s.threads[t := pc']));
  }

  lemma StartStepOk<K(!new), V>(cmp: Compare<K>, s: State<K, V>, t: nat)
    requires TotalOrder(cmp) && Inv(cmp, s) && t < |s.threads| && s.threads[t].Start?
    ensures Inv(cmp, ContinueStep(cmp, s, t))
  {
    var job := s.threads[t].job;
    assert PcOk(cmp, s.nodes, s.threads[t]);
    if MustFind(s.nodes, job) { MustFindSentinel(cmp, s.nodes, job); }
    LocalStepOk(cmp, s, t, Skip(job, s.maxLevel));
  }

  lemma ContinueOk<K(!new), V>(cmp: Compare<K>, s: State<K, V>, t: nat)
    requires TotalOrder(cmp) && Inv(cmp, s) && t < |s.threads|
    ensures Inv(cmp, ContinueStep(cmp, s, t))
  {
    assert PcOk(cmp, s.nodes, s.threads[t]);
    match s.threads[t]
    case Start(_) => StartStepOk(cmp, s, t);
    case Skip(job, level) =>
      SkipStepOk(cmp, s.nodes, job, level);
      LocalStepOk(cmp, s, t, SkipStep(s.nodes, job, level));
    case Walk(job, level, pred, ctx) =>
      WalkStepOk(cmp, s.nodes, job, level, pred, ctx);
      LocalStepOk(cmp, s, t, WalkStep(cmp, s.nodes, job, level, pred, ctx));
    case Store(_, _, _, _) => StoreStepOk(cmp, s, t);
    case Cas(_, _, _, _) => CasStepOk(cmp, s, t);
    case _ =>
  }

  /** Every step of every thread keeps the invariant. */
  lemma NextKeepsInv<K(!new), V>(cmp: Compare<K>, s: State<K, V>, act: Action<K, V>)
    requires TotalOrder(cmp) && Inv(cmp, s) && Enabled(s, act)
    ensures Inv(cmp, Next(cmp, s, act))
  {
    var t := act.t;
    assert PcOk(cmp, s.nodes, s.threads[t]);
    match act
    case Continue(_) => ContinueOk(cmp, s, t);
    case BeginInsertWith(_, key, value, height) =>
      AllocationOk(cmp, s, key, value, height);
      StepKeepsInv(cmp, s, t, Next(cmp, s, act));
    case Allocate(_, height) =>
      var pc := s.threads[t];
      AllocationOk(cmp, s, pc.key, pc.value, height);
      ContextOkStable(cmp, s.nodes, NewNode(s, pc.key, pc.value, height), pc.key, pc.ctx, 0);
      StepKeepsInv(cmp, s, t, Next(cmp, s, act));
    case BeginInsert(_, key, value) => LocalStepOk(cmp, s, t, Start(Probe(key, value)));
    case BeginLookup(_, key) => LocalStepOk(cmp, s, t, Start(Lookup(key)));
    case Finish(_) => LocalStepOk(cmp, s, t, Idle);
  }
}
