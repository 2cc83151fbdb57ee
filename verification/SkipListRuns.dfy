/** What holds over whole runs of the concurrent skip list: level structure, refinement of a keep-first map,
    persistence of finished inserts, and lookups that are exact at one instant. */
module SkipListRuns {
  import opened Ordering
  import opened Towers
  import opened Chains
  import opened ConcurrentSkipList

  lemma InitInv<K(!new), V>(cmp: Compare<K>, threadCount: nat)
    ensures Inv(cmp, Init<K, V>(threadCount))
  {
  }

  /** The invariant holds in every state of every interleaving. */
  lemma {:induction false} ReachableInv<K(!new), V>(cmp: Compare<K>, states: seq<State<K, V>>, acts: seq<Action<K,
                                        V>>, i: nat)
    requires TotalOrder(cmp) && Execution(cmp, states, acts) && i < |states|
    ensures Inv(cmp, states[i])
  {
    if i == 0 {
      InitInv<K, V>(cmp, |states[0].threads|);
    } else {
      ReachableInv(cmp, states, acts, i - 1);
      NextKeepsInv(cmp, states[i - 1], acts[i - 1]);
    }
  }

  /** In every reachable state, on every level, the links from the sentinel form a strictly increasing chain
      of the nodes linked there, and each level's chain is a subsequence of the one below. */
  lemma LevelsAlwaysSorted<K(!new), V>(cmp: Compare<K>, states: seq<State<K, V>>, acts: seq<Action<K, V>>, i: nat, l: nat)
    requires TotalOrder(cmp) && Execution(cmp, states, acts) && i < |states| && l < MAX_HEIGHT
    ensures var nodes := states[i].nodes;
            && Ordered(cmp, nodes)
            && StrictlyIncreasing(cmp, nodes, Chain(cmp, nodes, l, SENTINEL))
            && (forall b :: b in Chain(cmp, nodes, l, SENTINEL) <==> Linked(nodes, b, l) && b != SENTINEL)
            && (l > 0 ==> Subsequence(Chain(cmp, nodes, l, SENTINEL), Chain(cmp, nodes, l - 1, SENTINEL)))
  {
    ReachableInv(cmp, states, acts, i);
    var nodes := states[i].nodes;
    ChainMembers(cmp, nodes, l, SENTINEL);
    ChainIncreasing(cmp, nodes, l, SENTINEL);
    DropIncreasing(cmp, nodes, [SENTINEL] + Chain(cmp, nodes, l, SENTINEL));
    assert ([SENTINEL] + Chain(cmp, nodes, l, SENTINEL))[1..] == Chain(cmp, nodes, l, SENTINEL);
    if l > 0 { LevelsNest(cmp, nodes, l); }
  }

  /** Every tower slot a thread is about to load, store or swing exists. */
  lemma NoWildAccess<K(!new), V>(cmp: Compare<K>, s: State<K, V>, t: nat)
    requires TotalOrder(cmp) && Inv(cmp, s) && t < |s.threads|
    ensures match s.threads[t]
            case Skip(_, level) => 1 <= level && |s.nodes| > 0 && level - 1 < |s.nodes[SENTINEL].next|
            case Walk(_, level, pred, _) => pred < |s.nodes| && level < |s.nodes[pred].next|
            case Store(_, node, level, ctx) => node < |s.nodes| && level < |s.nodes[node].next| && level < |ctx.succs|
            case Cas(_, node, level, ctx) =>
              && node < |s.nodes| && level < |s.nodes[node].next|
              && level < |ctx.succs| == |ctx.preds|
              && ctx.preds[level] < |s.nodes| && level < |s.nodes[ctx.preds[level]].next|
            case _ => true
  {
    assert PcOk(cmp, s.nodes, s.threads[t]);
  }

  /** A compare-and-swap that succeeds puts the node between its predecessor and the very successor it was
      compared against, although null successors are never stored into the node. */
  lemma SwingExact<K(!new), V>(cmp: Compare<K>, s: State<K, V>, t: nat)
    requires TotalOrder(cmp) && Inv(cmp, s) && t < |s.threads| && Swings(s, t)
    ensures var pc := s.threads[t];
            var pred, succ := pc.ctx.preds[pc.level], pc.ctx.succs[pc.level];
            var nodes' := ContinueStep(cmp, s, t).nodes;
            && Load(s.nodes, pred, pc.level) == succ
            && Load(nodes', pred, pc.level) == pc.node
            && Load(nodes', pc.node, pc.level) == succ
            && Linked(nodes', pc.node, pc.level) && !Linked(s.nodes, pc.node, pc.level)
  {
    CasCanLink(cmp, s, t);
    LinkFrame(cmp, s.nodes, s.threads[t].ctx.preds[s.threads[t].level], s.threads[t].node);
  }

  // ---- Refinement of a keep-first map ----

  /** The step is a successful compare-and-swap on the bottom level. */
  predicate Publishes<K, V>(s: State<K, V>, act: Action<K, V>) {
    act.Continue? && Swings(s, act.t) && s.threads[act.t].level == 0
  }

  /** A slot of a linked level that points somewhere still points somewhere. */
  ghost predicate SlotsKept<K, V>(nodes: seq<Node<K, V>>, nodes': seq<Node<K, V>>) {
    && |nodes| <= |nodes'|
    && (forall a, l: nat :: Linked(nodes, a, l) && nodes[a].next[l] != NULL ==> Load(nodes', a, l) != NULL)
  }

  /** The only effects a step can have on the arena. */
  ghost predicate SharedEffect<K, V>(cmp: Compare<K>, s: State<K, V>, act: Action<K, V>)
    requires Enabled(s, act)
  {
    var nodes', pc := Next(cmp, s, act).nodes, s.threads[act.t];
    || nodes' == s.nodes
    || (act.BeginInsertWith? && nodes' == NewNode(s, act.key, act.value, act.height))
    || (act.Allocate? && pc.Ready? && nodes' == NewNode(s, pc.key, pc.value, act.height))
    || (act.Continue? && pc.Store? && pc.level < |pc.ctx.succs| &&
        0 < pc.node < |s.nodes| && s.nodes[pc.node].links <= pc.level &&
        nodes' == StoreSlot(s.nodes, pc.node, pc.level, pc.ctx.succs[pc.level]))
    || (act.Continue? && Swings(s, act.t) &&
        CanLink(cmp, s.nodes, pc.ctx.preds[pc.level], pc.node) &&
        nodes' == Link(s.nodes, pc.ctx.preds[pc.level], pc.node))
  }

  lemma NextEffect<K(!new), V>(cmp: Compare<K>, s: State<K, V>, act: Action<K, V>)
    requires TotalOrder(cmp) && Inv(cmp, s) && Enabled(s, act)
    ensures SharedEffect(cmp, s, act)
    ensures Publishes(s, act) <==> act.Continue? && Swings(s, act.t) && s.nodes[s.threads[act.t].node].links == 0
  {
    assert PcOk(cmp, s.nodes, s.threads[act.t]);
    if act.Continue? && Swings(s, act.t) {
      CasCanLink(cmp, s, act.t);
    }
  }

  lemma LinkKeepsSlots<K, V>(cmp: Compare<K>, nodes: seq<Node<K, V>>, pred: int, node: int)
    requires Shape(nodes) && CanLink(cmp, nodes, pred, node)
    ensures SlotsKept(nodes, Link(nodes, pred, node))
  {
    LinkFrame(cmp, nodes, pred, node);
  }

  /** Slots of linked levels never go back to null; nodes keep their keys, values and levels. */
  lemma NextGrows<K(!new), V>(cmp: Compare<K>, s: State<K, V>, act: Action<K, V>)
    requires TotalOrder(cmp) && Inv(cmp, s) && Enabled(s, act)
    ensures Grows(s.nodes, Next(cmp, s, act).nodes)
    ensures SlotsKept(s.nodes, Next(cmp, s, act).nodes)
  {
    NextEffect(cmp, s, act);
    var nodes' := Next(cmp, s, act).nodes;
    if act.Continue? && Swings(s, act.t) {
      var pc := s.threads[act.t];
      CasCanLink(cmp, s, act.t);
      LinkGrows(cmp, s.nodes, pc.ctx.preds[pc.level], pc.node);
      LinkKeepsSlots(cmp, s.nodes, pc.ctx.preds[pc.level], pc.node);
    }
  }

  lemma SameEntriesSameContents<K, V>(nodes: seq<Node<K, V>>, nodes': seq<Node<K, V>>)
    requires KeysUnique(nodes) && KeysUnique(nodes') && Grows(nodes, nodes')
    requires forall a :: Linked(nodes', a, 0) ==> Linked(nodes, a, 0)
    ensures Contents(nodes') == Contents(nodes)
  {
    var m, m' := Contents(nodes), Contents(nodes');
    forall k | k in m ensures k in m' && m'[k] == m[k] {
      var a := ContentsWitness(nodes, k);
      ContentsAt(nodes', a);
    }
    forall k | k in m' ensures k in m {
      var a := ContentsWitness(nodes', k);
      ContentsAt(nodes, a);
    }
  }

  /** A step either leaves the mapping alone or is a publication, which adds one key that was absent. */
  lemma NextRefinesMap<K(!new), V>(cmp: Compare<K>, s: State<K, V>, act: Action<K, V>)
    requires TotalOrder(cmp) && Inv(cmp, s) && Enabled(s, act)
    ensures KeysUnique(Next(cmp, s, act).nodes)
    ensures !Publishes(s, act) ==> Contents(Next(cmp, s, act).nodes) == Contents(s.nodes)
    ensures Publishes(s, act) ==>
              var node := s.nodes[s.threads[act.t].node];
              && node.Entry? && node.key == s.threads[act.t].key
              && node.key !in Contents(s.nodes)
              && Contents(Next(cmp, s, act).nodes) == Contents(s.nodes)[node.key := node.value]
  {
    NextKeepsInv(cmp, s, act);
    if act.Continue? && Swings(s, act.t) {
      SwingContents(cmp, s, act.t);
    } else {
      NextGrows(cmp, s, act);
      QuietStep(cmp, s, act);
      SameEntriesSameContents(s.nodes, Next(cmp, s, act).nodes);
    }
  }

  lemma SwingContents<K(!new), V>(cmp: Compare<K>, s: State<K, V>, t: nat)
    requires TotalOrder(cmp) && Inv(cmp, s) && t < |s.threads| && Swings(s, t)
    ensures var nodes', pc := ContinueStep(cmp, s, t).nodes, s.threads[t];
            && KeysUnique(nodes')
            && s.nodes[pc.node].Entry? && s.nodes[pc.node].key == pc.key
            && (pc.level > 0 ==> Contents(nodes') == Contents(s.nodes))
            && (pc.level == 0 ==>
                  pc.key !in Contents(s.nodes) &&
                  Contents(nodes') == Contents(s.nodes)[pc.key := s.nodes[pc.node].value])
  {
    SwingNodes(cmp, s, t);
    LinkContents(cmp, s.nodes, s.threads[t].ctx.preds[s.threads[t].level], s.threads[t].node);
  }

  lemma SwingNodes<K(!new), V>(cmp: Compare<K>, s: State<K, V>, t: nat)
    requires TotalOrder(cmp) && Inv(cmp, s) && t < |s.threads| && Swings(s, t)
    ensures var pc := s.threads[t];
            && CanLink(cmp, s.nodes, pc.ctx.preds[pc.level], pc.node)
            && ContinueStep(cmp, s, t).nodes == Link(s.nodes, pc.ctx.preds[pc.level], pc.node)
            && s.nodes[pc.node].links == pc.level && s.nodes[pc.node].Entry? && s.nodes[pc.node].key == pc.key
  {
    assert PcOk(cmp, s.nodes, s.threads[t]);
    CasCanLink(cmp, s, t);
  }

  lemma QuietStep<K(!new), V>(cmp: Compare<K>, s: State<K, V>, act: Action<K, V>)
    requires TotalOrder(cmp) && Inv(cmp, s) && Enabled(s, act)
    requires !(act.Continue? && Swings(s, act.t))
    ensures forall a :: Linked(Next(cmp, s, act).nodes, a, 0) ==> Linked(s.nodes, a, 0)
  {
    NextEffect(cmp, s, act);
  }

  function KeepFirst<K, V>(m: map<K, V>, key: K, value: V): map<K, V> {
    if key in m then m else m[key := value]
  }

  /** The specification: a map that each publication extends, the first value of a key winning. */
  ghost function SpecMap<K(!new), V>(cmp: Compare<K>, states: seq<State<K, V>>, acts: seq<Action<K, V>>, i: nat): map<K, V>
    requires TotalOrder(cmp) && Execution(cmp, states, acts) && i < |states|
  {
    if i == 0 then map[]
    else
      var m := SpecMap(cmp, states, acts, i - 1);
      var s := states[i - 1];
      if Publishes(s, acts[i - 1]) && s.nodes[s.threads[acts[i - 1].t].node].Entry? then
        KeepFirst(m, s.threads[acts[i - 1].t].key, s.nodes[s.threads[acts[i - 1].t].node].value)
      else m
  }

  /** At every point of every interleaving the bottom level holds exactly the keep-first map of the
      publications so far, and every publication's key was absent. */
  lemma {:induction false} RunRefinesMap<K(!new), V>(cmp: Compare<K>, states: seq<State<K, V>>, acts: seq<Action<K,
                                        V>>, i: nat)
    requires TotalOrder(cmp) && Execution(cmp, states, acts) && i < |states|
    ensures KeysUnique(states[i].nodes) && Contents(states[i].nodes) == SpecMap(cmp, states, acts, i)
    ensures i < |acts| && Publishes(states[i], acts[i]) ==>
              states[i].threads[acts[i].t].key !in SpecMap(cmp, states, acts, i)
  {
    if i > 0 {
      RunRefinesMap(cmp, states, acts, i - 1);
      SpecMapStep(cmp, states, acts, i - 1);
    } else {
      EmptyContents<K, V>();
    }
    if i < |acts| {
      ReachableInv(cmp, states, acts, i);
      NextRefinesMap(cmp, states[i], acts[i]);
    }
  }

  lemma SpecMapStep<K(!new), V>(cmp: Compare<K>, states: seq<State<K, V>>, acts: seq<Action<K, V>>, i: nat)
    requires TotalOrder(cmp) && Execution(cmp, states, acts) && i < |acts|
    requires KeysUnique(states[i].nodes) && Contents(states[i].nodes) == SpecMap(cmp, states, acts, i)
    ensures KeysUnique(states[i + 1].nodes) && Contents(states[i + 1].nodes) == SpecMap(cmp, states, acts, i + 1)
  {
    ReachableInv(cmp, states, acts, i);
    NextRefinesMap(cmp, states[i], acts[i]);
  }

  lemma EmptyContents<K, V>()
    ensures KeysUnique(EmptyList<K, V>()) && Contents(EmptyList<K, V>()) == map[]
  {
    assert forall k :: k !in Contents(EmptyList<K, V>());
  }

  lemma GrowsTransitive<K, V>(a: seq<Node<K, V>>, b: seq<Node<K, V>>, c: seq<Node<K, V>>)
    requires Grows(a, b) && Grows(b, c)
    ensures Grows(a, c)
  {
  }

  lemma GrowsAtStep<K(!new), V>(cmp: Compare<K>, states: seq<State<K, V>>, acts: seq<Action<K, V>>, i: nat)
    requires TotalOrder(cmp) && Execution(cmp, states, acts) && i < |acts|
    ensures Grows(states[i].nodes, states[i + 1].nodes)
  {
    ReachableInv(cmp, states, acts, i);
    NextGrows(cmp, states[i], acts[i]);
  }

  lemma {:induction false} GrowsOverRun<K(!new), V>(cmp: Compare<K>, states: seq<State<K, V>>, acts: seq<Action<K,
                                        V>>, i: nat, j: nat)
    requires TotalOrder(cmp) && Execution(cmp, states, acts) && i <= j < |states|
    ensures Grows(states[i].nodes, states[j].nodes)
    decreases j
  {
    if i < j {
      GrowsOverRun(cmp, states, acts, i, j - 1);
      GrowsAtStep(cmp, states, acts, j - 1);
      GrowsTransitive(states[i].nodes, states[j - 1].nodes, states[j].nodes);
    }
  }

  /** Once an insert has returned, its key is on the bottom chain, with the same node and value, for the rest
      of the run. */
  lemma FinishedInsertStays<K(!new), V>(cmp: Compare<K>, states: seq<State<K, V>>, acts: seq<Action<K, V>>, i: nat,
                              j: nat, t: nat)
    requires TotalOrder(cmp) && Execution(cmp, states, acts) && i <= j < |states|
    requires t < |states[i].threads| && states[i].threads[t].Inserted?
    ensures Ordered(cmp, states[j].nodes)
    ensures var key, node := states[i].threads[t].key, states[i].threads[t].node;
            && node in Chain(cmp, states[j].nodes, 0, SENTINEL)
            && node < |states[i].nodes| && states[i].nodes[node].Entry?
            && states[j].nodes[node].key == key
            && key in Contents(states[j].nodes)
            && Contents(states[j].nodes)[key] == states[i].nodes[node].value
  {
    ReachableInv(cmp, states, acts, i);
    ReachableInv(cmp, states, acts, j);
    GrowsOverRun(cmp, states, acts, i, j);
    assert PcOk(cmp, states[i].nodes, states[i].threads[t]);
    var node := states[i].threads[t].node;
    ChainMembers(cmp, states[j].nodes, 0, SENTINEL);
    ContentsAt(states[j].nodes, node);
  }

  /** An insert that returns by its own last swap has linked its node on every level of its tower. */
  lemma TowerComplete<K(!new), V>(cmp: Compare<K>, s: State<K, V>, t: nat)
    requires TotalOrder(cmp) && Inv(cmp, s) && t < |s.threads| && s.threads[t].Cas?
    requires ContinueStep(cmp, s, t).threads[t].Inserted?
    ensures var nodes', node := ContinueStep(cmp, s, t).nodes, s.threads[t].node;
            node < |nodes'| && nodes'[node].links == |nodes'[node].next|
  {
    CasCanLink(cmp, s, t);
    assert PcOk(cmp, s.nodes, s.threads[t]);
  }

  /** And it stays on the chain of every one of them for the rest of the run. */
  lemma FinishedTowerStays<K(!new), V>(cmp: Compare<K>, states: seq<State<K, V>>, acts: seq<Action<K, V>>, i: nat,
                             j: nat, t: nat, l: nat)
    requires TotalOrder(cmp) && Execution(cmp, states, acts) && i < |acts| && i < j < |states|
    requires acts[i] == Continue(t) && states[i].threads[t].Cas? && states[i + 1].threads[t].Inserted?
    requires var node := states[i].threads[t].node; node < |states[j].nodes| && l < |states[j].nodes[node].next|
    ensures l < MAX_HEIGHT && Ordered(cmp, states[j].nodes) && Linked(states[j].nodes, SENTINEL, l)
    ensures states[i].threads[t].node in Chain(cmp, states[j].nodes, l, SENTINEL)
  {
    var node := states[i].threads[t].node;
    ReachableInv(cmp, states, acts, i);
    ReachableInv(cmp, states, acts, j);
    TowerComplete(cmp, states[i], t);
    GrowsOverRun(cmp, states, acts, i + 1, j);
    assert PcOk(cmp, states[i].nodes, states[i].threads[t]);
    GrowsAtStep(cmp, states, acts, i);
    ChainMembers(cmp, states[j].nodes, l, SENTINEL);
  }

  // ---- Where the published values come from ----

  datatype Request<K, V> = Nothing | Wants(key: K, value: V)

  function Requested<K, V>(act: Action<K, V>): Request<K, V> {
    match act
    case BeginInsert(_, key, value) => Wants(key, value)
    case BeginInsertWith(_, key, value, _) => Wants(key, value)
    case _ => Nothing
  }

  function OfNode<K, V>(nodes: seq<Node<K, V>>, key: K, node: NodeId): Request<K, V> {
    if node < |nodes| && nodes[node].Entry? then Wants(key, nodes[node].value) else Nothing
  }

  function OfJob<K, V>(nodes: seq<Node<K, V>>, job: Job<K, V>): Request<K, V> {
    match job
    case Lookup(_) => Nothing
    case Probe(key, value) => Wants(key, value)
    case Publish(key, node) => OfNode(nodes, key, node)
    case Raise(key, node, _) => OfNode(nodes, key, node)
  }

  /** The pair a thread is in the middle of inserting. */
  function InProgress<K, V>(nodes: seq<Node<K, V>>, pc: Pc<K, V>): Request<K, V> {
    match pc
    case Start(job) => OfJob(nodes, job)
    case Skip(job, _) => OfJob(nodes, job)
    case Walk(job, _, _, _) => OfJob(nodes, job)
    case Ready(key, value, _) => Wants(key, value)
    case Store(key, node, _, _) => OfNode(nodes, key, node)
    case Cas(key, node, _, _) => OfNode(nodes, key, node)
    case _ => Nothing
  }

  lemma InProgressKept<K(!new), V>(cmp: Compare<K>, s: State<K, V>, act: Action<K, V>, t: nat)
    requires TotalOrder(cmp) && Inv(cmp, s) && Enabled(s, act) && t < |s.threads|
    ensures var s' := Next(cmp, s, act);
            var r' := InProgress(s'.nodes, s'.threads[t]);
            r' != Nothing ==> r' == (if act.t == t && Requested(act) != Nothing then Requested(act) else InProgress(s.nodes, s.threads[t]))
  {
    var s' := Next(cmp, s, act);
    NextGrows(cmp, s, act);
    assert PcOk(cmp, s.nodes, s.threads[t]);
    if act.t != t {
      InProgressStable(s.nodes, s'.nodes, s.threads[t]);
    } else {
      match act
      case Continue(_) => ContinueInProgress(cmp, s, t);
      case _ =>
    }
  }

  lemma InProgressStable<K, V>(nodes: seq<Node<K, V>>, nodes': seq<Node<K, V>>, pc: Pc<K, V>)
    requires Grows(nodes, nodes') && (Owned(pc) < |nodes| || Owned(pc) == NULL)
    ensures InProgress(nodes', pc) == InProgress(nodes, pc)
  {
  }

  lemma ContinueInProgress<K(!new), V>(cmp: Compare<K>, s: State<K, V>, t: nat)
    requires TotalOrder(cmp) && Inv(cmp, s) && t < |s.threads| && Enabled(s, Continue(t))
    requires Grows(s.nodes, ContinueStep(cmp, s, t).nodes)
    ensures var s' := ContinueStep(cmp, s, t);
            InProgress(s'.nodes, s'.threads[t]) in {Nothing, InProgress(s.nodes, s.threads[t])}
  {
    var s' := ContinueStep(cmp, s, t);
    match s.threads[t]
    case Skip(job, level) => SearchInProgress(cmp, s.nodes, job, NoContext());
    case Walk(job, level, pred, ctx) =>
      var curr := Load(s.nodes, pred, level);
      SearchInProgress(cmp, s.nodes, job, Record(ctx, level, pred, curr, IsEqual(cmp, s.nodes, curr, job.key)));
    case Store(key, node, level, ctx) => OwnInProgress(cmp, s, s'.nodes, t);
    case Cas(key, node, level, ctx) => OwnInProgress(cmp, s, s'.nodes, t);
    case _ =>
  }

  /** A search that ends goes on with what it was for. */
  lemma SearchInProgress<K, V>(cmp: Compare<K>, nodes: seq<Node<K, V>>, job: Job<K, V>, ctx: Context)
    ensures InProgress(nodes, AfterSearch(job, ctx)) in {Nothing, OfJob(nodes, job)}
  {
  }

  lemma OwnInProgress<K(!new), V>(cmp: Compare<K>, s: State<K, V>, nodes': seq<Node<K, V>>, t: nat)
    requires Inv(cmp, s) && t < |s.threads| && Grows(s.nodes, nodes')
    ensures InProgress(nodes', s.threads[t]) == InProgress(s.nodes, s.threads[t])
  {
    assert PcOk(cmp, s.nodes, s.threads[t]);
    OwnedInRange(cmp, s.nodes, s.threads[t]);
    InProgressStable(s.nodes, nodes', s.threads[t]);
  }

  lemma NothingAtFirst<K(!new), V>(cmp: Compare<K>, states: seq<State<K, V>>, acts: seq<Action<K, V>>, i: nat, t: nat)
    requires Execution(cmp, states, acts) && i < |states| && t < |states[i].threads|
    requires InProgress(states[i].nodes, states[i].threads[t]) != Nothing
    ensures i > 0
  {
  }

  lemma StepInProgress<K(!new), V>(cmp: Compare<K>, states: seq<State<K, V>>, acts: seq<Action<K, V>>, i: nat, t: nat)
    requires TotalOrder(cmp) && Execution(cmp, states, acts) && i < |states| && t < |states[i].threads|
    requires InProgress(states[i].nodes, states[i].threads[t]) != Nothing
    ensures i > 0 && t < |states[i - 1].threads|
    ensures InProgress(states[i].nodes, states[i].threads[t]) ==
            if acts[i - 1].t == t && Requested(acts[i - 1]) != Nothing then Requested(acts[i - 1])
            else InProgress(states[i - 1].nodes, states[i - 1].threads[t])
  {
    NothingAtFirst(cmp, states, acts, i, t);
    ReachableInv(cmp, states, acts, i - 1);
    InProgressKept(cmp, states[i - 1], acts[i - 1], t);
  }

  lemma RequestStillLatest<K, V>(acts: seq<Action<K, V>>, i: nat, t: nat, j: nat)
    requires i < |acts| && LatestRequest(acts, i, t, j) && !(acts[i].t == t && Requested(acts[i]) != Nothing)
    ensures LatestRequest(acts, i + 1, t, j)
  {
  }

  /** Action j is the last of the first i with which thread t began an insert. */
  ghost predicate LatestRequest<K, V>(acts: seq<Action<K, V>>, i: nat, t: nat, j: nat) {
    && j < i <= |acts| && acts[j].t == t && Requested(acts[j]) != Nothing
    && (forall m :: j < m < i && acts[m].t == t ==> Requested(acts[m]) == Nothing)
  }

  /** What a thread is inserting is what the latest insert it began asked for. */
  lemma {:induction false} InProgressWasRequested<K(!new), V>(cmp: Compare<K>, states: seq<State<K, V>>,
                                        acts: seq<Action<K, V>>, i: nat, t: nat)
      returns (j: nat)
    requires TotalOrder(cmp) && Execution(cmp, states, acts) && i < |states| && t < |states[i].threads|
    requires InProgress(states[i].nodes, states[i].threads[t]) != Nothing
    ensures LatestRequest(acts, i, t, j) && Requested(acts[j]) == InProgress(states[i].nodes, states[i].threads[t])
  {
    StepInProgress(cmp, states, acts, i, t);
    if acts[i - 1].t == t && Requested(acts[i - 1]) != Nothing {
      j := i - 1;
    } else {
      j := InProgressWasRequested(cmp, states, acts, i - 1, t);
      RequestStillLatest(acts, i - 1, t, j);
    }
  }

  // ---- Lookups ----

  /** The step completes the lookup of key by thread t. */
  ghost predicate CompletesLookup<K, V>(cmp: Compare<K>, s: State<K, V>, act: Action<K, V>, key: K, result: Ptr)
    requires Enabled(s, act)
  {
    && act.Continue?
    && Next(cmp, s, act).threads[act.t] == Answer(key, result)
  }

  /** A lookup under any interference returns the first node not below its key of the bottom level as it is
      at the lookup's last load: no insert published before that instant is missed. */
  lemma LookupExact<K(!new), V>(cmp: Compare<K>, s: State<K, V>, act: Action<K, V>, key: K, result: Ptr)
    requires TotalOrder(cmp) && Inv(cmp, s) && Enabled(s, act)
    requires CompletesLookup(cmp, s, act, key, result)
    ensures FirstNotBelow(cmp, s.nodes, 0, key, result)
    ensures key in Contents(s.nodes) <==> result != NULL && s.nodes[result].Entry? && s.nodes[result].key == key
  {
    LookupNeighbour(cmp, s, act, key, result);
    PresentAtSuccessor(cmp, s.nodes, key, result);
  }

  /** The last load of a lookup was of the slot of the last node below its key. */
  lemma LookupNeighbour<K(!new), V>(cmp: Compare<K>, s: State<K, V>, act: Action<K, V>, key: K, result: Ptr)
    requires TotalOrder(cmp) && Inv(cmp, s) && Enabled(s, act)
    requires CompletesLookup(cmp, s, act, key, result)
    ensures FirstNotBelow(cmp, s.nodes, 0, key, result)
  {
    assert PcOk(cmp, s.nodes, s.threads[act.t]);
    match s.threads[act.t]
    case Skip(job, level) => LookupSkips(cmp, s.nodes, job, level, key, result);
    case Walk(job, level, pred, ctx) => LookupWalks(cmp, s.nodes, job, level, pred, ctx, key, result);
  }

  lemma LookupSkips<K(!new), V>(cmp: Compare<K>, nodes: seq<Node<K, V>>, job: Job<K, V>, level: nat, key: K, result: Ptr)
    requires TotalOrder(cmp) && Ordered(cmp, nodes) && PcOk(cmp, nodes, Skip(job, level))
    requires SkipStep(nodes, job, level) == Answer(key, result)
    ensures FirstNotBelow(cmp, nodes, 0, key, result)
  {
    Neighbours(cmp, nodes, 0, key, SENTINEL);
  }

  lemma LookupWalks<K(!new), V>(cmp: Compare<K>, nodes: seq<Node<K, V>>, job: Job<K, V>, level: nat, pred: NodeId,
                      ctx: Context,
                                key: K, result: Ptr)
    requires TotalOrder(cmp) && Ordered(cmp, nodes) && PcOk(cmp, nodes, Walk(job, level, pred, ctx))
    requires WalkStep(cmp, nodes, job, level, pred, ctx) == Answer(key, result)
    ensures FirstNotBelow(cmp, nodes, 0, key, result)
  {
    assert LevelOrdered(cmp, nodes, 0);
    Neighbours(cmp, nodes, 0, key, pred);
  }
}
