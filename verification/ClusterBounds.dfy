/** How much a whole cluster admits for one entity. */
module ClusterBounds {
  import opened Numbers
  import opened TokenBucket
  import opened Cluster
  import ManagerModel
  import RedisBucket

  // ---------------------------------------------------------------------------------------------
  // One store: admissions plus the level under a cap never grow faster than the refill
  // ---------------------------------------------------------------------------------------------

  predicate SaneSlot(slot: Slot, clock: real) {
    slot.Some? ==> slot.value.tokens >= 0.0 && slot.value.lastRefill <= clock
  }

  predicate SaneBucketEvent(p: Params, ev: TokenBucket.Event, cap: int) {
    match ev
    case Call(_, cost, limit) => cost >= 0 && 0 <= limit <= cap
    case Merge(level) => level >= 0.0
    case Sweep(_) => cap as real <= Earned(p.rate, TTL)
  }

  lemma LevelOverTime(p: Params, slot: Slot, clock: real, now: real, cap: int)
    requires p.rate >= 0.0 && SaneSlot(slot, clock) && clock <= now
    ensures Level(p, slot, now, cap) <= Level(p, slot, clock, cap) + Earned(p.rate, now - clock)
  {
    EarnedMonotone(p.rate, 0.0, now - clock);
  }

  lemma LevelWithinCap(p: Params, slot: Slot, clock: real, cap: int)
    requires p.rate >= 0.0 && SaneSlot(slot, clock) && cap >= 0
    ensures 0.0 <= Level(p, slot, clock, cap) <= cap as real
  {
    if slot.Some? {
      EarnedMonotone(p.rate, 0.0, clock - slot.value.lastRefill);
    }
  }

  lemma BucketStepSpendsLevel(p: Params, slot: Slot, ev: TokenBucket.Event, now: real, cap: int)
    requires p.rate >= 0.0 && SaneSlot(slot, now) && SaneBucketEvent(p, ev, cap)
    requires ev.Call? || ev.Sweep? ==> ev.now == now
    ensures SaneSlot(TokenBucket.Step(p, slot, ev), now)
    ensures Level(p, TokenBucket.Step(p, slot, ev), now, cap) + Charge(p, slot, ev) as real <= Level(p, slot, now, cap)
  {
    match ev
    case Call(_, _, limit) =>
      LevelWithinCap(p, slot, now, limit);
    case Merge(_) =>
    case Sweep(_) =>
      if slot.Some? && Stale(p, slot.value, now) {
        EarnedMonotone(p.rate, TTL, now - slot.value.lastRefill);
      }
  }

  // ---------------------------------------------------------------------------------------------
  // The nodes together
  // ---------------------------------------------------------------------------------------------

  function Total(p: Params, nodes: seq<Node>, now: real, cap: int): real {
    if nodes == [] then 0.0
    else Total(p, nodes[..|nodes| - 1], now, cap) + Level(p, nodes[|nodes| - 1].slot, now, cap)
  }

  predicate SaneNodes(nodes: seq<Node>, clock: real) {
    forall i | 0 <= i < |nodes| :: SaneSlot(nodes[i].slot, clock)
  }

  lemma {:induction false} TotalAfterUpdate(p: Params, nodes: seq<Node>, i: nat, node: Node, now: real, cap: int)
    requires i < |nodes|
    ensures Total(p, nodes[i := node], now, cap)
         == Total(p, nodes, now, cap) - Level(p, nodes[i].slot, now, cap) + Level(p, node.slot, now, cap)
  {
    var nodes' := nodes[i := node];
    if i == |nodes| - 1 {
      assert nodes'[..|nodes| - 1] == nodes[..|nodes| - 1];
    } else {
      TotalAfterUpdate(p, nodes[..|nodes| - 1], i, node, now, cap);
      assert nodes'[..|nodes| - 1] == nodes[..|nodes| - 1][i := node];
    }
  }

  lemma {:induction false} TotalOverTime(p: Params, nodes: seq<Node>, clock: real, now: real, cap: int)
    requires p.rate >= 0.0 && SaneNodes(nodes, clock) && clock <= now
    ensures Total(p, nodes, now, cap) <= Total(p, nodes, clock, cap) + Times(|nodes|, Earned(p.rate, now - clock))
  {
    if nodes != [] {
      TotalOverTime(p, nodes[..|nodes| - 1], clock, now, cap);
      LevelOverTime(p, nodes[|nodes| - 1].slot, clock, now, cap);
      TimesSucc(|nodes| - 1, Earned(p.rate, now - clock));
    }
  }

  lemma {:induction false} TotalWithinCaps(p: Params, nodes: seq<Node>, clock: real, cap: int)
    requires p.rate >= 0.0 && SaneNodes(nodes, clock) && cap >= 0
    ensures 0.0 <= Total(p, nodes, clock, cap) <= Times(|nodes|, cap as real)
  {
    if nodes != [] {
      TotalWithinCaps(p, nodes[..|nodes| - 1], clock, cap);
      LevelWithinCap(p, nodes[|nodes| - 1].slot, clock, cap);
      TimesSucc(|nodes| - 1, cap as real);
    }
  }

  // ---------------------------------------------------------------------------------------------
  // The cluster
  // ---------------------------------------------------------------------------------------------

  /** The deployment: an idle hour refills a bucket. */
  predicate Deployable(cfg: Config) {
    cfg.rate >= 0.0 && cfg.manager.nodeCount > 0 && G(cfg) >= 0 && G(cfg) as real <= Earned(cfg.rate, TTL)
  }

  ghost predicate Sane(cfg: Config, s: State) {
    && SaneNodes(s.nodes, s.clock) && SaneSlot(s.redis, s.clock)
    && (forall i | 0 <= i < |s.nodes| :: SaneNode(cfg, s.nodes[i]))
  }

  predicate SaneNode(cfg: Config, node: Node) {
    && (node.slot.Some? ==> node.slot.value.tokens <= G(cfg) as real)
    && (node.snap.Some? ==> 0.0 <= node.snap.value <= G(cfg) as real)
  }

  /** What the cluster has admitted and could still admit at this instant. */
  function Budget(cfg: Config, s: State): real {
    s.admitted as real + Total(Bucket(cfg), s.nodes, s.clock, G(cfg)) + Level(Key(cfg), s.redis, s.clock, G(cfg))
  }

  function AtTime(s: State, now: real): State {
    s.(clock := now)
  }

  lemma TimePasses(cfg: Config, s: State, now: real)
    requires Deployable(cfg) && Sane(cfg, s) && s.clock <= now
    ensures Sane(cfg, AtTime(s, now))
    ensures Budget(cfg, AtTime(s, now)) <= Budget(cfg, s) + Times(|s.nodes| + 1, Earned(cfg.rate, now - s.clock))
  {
    TotalOverTime(Bucket(cfg), s.nodes, s.clock, now, G(cfg));
    LevelOverTime(Key(cfg), s.redis, s.clock, now, G(cfg));
    TimesSucc(|s.nodes|, Earned(cfg.rate, now - s.clock));
  }

  /** An event that changes one node's bucket and charges it. */
  lemma NodeEventSpendsBudget(cfg: Config, s: State, i: nat, ev: TokenBucket.Event, node: Node, cap: int)
    requires cfg.rate >= 0.0 && SaneNodes(s.nodes, s.clock) && i < |s.nodes|
    requires SaneBucketEvent(Bucket(cfg), ev, cap) && (ev.Call? || ev.Sweep? ==> ev.now == s.clock)
    requires node.slot == TokenBucket.Step(Bucket(cfg), s.nodes[i].slot, ev)
    ensures SaneNodes(s.nodes[i := node], s.clock)
    ensures Total(Bucket(cfg), s.nodes[i := node], s.clock, cap) + Charge(Bucket(cfg), s.nodes[i].slot, ev) as real
         <= Total(Bucket(cfg), s.nodes, s.clock, cap)
  {
    BucketStepSpendsLevel(Bucket(cfg), s.nodes[i].slot, ev, s.clock, cap);
    TotalAfterUpdate(Bucket(cfg), s.nodes, i, node, s.clock, cap);
  }

  lemma NodeStaysSane(cfg: Config, slot: Slot, ev: TokenBucket.Event, now: real)
    requires Deployable(cfg) && SaneSlot(slot, now) && SaneBucketEvent(Bucket(cfg), ev, G(cfg))
    requires ev.Call? || ev.Sweep? ==> ev.now == now
    requires slot.Some? ==> slot.value.tokens <= G(cfg) as real
    ensures var slot' := TokenBucket.Step(Bucket(cfg), slot, ev); slot'.Some? ==> slot'.value.tokens <= G(cfg) as real
  {
  }

  lemma SameClampedCall(cfg: Config, slot: Slot, now: real, cost: int)
    ensures RedisBucket.KeyStep(cfg.rate, G(cfg), slot, RedisBucket.Eval(now, cost))
         == TokenBucket.Step(Key(cfg), slot, Call(now, cost, G(cfg)))
    ensures RedisBucket.KeyCharge(cfg.rate, G(cfg), slot, RedisBucket.Eval(now, cost))
         == Charge(Key(cfg), slot, Call(now, cost, G(cfg)))
  {
  }

  lemma {:induction false} TimesOfInts(n: nat, q: int)
    ensures Times(n, q as real) == (n * q) as real
  {
    if n > 0 {
      TimesOfInts(n - 1, q);
      TimesSucc(n - 1, q as real);
      assert n * q == (n - 1) * q + q;
    }
  }

  lemma {:induction false} ProductBySign(q: int, count: int)
    requires count > 0
    ensures if q < 0 then count * q <= -count else q <= count * q
  {
    if count > 1 {
      ProductBySign(q, count - 1);
      assert count * q == (count - 1) * q + q;
    }
  }

  lemma DivisionRoundsDown(limit: int, count: int)
    requires limit >= 0 && count > 0
    ensures 0 <= limit / count <= limit && count * (limit / count) <= limit
  {
    var q, r := limit / count, limit % count;
    assert limit == count * q + r;
    ProductBySign(q, count);
  }

  lemma SharesAddUp(limit: int, count: int)
    requires limit >= 0 && count > 0
    ensures 0 <= limit / count <= limit && Times(count, (limit / count) as real) <= limit as real
  {
    DivisionRoundsDown(limit, count);
    TimesOfInts(count, limit / count);
  }

  lemma RouteStaysWithinGlobal(cfg: Config, m: ManagerModel.State, check: ManagerModel.Event)
    requires Deployable(cfg) && check.Check?
    ensures var route := ManagerModel.RouteOf(cfg.manager, m, check);
            route.ViaLocal? ==> 0 <= route.limit <= G(cfg)
  {
    SharesAddUp(G(cfg), cfg.manager.nodeCount);
  }

  lemma RequestSpendsBudget(cfg: Config, s: State, ev: Cluster.Event)
    requires Deployable(cfg) && Sane(cfg, s) && ev.Request? && Possible(s, ev) && ev.now == s.clock
    ensures Sane(cfg, Served(cfg, s, ev)) && Budget(cfg, Served(cfg, s, ev)) <= Budget(cfg, s)
  {
    var node := s.nodes[ev.node];
    var s' := Served(cfg, s, ev);
    SameClampedCall(cfg, s.redis, ev.now, ev.cost);
    BucketStepSpendsLevel(Key(cfg), s.redis, Call(ev.now, ev.cost, G(cfg)), s.clock, G(cfg));
    match ManagerModel.RouteOf(cfg.manager, node.manager, ev.check)
    case ViaRedis =>
      TotalAfterUpdate(Bucket(cfg), s.nodes, ev.node, s'.nodes[ev.node], s.clock, G(cfg));
    case ViaLocal(limit) =>
      RouteStaysWithinGlobal(cfg, node.manager, ev.check);
      var call := Call(ev.now, ev.cost, limit);
      NodeEventSpendsBudget(cfg, s, ev.node, call, s'.nodes[ev.node], G(cfg));
      NodeStaysSane(cfg, node.slot, call, s.clock);
  }

  /** An event that moves a node's manager alone. */
  lemma ManagerEventSpendsNothing(cfg: Config, s: State, i: nat, node: Node)
    requires Sane(cfg, s) && i < |s.nodes| && node == s.nodes[i].(manager := node.manager)
    ensures var s' := s.(nodes := s.nodes[i := node]); Sane(cfg, s') && Budget(cfg, s') == Budget(cfg, s)
  {
    assert SaneNode(cfg, s.nodes[i]) && SaneSlot(s.nodes[i].slot, s.clock);
    TotalAfterUpdate(Bucket(cfg), s.nodes, i, node, s.clock, G(cfg));
  }

  lemma ExpirySpendsNothing(cfg: Config, s: State)
    requires Deployable(cfg) && Sane(cfg, s)
    ensures var s' := s.(redis := TokenBucket.Step(Key(cfg), s.redis, Sweep(s.clock)));
            Sane(cfg, s') && Budget(cfg, s') <= Budget(cfg, s)
  {
    BucketStepSpendsLevel(Key(cfg), s.redis, Sweep(s.clock), s.clock, G(cfg));
  }

  lemma LateSpendsBudget(cfg: Config, s: State, ev: Cluster.Event)
    requires Deployable(cfg) && Sane(cfg, s) && ev.Late? && Possible(s, ev) && ev.now == s.clock
    ensures Sane(cfg, Resolved(cfg, s, ev)) && Budget(cfg, Resolved(cfg, s, ev)) <= Budget(cfg, s)
  {
    var s' := Resolved(cfg, s, ev);
    var call := Call(ev.now, ev.cost, G(cfg));
    if ev.check.answered {
      SameClampedCall(cfg, s.redis, ev.now, ev.cost);
      BucketStepSpendsLevel(Key(cfg), s.redis, call, s.clock, G(cfg));
      TotalAfterUpdate(Bucket(cfg), s.nodes, ev.node, s'.nodes[ev.node], s.clock, G(cfg));
    } else {
      NodeEventSpendsBudget(cfg, s, ev.node, call, s'.nodes[ev.node], G(cfg));
      NodeStaysSane(cfg, s.nodes[ev.node].slot, call, s.clock);
    }
  }

  lemma BucketEventSpendsBudget(cfg: Config, s: State, i: nat, ev: TokenBucket.Event, node: Node)
    requires Deployable(cfg) && Sane(cfg, s) && i < |s.nodes|
    requires !ev.Call? && SaneBucketEvent(Bucket(cfg), ev, G(cfg)) && (ev.Sweep? ==> ev.now == s.clock)
    requires node.slot == TokenBucket.Step(Bucket(cfg), s.nodes[i].slot, ev)
    requires node.snap.Some? ==>
               node.snap == s.nodes[i].snap || (node.slot.Some? && node.snap.value == node.slot.value.tokens)
    ensures var s' := s.(nodes := s.nodes[i := node]); Sane(cfg, s') && Budget(cfg, s') <= Budget(cfg, s)
  {
    NodeEventSpendsBudget(cfg, s, i, ev, node, G(cfg));
    NodeStaysSane(cfg, s.nodes[i].slot, ev, s.clock);
    assert SaneNode(cfg, s.nodes[i]);
    assert SaneNodes(s.nodes[i := node], s.clock) && s.nodes[i := node][i] == node;
    assert SaneSlot(node.slot, s.clock);
  }

  lemma WarmUpAddsAtMostTheLimit(cfg: Config, s: State, ev: Cluster.Event)
    requires Deployable(cfg) && Sane(cfg, s) && ev.EndWarmUp? && Possible(s, ev) && ev.now == s.clock
    ensures var s' := ClusterStep(cfg, s, ev);
            Sane(cfg, s') && Budget(cfg, s') <= Budget(cfg, s) + Times(s'.seeds - s.seeds, G(cfg) as real)
  {
    var s' := ClusterStep(cfg, s, ev);
    assert SaneNode(cfg, s.nodes[ev.node]);
    TotalAfterUpdate(Bucket(cfg), s.nodes, ev.node, s'.nodes[ev.node], s.clock, G(cfg));
    assert SaneSlot(s'.redis, s.clock);
    KeyGainsAtMostTheLimit(cfg, s.redis, s.clock, s'.redis);
    TimesSucc(0, G(cfg) as real);
  }

  lemma KeyGainsAtMostTheLimit(cfg: Config, slot: Slot, clock: real, slot': Slot)
    requires Deployable(cfg) && SaneSlot(slot, clock) && SaneSlot(slot', clock)
    ensures Level(Key(cfg), slot', clock, G(cfg)) <= Level(Key(cfg), slot, clock, G(cfg)) + G(cfg) as real
  {
    LevelWithinCap(Key(cfg), slot, clock, G(cfg));
    LevelWithinCap(Key(cfg), slot', clock, G(cfg));
  }

  /** One event, time apart. */
  lemma EventSpendsBudget(cfg: Config, s: State, ev: Cluster.Event)
    requires Deployable(cfg) && Sane(cfg, s) && Possible(s, ev) && ev.now == s.clock
    ensures var s' := ClusterStep(cfg, s, ev);
            Sane(cfg, s') && Budget(cfg, s') <= Budget(cfg, s) + Times(s'.seeds - s.seeds, G(cfg) as real)
  {
    var s' := ClusterStep(cfg, s, ev);
    match ev
    case Request(_, _, _, _, _) => RequestSpendsBudget(cfg, s, ev);
    case Elsewhere(i, _, _) => ManagerEventSpendsNothing(cfg, s, i, s'.nodes[i]);
    case Late(_, _, _, _) => LateSpendsBudget(cfg, s, ev);
    case PeerCall(i, _, _) => ManagerEventSpendsNothing(cfg, s, i, s'.nodes[i]);
    case Gossip(i, _, level) => BucketEventSpendsBudget(cfg, s, i, Merge(level), s'.nodes[i]);
    case SweepNode(i, now) => BucketEventSpendsBudget(cfg, s, i, Sweep(now), s'.nodes[i]);
    case ExpireKey(now) => ExpirySpendsNothing(cfg, s);
    case BeginWarmUp(i, now) => BucketEventSpendsBudget(cfg, s, i, Sweep(now), s'.nodes[i]);
    case EndWarmUp(_, _, _, _) => WarmUpAddsAtMostTheLimit(cfg, s, ev);
  }

  /** From one state to a later one, the budget grows by the refill and a limit per warm-up. */
  predicate Spends(cfg: Config, s: State, s': State) {
    Budget(cfg, s') <= Budget(cfg, s) + Times(|s.nodes| + 1, Earned(cfg.rate, s'.clock - s.clock))
                       + Times(s'.seeds - s.seeds, G(cfg) as real)
  }

  lemma BudgetOfAnEvent(cfg: Config, s: State, ev: Cluster.Event)
    requires Deployable(cfg) && Sane(cfg, s) && Possible(s, ev)
    ensures Sane(cfg, ClusterStep(cfg, s, ev)) && Spends(cfg, s, ClusterStep(cfg, s, ev))
  {
    TimePasses(cfg, s, ev.now);
    assert ClusterStep(cfg, AtTime(s, ev.now), ev) == ClusterStep(cfg, s, ev);
    EventSpendsBudget(cfg, AtTime(s, ev.now), ev);
  }

  /** Refill over two successive stretches of time. */
  lemma RefillAddsUp(cfg: Config, n: int, a: real, b: real, c: real)
    ensures Times(n, Earned(cfg.rate, c - a)) == Times(n, Earned(cfg.rate, b - a)) + Times(n, Earned(cfg.rate, c - b))
  {
    EarnedSum(cfg.rate, b - a, c - b);
    TimesSum(n, Earned(cfg.rate, b - a), Earned(cfg.rate, c - b));
    assert (b - a) + (c - b) == c - a;
  }

  lemma TwoStretches(cfg: Config, s: State, s1: State, s2: State)
    requires Spends(cfg, s, s1) && Spends(cfg, s1, s2) && |s1.nodes| == |s.nodes|
    ensures Spends(cfg, s, s2)
  {
    RefillAddsUp(cfg, |s.nodes| + 1, s.clock, s1.clock, s2.clock);
    TimesAdd(s1.seeds - s.seeds, s2.seeds - s1.seeds, G(cfg) as real);
  }

  lemma {:induction false} BudgetOfARun(cfg: Config, s: State, evs: seq<Cluster.Event>)
    requires Deployable(cfg) && Sane(cfg, s) && Runs(cfg, s, evs)
    ensures var s' := Reached(cfg, s, evs); Sane(cfg, s') && s.clock <= s'.clock && Spends(cfg, s, s')
  {
    if evs == [] {
      EarnedSum(cfg.rate, 0.0, 0.0);
    } else {
      var pre, ev := evs[..|evs| - 1], evs[|evs| - 1];
      BudgetOfARun(cfg, s, pre);
      BudgetOfAnEvent(cfg, Reached(cfg, s, pre), ev);
      TwoStretches(cfg, s, Reached(cfg, s, pre), Reached(cfg, s, evs));
    }
  }

  lemma TimesSum(n: int, x: real, y: real)
    ensures Times(n, x + y) == Times(n, x) + Times(n, y)
  {
  }

  lemma TimesAdd(m: int, n: int, x: real)
    ensures Times(m + n, x) == Times(m, x) + Times(n, x)
  {
  }

  /** Over any stretch of any run, whatever the modes, Redis errors, gossip, sweeps and expiries,
      N nodes and k warm-ups admit at most (N + k + 1) * G + (N + 1) * rate * T for an entity. */
  lemma ClusterConservation(cfg: Config, s: State, evs: seq<Cluster.Event>)
    requires Deployable(cfg) && Sane(cfg, s) && Runs(cfg, s, evs)
    ensures var s' := Reached(cfg, s, evs);
            (s'.admitted - s.admitted) as real
            <= Times(|s.nodes| + (s'.seeds - s.seeds) + 1, G(cfg) as real)
               + Times(|s.nodes| + 1, Earned(cfg.rate, s'.clock - s.clock))
  {
    var s' := Reached(cfg, s, evs);
    BudgetOfARun(cfg, s, evs);
    TotalWithinCaps(Bucket(cfg), s.nodes, s.clock, G(cfg));
    LevelWithinCap(Key(cfg), s.redis, s.clock, G(cfg));
    TotalWithinCaps(Bucket(cfg), s'.nodes, s'.clock, G(cfg));
    LevelWithinCap(Key(cfg), s'.redis, s'.clock, G(cfg));
    TimesSucc(|s.nodes|, G(cfg) as real);
    TimesAdd(|s.nodes| + 1, s'.seeds - s.seeds, G(cfg) as real);
  }

  // ---------------------------------------------------------------------------------------------
  // While every node is in LOCAL mode
  // ---------------------------------------------------------------------------------------------

  predicate AllLocal(s: State) {
    forall i | 0 <= i < |s.nodes| :: s.nodes[i].manager.mode.Local?
  }

  /** Every event of the run finds all nodes in LOCAL mode. */
  predicate RunsInLocal(cfg: Config, s: State, evs: seq<Cluster.Event>)
    requires cfg.manager.nodeCount > 0
  {
    && Runs(cfg, s, evs)
    && (evs == [] || (RunsInLocal(cfg, s, evs[..|evs| - 1]) && AllLocal(Reached(cfg, s, evs[..|evs| - 1]))))
  }

  function Share(cfg: Config): int
    requires cfg.manager.nodeCount > 0
  {
    ManagerModel.PerNodeLimit(cfg.manager)
  }

  function LocalBudget(cfg: Config, s: State): real
    requires cfg.manager.nodeCount > 0
  {
    (s.admitted - s.late) as real + Total(Bucket(cfg), s.nodes, s.clock, Share(cfg))
  }

  /** A late call served under the global limit leaves no more under the share than there was. */
  lemma LateLeavesLocalBudget(cfg: Config, s: State, ev: Cluster.Event)
    requires Deployable(cfg) && Sane(cfg, s) && ev.Late? && Possible(s, ev) && ev.now == s.clock
    ensures LocalBudget(cfg, Resolved(cfg, s, ev)) <= LocalBudget(cfg, s)
  {
    var s' := Resolved(cfg, s, ev);
    SharesAddUp(G(cfg), cfg.manager.nodeCount);
    TotalAfterUpdate(Bucket(cfg), s.nodes, ev.node, s'.nodes[ev.node], s.clock, Share(cfg));
    if !ev.check.answered {
      LargerLimitLeavesNoMore(Bucket(cfg), s.nodes[ev.node].slot, ev.now, ev.cost, G(cfg), Share(cfg));
    }
  }

  lemma LargerLimitLeavesNoMore(p: Params, slot: Slot, now: real, cost: int, limit: int, cap: int)
    requires p.rate >= 0.0 && cost >= 0 && cap <= limit
    ensures Level(p, TokenBucket.Step(p, slot, Call(now, cost, limit)), now, cap) <= Level(p, slot, now, cap)
  {
    EarnedSum(p.rate, 0.0, 0.0);
  }

  lemma LocalEventSpendsBudget(cfg: Config, s: State, ev: Cluster.Event)
    requires Deployable(cfg) && Sane(cfg, s) && AllLocal(s) && Possible(s, ev) && ev.now == s.clock
    ensures LocalBudget(cfg, ClusterStep(cfg, s, ev)) <= LocalBudget(cfg, s)
  {
    var s' := ClusterStep(cfg, s, ev);
    SharesAddUp(G(cfg), cfg.manager.nodeCount);
    match ev
    case Request(i, now, _, cost, _) =>
      NodeEventSpendsBudget(cfg, s, i, Call(now, cost, Share(cfg)), s'.nodes[i], Share(cfg));
    case Elsewhere(i, _, _) => TotalAfterUpdate(Bucket(cfg), s.nodes, i, s'.nodes[i], s.clock, Share(cfg));
    case Late(_, _, _, _) => LateLeavesLocalBudget(cfg, s, ev);
    case PeerCall(i, _, _) => TotalAfterUpdate(Bucket(cfg), s.nodes, i, s'.nodes[i], s.clock, Share(cfg));
    case Gossip(i, _, level) => NodeEventSpendsBudget(cfg, s, i, Merge(level), s'.nodes[i], Share(cfg));
    case SweepNode(i, now) => NodeEventSpendsBudget(cfg, s, i, Sweep(now), s'.nodes[i], Share(cfg));
    case ExpireKey(_) =>
    case BeginWarmUp(i, now) => NodeEventSpendsBudget(cfg, s, i, Sweep(now), s'.nodes[i], Share(cfg));
    case EndWarmUp(i, _, _, _) => TotalAfterUpdate(Bucket(cfg), s.nodes, i, s'.nodes[i], s.clock, Share(cfg));
  }

  predicate SpendsLocally(cfg: Config, s: State, s': State)
    requires cfg.manager.nodeCount > 0
  {
    LocalBudget(cfg, s') <= LocalBudget(cfg, s) + Times(|s.nodes|, Earned(cfg.rate, s'.clock - s.clock))
  }

  lemma LocalBudgetOfAnEvent(cfg: Config, s: State, ev: Cluster.Event)
    requires Deployable(cfg) && Sane(cfg, s) && AllLocal(s) && Possible(s, ev)
    ensures Sane(cfg, ClusterStep(cfg, s, ev)) && SpendsLocally(cfg, s, ClusterStep(cfg, s, ev))
  {
    BudgetOfAnEvent(cfg, s, ev);
    TimePasses(cfg, s, ev.now);
    LocalBudgetOverTime(cfg, s, ev.now);
    assert ClusterStep(cfg, AtTime(s, ev.now), ev) == ClusterStep(cfg, s, ev);
    LocalEventSpendsBudget(cfg, AtTime(s, ev.now), ev);
  }

  lemma LocalBudgetOverTime(cfg: Config, s: State, now: real)
    requires Deployable(cfg) && Sane(cfg, s) && s.clock <= now
    ensures SpendsLocally(cfg, s, AtTime(s, now))
  {
    TotalOverTime(Bucket(cfg), s.nodes, s.clock, now, Share(cfg));
  }

  lemma TwoLocalStretches(cfg: Config, s: State, s1: State, s2: State)
    requires cfg.manager.nodeCount > 0 && |s1.nodes| == |s.nodes|
    requires SpendsLocally(cfg, s, s1) && SpendsLocally(cfg, s1, s2)
    ensures SpendsLocally(cfg, s, s2)
  {
    RefillAddsUp(cfg, |s.nodes|, s.clock, s1.clock, s2.clock);
  }

  lemma {:induction false} LocalBudgetOfARun(cfg: Config, s: State, evs: seq<Cluster.Event>)
    requires Deployable(cfg) && Sane(cfg, s) && RunsInLocal(cfg, s, evs)
    ensures Sane(cfg, Reached(cfg, s, evs)) && SpendsLocally(cfg, s, Reached(cfg, s, evs))
  {
    if evs == [] {
      EarnedSum(cfg.rate, 0.0, 0.0);
    } else {
      var pre, ev := evs[..|evs| - 1], evs[|evs| - 1];
      LocalBudgetOfARun(cfg, s, pre);
      LocalBudgetOfAnEvent(cfg, Reached(cfg, s, pre), ev);
      TwoLocalStretches(cfg, s, Reached(cfg, s, pre), Reached(cfg, s, evs));
    }
  }

  function Admitted(cfg: Config, s: State, evs: seq<Cluster.Event>): int
    requires cfg.manager.nodeCount > 0 && Runs(cfg, s, evs)
  {
    Reached(cfg, s, evs).admitted - s.admitted
  }

  /** Of that, what late calls were granted. */
  function AdmittedLate(cfg: Config, s: State, evs: seq<Cluster.Event>): int
    requires cfg.manager.nodeCount > 0 && Runs(cfg, s, evs)
  {
    Reached(cfg, s, evs).late - s.late
  }

  function Refill(cfg: Config, s: State, evs: seq<Cluster.Event>): real
    requires cfg.manager.nodeCount > 0 && Runs(cfg, s, evs)
  {
    Times(|s.nodes|, Earned(cfg.rate, Reached(cfg, s, evs).clock - s.clock))
  }

  /** While all nodes are in LOCAL mode, together they admit at most N * floor(G / count) + N * rate * T
      beside what calls still in flight from REDIS mode are granted, though their buckets may enter it
      holding up to G tokens each. */
  lemma LocalModeCap(cfg: Config, s: State, evs: seq<Cluster.Event>)
    requires Deployable(cfg) && Sane(cfg, s) && RunsInLocal(cfg, s, evs)
    ensures (Admitted(cfg, s, evs) - AdmittedLate(cfg, s, evs)) as real
         <= Times(|s.nodes|, Share(cfg) as real) + Refill(cfg, s, evs)
  {
    LocalBudgetOfARun(cfg, s, evs);
    LocalLevels(cfg, s);
    LocalLevels(cfg, Reached(cfg, s, evs));
  }

  lemma LocalLevels(cfg: Config, s: State)
    requires Deployable(cfg) && Sane(cfg, s)
    ensures (s.admitted - s.late) as real <= LocalBudget(cfg, s)
         <= (s.admitted - s.late) as real + Times(|s.nodes|, Share(cfg) as real)
  {
    SharesAddUp(G(cfg), cfg.manager.nodeCount);
    TotalWithinCaps(Bucket(cfg), s.nodes, s.clock, Share(cfg));
  }

  /** With as many nodes as configured that is at most one global limit plus the refill. */
  lemma LocalModeStaysGlobal(cfg: Config, s: State, evs: seq<Cluster.Event>)
    requires Deployable(cfg) && Sane(cfg, s) && RunsInLocal(cfg, s, evs) && |s.nodes| == cfg.manager.nodeCount
    ensures (Admitted(cfg, s, evs) - AdmittedLate(cfg, s, evs)) as real <= G(cfg) as real + Refill(cfg, s, evs)
  {
    LocalModeCap(cfg, s, evs);
    SharesAddUp(G(cfg), cfg.manager.nodeCount);
  }

  lemma {:induction false} NothingIsLate(cfg: Config, s: State, evs: seq<Cluster.Event>)
    requires cfg.manager.nodeCount > 0 && Runs(cfg, s, evs) && forall ev | ev in evs :: !ev.Late?
    ensures AdmittedLate(cfg, s, evs) == 0
  {
    if evs != [] {
      assert evs[|evs| - 1] in evs;
      NothingIsLate(cfg, s, evs[..|evs| - 1]);
    }
  }
}
