/**
 N nodes sharing one Redis, seen from one entity: every node runs the manager's state machine over
 its own bucket, and its mode decides which store serves a request and under which limit.
 */
module Cluster {
  import opened Numbers
  import opened TokenBucket
  import ManagerModel
  import RedisBucket

  datatype Config = Config(manager: ManagerModel.Config, rate: real)

  /** `snap`: the entity's tokens in the snapshot of a warm-up under way. */
  datatype Node = Node(manager: ManagerModel.State, slot: Slot, snap: Option<real>)

  /** `late`: what calls begun in REDIS mode were granted though they resolved in another mode. */
  datatype State = State(nodes: seq<Node>, redis: Slot, clock: real, admitted: int, late: int, seeds: nat)

  /** `Elsewhere` is another entity's request, which moves the node's circuit and mode. `Late` is a call
      begun in REDIS mode that resolves when the node may be in another mode, as calls in flight can:
      an answer counts as it is, a failure is served locally under the global limit. */
  datatype Event =
    | Request(node: nat, now: real, check: ManagerModel.Event, cost: int, scriptRan: bool)
    | Elsewhere(node: nat, now: real, check: ManagerModel.Event)
    | Late(node: nat, now: real, check: ManagerModel.Event, cost: int)
    | PeerCall(node: nat, now: real, reached: bool)
    | Gossip(node: nat, now: real, level: real)
    | SweepNode(node: nat, now: real)
    | ExpireKey(now: real)
    | BeginWarmUp(node: nat, now: real)
    | EndWarmUp(node: nat, now: real, landed: bool, ok: bool)

  function Bucket(cfg: Config): Params {
    Params(cfg.rate, false, IdleOver)
  }

  function Key(cfg: Config): Params {
    Params(cfg.rate, true, IdleAtLeast)
  }

  function G(cfg: Config): int {
    cfg.manager.globalLimit
  }

  predicate Possible(s: State, ev: Event) {
    && s.clock <= ev.now
    && (!ev.ExpireKey? ==> ev.node < |s.nodes|)
    && (ev.Request? || ev.Elsewhere? || ev.Late? ==> ev.check.Check?)
    && (ev.Request? || ev.Late? ==> ev.cost >= 0)
    && (ev.Gossip? ==> ev.level >= 0.0)
  }

  /** A request that Redis fails to answer is served locally, whether or not the script ran. */
  predicate ReachesScript(cfg: Config, s: State, ev: Event)
    requires ev.Request? && Possible(s, ev)
  {
    var m := s.nodes[ev.node].manager;
    m.mode.Redis? && !ManagerModel.ReadFirst(cfg.manager, m, ev.check).state.Open? && !ev.check.answered && ev.scriptRan
  }

  function Served(cfg: Config, s: State, ev: Event): State
    requires ev.Request? && Possible(s, ev) && cfg.manager.nodeCount > 0
  {
    var node := s.nodes[ev.node];
    var eval := RedisBucket.Eval(ev.now, ev.cost);
    var node' := node.(manager := ManagerModel.Step(cfg.manager, node.manager, ev.check));
    match ManagerModel.RouteOf(cfg.manager, node.manager, ev.check)
    case ViaRedis =>
      s.(nodes := s.nodes[ev.node := node'],
         redis := RedisBucket.KeyStep(cfg.rate, G(cfg), s.redis, eval),
         admitted := s.admitted + RedisBucket.KeyCharge(cfg.rate, G(cfg), s.redis, eval))
    case ViaLocal(limit) =>
      var call := Call(ev.now, ev.cost, limit);
      s.(nodes := s.nodes[ev.node := node'.(slot := TokenBucket.Step(Bucket(cfg), node.slot, call))],
         redis := if ReachesScript(cfg, s, ev) then RedisBucket.KeyStep(cfg.rate, G(cfg), s.redis, eval) else s.redis,
         admitted := s.admitted + Charge(Bucket(cfg), node.slot, call))
  }

  function Resolved(cfg: Config, s: State, ev: Event): State
    requires ev.Late? && Possible(s, ev)
  {
    var node := s.nodes[ev.node];
    var manager := ManagerModel.Resolve(cfg.manager, node.manager, ev.check);
    if ev.check.answered then
      var eval := RedisBucket.Eval(ev.now, ev.cost);
      var charge := RedisBucket.KeyCharge(cfg.rate, G(cfg), s.redis, eval);
      s.(nodes := s.nodes[ev.node := node.(manager := manager)],
         redis := RedisBucket.KeyStep(cfg.rate, G(cfg), s.redis, eval),
         admitted := s.admitted + charge, late := s.late + charge)
    else
      var call := Call(ev.now, ev.cost, G(cfg));
      var charge := Charge(Bucket(cfg), node.slot, call);
      var slot := TokenBucket.Step(Bucket(cfg), node.slot, call);
      s.(nodes := s.nodes[ev.node := node.(manager := manager, slot := slot)],
         admitted := s.admitted + charge, late := s.late + charge)
  }

  function ClusterStep(cfg: Config, s: State, ev: Event): (s': State)
    requires Possible(s, ev) && cfg.manager.nodeCount > 0
    ensures |s'.nodes| == |s.nodes| && s'.clock == ev.now && s'.seeds >= s.seeds
  {
    match ev
    case Request(_, now, _, _, _) => Served(cfg, s, ev).(clock := now)
    case Elsewhere(i, now, check) =>
      var node := s.nodes[i];
      s.(nodes := s.nodes[i := node.(manager := ManagerModel.Step(cfg.manager, node.manager, check))], clock := now)
    case Late(_, now, _, _) => Resolved(cfg, s, ev).(clock := now)
    case PeerCall(i, now, reached) =>
      var node := s.nodes[i];
      var callback := if reached then ManagerModel.PeerSuccess else ManagerModel.PeerFailure;
      s.(nodes := s.nodes[i := node.(manager := ManagerModel.Step(cfg.manager, node.manager, callback))], clock := now)
    case Gossip(i, now, level) =>
      var node := s.nodes[i];
      s.(nodes := s.nodes[i := node.(slot := TokenBucket.Step(Bucket(cfg), node.slot, Merge(level)))], clock := now)
    case SweepNode(i, now) =>
      var node := s.nodes[i];
      s.(nodes := s.nodes[i := node.(slot := TokenBucket.Step(Bucket(cfg), node.slot, Sweep(now)))], clock := now)
    case ExpireKey(now) =>
      s.(redis := TokenBucket.Step(Key(cfg), s.redis, Sweep(now)), clock := now)
    case BeginWarmUp(i, now) =>
      var node := s.nodes[i];
      var slot := TokenBucket.Step(Bucket(cfg), node.slot, Sweep(now));
      var snap := if slot.Some? then Some(slot.value.tokens) else None;
      s.(nodes := s.nodes[i := node.(slot := slot, snap := snap)], clock := now)
    case EndWarmUp(i, now, landed, ok) =>
      var node := s.nodes[i];
      var manager := ManagerModel.Step(cfg.manager, node.manager, ManagerModel.Probe(ok));
      var writes := node.snap.Some? && (landed || ok);
      s.(nodes := s.nodes[i := node.(manager := manager, snap := None)],
         redis := if writes then KeyOfWarmUp(cfg, s.redis, node.snap.value, now) else s.redis,
         seeds := s.seeds + if writes then 1 else 0,
         clock := now)
  }

  function KeyOfWarmUp(cfg: Config, redis: Slot, level: real, now: real): Slot {
    RedisBucket.KeyStep(cfg.rate, G(cfg), redis, RedisBucket.Seed(level.Floor as real, now))
  }

  /** Every event of the run is possible when its turn comes. */
  predicate Runs(cfg: Config, s: State, evs: seq<Event>)
    requires cfg.manager.nodeCount > 0
    decreases |evs|, 0
  {
    evs == [] || (Runs(cfg, s, evs[..|evs| - 1]) && Possible(Reached(cfg, s, evs[..|evs| - 1]), evs[|evs| - 1]))
  }

  function Reached(cfg: Config, s: State, evs: seq<Event>): (s': State)
    requires cfg.manager.nodeCount > 0 && Runs(cfg, s, evs)
    ensures |s'.nodes| == |s.nodes| && s'.seeds >= s.seeds
    decreases |evs|, 1
  {
    if evs == [] then s else ClusterStep(cfg, Reached(cfg, s, evs[..|evs| - 1]), evs[|evs| - 1])
  }
}
