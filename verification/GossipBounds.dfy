/** What gossip bounds, and what it does not, on runs of the cluster. */
module GossipBounds {
  import opened Numbers
  import opened Sequences
  import opened GossipRounds
  import opened GossipOverTime
  import TokenBucket
  import ManagerModel
  import CircuitBreaker
  import Cluster
  import ClusterBounds

  const CHECK := ManagerModel.Check(0.0, false, 0.0, 0.0)

  predicate Startable(cfg: Cluster.Config) {
    cfg.manager.nodeCount > 0 && Cluster.G(cfg) >= 0 && cfg.rate >= 0.0 && cfg.manager.circuit.timeout > 0.0
  }

  function SetupOf(cfg: Cluster.Config): Setup
    requires Cluster.G(cfg) >= 0
  {
    Setup(Cluster.Bucket(cfg), Cluster.G(cfg))
  }

  /** All nodes are in PEER mode and hold the given entries. */
  ghost predicate InPeerMode(cfg: Cluster.Config, s: Cluster.State, slots: seq<TokenBucket.Slot>) {
    |s.nodes| == |slots| && forall i | 0 <= i < |slots| :: NodeInPeerMode(s.nodes[i], slots[i], s.clock)
  }

  predicate NodeInPeerMode(node: Cluster.Node, slot: TokenBucket.Slot, clock: real) {
    node.manager.mode.Peer? && node.slot == slot && ClusterBounds.SaneSlot(slot, clock)
  }

  /** What a move is in the cluster; a node that does not store the entity tells nothing of it. */
  function EventOf(clock: real, slots: seq<TokenBucket.Slot>, m: Move): seq<Cluster.Event>
    requires Among(|slots|, m)
  {
    match m
    case Serve(i, now) => [Cluster.Request(i, now, CHECK, 1, false)]
    case Tell(to, from) =>
      if slots[from].None? then [] else [Cluster.Gossip(to, clock, slots[from].value.tokens)]
  }

  function ClockAfter(clock: real, moves: seq<Move>): real {
    if moves == [] then clock else if Last(moves).Serve? then Last(moves).now else ClockAfter(clock, Prefix(moves))
  }

  predicate MovesInTime(clock: real, moves: seq<Move>) {
    moves == [] ||
    (&& MovesInTime(clock, Prefix(moves))
     && (Last(moves).Serve? ==> ClockAfter(clock, Prefix(moves)) <= Last(moves).now))
  }

  function EventsOf(cfg: Cluster.Config, clock: real, slots: seq<TokenBucket.Slot>,
                    moves: seq<Move>): seq<Cluster.Event>
    requires AllAmong(|slots|, moves) && Cluster.G(cfg) >= 0
  {
    if moves == [] then []
    else
      assert Last(moves) in moves;
      EventsOf(cfg, clock, slots, Prefix(moves))
      + EventOf(ClockAfter(clock, Prefix(moves)), Played(SetupOf(cfg), slots, Prefix(moves)), Last(moves))
  }

  lemma OneMore(cfg: Cluster.Config, s: Cluster.State, evs: seq<Cluster.Event>, ev: Cluster.Event)
    requires cfg.manager.nodeCount > 0 && Cluster.Runs(cfg, s, evs)
    requires Cluster.Possible(Cluster.Reached(cfg, s, evs), ev)
    ensures Cluster.Runs(cfg, s, evs + [ev])
    ensures Cluster.Reached(cfg, s, evs + [ev]) == Cluster.ClusterStep(cfg, Cluster.Reached(cfg, s, evs), ev)
  {
    assert (evs + [ev])[..|evs|] == evs;
  }

  lemma OneServe(cfg: Cluster.Config, s: Cluster.State, slots: seq<TokenBucket.Slot>, i: nat, now: real)
    requires Startable(cfg) && InPeerMode(cfg, s, slots) && i < |slots| && s.clock <= now
    ensures var ev := Cluster.Request(i, now, CHECK, 1, false);
            && Cluster.Possible(s, ev)
            && var s' := Cluster.ClusterStep(cfg, s, ev);
               && s'.clock == now && InPeerMode(cfg, s', SlotsAfter(SetupOf(cfg), slots, Serve(i, now)))
               && s'.admitted == s.admitted + GrantOf(SetupOf(cfg), slots, Serve(i, now))
  {
    assert NodeInPeerMode(s.nodes[i], slots[i], s.clock);
    var call := TokenBucket.Call(now, 1, Cluster.G(cfg));
    ClusterBounds.BucketStepSpendsLevel(Cluster.Bucket(cfg), slots[i], call, now, Cluster.G(cfg));
    var s' := Cluster.ClusterStep(cfg, s, Cluster.Request(i, now, CHECK, 1, false));
    var after := SlotsAfter(SetupOf(cfg), slots, Serve(i, now));
    forall j | 0 <= j < |after| ensures NodeInPeerMode(s'.nodes[j], after[j], now) {
      assert NodeInPeerMode(s.nodes[j], slots[j], s.clock);
    }
  }

  lemma OneTell(cfg: Cluster.Config, s: Cluster.State, slots: seq<TokenBucket.Slot>, to: nat, from: nat)
    requires Startable(cfg) && InPeerMode(cfg, s, slots) && to < |slots| && from < |slots| && slots[from].Some?
    ensures var ev := Cluster.Gossip(to, s.clock, slots[from].value.tokens);
            && Cluster.Possible(s, ev)
            && var s' := Cluster.ClusterStep(cfg, s, ev);
               && s'.clock == s.clock && s'.admitted == s.admitted
               && InPeerMode(cfg, s', SlotsAfter(SetupOf(cfg), slots, Tell(to, from)))
  {
    assert NodeInPeerMode(s.nodes[from], slots[from], s.clock);
    var s' := Cluster.ClusterStep(cfg, s, Cluster.Gossip(to, s.clock, slots[from].value.tokens));
    var after := SlotsAfter(SetupOf(cfg), slots, Tell(to, from));
    forall j | 0 <= j < |after| ensures NodeInPeerMode(s'.nodes[j], after[j], s.clock) {
      assert NodeInPeerMode(s.nodes[j], slots[j], s.clock);
    }
  }

  /** The cluster admits what the moves say. */
  lemma {:induction false} ClusterFollowsTheMoves(cfg: Cluster.Config, s: Cluster.State, slots: seq<TokenBucket.Slot>,
                                                  moves: seq<Move>)
    requires Startable(cfg) && InPeerMode(cfg, s, slots) && AllAmong(|slots|, moves) && MovesInTime(s.clock, moves)
    ensures Cluster.Runs(cfg, s, EventsOf(cfg, s.clock, slots, moves))
    ensures var s' := Cluster.Reached(cfg, s, EventsOf(cfg, s.clock, slots, moves));
            && s'.clock == ClockAfter(s.clock, moves) && InPeerMode(cfg, s', Played(SetupOf(cfg), slots, moves))
            && s'.admitted == s.admitted + Granted(SetupOf(cfg), slots, moves)
  {
    if moves != [] {
      assert Last(moves) in moves;
      ClusterFollowsTheMoves(cfg, s, slots, Prefix(moves));
      OneMoreMove(cfg, s, slots, moves);
    }
  }

  lemma OneMoreMove(cfg: Cluster.Config, s: Cluster.State, slots: seq<TokenBucket.Slot>, moves: seq<Move>)
    requires Startable(cfg) && moves != [] && AllAmong(|slots|, moves) && MovesInTime(s.clock, moves)
    requires Cluster.Runs(cfg, s, EventsOf(cfg, s.clock, slots, Prefix(moves)))
    requires var s' := Cluster.Reached(cfg, s, EventsOf(cfg, s.clock, slots, Prefix(moves)));
             && s'.clock == ClockAfter(s.clock, Prefix(moves))
             && InPeerMode(cfg, s', Played(SetupOf(cfg), slots, Prefix(moves)))
             && s'.admitted == s.admitted + Granted(SetupOf(cfg), slots, Prefix(moves))
    ensures Cluster.Runs(cfg, s, EventsOf(cfg, s.clock, slots, moves))
    ensures var s' := Cluster.Reached(cfg, s, EventsOf(cfg, s.clock, slots, moves));
            && s'.clock == ClockAfter(s.clock, moves) && InPeerMode(cfg, s', Played(SetupOf(cfg), slots, moves))
            && s'.admitted == s.admitted + Granted(SetupOf(cfg), slots, moves)
  {
    assert Last(moves) in moves;
    var evs, m := EventsOf(cfg, s.clock, slots, Prefix(moves)), Last(moves);
    var s', held := Cluster.Reached(cfg, s, evs), Played(SetupOf(cfg), slots, Prefix(moves));
    match m
    case Serve(i, now) =>
      OneServe(cfg, s', held, i, now);
      OneMore(cfg, s, evs, Cluster.Request(i, now, CHECK, 1, false));
    case Tell(to, from) =>
      if held[from].None? {
        assert EventsOf(cfg, s.clock, slots, moves) == evs;
      } else {
        OneTell(cfg, s', held, to, from);
        OneMore(cfg, s, evs, Cluster.Gossip(to, s'.clock, held[from].value.tokens));
      }
  }

  // ---------------------------------------------------------------------------------------------
  // From the start into PEER mode: Redis fails other entities' requests at every node
  // ---------------------------------------------------------------------------------------------

  function FreshNode(): Cluster.Node {
    Cluster.Node(ManagerModel.START, None, None)
  }

  function Fresh(n: nat): Cluster.State {
    Cluster.State(seq(n, _ => FreshNode()), None, 0.0, 0, 0, 0)
  }

  function Fail(i: nat): Cluster.Event {
    Cluster.Elsewhere(i, 0.0, CHECK)
  }

  /** A node after `k` failures, at most as many as trip its circuit: it has not heard of the entity. */
  function FailedNode(cfg: Cluster.Config, k: nat): Cluster.Node {
    var tripped := k >= CircuitBreaker.Tripping(cfg.manager.circuit);
    var circuit := CircuitBreaker.Circuit(if tripped then CircuitBreaker.Open else CircuitBreaker.Closed, k, 0.0);
    var mode := if tripped then ManagerModel.Peer else ManagerModel.Redis;
    Cluster.Node(ManagerModel.START.(circuit := circuit, mode := mode), None, None)
  }

  lemma FirstAndLastFailure(cfg: Cluster.Config)
    ensures FailedNode(cfg, 0) == FreshNode()
    ensures NodeInPeerMode(FailedNode(cfg, CircuitBreaker.Tripping(cfg.manager.circuit)), None, 0.0)
  {
    assert CircuitBreaker.Tripping(cfg.manager.circuit) >= 1;
  }

  function WithNode(s: Cluster.State, i: nat, node: Cluster.Node): Cluster.State
    requires i < |s.nodes|
  {
    s.(nodes := s.nodes[i := node])
  }

  lemma OneFailure(cfg: Cluster.Config, s: Cluster.State, i: nat, k: nat)
    requires Startable(cfg) && i < |s.nodes| && s.clock == 0.0 && k < CircuitBreaker.Tripping(cfg.manager.circuit)
    ensures Cluster.Possible(WithNode(s, i, FailedNode(cfg, k)), Fail(i))
    ensures Cluster.ClusterStep(cfg, WithNode(s, i, FailedNode(cfg, k)), Fail(i))
         == WithNode(s, i, FailedNode(cfg, k + 1))
  {
    var s' := Cluster.ClusterStep(cfg, WithNode(s, i, FailedNode(cfg, k)), Fail(i));
    assert s'.nodes[i] == FailedNode(cfg, k + 1);
    assert s'.nodes == s.nodes[i := FailedNode(cfg, k + 1)];
  }

  /** The events so far lead to `s`, and concern other entities. */
  ghost predicate Elsewhere(cfg: Cluster.Config, n: nat, evs: seq<Cluster.Event>, s: Cluster.State) {
    && cfg.manager.nodeCount > 0 && (forall ev | ev in evs :: ev.Elsewhere?)
    && Cluster.Runs(cfg, Fresh(n), evs) && Cluster.Reached(cfg, Fresh(n), evs) == s
  }

  lemma OneFailureMore(cfg: Cluster.Config, n: nat, evs: seq<Cluster.Event>, s: Cluster.State, i: nat, k: nat)
    requires Startable(cfg) && i < |s.nodes| && s.clock == 0.0 && k < CircuitBreaker.Tripping(cfg.manager.circuit)
    requires Elsewhere(cfg, n, evs, WithNode(s, i, FailedNode(cfg, k)))
    ensures Elsewhere(cfg, n, evs + [Fail(i)], WithNode(s, i, FailedNode(cfg, k + 1)))
  {
    OneFailure(cfg, s, i, k);
    OneMore(cfg, Fresh(n), evs, Fail(i));
  }

  lemma {:induction false} NodeFails(cfg: Cluster.Config, n: nat, before: seq<Cluster.Event>, s: Cluster.State, i: nat,
                                     k: nat)
    returns (evs: seq<Cluster.Event>)
    requires Startable(cfg) && k <= CircuitBreaker.Tripping(cfg.manager.circuit) && Elsewhere(cfg, n, before, s)
    requires i < |s.nodes| && s.clock == 0.0 && s.nodes[i] == FailedNode(cfg, 0)
    ensures Elsewhere(cfg, n, evs, WithNode(s, i, FailedNode(cfg, k)))
  {
    if k == 0 {
      evs := before;
      assert WithNode(s, i, FailedNode(cfg, 0)).nodes == s.nodes;
    } else {
      evs := NodeFails(cfg, n, before, s, i, k - 1);
      OneFailureMore(cfg, n, evs, s, i, k - 1);
      evs := evs + [Fail(i)];
    }
  }

  function FailedNodes(cfg: Cluster.Config, n: nat, k: nat): seq<Cluster.Node> {
    seq(n, i => FailedNode(cfg, if i < k then CircuitBreaker.Tripping(cfg.manager.circuit) else 0))
  }

  /** Redis fails the first `k` nodes until their circuits trip. */
  lemma {:induction false} NodesFail(cfg: Cluster.Config, n: nat, k: nat) returns (evs: seq<Cluster.Event>)
    requires Startable(cfg) && k <= n
    ensures Elsewhere(cfg, n, evs, Fresh(n).(nodes := FailedNodes(cfg, n, k)))
  {
    if k == 0 {
      FirstAndLastFailure(cfg);
      evs := [];
      assert FailedNodes(cfg, n, 0) == Fresh(n).nodes;
    } else {
      evs := NodesFail(cfg, n, k - 1);
      evs := NodeFails(cfg, n, evs, Fresh(n).(nodes := FailedNodes(cfg, n, k - 1)), k - 1,
                       CircuitBreaker.Tripping(cfg.manager.circuit));
      OneMoreFailed(cfg, n, k);
    }
  }

  lemma OneMoreFailed(cfg: Cluster.Config, n: nat, k: nat)
    requires 0 < k <= n
    ensures WithNode(Fresh(n).(nodes := FailedNodes(cfg, n, k - 1)), k - 1,
                     FailedNode(cfg, CircuitBreaker.Tripping(cfg.manager.circuit)))
         == Fresh(n).(nodes := FailedNodes(cfg, n, k))
  {
    var node := FailedNode(cfg, CircuitBreaker.Tripping(cfg.manager.circuit));
    assert FailedNodes(cfg, n, k - 1)[k - 1 := node] == FailedNodes(cfg, n, k);
  }

  /** The state that the outage leads to. */
  function AfterOutage(cfg: Cluster.Config, n: nat): Cluster.State {
    Fresh(n).(nodes := FailedNodes(cfg, n, n))
  }

  /** Other entities' requests alone lead to it from the start: every node is in PEER mode, and none
      stores the entity. */
  lemma OutageIsReachable(cfg: Cluster.Config, n: nat) returns (evs: seq<Cluster.Event>)
    requires Startable(cfg)
    ensures Elsewhere(cfg, n, evs, AfterOutage(cfg, n)) && OutageLeavesPeers(cfg, n)
  {
    evs := NodesFail(cfg, n, n);
    PeersAfterOutage(cfg, n);
  }

  ghost predicate OutageLeavesPeers(cfg: Cluster.Config, n: nat) {
    InPeerMode(cfg, AfterOutage(cfg, n), NoEntries(n))
  }

  lemma PeersAfterOutage(cfg: Cluster.Config, n: nat)
    ensures OutageLeavesPeers(cfg, n)
  {
    FirstAndLastFailure(cfg);
  }

  /** What the cluster admits of moves from a state in which all nodes are in PEER mode. */
  function AdmittedOf(cfg: Cluster.Config, s: Cluster.State, slots: seq<TokenBucket.Slot>,
                      moves: seq<Move>): (admitted: int)
    requires Startable(cfg) && InPeerMode(cfg, s, slots) && AllAmong(|slots|, moves) && MovesInTime(s.clock, moves)
    ensures admitted == Granted(SetupOf(cfg), slots, moves)
  {
    ClusterFollowsTheMoves(cfg, s, slots, moves);
    Cluster.Reached(cfg, s, EventsOf(cfg, s.clock, slots, moves)).admitted - s.admitted
  }

  // ---------------------------------------------------------------------------------------------
  // At one instant
  // ---------------------------------------------------------------------------------------------

  lemma {:induction false} MovesAtOnce(at: real, moves: seq<Move>)
    requires forall m | m in moves && m.Serve? :: m.now == at
    ensures MovesInTime(at, moves) && ClockAfter(at, moves) == at
  {
    if moves != [] {
      assert Last(moves) in moves;
      MovesAtOnce(at, Prefix(moves));
    }
  }

  lemma {:induction false} RoundsAtOnce(n: nat, at: real, rounds: seq<Round>)
    requires AreRoundsAt(n, at, rounds)
    ensures forall m | m in Moves(rounds) && m.Serve? :: m.now == at
  {
    if rounds != [] {
      assert Last(rounds) in rounds;
      RoundsAtOnce(n, at, Prefix(rounds));
    }
  }

  /** With full exchanges between rounds at one instant, the nodes admit what the common level drops by and,
      for each round, what exceeds its drop: what other nodes admit beside the one that takes most off the
      common level, and what a node without an entry takes above it. */
  lemma ClusterOvershootsExactly(cfg: Cluster.Config, s: Cluster.State, slots: seq<TokenBucket.Slot>, h: Holding,
                                 rounds: seq<Round>)
    requires Startable(cfg) && InPeerMode(cfg, s, slots) && Holds(Cluster.G(cfg), s.clock, slots, h)
    requires AreRoundsAt(|slots|, s.clock, rounds)
    ensures AllAmong(|slots|, Moves(rounds)) && MovesInTime(s.clock, Moves(rounds))
    ensures AdmittedOf(cfg, s, slots, Moves(rounds))
         == h.level - Held(|slots|, Cluster.G(cfg), h, rounds).level + Overshoot(|slots|, Cluster.G(cfg), h, rounds)
  {
    RoundsOvershootExactly(SetupOf(cfg), slots, h, s.clock, rounds);
    RoundsAtOnce(|slots|, s.clock, rounds);
    MovesAtOnce(s.clock, Moves(rounds));
  }

  /** At one instant the nodes, one of them using up the common level, stay within the level they start
      from if and only if in every round at most one node admits anything, and none without an entry
      after another has admitted. */
  lemma GossipSharesTheLimitExactly(cfg: Cluster.Config, s: Cluster.State, slots: seq<TokenBucket.Slot>, h: Holding,
                                    rounds: seq<Round>, i: nat)
    requires Startable(cfg) && InPeerMode(cfg, s, slots) && Holds(Cluster.G(cfg), s.clock, slots, h)
    requires AreRoundsAt(|slots|, s.clock, rounds) && i < |slots|
    ensures var moves := RunOut(|slots|, Cluster.G(cfg), h, s.clock, rounds, i);
            && AllAmong(|slots|, moves) && MovesInTime(s.clock, moves)
            && (AdmittedOf(cfg, s, slots, moves) <= h.level
                <==> OneServesPerRound(|slots|, Cluster.G(cfg), h, rounds))
  {
    var moves := RunOut(|slots|, Cluster.G(cfg), h, s.clock, rounds, i);
    LimitIsSharedExactly(SetupOf(cfg), slots, h, s.clock, rounds, i);
    RoundsAtOnce(|slots|, s.clock, rounds);
    MovesAtOnce(s.clock, moves);
  }

  /** An outage leaves the nodes the whole limit in common. */
  lemma OutageHoldsTheLimit(cfg: Cluster.Config, n: nat)
    requires Startable(cfg)
    ensures Holds(Cluster.G(cfg), 0.0, NoEntries(n), Holding({}, Cluster.G(cfg)))
  {
  }

  // ---------------------------------------------------------------------------------------------
  // The worst case: every node serves once between exchanges
  // ---------------------------------------------------------------------------------------------

  function EachOnce(n: nat, at: real): seq<Move> {
    if n == 0 then [] else EachOnce(n - 1, at) + [Serve(n - 1, at)]
  }

  lemma {:induction false} EachIsServedOnce(n: nat, at: real, i: nat)
    ensures forall m | m in EachOnce(n, at) :: m.Serve? && m.node < n && m.now == at
    ensures Requests(EachOnce(n, at), i) == if i < n then 1 else 0
  {
    if n > 0 {
      EachIsServedOnce(n - 1, at, i);
      assert Prefix(EachOnce(n, at)) == EachOnce(n - 1, at);
    }
  }

  lemma {:induction false} SumOfOnes(x: seq<nat>)
    requires forall i | 0 <= i < |x| :: x[i] == 1
    ensures Sum(x) == |x| && Most(x) == if x == [] then 0 else 1
  {
    if x != [] {
      SumOfOnes(Prefix(x));
    }
  }

  predicate Everyone(n: nat, h: Holding) {
    (forall i | i in h.stored :: i < n) && (forall i: nat | i < n :: i in h.stored)
  }

  /** All nodes hold the level, or none stores the entity yet. */
  predicate Even(n: nat, limit: nat, h: Holding) {
    h.level <= limit && (Everyone(n, h) || h == Holding({}, limit))
  }

  lemma EachTakesOne(n: nat, limit: nat, h: Holding, at: real, r: Round)
    requires n > 0 && Even(n, limit, h) && h.level > 0 && r.serves == EachOnce(n, at)
    ensures var x := Grants(n, limit, h, r.serves); Excess(limit, h, x) == n - 1
    ensures var after := HoldingAfter(n, limit, h, r); after.level == h.level - 1 && Everyone(n, after)
  {
    var x := Grants(n, limit, h, r.serves);
    forall i: nat | i < n ensures Requests(r.serves, i) == 1 && x[i] == 1 && Drops(limit, h, x)[i] == 1 {
      EachIsServedOnce(n, at, i);
    }
    SumOfOnes(x);
    SumOfOnes(Drops(limit, h, x));
  }

  /** The rounds so far have taken `k` off the common level. */
  ghost predicate Busy(n: nat, limit: nat, h: Holding, at: real, rounds: seq<Round>, k: nat)
    requires h.level <= limit && n > 0
  {
    var after := Held(n, limit, h, rounds);
    && AreRoundsAt(n, at, rounds) && after.level == h.level - k && Even(n, limit, after)
    && (k > 0 ==> Everyone(n, after)) && Overshoot(n, limit, h, rounds) == Over(k, n - 1)
  }

  lemma OneMoreBusyRound(n: nat, limit: nat, h: Holding, at: real, rounds: seq<Round>, k: nat, r: Round)
    requires n > 0 && h.level <= limit && k < h.level && Busy(n, limit, h, at, rounds, k)
    requires IsRoundAt(n, at, r) && r.serves == EachOnce(n, at)
    ensures Busy(n, limit, h, at, rounds + [r], k + 1)
  {
    EachTakesOne(n, limit, Held(n, limit, h, rounds), at, r);
    assert Prefix(rounds + [r]) == rounds && Last(rounds + [r]) == r;
  }

  /** `k` rounds in which every node serves once take `k` off the common level, and admit `k` times `n`. */
  lemma {:induction false} BusyRounds(n: nat, limit: nat, h: Holding, at: real, k: nat) returns (rounds: seq<Round>)
    requires n > 0 && Even(n, limit, h) && k <= h.level
    ensures Busy(n, limit, h, at, rounds, k)
  {
    if k == 0 {
      rounds := [];
    } else {
      rounds := BusyRounds(n, limit, h, at, k - 1);
      EachIsServedOnce(n, at, 0);
      var tells := AnExchange(n);
      OneMoreBusyRound(n, limit, h, at, rounds, k - 1, Round(EachOnce(n, at), tells));
      rounds := rounds + [Round(EachOnce(n, at), tells)];
    }
  }

  /** `m` in each of `k` rounds. */
  function Over(k: nat, m: nat): nat {
    if k == 0 then 0 else Over(k - 1, m) + m
  }

  lemma {:induction false} OverIsAProduct(k: nat, m: nat)
    ensures Over(k, m) == k * m
  {
    if k > 0 {
      OverIsAProduct(k - 1, m);
      assert k * m == (k - 1) * m + m;
    }
  }

  lemma OncePerNode(n: int, limit: int)
    ensures limit + limit * (n - 1) == n * limit
  {
  }

  /** After an outage every node then admits the global limit, as if there were no gossip. */
  lemma GossipDoesNotShareTheLimit(cfg: Cluster.Config, n: nat) returns (rounds: seq<Round>)
    requires Startable(cfg) && n > 0
    ensures AreRoundsAt(n, 0.0, rounds) && AllAmong(n, Moves(rounds)) && MovesInTime(0.0, Moves(rounds))
    ensures OutageLeavesPeers(cfg, n)
    ensures AdmittedOf(cfg, AfterOutage(cfg, n), NoEntries(n), Moves(rounds)) == n * Cluster.G(cfg)
  {
    var limit, h := Cluster.G(cfg), Holding({}, Cluster.G(cfg));
    PeersAfterOutage(cfg, n);
    OutageHoldsTheLimit(cfg, n);
    rounds := BusyRounds(n, limit, h, 0.0, limit);
    ClusterOvershootsExactly(cfg, AfterOutage(cfg, n), NoEntries(n), h, rounds);
    OverIsAProduct(limit, n - 1);
    OncePerNode(n, limit);
  }

  // ---------------------------------------------------------------------------------------------
  // Over time, with an exchange after every request
  // ---------------------------------------------------------------------------------------------

  lemma {:induction false} HitsInTime(n: nat, clock: real, rounds: seq<Round>)
    requires AreHits(n, rounds) && InTime(clock, rounds)
    ensures MovesInTime(clock, Moves(rounds)) && ClockAfter(clock, Moves(rounds)) == EndOf(clock, rounds)
  {
    if rounds != [] {
      assert Last(rounds) in rounds;
      HitsInTime(n, clock, Prefix(rounds));
      OneHitInTime(n, clock, Moves(Prefix(rounds)), Last(rounds));
    }
  }

  lemma OneHitInTime(n: nat, clock: real, moves: seq<Move>, r: Round)
    requires MovesInTime(clock, moves) && IsHit(n, r) && ClockAfter(clock, moves) <= HitTime(r)
    ensures MovesInTime(clock, moves + (r.serves + r.tells))
    ensures ClockAfter(clock, moves + (r.serves + r.tells)) == HitTime(r)
  {
    assert r.serves[0] in r.serves && r.serves == [r.serves[0]];
    OneMoveInTime(clock, moves, r.serves[0]);
    TellsTakeNoTime(clock, moves + r.serves, r.tells);
    assert moves + (r.serves + r.tells) == moves + r.serves + r.tells;
  }

  lemma OneMoveInTime(clock: real, moves: seq<Move>, m: Move)
    requires MovesInTime(clock, moves) && m.Serve? && ClockAfter(clock, moves) <= m.now
    ensures MovesInTime(clock, moves + [m]) && ClockAfter(clock, moves + [m]) == m.now
  {
    assert Prefix(moves + [m]) == moves;
  }

  lemma {:induction false} TellsTakeNoTime(clock: real, moves: seq<Move>, tells: seq<Move>)
    requires MovesInTime(clock, moves) && forall m | m in tells :: m.Tell?
    ensures MovesInTime(clock, moves + tells) && ClockAfter(clock, moves + tells) == ClockAfter(clock, moves)
  {
    if tells == [] {
      assert moves + tells == moves;
    } else {
      assert Last(tells) in tells;
      TellsTakeNoTime(clock, moves, Prefix(tells));
      assert Prefix(moves + tells) == moves + Prefix(tells);
    }
  }

  /** With an exchange after every request, N nodes admit at most their common level, N times the refill,
      and the global limit once more for each node that makes its entry after another. */
  lemma GossipOverTimeIsBounded(cfg: Cluster.Config, s: Cluster.State, slots: seq<TokenBucket.Slot>, level: real,
                                since: real, rounds: seq<Round>)
    requires Startable(cfg) && InPeerMode(cfg, s, slots) && Common(SetupOf(cfg), slots, level, since, s.clock)
    requires since <= s.clock && AreHits(|slots|, rounds) && InTime(s.clock, rounds)
    ensures AdmittedOfHits(cfg, s, slots, rounds) as real
         <= level + Times(LateEntries(SetupOf(cfg), slots, rounds), Cluster.G(cfg) as real)
            + Times(|slots|, Earned(cfg.rate, EndOf(s.clock, rounds) - since))
  {
    HitsAreBounded(SetupOf(cfg), slots, level, since, s.clock, rounds);
  }

  /** What the cluster admits of rounds of one request each. */
  function AdmittedOfHits(cfg: Cluster.Config, s: Cluster.State, slots: seq<TokenBucket.Slot>, rounds: seq<Round>):
      (admitted: int)
    requires Startable(cfg) && InPeerMode(cfg, s, slots) && AreHits(|slots|, rounds) && InTime(s.clock, rounds)
    ensures AllAmong(|slots|, Moves(rounds)) && admitted == Granted(SetupOf(cfg), slots, Moves(rounds))
  {
    MovesAreAmong(|slots|, rounds);
    HitsInTime(|slots|, s.clock, rounds);
    AdmittedOf(cfg, s, slots, Moves(rounds))
  }

  /** The nodes admit at most `level` and one refill. */
  ghost predicate Shares(cfg: Cluster.Config, s: Cluster.State, slots: seq<TokenBucket.Slot>, level: real,
                         rounds: seq<Round>)
    requires Startable(cfg) && InPeerMode(cfg, s, slots) && AreHits(|slots|, rounds) && InTime(s.clock, rounds)
  {
    PaidFor(AdmittedOfHits(cfg, s, slots, rounds), level, cfg.rate, EndOf(s.clock, rounds) - s.clock)
  }

  lemma SharesIfPaidFor(cfg: Cluster.Config, s: Cluster.State, slots: seq<TokenBucket.Slot>, level: real,
                        rounds: seq<Round>)
    requires Startable(cfg) && InPeerMode(cfg, s, slots) && AreHits(|slots|, rounds) && InTime(s.clock, rounds)
    ensures Shares(cfg, s, slots, level, rounds) <==> StaysWithin(SetupOf(cfg), slots, level, s.clock, rounds)
  {
    var admitted := AdmittedOfHits(cfg, s, slots, rounds);
  }

  /** After an outage N nodes stay within the global limit and one refill, whatever they are asked, if and
      only if there is at most one of them. */
  lemma GossipAfterOutageExactly(cfg: Cluster.Config, n: nat)
    requires Startable(cfg) && Cluster.G(cfg) >= 1
    ensures OutageLeavesPeers(cfg, n)
    ensures (forall rounds | AreHits(n, rounds) && InTime(0.0, rounds) ::
               Shares(cfg, AfterOutage(cfg, n), NoEntries(n), Cluster.G(cfg) as real, rounds)) <==> n <= 1
  {
    PeersAfterOutage(cfg, n);
    LimitIsSharedFromScratchExactly(SetupOf(cfg), n, 0.0);
    forall rounds | AreHits(n, rounds) && InTime(0.0, rounds)
      ensures Shares(cfg, AfterOutage(cfg, n), NoEntries(n), Cluster.G(cfg) as real, rounds)
         <==> StaysWithin(SetupOf(cfg), NoEntries(n), Cluster.G(cfg) as real, 0.0, rounds)
    {
      SharesIfPaidFor(cfg, AfterOutage(cfg, n), NoEntries(n), Cluster.G(cfg) as real, rounds);
    }
  }

  /** From any state in which N nodes in PEER mode all store the entity at one level: they stay within that
      level and one refill, whatever they are asked, if and only if there is at most one of them. */
  lemma GossipSharesTheRefillExactly(cfg: Cluster.Config, s: Cluster.State, n: nat, level: real)
    requires Startable(cfg) && cfg.rate > 0.0 && Cluster.G(cfg) >= 1 && 0.0 <= level <= Cluster.G(cfg) as real
    requires InPeerMode(cfg, s, Everywhere(n, level, s.clock))
    ensures (forall rounds | AreHits(n, rounds) && InTime(s.clock, rounds) ::
               Shares(cfg, s, Everywhere(n, level, s.clock), level, rounds)) <==> n <= 1
  {
    RefillIsSharedExactly(SetupOf(cfg), n, level, s.clock);
    forall rounds | AreHits(n, rounds) && InTime(s.clock, rounds)
      ensures Shares(cfg, s, Everywhere(n, level, s.clock), level, rounds)
         <==> StaysWithin(SetupOf(cfg), Everywhere(n, level, s.clock), level, s.clock, rounds)
    {
      SharesIfPaidFor(cfg, s, Everywhere(n, level, s.clock), level, rounds);
    }
  }

  /** Such a state is reached from the start: after an outage every node serves once. */
  lemma EverywhereIsReachable(cfg: Cluster.Config, n: nat) returns (rounds: seq<Round>)
    requires Startable(cfg) && n > 0 && Cluster.G(cfg) >= 1
    ensures AllAmong(n, Moves(rounds)) && MovesInTime(0.0, Moves(rounds))
    ensures var evs := EventsOf(cfg, 0.0, NoEntries(n), Moves(rounds));
            && Cluster.Runs(cfg, AfterOutage(cfg, n), evs)
            && var s := Cluster.Reached(cfg, AfterOutage(cfg, n), evs);
               s.clock == 0.0 && InPeerMode(cfg, s, Everywhere(n, (Cluster.G(cfg) - 1) as real, 0.0))
  {
    var limit, h := Cluster.G(cfg), Holding({}, Cluster.G(cfg));
    PeersAfterOutage(cfg, n);
    OutageHoldsTheLimit(cfg, n);
    rounds := BusyRounds(n, limit, h, 0.0, 1);
    RoundsOvershootExactly(SetupOf(cfg), NoEntries(n), h, 0.0, rounds);
    EveryoneIsEverywhere(n, limit, Played(SetupOf(cfg), NoEntries(n), Moves(rounds)), Held(n, limit, h, rounds));
    RoundsAtOnce(n, 0.0, rounds);
    MovesAtOnce(0.0, Moves(rounds));
    ClusterFollowsTheMoves(cfg, AfterOutage(cfg, n), NoEntries(n), Moves(rounds));
  }

  lemma EveryoneIsEverywhere(n: nat, limit: nat, slots: seq<TokenBucket.Slot>, h: Holding)
    requires |slots| == n && Holds(limit, 0.0, slots, h) && Everyone(n, h)
    ensures slots == Everywhere(n, h.level as real, 0.0)
  {
  }
}
