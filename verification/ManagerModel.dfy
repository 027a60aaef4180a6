/**
 The three-mode state machine of the Go manager (go-throttle/throttle/manager.go) as a function of
 its events, and what holds on every run.
 */
module ManagerModel {
  import opened Numbers
  import opened CircuitBreaker

  datatype ThrottleMode = Redis | Peer | Local

  datatype Config = Config(circuit: Settings, hasMySQL: bool, globalLimit: int, nodeCount: int)

  datatype State = State(mode: ThrottleMode, peerFailures: int, circuit: Circuit, flushing: bool)

  /** `Check` carries what the environment decides: whether Redis answers, and the clock where the
      circuit is read, where a failure is recorded, and where the circuit is read again.
      `Probe(true)` is a probe whose ping and warm-up both succeed. */
  datatype Event =
    | Check(read: real, answered: bool, failed: real, reread: real)
    | PeerFailure
    | PeerSuccess
    | Probe(recovered: bool)

  datatype Route = ViaRedis | ViaLocal(limit: int)

  const START := State(Redis, 0, INITIAL, false)

  const PEER_FAILURE_LIMIT := 5

  function PerNodeLimit(cfg: Config): int
    requires cfg.nodeCount > 0
  {
    cfg.globalLimit / cfg.nodeCount
  }

  function TransitionTo(cfg: Config, s: State, mode: ThrottleMode): State {
    if s.mode == mode then s
    else s.(mode := mode, flushing := if cfg.hasMySQL then mode.Local? else s.flushing)
  }

  /** The circuit as the first thing a check in REDIS mode reads. */
  function ReadFirst(cfg: Config, s: State, ev: Event): Circuit
    requires ev.Check?
  {
    CircuitStep(cfg.circuit, s.circuit, Read(ev.read))
  }

  /** What Redis's answer or failure does to the manager, whatever its mode is by then. */
  function Resolve(cfg: Config, s: State, ev: Event): State
    requires ev.Check?
  {
    if ev.answered then s.(circuit := CircuitStep(cfg.circuit, s.circuit, Success), peerFailures := 0)
    else
      var c := CircuitStep(cfg.circuit, CircuitStep(cfg.circuit, s.circuit, Failure(ev.failed)), Read(ev.reread));
      if c.state.Open? then TransitionTo(cfg, s.(circuit := c), Peer) else s.(circuit := c)
  }

  function CheckRedis(cfg: Config, s: State, ev: Event): State
    requires ev.Check?
  {
    var c := ReadFirst(cfg, s, ev);
    if c.state.Open? then TransitionTo(cfg, s.(circuit := c), Peer) else Resolve(cfg, s.(circuit := c), ev)
  }

  function Step(cfg: Config, s: State, ev: Event): State {
    match ev
    case Check(_, _, _, _) => if s.mode.Redis? then CheckRedis(cfg, s, ev) else s
    case PeerFailure =>
      var s' := s.(peerFailures := s.peerFailures + 1);
      if s'.peerFailures >= PEER_FAILURE_LIMIT && s'.mode.Peer? then TransitionTo(cfg, s', Local) else s'
    case PeerSuccess =>
      var s' := s.(peerFailures := 0);
      if s'.mode.Local? then TransitionTo(cfg, s', Peer) else s'
    case Probe(recovered) =>
      if s.mode.Redis? || !recovered then s
      else TransitionTo(cfg, s.(circuit := CircuitStep(cfg.circuit, s.circuit, Reset)), Redis)
  }

  /** Where a check is served, and under which limit. */
  function RouteOf(cfg: Config, s: State, ev: Event): Route
    requires ev.Check? && cfg.nodeCount > 0
  {
    match s.mode
    case Redis => if !ReadFirst(cfg, s, ev).state.Open? && ev.answered then ViaRedis else ViaLocal(cfg.globalLimit)
    case Peer => ViaLocal(cfg.globalLimit)
    case Local => ViaLocal(PerNodeLimit(cfg))
  }

  function After(cfg: Config, s: State, evs: seq<Event>): State {
    if evs == [] then s else Step(cfg, After(cfg, s, evs[..|evs| - 1]), evs[|evs| - 1])
  }

  lemma {:induction false} AfterBoth(cfg: Config, s: State, evs: seq<Event>, more: seq<Event>)
    ensures After(cfg, s, evs + more) == After(cfg, After(cfg, s, evs), more)
  {
    if more == [] {
      assert evs + more == evs;
    } else {
      AfterBoth(cfg, s, evs, more[..|more| - 1]);
      assert (evs + more)[..|evs + more| - 1] == evs + more[..|more| - 1];
    }
  }

  // ---------------------------------------------------------------------------------------------
  // The invariant of every run
  // ---------------------------------------------------------------------------------------------

  /** The circuit is read again before the reset timeout has passed since the failure. */
  predicate Prompt(cfg: Config, ev: Event) {
    ev.Check? ==> ev.reread - ev.failed < cfg.circuit.timeout
  }

  predicate Inv(cfg: Config, s: State) {
    && (s.mode.Redis? <==> s.circuit.state.Closed?)
    && !s.circuit.state.HalfOpen?
    && (s.circuit.state.Closed? <==> s.circuit.failureCount < Tripping(cfg.circuit))
    && s.peerFailures >= 0 && s.circuit.failureCount >= 0
    && (s.mode.Local? ==> s.peerFailures >= PEER_FAILURE_LIMIT)
    && (s.flushing <==> cfg.hasMySQL && s.mode.Local?)
  }

  /** Redis failures of the run since the latest Redis answer or recovery. */
  function RedisFailures(cfg: Config, evs: seq<Event>): nat {
    if evs == [] then 0
    else
      var pre, ev := evs[..|evs| - 1], evs[|evs| - 1];
      var s := After(cfg, START, pre);
      match ev
      case Check(_, answered, _, _) =>
        if !s.mode.Redis? then RedisFailures(cfg, pre) else if answered then 0 else RedisFailures(cfg, pre) + 1
      case Probe(recovered) => if recovered && !s.mode.Redis? then 0 else RedisFailures(cfg, pre)
      case _ => RedisFailures(cfg, pre)
  }

  function At(cfg: Config, evs: seq<Event>, n: nat): State
    requires n <= |evs|
  {
    After(cfg, START, evs[..n])
  }

  lemma NextState(cfg: Config, evs: seq<Event>, n: nat)
    requires n < |evs|
    ensures At(cfg, evs, n + 1) == Step(cfg, At(cfg, evs, n), evs[n])
    ensures evs[..n + 1] != [] && evs[..n + 1][..n] == evs[..n] && evs[..n + 1][n] == evs[n]
  {
    assert evs[..n + 1][..n] == evs[..n];
  }

  /** Event `n` is the Redis failure that trips the circuit. */
  predicate Trips(cfg: Config, evs: seq<Event>, n: nat)
    requires n < |evs|
  {
    && evs[n].Check? && !evs[n].answered && At(cfg, evs, n).mode.Redis?
    && RedisFailures(cfg, evs[..n]) + 1 >= Tripping(cfg.circuit)
  }

  predicate TripsArePrompt(cfg: Config, evs: seq<Event>) {
    forall n: nat | n < |evs| && Trips(cfg, evs, n) :: Prompt(cfg, evs[n])
  }

  /** The invariant, with the circuit's count read off the events. */
  predicate Counted(cfg: Config, evs: seq<Event>, n: nat)
    requires n <= |evs|
  {
    Inv(cfg, At(cfg, evs, n)) && At(cfg, evs, n).circuit.failureCount == RedisFailures(cfg, evs[..n])
  }

  /** One event keeps the invariant unless it is a slow trip: the manager then stays in REDIS mode over
      a half-open circuit. */
  lemma OneEvent(cfg: Config, evs: seq<Event>, n: nat)
    requires n < |evs| && Counted(cfg, evs, n)
    ensures Inv(cfg, At(cfg, evs, n + 1)) <==> (Trips(cfg, evs, n) ==> Prompt(cfg, evs[n]))
    ensures Inv(cfg, At(cfg, evs, n + 1)) ==> Counted(cfg, evs, n + 1)
    ensures !Inv(cfg, At(cfg, evs, n + 1)) ==>
              At(cfg, evs, n + 1).mode.Redis? && At(cfg, evs, n + 1).circuit.state.HalfOpen?
  {
    NextState(cfg, evs, n);
  }

  lemma {:induction false} CountedUpTo(cfg: Config, evs: seq<Event>, n: nat)
    requires n <= |evs|
    requires TripsArePrompt(cfg, evs) || AlwaysInv(cfg, evs)
    ensures Counted(cfg, evs, n)
  {
    if n > 0 {
      CountedUpTo(cfg, evs, n - 1);
      OneEvent(cfg, evs, n - 1);
    }
  }

  ghost predicate AlwaysInv(cfg: Config, evs: seq<Event>) {
    forall n: nat | n <= |evs| :: Inv(cfg, At(cfg, evs, n))
  }

  /** While trips are prompt, REDIS mode, a closed circuit, and fewer trailing Redis failures than the
      threshold are one and the same; the flusher runs exactly in LOCAL mode, which needs five peer
      failures; HALF_OPEN is never reached. */
  lemma InvariantOfEveryRun(cfg: Config, evs: seq<Event>)
    requires TripsArePrompt(cfg, evs)
    ensures var s := After(cfg, START, evs);
            && Inv(cfg, s)
            && s.circuit.failureCount == RedisFailures(cfg, evs)
            && (s.mode.Redis? <==> RedisFailures(cfg, evs) < Tripping(cfg.circuit))
  {
    CountedUpTo(cfg, evs, |evs|);
    assert evs[..|evs|] == evs;
  }

  /** The invariant holds throughout a run if and only if every trip is prompt: the circuit is read
      again before its reset timeout has passed. */
  lemma InvariantHoldsExactly(cfg: Config, evs: seq<Event>)
    ensures AlwaysInv(cfg, evs) <==> TripsArePrompt(cfg, evs)
  {
    if TripsArePrompt(cfg, evs) {
      forall n: nat | n <= |evs| ensures Inv(cfg, At(cfg, evs, n)) {
        CountedUpTo(cfg, evs, n);
      }
    }
    if AlwaysInv(cfg, evs) {
      forall n: nat | n < |evs| && Trips(cfg, evs, n) ensures Prompt(cfg, evs[n]) {
        CountedUpTo(cfg, evs, n);
        assert Inv(cfg, At(cfg, evs, n + 1));
        OneEvent(cfg, evs, n);
      }
    }
  }

  // ---------------------------------------------------------------------------------------------
  // What every run serves, counts and recovers
  // ---------------------------------------------------------------------------------------------

  /** Missed peer calls of the run since the latest answer of a peer, or of Redis to a check in REDIS mode. */
  function PeerMisses(cfg: Config, evs: seq<Event>): nat {
    if evs == [] then 0
    else
      var pre := evs[..|evs| - 1];
      match evs[|evs| - 1]
      case PeerFailure => PeerMisses(cfg, pre) + 1
      case PeerSuccess => 0
      case Check(_, answered, _, _) =>
        if answered && RedisFailures(cfg, pre) < Tripping(cfg.circuit) then 0 else PeerMisses(cfg, pre)
      case Probe(_) => PeerMisses(cfg, pre)
  }

  lemma {:induction false} MissesUpTo(cfg: Config, evs: seq<Event>, n: nat)
    requires TripsArePrompt(cfg, evs) && n <= |evs|
    ensures At(cfg, evs, n).peerFailures == PeerMisses(cfg, evs[..n])
  {
    if n > 0 {
      MissesUpTo(cfg, evs, n - 1);
      CountedUpTo(cfg, evs, n - 1);
      NextState(cfg, evs, n - 1);
    }
  }

  /** The peer counter is the number of misses since any peer, or Redis, was last heard. */
  lemma CounterIsItsHistory(cfg: Config, evs: seq<Event>)
    requires TripsArePrompt(cfg, evs)
    ensures After(cfg, START, evs).peerFailures == PeerMisses(cfg, evs)
  {
    MissesUpTo(cfg, evs, |evs|);
    assert evs[..|evs|] == evs;
  }

  /** Where a run changes the mode: into LOCAL at the fifth miss in a row or later, in PEER mode; out of it
      where a peer answers or a probe goes through; into REDIS where a probe goes through; out of it where
      a failure trips the circuit. */
  lemma ModeChangesExactly(cfg: Config, evs: seq<Event>, n: nat)
    requires TripsArePrompt(cfg, evs) && n < |evs|
    ensures var before, after := At(cfg, evs, n).mode, At(cfg, evs, n + 1).mode;
            && (!before.Local? && after.Local? <==>
                  before.Peer? && evs[n].PeerFailure? && PeerMisses(cfg, evs[..n + 1]) >= 5)
            && (before.Local? && !after.Local? <==> before.Local? && (evs[n].PeerSuccess? || evs[n] == Probe(true)))
            && (!before.Redis? && after.Redis? <==> !before.Redis? && evs[n] == Probe(true))
            && (before.Redis? && !after.Redis? <==> Trips(cfg, evs, n))
  {
    CountedUpTo(cfg, evs, n);
    MissesUpTo(cfg, evs, n);
    NextState(cfg, evs, n);
  }

  /** A check is answered by Redis exactly where Redis answers it and fewer failures trail than trip the
      circuit; any other is served locally, under the node's share in LOCAL mode alone. */
  lemma RouteOfEveryRun(cfg: Config, evs: seq<Event>, ev: Event)
    requires TripsArePrompt(cfg, evs) && ev.Check? && cfg.nodeCount > 0
    ensures var route := RouteOf(cfg, After(cfg, START, evs), ev);
            && (route.ViaRedis? <==> ev.answered && RedisFailures(cfg, evs) < Tripping(cfg.circuit))
            && (route.ViaLocal? ==> route.limit == if After(cfg, START, evs).mode.Local?
                                                   then cfg.globalLimit / cfg.nodeCount else cfg.globalLimit)
  {
    InvariantOfEveryRun(cfg, evs);
  }

  /** The nodes' shares add up to the global limit, up to what is lost to rounding. */
  lemma SharesFillTheLimit(cfg: Config)
    requires cfg.nodeCount > 0
    ensures cfg.nodeCount * PerNodeLimit(cfg) <= cfg.globalLimit < cfg.nodeCount * (PerNodeLimit(cfg) + 1)
  {
    assert cfg.globalLimit == cfg.nodeCount * (cfg.globalLimit / cfg.nodeCount) + cfg.globalLimit % cfg.nodeCount;
  }

  /** A probe that goes through takes any node back to REDIS mode, over a closed circuit that has forgotten
      its failures; one that does not changes nothing. */
  lemma ProbeRecovers(cfg: Config, s: State)
    requires !s.mode.Redis?
    ensures var s' := Step(cfg, s, Probe(true));
            && s'.mode.Redis? && s'.circuit.state.Closed? && s'.circuit.failureCount == 0
            && s'.peerFailures == s.peerFailures && (cfg.hasMySQL ==> !s'.flushing)
    ensures Step(cfg, s, Probe(false)) == s
  {
  }

  // ---------------------------------------------------------------------------------------------
  // From PEER to LOCAL
  // ---------------------------------------------------------------------------------------------

  function PeerFailures(evs: seq<Event>): nat {
    if evs == [] then 0 else PeerFailures(evs[..|evs| - 1]) + if evs[|evs| - 1].PeerFailure? then 1 else 0
  }

  predicate NothingRecovers(evs: seq<Event>) {
    forall ev | ev in evs :: !ev.PeerSuccess? && ev != Probe(true)
  }

  /** A node in PEER mode that sees no recovery is in LOCAL mode as soon as its failures add up to
      five, and at least one of them came in PEER mode; never sooner. */
  lemma {:induction false} PeerReachesLocal(cfg: Config, s: State, evs: seq<Event>)
    requires s.mode.Peer? && s.peerFailures >= 0 && NothingRecovers(evs)
    ensures var s' := After(cfg, s, evs);
            && s'.peerFailures == s.peerFailures + PeerFailures(evs)
            && (s'.mode.Peer? || s'.mode.Local?)
            && (s'.mode.Local? <==> PeerFailures(evs) >= 1 && s.peerFailures + PeerFailures(evs) >= 5)
  {
    if evs != [] {
      assert evs[|evs| - 1] in evs;
      PeerReachesLocal(cfg, s, evs[..|evs| - 1]);
    }
  }

  // ---------------------------------------------------------------------------------------------
  // Partial reachability
  // ---------------------------------------------------------------------------------------------

  /** Outcomes of the peer calls of a run, in order. */
  function PeerOutcomes(evs: seq<Event>): seq<bool> {
    if evs == [] then []
    else PeerOutcomes(evs[..|evs| - 1])
         + match evs[|evs| - 1]
           case PeerFailure => [false]
           case PeerSuccess => [true]
           case _ => []
  }

  /** Misses since the latest success. */
  function Misses(outcomes: seq<bool>): nat {
    if outcomes == [] || outcomes[|outcomes| - 1] then 0 else Misses(outcomes[..|outcomes| - 1]) + 1
  }

  lemma {:induction false} CounterIsBoundedByMisses(cfg: Config, evs: seq<Event>)
    ensures 0 <= After(cfg, START, evs).peerFailures <= Misses(PeerOutcomes(evs))
  {
    if evs != [] {
      CounterIsBoundedByMisses(cfg, evs[..|evs| - 1]);
      var pre, ev := PeerOutcomes(evs[..|evs| - 1]), evs[|evs| - 1];
      if ev.PeerFailure? {
        assert (pre + [false])[..|pre|] == pre;
      } else if !ev.PeerSuccess? {
        assert pre + [] == pre;
      }
    }
  }

  predicate AlwaysFewMisses(evs: seq<Event>) {
    forall n | 0 <= n <= |evs| :: Misses(PeerOutcomes(evs[..n])) < PEER_FAILURE_LIMIT
  }

  lemma FewMissesOfPrefix(evs: seq<Event>, n: nat)
    requires AlwaysFewMisses(evs) && n <= |evs|
    ensures AlwaysFewMisses(evs[..n]) && Misses(PeerOutcomes(evs[..n])) < PEER_FAILURE_LIMIT
  {
    forall m | 0 <= m <= n ensures Misses(PeerOutcomes(evs[..n][..m])) < PEER_FAILURE_LIMIT {
      assert evs[..n][..m] == evs[..m];
    }
  }

  /** A node whose peer calls never miss five times in a row never enters LOCAL mode. */
  lemma {:induction false} FewMissesNeverLocal(cfg: Config, evs: seq<Event>)
    requires AlwaysFewMisses(evs)
    ensures !After(cfg, START, evs).mode.Local?
  {
    if evs != [] {
      FewMissesOfPrefix(evs, |evs| - 1);
      FewMissesNeverLocal(cfg, evs[..|evs| - 1]);
      assert Misses(PeerOutcomes(evs)) < PEER_FAILURE_LIMIT by {
        FewMissesOfPrefix(evs, |evs|);
        assert evs[..|evs|] == evs;
      }
      CounterIsBoundedByMisses(cfg, evs);
      EnteringLocalNeedsFive(cfg, After(cfg, START, evs[..|evs| - 1]), evs[|evs| - 1]);
    }
  }

  lemma EnteringLocalNeedsFive(cfg: Config, s: State, ev: Event)
    ensures !s.mode.Local? && Step(cfg, s, ev).mode.Local? ==> Step(cfg, s, ev).peerFailures >= PEER_FAILURE_LIMIT
  {
  }

  /** Each sync round calls every peer once; a round reaches someone when one call succeeds. */
  predicate ReachesSomeone(rounds: seq<seq<bool>>, peers: nat) {
    forall round | round in rounds :: |round| == peers && true in round
  }

  function Flat(rounds: seq<seq<bool>>): seq<bool> {
    if rounds == [] then [] else Flat(rounds[..|rounds| - 1]) + rounds[|rounds| - 1]
  }

  lemma {:induction false} MissesOfConcat(a: seq<bool>, b: seq<bool>)
    ensures Misses(a + b) == if true in b then Misses(b) else Misses(a) + |b|
    ensures true in b ==> Misses(b) < |b|
  {
    if b == [] {
      assert a + b == a;
    } else {
      var b' := b[..|b| - 1];
      MissesOfConcat(a, b');
      assert (a + b)[..|a + b| - 1] == a + b';
      assert b == b' + [b[|b| - 1]];
    }
  }

  /** Across a round boundary at most 2 * (peers - 1) calls in a row miss. */
  lemma {:induction false} MissesAcrossRounds(rounds: seq<seq<bool>>, partial: seq<bool>, peers: nat)
    requires ReachesSomeone(rounds, peers) && |partial| <= peers
    requires |partial| == peers > 0 ==> true in partial
    ensures rounds != [] ==> Misses(Flat(rounds)) <= peers - 1
    ensures Misses(Flat(rounds) + partial) <= if peers == 0 then 0 else 2 * (peers - 1)
  {
    if rounds != [] {
      var round := rounds[|rounds| - 1];
      assert round in rounds;
      MissesOfConcat(Flat(rounds[..|rounds| - 1]), round);
    } else {
      assert Misses(Flat(rounds)) == 0;
    }
    MissesOfConcat(Flat(rounds), partial);
  }

  /** The peer calls of a run follow sync rounds that each reach someone, the last one perhaps
      still under way. */
  ghost predicate RunsInRounds(evs: seq<Event>, peers: nat) {
    forall n | 0 <= n <= |evs| :: exists rounds, partial ::
      IsRoundPrefix(PeerOutcomes(evs[..n]), rounds, partial, peers)
  }

  predicate IsRoundPrefix(outcomes: seq<bool>, rounds: seq<seq<bool>>, partial: seq<bool>, peers: nat) {
    && outcomes == Flat(rounds) + partial
    && ReachesSomeone(rounds, peers) && |partial| <= peers && (|partial| == peers > 0 ==> true in partial)
  }

  /** With at most three peers, reaching one peer per round is enough never to enter LOCAL mode,
      whatever else happens in between. */
  lemma ThreePeersNeverLocal(cfg: Config, evs: seq<Event>, peers: nat)
    requires peers <= 3 && RunsInRounds(evs, peers)
    ensures !After(cfg, START, evs).mode.Local?
  {
    forall n | 0 <= n <= |evs| ensures Misses(PeerOutcomes(evs[..n])) < PEER_FAILURE_LIMIT {
      var rounds, partial :| IsRoundPrefix(PeerOutcomes(evs[..n]), rounds, partial, peers);
      MissesAcrossRounds(rounds, partial, peers);
    }
    FewMissesNeverLocal(cfg, evs);
  }

  /** With more, two rounds that each reach someone can take a node in PEER mode to LOCAL. */
  lemma FourPeersMayGoLocal(cfg: Config, s: State, peers: nat)
    requires peers >= 4 && s.mode.Peer?
    ensures var first, second := [true] + AllFalse(peers - 1), AllFalse(peers - 1) + [true];
            && |first| == |second| == peers && true in first && true in second
            && After(cfg, s, Callbacks(first + second[..peers - 1])).mode.Local?
  {
    var first, second := [true] + AllFalse(peers - 1), AllFalse(peers - 1) + [true];
    var misses := AllFalse(2 * (peers - 1));
    assert first[0] && second[peers - 1];
    assert first + second[..peers - 1] == [true] + misses;
    assert Callbacks([true]) == [PeerSuccess];
    ReplyThenMisses(cfg, s, misses);
  }

  function AllFalse(n: nat): (bs: seq<bool>)
    ensures |bs| == n && true !in bs
  {
    seq(n, _ => false)
  }

  lemma ReplyThenMisses(cfg: Config, s: State, misses: seq<bool>)
    requires s.mode.Peer? && true !in misses && |misses| >= PEER_FAILURE_LIMIT
    ensures After(cfg, s, Callbacks([true] + misses)).mode.Local?
  {
    OneReply(cfg, s);
    CallbacksAppend([true], misses);
    AfterBoth(cfg, s, Callbacks([true]), Callbacks(misses));
    AllMisses(misses);
    PeerReachesLocal(cfg, s.(peerFailures := 0), Callbacks(misses));
  }

  lemma OneReply(cfg: Config, s: State)
    requires s.mode.Peer?
    ensures After(cfg, s, Callbacks([true])) == s.(peerFailures := 0)
  {
    assert Callbacks([true]) == [PeerSuccess];
    assert [PeerSuccess][..0] == [];
  }

  /** The callbacks that a sequence of peer calls makes. */
  function Callbacks(outcomes: seq<bool>): (evs: seq<Event>)
    ensures |evs| == |outcomes|
  {
    if outcomes == [] then []
    else Callbacks(outcomes[..|outcomes| - 1]) + [if outcomes[|outcomes| - 1] then PeerSuccess else PeerFailure]
  }

  lemma {:induction false} CallbacksAppend(a: seq<bool>, b: seq<bool>)
    ensures Callbacks(a + b) == Callbacks(a) + Callbacks(b)
  {
    if b == [] {
      assert a + b == a;
    } else {
      CallbacksAppend(a, b[..|b| - 1]);
      assert (a + b)[..|a + b| - 1] == a + b[..|b| - 1];
    }
  }

  lemma {:induction false} AllMisses(outcomes: seq<bool>)
    requires true !in outcomes
    ensures PeerFailures(Callbacks(outcomes)) == |outcomes| && NothingRecovers(Callbacks(outcomes))
  {
    if outcomes != [] {
      var pre := outcomes[..|outcomes| - 1];
      AllMisses(pre);
      assert outcomes[|outcomes| - 1] in outcomes;
      assert Callbacks(outcomes) == Callbacks(pre) + [PeerFailure];
      assert Callbacks(outcomes)[..|outcomes| - 1] == Callbacks(pre);
    }
  }
}
