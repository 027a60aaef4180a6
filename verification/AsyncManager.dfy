/**
 The TypeScript manager (backend/src/throttle/throttle-manager.service.ts), split at its `await`
 points: any number of Redis calls and probes are in flight and resolve in any order. Between two
 awaits the code runs without interruption, so each event below is one synchronous block.
 */
module AsyncManager {
  import opened Numbers
  import opened Sequences
  import opened CircuitBreaker
  import ManagerModel
  import BucketStore
  import TokenBucket
  import TsLocalBucket

  datatype AsyncState = AsyncState(
    mode: ManagerModel.ThrottleMode, peerFailures: int, circuit: Circuit, flushing: bool,
    calls: nat, pings: nat, seedings: nat)

  /** `calls`, `pings` and `seedings` of the state count the continuations in flight. */
  datatype AsyncEvent =
    | BeginCheck(now: real)
    | CallAnswered
    | CallFailed(failed: real, reread: real)
    | BeginProbe
    | PingAnswered
    | PingFailed
    | SeedAnswered
    | SeedFailed
    | PeerFailure
    | PeerSuccess

  const START := AsyncState(ManagerModel.Redis, 0, INITIAL, false, 0, 0, 0)

  function Transition(s: AsyncState, mode: ManagerModel.ThrottleMode): AsyncState {
    if s.mode == mode then s else s.(mode := mode, flushing := mode.Local?)
  }

  predicate Enabled(s: AsyncState, ev: AsyncEvent) {
    match ev
    case CallAnswered => s.calls > 0
    case CallFailed(_, _) => s.calls > 0
    case PingAnswered => s.pings > 0
    case PingFailed => s.pings > 0
    case SeedAnswered => s.seedings > 0
    case SeedFailed => s.seedings > 0
    case _ => true
  }

  function Step(cfg: Settings, s: AsyncState, ev: AsyncEvent): AsyncState
    requires Enabled(s, ev)
  {
    match ev
    case BeginCheck(now) =>
      if !s.mode.Redis? then s
      else
        var c := ForgetfulStep(cfg, s.circuit, Read(now));
        if c.state.Open? then Transition(s.(circuit := c), ManagerModel.Peer)
        else s.(circuit := c, calls := s.calls + 1)
    case CallAnswered =>
      s.(circuit := ForgetfulStep(cfg, s.circuit, Success), peerFailures := 0, calls := s.calls - 1)
    case CallFailed(failed, reread) =>
      var c := ForgetfulStep(cfg, ForgetfulStep(cfg, s.circuit, Failure(failed)), Read(reread));
      var s' := s.(circuit := c, calls := s.calls - 1);
      if c.state.Open? then Transition(s', ManagerModel.Peer) else s'
    case BeginProbe => if s.mode.Redis? then s else s.(pings := s.pings + 1)
    case PingAnswered => s.(pings := s.pings - 1, seedings := s.seedings + 1)
    case PingFailed => s.(pings := s.pings - 1)
    case SeedAnswered =>
      Transition(s.(circuit := ForgetfulStep(cfg, s.circuit, Reset), seedings := s.seedings - 1), ManagerModel.Redis)
    case SeedFailed => s.(seedings := s.seedings - 1)
    case PeerFailure =>
      var s' := s.(peerFailures := s.peerFailures + 1);
      if s'.peerFailures >= ManagerModel.PEER_FAILURE_LIMIT && s'.mode.Peer?
      then Transition(s', ManagerModel.Local)
      else s'
    case PeerSuccess =>
      var s' := s.(peerFailures := 0);
      if s'.mode.Local? then Transition(s', ManagerModel.Peer) else s'
  }

  /** The state after an interleaving, if every event of it was possible. */
  function After(cfg: Settings, evs: seq<AsyncEvent>): Option<AsyncState> {
    if evs == [] then Some(START)
    else
      var before := After(cfg, Prefix(evs));
      if before.Some? && Enabled(before.value, Last(evs)) then Some(Step(cfg, before.value, Last(evs))) else None
  }

  predicate Possible(cfg: Settings, evs: seq<AsyncEvent>) {
    After(cfg, evs).Some?
  }

  lemma {:induction false} PrefixIsPossible(cfg: Settings, evs: seq<AsyncEvent>, n: nat)
    requires Possible(cfg, evs) && n <= |evs|
    ensures Possible(cfg, evs[..n])
  {
    if n == |evs| {
      assert evs[..n] == evs;
    } else {
      PrefixIsPossible(cfg, Prefix(evs), n);
      assert Prefix(evs)[..n] == evs[..n];
    }
  }

  /** The state at the boundary before event `n`. */
  function At(cfg: Settings, evs: seq<AsyncEvent>, n: nat): AsyncState
    requires Possible(cfg, evs) && n <= |evs|
  {
    PrefixIsPossible(cfg, evs, n);
    After(cfg, evs[..n]).value
  }

  lemma NextBoundary(cfg: Settings, evs: seq<AsyncEvent>, n: nat)
    requires Possible(cfg, evs) && n < |evs|
    ensures Possible(cfg, evs[..n]) && Enabled(At(cfg, evs, n), evs[n])
    ensures At(cfg, evs, n + 1) == Step(cfg, At(cfg, evs, n), evs[n])
  {
    PrefixIsPossible(cfg, evs, n);
    PrefixIsPossible(cfg, evs, n + 1);
    assert Prefix(evs[..n + 1]) == evs[..n];
  }

  // ---------------------------------------------------------------------------------------------
  // The circuit counts the failures of the interleaving
  // ---------------------------------------------------------------------------------------------

  /** Failed calls since the latest answered call or recovery, in the order of their resolution. */
  function Failures(evs: seq<AsyncEvent>): nat {
    if evs == [] then 0
    else
      match Last(evs)
      case CallFailed(_, _) => Failures(Prefix(evs)) + 1
      case CallAnswered => 0
      case SeedAnswered => 0
      case _ => Failures(Prefix(evs))
  }

  lemma {:induction false} CircuitCountsFailures(cfg: Settings, evs: seq<AsyncEvent>)
    requires Possible(cfg, evs)
    ensures var c := After(cfg, evs).value.circuit;
            c.failureCount == Failures(evs) && (c.state.Closed? <==> Failures(evs) < Tripping(cfg))
  {
    if evs != [] {
      CircuitCountsFailures(cfg, Prefix(evs));
    }
  }

  /** Event `n` is a failed call that trips the circuit, or finds it tripped. */
  predicate Trips(cfg: Settings, evs: seq<AsyncEvent>, n: nat)
    requires n < |evs|
  {
    evs[n].CallFailed? && Failures(evs[..n]) + 1 >= Tripping(cfg)
  }

  /** Missed peer calls since the latest answer of a peer or of Redis, in the order of their resolution. */
  function PeerMisses(evs: seq<AsyncEvent>): nat {
    if evs == [] then 0
    else
      match Last(evs)
      case PeerFailure => PeerMisses(Prefix(evs)) + 1
      case PeerSuccess => 0
      case CallAnswered => 0
      case _ => PeerMisses(Prefix(evs))
  }

  lemma {:induction false} CounterIsItsHistory(cfg: Settings, evs: seq<AsyncEvent>)
    requires Possible(cfg, evs)
    ensures After(cfg, evs).value.peerFailures == PeerMisses(evs)
  {
    if evs != [] {
      CounterIsItsHistory(cfg, Prefix(evs));
    }
  }

  /** From any state outside REDIS mode, a probe whose ping and seeding are answered leads back to it, over a
      closed circuit; it has to go through all three blocks. */
  lemma ProbeRecovers(cfg: Settings, s: AsyncState)
    requires !s.mode.Redis?
    ensures var pinging := Step(cfg, s, BeginProbe);
            && Enabled(pinging, PingAnswered) && pinging.mode == s.mode
            && var seeding := Step(cfg, pinging, PingAnswered);
               && Enabled(seeding, SeedAnswered) && seeding.mode == s.mode
               && var recovered := Step(cfg, seeding, SeedAnswered);
                  && recovered.mode.Redis? && recovered.circuit.state.Closed? && recovered.circuit.failureCount == 0
                  && !recovered.flushing && recovered.pings == s.pings && recovered.seedings == s.seedings
  {
  }

  // ---------------------------------------------------------------------------------------------
  // Safety at every await boundary
  // ---------------------------------------------------------------------------------------------

  /** The synchronous block ends before the reset timeout has passed. */
  predicate Prompt(cfg: Settings, ev: AsyncEvent) {
    ev.CallFailed? ==> ev.reread - ev.failed < cfg.timeout
  }

  predicate TripsArePrompt(cfg: Settings, evs: seq<AsyncEvent>) {
    forall n: nat | n < |evs| && Trips(cfg, evs, n) :: Prompt(cfg, evs[n])
  }

  predicate Safe(s: AsyncState) {
    && (s.mode.Redis? ==> s.circuit.state.Closed?)
    && !s.circuit.state.HalfOpen?
    && (s.flushing <==> s.mode.Local?)
  }

  ghost predicate AlwaysSafe(cfg: Settings, evs: seq<AsyncEvent>)
    requires Possible(cfg, evs)
  {
    forall n: nat | n <= |evs| :: Safe(At(cfg, evs, n))
  }

  /** What a block does to safety. */
  lemma OneBlock(cfg: Settings, evs: seq<AsyncEvent>, n: nat)
    requires Possible(cfg, evs) && n < |evs| && Safe(At(cfg, evs, n))
    ensures Safe(At(cfg, evs, n + 1)) <==> (Trips(cfg, evs, n) ==> Prompt(cfg, evs[n]))
  {
    NextBoundary(cfg, evs, n);
    CircuitCountsFailures(cfg, evs[..n]);
  }

  lemma {:induction false} SafeUpTo(cfg: Settings, evs: seq<AsyncEvent>, n: nat)
    requires Possible(cfg, evs) && TripsArePrompt(cfg, evs) && n <= |evs|
    ensures Safe(At(cfg, evs, n))
  {
    if n > 0 {
      SafeUpTo(cfg, evs, n - 1);
      OneBlock(cfg, evs, n - 1);
    }
  }

  /** At every await boundary of an interleaving REDIS mode implies a closed circuit, HALF_OPEN is not
      reached, and the flusher runs exactly in LOCAL mode, if and only if every failure that trips
      the circuit is handled within the reset timeout. */
  lemma InterleavingsAreSafeExactly(cfg: Settings, evs: seq<AsyncEvent>)
    requires Possible(cfg, evs)
    ensures AlwaysSafe(cfg, evs) <==> TripsArePrompt(cfg, evs)
  {
    if TripsArePrompt(cfg, evs) {
      forall n: nat | n <= |evs| ensures Safe(At(cfg, evs, n)) {
        SafeUpTo(cfg, evs, n);
      }
    }
    if AlwaysSafe(cfg, evs) {
      forall n: nat | n < |evs| && Trips(cfg, evs, n) ensures Prompt(cfg, evs[n]) {
        assert Safe(At(cfg, evs, n)) && Safe(At(cfg, evs, n + 1));
        OneBlock(cfg, evs, n);
      }
    }
  }

  // ---------------------------------------------------------------------------------------------
  // What late answers and late failures break, and when
  // ---------------------------------------------------------------------------------------------

  predicate ClosedInRedisOnly(s: AsyncState) {
    s.circuit.state.Closed? ==> s.mode.Redis?
  }

  ghost predicate AlwaysClosedInRedisOnly(cfg: Settings, evs: seq<AsyncEvent>)
    requires Possible(cfg, evs)
  {
    forall n: nat | n <= |evs| :: ClosedInRedisOnly(At(cfg, evs, n))
  }

  /** Event `n` is the answer to a call of earlier REDIS days. */
  predicate AnsweredOutsideRedis(cfg: Settings, evs: seq<AsyncEvent>, n: nat)
    requires Possible(cfg, evs) && n < |evs|
  {
    evs[n].CallAnswered? && !At(cfg, evs, n).mode.Redis?
  }

  lemma OneMoreAnswer(cfg: Settings, evs: seq<AsyncEvent>, n: nat)
    requires Possible(cfg, evs) && TripsArePrompt(cfg, evs) && n < |evs| && ClosedInRedisOnly(At(cfg, evs, n))
    ensures ClosedInRedisOnly(At(cfg, evs, n + 1)) <==> !AnsweredOutsideRedis(cfg, evs, n)
  {
    SafeUpTo(cfg, evs, n);
    SafeUpTo(cfg, evs, n + 1);
    NextBoundary(cfg, evs, n);
  }

  lemma {:induction false} ClosedInRedisUpTo(cfg: Settings, evs: seq<AsyncEvent>, n: nat)
    requires Possible(cfg, evs) && TripsArePrompt(cfg, evs) && n <= |evs|
    requires forall k: nat | k < |evs| :: !AnsweredOutsideRedis(cfg, evs, k)
    ensures ClosedInRedisOnly(At(cfg, evs, n))
  {
    if n > 0 {
      ClosedInRedisUpTo(cfg, evs, n - 1);
      OneMoreAnswer(cfg, evs, n - 1);
    }
  }

  /** A closed circuit implies REDIS mode at every boundary if and only if no call is answered in
      another mode. */
  lemma ClosedImpliesRedisExactly(cfg: Settings, evs: seq<AsyncEvent>)
    requires Possible(cfg, evs) && TripsArePrompt(cfg, evs)
    ensures AlwaysClosedInRedisOnly(cfg, evs) <==> forall n: nat | n < |evs| :: !AnsweredOutsideRedis(cfg, evs, n)
  {
    if AlwaysClosedInRedisOnly(cfg, evs) {
      forall n: nat | n < |evs| ensures !AnsweredOutsideRedis(cfg, evs, n) {
        assert ClosedInRedisOnly(At(cfg, evs, n)) && ClosedInRedisOnly(At(cfg, evs, n + 1));
        OneMoreAnswer(cfg, evs, n);
      }
    }
    if forall n: nat | n < |evs| :: !AnsweredOutsideRedis(cfg, evs, n) {
      forall n: nat | n <= |evs| ensures ClosedInRedisOnly(At(cfg, evs, n)) {
        ClosedInRedisUpTo(cfg, evs, n);
      }
    }
  }

  /** Event `n` takes the node out of LOCAL mode though neither a peer nor Redis has come back. */
  predicate LeavesLocalUnasked(cfg: Settings, evs: seq<AsyncEvent>, n: nat)
    requires Possible(cfg, evs) && n < |evs|
  {
    && At(cfg, evs, n).mode.Local? && !At(cfg, evs, n + 1).mode.Local?
    && !evs[n].PeerSuccess? && !evs[n].SeedAnswered?
  }

  /** A node leaves LOCAL mode unasked exactly where a call of earlier REDIS days fails, in LOCAL mode,
      with the failures at the threshold; it then is in PEER mode. */
  lemma LeavingLocalExactly(cfg: Settings, evs: seq<AsyncEvent>, n: nat)
    requires Possible(cfg, evs) && TripsArePrompt(cfg, evs) && n < |evs|
    ensures LeavesLocalUnasked(cfg, evs, n) <==> At(cfg, evs, n).mode.Local? && Trips(cfg, evs, n)
    ensures LeavesLocalUnasked(cfg, evs, n) ==> At(cfg, evs, n + 1).mode.Peer?
  {
    SafeUpTo(cfg, evs, n);
    NextBoundary(cfg, evs, n);
    CircuitCountsFailures(cfg, evs[..n]);
  }

  /** Where an interleaving changes the mode: into LOCAL at the fifth miss in a row or later, in PEER mode;
      out of it where a peer answers, a warm-up goes through or a late failure trips; into REDIS where a
      warm-up goes through; out of it where a failure trips the circuit. */
  lemma ModeChangesExactly(cfg: Settings, evs: seq<AsyncEvent>, n: nat)
    requires Possible(cfg, evs) && TripsArePrompt(cfg, evs) && n < |evs|
    ensures var before, after := At(cfg, evs, n).mode, At(cfg, evs, n + 1).mode;
            && (!before.Local? && after.Local? <==>
                  before.Peer? && evs[n].PeerFailure? && PeerMisses(evs[..n + 1]) >= 5)
            && (before.Local? && !after.Local? <==>
                  before.Local? && (evs[n].PeerSuccess? || evs[n].SeedAnswered? || Trips(cfg, evs, n)))
            && (!before.Redis? && after.Redis? <==> !before.Redis? && evs[n].SeedAnswered?)
            && (before.Redis? && !after.Redis? <==> before.Redis? && Trips(cfg, evs, n))
  {
    SafeUpTo(cfg, evs, n);
    NextBoundary(cfg, evs, n);
    CircuitCountsFailures(cfg, evs[..n]);
    CounterIsItsHistory(cfg, evs[..n]);
    assert Prefix(evs[..n + 1]) == evs[..n] && Last(evs[..n + 1]) == evs[n];
  }

  // ---------------------------------------------------------------------------------------------
  // Both happen
  // ---------------------------------------------------------------------------------------------

  predicate Reaches(cfg: Settings, evs: seq<AsyncEvent>, s: AsyncState) {
    After(cfg, evs) == Some(s) && forall ev | ev in evs :: Prompt(cfg, ev)
  }

  lemma Then(cfg: Settings, evs: seq<AsyncEvent>, s: AsyncState, ev: AsyncEvent)
    requires Reaches(cfg, evs, s) && Enabled(s, ev) && Prompt(cfg, ev)
    ensures Reaches(cfg, evs + [ev], Step(cfg, s, ev))
  {
    assert Prefix(evs + [ev]) == evs;
  }

  lemma {:induction false} ManyChecks(cfg: Settings, n: nat) returns (evs: seq<AsyncEvent>)
    ensures Reaches(cfg, evs, START.(calls := n))
  {
    if n == 0 {
      evs := [];
    } else {
      evs := ManyChecks(cfg, n - 1);
      Then(cfg, evs, START.(calls := n - 1), BeginCheck(0.0));
      evs := evs + [BeginCheck(0.0)];
    }
  }

  lemma {:induction false} ManyFailures(cfg: Settings, n: nat, left: nat) returns (evs: seq<AsyncEvent>)
    requires n < cfg.threshold && cfg.timeout > 0.0
    ensures Reaches(cfg, evs, START.(calls := left, circuit := Circuit(Closed, n, 0.0)))
  {
    if n == 0 {
      evs := ManyChecks(cfg, left);
    } else {
      evs := ManyFailures(cfg, n - 1, left + 1);
      Then(cfg, evs, START.(calls := left + 1, circuit := Circuit(Closed, n - 1, 0.0)), CallFailed(0.0, 0.0));
      evs := evs + [CallFailed(0.0, 0.0)];
    }
  }

  lemma {:induction false} ManyMisses(cfg: Settings, n: nat) returns (evs: seq<AsyncEvent>)
    requires cfg.threshold >= 1 && cfg.timeout > 0.0 && n < ManagerModel.PEER_FAILURE_LIMIT
    ensures Reaches(cfg, evs, AsyncState(ManagerModel.Peer, n, Circuit(Open, cfg.threshold, 0.0), false, 1, 0, 0))
  {
    if n == 0 {
      evs := ManyFailures(cfg, cfg.threshold - 1, 2);
      Then(cfg, evs, START.(calls := 2, circuit := Circuit(Closed, cfg.threshold - 1, 0.0)), CallFailed(0.0, 0.0));
      evs := evs + [CallFailed(0.0, 0.0)];
    } else {
      evs := ManyMisses(cfg, n - 1);
      Then(cfg, evs, AsyncState(ManagerModel.Peer, n - 1, Circuit(Open, cfg.threshold, 0.0), false, 1, 0, 0),
           PeerFailure);
      evs := evs + [PeerFailure];
    }
  }

  /** LOCAL mode with the circuit open and one Redis call of the REDIS days still in flight. */
  function LocalWithACallInFlight(cfg: Settings): AsyncState {
    AsyncState(ManagerModel.Local, 5, Circuit(Open, cfg.threshold, 0.0), true, 1, 0, 0)
  }

  lemma ACallMayOutliveTheModes(cfg: Settings) returns (evs: seq<AsyncEvent>)
    requires cfg.threshold >= 1 && cfg.timeout > 0.0
    ensures Reaches(cfg, evs, LocalWithACallInFlight(cfg))
  {
    evs := ManyMisses(cfg, 4);
    Then(cfg, evs, AsyncState(ManagerModel.Peer, 4, Circuit(Open, cfg.threshold, 0.0), false, 1, 0, 0), PeerFailure);
    evs := evs + [PeerFailure];
  }

  /** The converse of the REDIS-closed implication fails: a late answer closes the circuit, and
      clears the peer failures, while the node stays in LOCAL mode. */
  lemma LateAnswerClosesTheCircuitInLocal(cfg: Settings)
    requires cfg.threshold >= 1 && cfg.timeout > 0.0
    ensures exists evs, s :: Reaches(cfg, evs, s) && s.mode.Local? && s.circuit.state.Closed? && s.peerFailures == 0
  {
    var evs := ACallMayOutliveTheModes(cfg);
    Then(cfg, evs, LocalWithACallInFlight(cfg), CallAnswered);
  }

  /** A late failure takes a node from LOCAL back to PEER though no peer has answered. */
  lemma LateFailureLeavesLocal(cfg: Settings)
    requires cfg.threshold >= 1 && cfg.timeout > 0.0
    ensures exists evs, s :: Reaches(cfg, evs, s) && s.mode.Peer? && s.peerFailures >= ManagerModel.PEER_FAILURE_LIMIT
  {
    var evs := ACallMayOutliveTheModes(cfg);
    Then(cfg, evs, LocalWithACallInFlight(cfg), CallFailed(0.0, 0.0));
  }

  // ---------------------------------------------------------------------------------------------
  // The manager's synchronous blocks
  // ---------------------------------------------------------------------------------------------

  datatype CheckResult = CheckResult(result: TsLocalBucket.ThrottleResult, mode: ManagerModel.ThrottleMode,
                                     entityId: string)

  /** The result of a call to the in-memory bucket that turned `before` into `after`. */
  ghost predicate FromBucket(r: TsLocalBucket.ThrottleResult, p: TokenBucket.Params, before: TokenBucket.Slot,
                             after: TokenBucket.Slot, now: real, cost: int, limit: int) {
    && p.rate > 0.0
    && after == TokenBucket.Step(p, before, TokenBucket.Call(now, cost, limit))
    && r.allowed == TokenBucket.Admits(p, before, now, cost, limit)
    && r.remaining == after.value.tokens.Floor
    && r.resetAt
       == TsLocalBucket.EarnedAt(p.rate, now, (if r.allowed then limit else cost) as real - after.value.tokens)
  }

  /** A local answer: the decision on what the bucket holds, the whole tokens that are left in it, and the
      first whole second that would change the answer. */
  lemma LocalAnswerIsTrue(r: TsLocalBucket.ThrottleResult, p: TokenBucket.Params, before: TokenBucket.Slot,
                          after: TokenBucket.Slot, now: real, cost: int, limit: int)
    requires FromBucket(r, p, before, after, now, cost, limit) && cost >= 0 && p.clamped
    ensures var level := TokenBucket.Level(p, before, now, limit);
            && (r.allowed <==> cost as real <= level)
            && after == Some(TokenBucket.Entry(if r.allowed then level - cost as real else level, now))
            && r.remaining as real <= after.value.tokens < r.remaining as real + 1.0
            && TsLocalBucket.TellsWhen(p, after.value, cost, limit, r.allowed, r.resetAt)
  {
    TsLocalBucket.ResetIsExact(p, after.value, cost, limit, r.allowed);
  }

  class ThrottleManagerService {
    var mode: ManagerModel.ThrottleMode
    var peerFailures: int
    var flushTimer: bool
    const globalLimit: int
    const nodeCount: int
    const circuit: CircuitBreakerService
    const localBucket: TsLocalBucket.LocalBucketFallback

    ghost var calls: nat
    ghost var pings: nat
    ghost var seedings: nat

    /** The synchronous blocks run so far. */
    ghost var history: seq<AsyncEvent>

    ghost function Now(): AsyncState
      reads this, circuit
    {
      AsyncState(mode, peerFailures, circuit.Value(), flushTimer, calls, pings, seedings)
    }

    ghost function Bucket(id: string): TokenBucket.Slot
      reads localBucket
    {
      BucketStore.Lookup(localBucket.buckets, id)
    }

    ghost predicate Wired()
      reads circuit, localBucket
    {
      nodeCount > 0 && circuit.Valid() && localBucket.Valid()
    }

    ghost predicate Valid()
      reads this, circuit, localBucket
    {
      Wired() && After(circuit.Config(), history) == Some(Now())
    }

    /** The invariant of the interleavings, on the fields. */
    lemma InvariantHolds()
      requires Valid() && TripsArePrompt(circuit.Config(), history)
      ensures mode == ManagerModel.Redis ==> circuit.Value().state == Closed
      ensures circuit.Value().state != HalfOpen
      ensures circuit.Value().state == Closed <==> Failures(history) < Tripping(circuit.Config())
      ensures flushTimer <==> mode == ManagerModel.Local
    {
      SafeUpTo(circuit.Config(), history, |history|);
      CircuitCountsFailures(circuit.Config(), history);
      assert history[..|history|] == history;
    }

    ghost method Record(before: AsyncState, ev: AsyncEvent)
      requires Wired() && After(circuit.Config(), history) == Some(before)
      requires Enabled(before, ev) && Now() == Step(circuit.Config(), before, ev)
      modifies `history
      ensures Valid() && history == old(history) + [ev]
    {
      assert Prefix(history + [ev]) == history;
      history := history + [ev];
    }

    constructor (globalLimit: int, nodeCount: int, circuit: CircuitBreakerService,
                 localBucket: TsLocalBucket.LocalBucketFallback)
      requires nodeCount > 0 && localBucket.Valid() && circuit.Valid() && circuit.Value() == INITIAL
      ensures Valid() && Now() == START && history == []
      ensures this.globalLimit == globalLimit && this.nodeCount == nodeCount
      ensures this.circuit == circuit && this.localBucket == localBucket
    {
      mode, peerFailures, flushTimer := ManagerModel.Redis, 0, false;
      this.globalLimit, this.nodeCount, this.circuit, this.localBucket := globalLimit, nodeCount, circuit, localBucket;
      calls, pings, seedings, history := 0, 0, 0, [];
    }

    method CheckViaLocal(entityId: string, cost: int, limit: int, now: real) returns (r: CheckResult)
      requires Wired()
      modifies localBucket
      ensures Wired() && localBucket.log == old(localBucket.log) + [BucketStore.Consume(entityId, now, cost, limit)]
      ensures FromBucket(r.result, localBucket.P(), old(Bucket(entityId)), Bucket(entityId), now, cost, limit)
      ensures r.mode == mode && r.entityId == entityId
    {
      var result := localBucket.Consume(entityId, cost, limit, now);
      return CheckResult(result, mode, entityId);
    }

    /** From the call of `check` to its first await; `read` is the circuit's clock, `now` the bucket's.
        No result: the request waits for Redis. */
    method BeginCheck(entityId: string, cost: int, read: real, now: real) returns (r: Option<CheckResult>)
      requires Valid()
      modifies this, circuit, localBucket
      ensures Valid() && history == old(history) + [AsyncEvent.BeginCheck(read)]
      ensures Now() == Step(circuit.Config(), old(Now()), AsyncEvent.BeginCheck(read))
      ensures r.None? <==> calls == old(calls) + 1
      ensures r.None? ==> localBucket.log == old(localBucket.log)
      ensures r.Some? ==>
                var limit := if old(mode).Local? then globalLimit / nodeCount else globalLimit;
                && localBucket.log == old(localBucket.log) + [BucketStore.Consume(entityId, now, cost, limit)]
                && FromBucket(r.value.result, localBucket.P(), old(Bucket(entityId)), Bucket(entityId), now, cost,
                              limit)
                && r.value.mode == mode && r.value.entityId == entityId
    {
      match mode {
        case Redis => r := CheckViaRedis(entityId, cost, read, now);
        case Peer =>
          var result := CheckViaLocal(entityId, cost, globalLimit, now);
          r := Some(result);
        case Local =>
          var result := CheckViaLocal(entityId, cost, globalLimit / nodeCount, now);
          r := Some(result);
      }
      Record(old(Now()), AsyncEvent.BeginCheck(read));
    }

    /** In REDIS mode. */
    method CheckViaRedis(entityId: string, cost: int, read: real, now: real) returns (r: Option<CheckResult>)
      requires Wired() && mode == ManagerModel.Redis
      modifies `mode, `flushTimer, `calls, circuit, localBucket
      ensures Wired() && Now() == Step(circuit.Config(), old(Now()), AsyncEvent.BeginCheck(read))
      ensures r.None? <==> calls == old(calls) + 1
      ensures r.None? ==> localBucket.log == old(localBucket.log)
      ensures r.Some? ==>
                && localBucket.log == old(localBucket.log) + [BucketStore.Consume(entityId, now, cost, globalLimit)]
                && FromBucket(r.value.result, localBucket.P(), old(Bucket(entityId)), Bucket(entityId), now, cost,
                              globalLimit)
                && r.value.mode == mode && r.value.entityId == entityId
    {
      var state := circuit.State(read);
      if state != Open {
        calls := calls + 1;
        return None;
      }
      TransitionTo(ManagerModel.Peer);
      var result := CheckViaLocal(entityId, cost, globalLimit, now);
      return Some(result);
    }

    /** Redis has answered a waiting request. */
    method CallAnswered(entityId: string, result: TsLocalBucket.ThrottleResult) returns (r: CheckResult)
      requires Valid() && calls > 0
      modifies this, circuit
      ensures Valid() && history == old(history) + [AsyncEvent.CallAnswered]
      ensures Now() == Step(circuit.Config(), old(Now()), AsyncEvent.CallAnswered)
      ensures r == CheckResult(result, ManagerModel.Redis, entityId)
    {
      calls := calls - 1;
      circuit.RecordSuccess();
      peerFailures := 0;
      Record(old(Now()), AsyncEvent.CallAnswered);
      return CheckResult(result, ManagerModel.Redis, entityId);
    }

    /** Redis has failed a waiting request, which is then served from the local bucket under the
        global limit, whatever the mode is by now. */
    method CallFailed(entityId: string, cost: int, failed: real, reread: real, now: real) returns (r: CheckResult)
      requires Valid() && calls > 0
      modifies this, circuit, localBucket
      ensures Valid() && history == old(history) + [AsyncEvent.CallFailed(failed, reread)]
      ensures Now() == Step(circuit.Config(), old(Now()), AsyncEvent.CallFailed(failed, reread))
      ensures localBucket.log == old(localBucket.log) + [BucketStore.Consume(entityId, now, cost, globalLimit)]
      ensures FromBucket(r.result, localBucket.P(), old(Bucket(entityId)), Bucket(entityId), now, cost, globalLimit)
      ensures r.mode == mode && r.entityId == entityId
    {
      HandleRedisError(failed, reread);
      r := CheckViaLocal(entityId, cost, globalLimit, now);
      Record(old(Now()), AsyncEvent.CallFailed(failed, reread));
    }

    method HandleRedisError(failed: real, reread: real)
      requires circuit.Valid() && calls > 0
      modifies `mode, `flushTimer, `calls, circuit
      ensures circuit.Valid() && Now() == Step(circuit.Config(), old(Now()), AsyncEvent.CallFailed(failed, reread))
    {
      calls := calls - 1;
      circuit.RecordFailure(failed);
      var state := circuit.State(reread);
      if state == Open {
        TransitionTo(ManagerModel.Peer);
      }
    }

    method BeginProbe()
      requires Valid()
      modifies this
      ensures Valid() && history == old(history) + [AsyncEvent.BeginProbe]
      ensures Now() == Step(circuit.Config(), old(Now()), AsyncEvent.BeginProbe)
      ensures pings == old(pings) + if mode == ManagerModel.Redis then 0 else 1
    {
      if mode != ManagerModel.Redis {
        pings := pings + 1;
      }
      Record(old(Now()), AsyncEvent.BeginProbe);
    }

    /** The ping has answered: take the snapshot that the warm-up will seed. */
    method PingAnswered(now: real) returns (snapshot: map<string, real>)
      requires Valid() && pings > 0
      modifies this, localBucket
      ensures Valid() && history == old(history) + [AsyncEvent.PingAnswered]
      ensures Now() == Step(circuit.Config(), old(Now()), AsyncEvent.PingAnswered)
      ensures localBucket.log == old(localBucket.log) + [BucketStore.Snapshot(now)]
      ensures forall id ::
                id in snapshot <==>
                id in old(localBucket.buckets) && now - old(localBucket.buckets)[id].lastRefill < 3600000.0
      ensures forall id | id in snapshot :: snapshot[id] == old(localBucket.buckets)[id].tokens
    {
      pings, seedings := pings - 1, seedings + 1;
      snapshot := localBucket.GetSnapshot(now);
      Record(old(Now()), AsyncEvent.PingAnswered);
    }

    method PingFailed()
      requires Valid() && pings > 0
      modifies this
      ensures Valid() && history == old(history) + [AsyncEvent.PingFailed]
      ensures Now() == Step(circuit.Config(), old(Now()), AsyncEvent.PingFailed)
    {
      pings := pings - 1;
      Record(old(Now()), AsyncEvent.PingFailed);
    }

    /** The warm-up has gone through. */
    method SeedAnswered()
      requires Valid() && seedings > 0
      modifies this, circuit
      ensures Valid() && history == old(history) + [AsyncEvent.SeedAnswered]
      ensures Now() == Step(circuit.Config(), old(Now()), AsyncEvent.SeedAnswered)
    {
      seedings := seedings - 1;
      circuit.Reset();
      TransitionTo(ManagerModel.Redis);
      Record(old(Now()), AsyncEvent.SeedAnswered);
    }

    method SeedFailed()
      requires Valid() && seedings > 0
      modifies this
      ensures Valid() && history == old(history) + [AsyncEvent.SeedFailed]
      ensures Now() == Step(circuit.Config(), old(Now()), AsyncEvent.SeedFailed)
    {
      seedings := seedings - 1;
      Record(old(Now()), AsyncEvent.SeedFailed);
    }

    method RecordPeerFailure()
      requires Valid()
      modifies this
      ensures Valid() && history == old(history) + [PeerFailure]
      ensures Now() == Step(circuit.Config(), old(Now()), PeerFailure)
    {
      peerFailures := peerFailures + 1;
      if peerFailures >= 5 && mode == ManagerModel.Peer {
        TransitionTo(ManagerModel.Local);
      }
      Record(old(Now()), PeerFailure);
    }

    method RecordPeerSuccess()
      requires Valid()
      modifies this
      ensures Valid() && history == old(history) + [PeerSuccess]
      ensures Now() == Step(circuit.Config(), old(Now()), PeerSuccess)
    {
      peerFailures := 0;
      if mode == ManagerModel.Local {
        TransitionTo(ManagerModel.Peer);
      }
      Record(old(Now()), PeerSuccess);
    }

    method TransitionTo(newMode: ManagerModel.ThrottleMode)
      modifies `mode, `flushTimer
      ensures Now() == Transition(old(Now()), newMode)
    {
      if mode == newMode {
        return;
      }
      mode := newMode;
      if newMode == ManagerModel.Local {
        StartFlush();
      } else {
        StopFlush();
      }
    }

    /** The flusher's timer. */
    method StartFlush()
      modifies `flushTimer
      ensures flushTimer
    {
      if flushTimer {
        return;
      }
      flushTimer := true;
    }

    method StopFlush()
      modifies `flushTimer
      ensures !flushTimer
    {
      if !flushTimer {
        return;
      }
      flushTimer := false;
    }
  }
}
