/** The Redis circuit breaker (go-throttle/throttle/circuit_breaker.go and its TypeScript twin). */
module CircuitBreaker {

  datatype CircuitState = Closed | Open | HalfOpen

  datatype Circuit = Circuit(state: CircuitState, failureCount: int, lastFailure: real)

  /** `Read` is a call of the state getter, which may itself change the state. */
  datatype CircuitEvent = Success | Failure(now: real) | Reset | Read(now: real)

  datatype Settings = Settings(threshold: int, timeout: real)

  const INITIAL := Circuit(Closed, 0, 0.0)

  function CircuitStep(cfg: Settings, c: Circuit, ev: CircuitEvent): Circuit {
    match ev
    case Success => c.(state := Closed, failureCount := 0)
    case Reset => c.(state := Closed, failureCount := 0)
    case Failure(now) =>
      Circuit(if c.failureCount + 1 >= cfg.threshold then Open else c.state, c.failureCount + 1, now)
    case Read(now) =>
      if c.state.Open? && now - c.lastFailure >= cfg.timeout then c.(state := HalfOpen) else c
  }

  function CircuitAfter(cfg: Settings, h: seq<CircuitEvent>): Circuit {
    if h == [] then INITIAL else CircuitStep(cfg, CircuitAfter(cfg, h[..|h| - 1]), h[|h| - 1])
  }

  // ---------------------------------------------------------------------------------------------
  // The breaker as a function of its history
  // ---------------------------------------------------------------------------------------------

  /** Failures since the latest success or reset. */
  function Trailing(h: seq<CircuitEvent>): nat {
    if h == [] then 0
    else match h[|h| - 1]
         case Success => 0
         case Reset => 0
         case Failure(_) => Trailing(h[..|h| - 1]) + 1
         case Read(_) => Trailing(h[..|h| - 1])
  }

  function LastFailureTime(h: seq<CircuitEvent>): real {
    if h == [] then 0.0
    else if h[|h| - 1].Failure? then h[|h| - 1].now
    else LastFailureTime(h[..|h| - 1])
  }

  /** Some read since the latest failure found the timeout over. */
  predicate TimeoutSeen(cfg: Settings, h: seq<CircuitEvent>) {
    h != [] &&
    match h[|h| - 1]
    case Failure(_) => false
    case Read(now) => now - LastFailureTime(h) >= cfg.timeout || TimeoutSeen(cfg, h[..|h| - 1])
    case _ => TimeoutSeen(cfg, h[..|h| - 1])
  }

  /** A threshold of zero or less trips on the first failure, as a threshold of one does. */
  function Tripping(cfg: Settings): int {
    if cfg.threshold < 1 then 1 else cfg.threshold
  }

  /** Under any clock: closed exactly while fewer failures trail than the threshold, half-open
      exactly when a read since the latest failure saw the timeout over. */
  lemma {:induction false} CircuitIsItsHistory(cfg: Settings, h: seq<CircuitEvent>)
    ensures var c := CircuitAfter(cfg, h);
            && c.failureCount == Trailing(h)
            && c.lastFailure == LastFailureTime(h)
            && c.state == if Trailing(h) < Tripping(cfg) then Closed
                          else if TimeoutSeen(cfg, h) then HalfOpen else Open
  {
    if h != [] {
      CircuitIsItsHistory(cfg, h[..|h| - 1]);
    }
  }

  /** With a threshold of at least one, it is closed exactly below the threshold. */
  lemma ClosedBelowTheThreshold(cfg: Settings, h: seq<CircuitEvent>)
    requires cfg.threshold >= 1
    ensures CircuitAfter(cfg, h).state == Closed <==> Trailing(h) < cfg.threshold
  {
    CircuitIsItsHistory(cfg, h);
  }

  predicate ReadsUpTo(h: seq<CircuitEvent>, now: real) {
    forall ev | ev in h && ev.Read? :: ev.now <= now
  }

  lemma {:induction false} EarlierReadsSawLess(cfg: Settings, h: seq<CircuitEvent>, now: real)
    requires ReadsUpTo(h, now) && TimeoutSeen(cfg, h)
    ensures now - LastFailureTime(h) >= cfg.timeout
  {
    var pre, ev := h[..|h| - 1], h[|h| - 1];
    if !ev.Read? || ev.now - LastFailureTime(h) < cfg.timeout {
      EarlierReadsSawLess(cfg, pre, now);
    } else {
      assert ev in h;
    }
  }

  /** On a monotone clock the value a read returns depends on nothing but the trailing failures, the
      time of the latest one, and the reading. */
  lemma ReadIsAFunctionOfTheClock(cfg: Settings, h: seq<CircuitEvent>, now: real)
    requires ReadsUpTo(h, now)
    ensures CircuitAfter(cfg, h + [Read(now)]).state
         == if Trailing(h) < Tripping(cfg) then Closed
            else if now - LastFailureTime(h) >= cfg.timeout then HalfOpen else Open
  {
    var h' := h + [Read(now)];
    assert h'[..|h|] == h;
    CircuitIsItsHistory(cfg, h');
    if TimeoutSeen(cfg, h) {
      EarlierReadsSawLess(cfg, h, now);
    }
  }

  /** The TypeScript breaker also forgets the time of the latest failure on success and reset. */
  function ForgetfulStep(cfg: Settings, c: Circuit, ev: CircuitEvent): Circuit {
    var next := CircuitStep(cfg, c, ev);
    if ev.Success? || ev.Reset? then next.(lastFailure := 0.0) else next
  }

  function ForgetfulAfter(cfg: Settings, h: seq<CircuitEvent>): Circuit {
    if h == [] then INITIAL else ForgetfulStep(cfg, ForgetfulAfter(cfg, h[..|h| - 1]), h[|h| - 1])
  }

  /** Nobody can tell the two breakers apart. */
  lemma {:induction false} ForgettingIsInvisible(cfg: Settings, h: seq<CircuitEvent>)
    ensures ForgetfulAfter(cfg, h).state == CircuitAfter(cfg, h).state
    ensures ForgetfulAfter(cfg, h).failureCount == CircuitAfter(cfg, h).failureCount
    ensures Trailing(h) > 0 ==> ForgetfulAfter(cfg, h).lastFailure == CircuitAfter(cfg, h).lastFailure
  {
    if h != [] {
      ForgettingIsInvisible(cfg, h[..|h| - 1]);
      CircuitIsItsHistory(cfg, h[..|h| - 1]);
    }
  }

  // ---------------------------------------------------------------------------------------------
  // The Go breaker
  // ---------------------------------------------------------------------------------------------

  class CircuitBreaker {
    var state: CircuitState
    var failureCount: int
    var lastFailure: real
    const failureThreshold: int
    const resetTimeout: real
    ghost var history: seq<CircuitEvent>

    ghost function Config(): Settings {
      Settings(failureThreshold, resetTimeout)
    }

    ghost function Value(): Circuit
      reads this
    {
      Circuit(state, failureCount, lastFailure)
    }

    ghost predicate Valid()
      reads this
    {
      Value() == CircuitAfter(Config(), history)
    }

    constructor (failureThreshold: int, resetTimeout: real)
      ensures Valid() && history == [] && Value() == INITIAL
      ensures Config() == Settings(failureThreshold, resetTimeout)
    {
      this.failureThreshold, this.resetTimeout := failureThreshold, resetTimeout;
      state, failureCount, lastFailure := Closed, 0, 0.0;
      history := [];
    }

    ghost method Record(ev: CircuitEvent)
      modifies `history
      ensures history == old(history) + [ev]
      ensures CircuitAfter(Config(), history) == CircuitStep(Config(), CircuitAfter(Config(), old(history)), ev)
    {
      history := history + [ev];
      assert history[..|history| - 1] == old(history);
    }

    method State(now: real) returns (s: CircuitState)
      requires Valid()
      modifies this
      ensures Valid() && history == old(history) + [Read(now)] && s == state
      ensures Value() == CircuitStep(Config(), old(Value()), Read(now))
    {
      if state == Open && now - lastFailure >= resetTimeout {
        state := HalfOpen;
      }
      Record(Read(now));
      return state;
    }

    method RecordSuccess()
      requires Valid()
      modifies this
      ensures Valid() && history == old(history) + [Success]
      ensures Value() == CircuitStep(Config(), old(Value()), Success)
    {
      state := Closed;
      failureCount := 0;
      Record(Success);
    }

    method RecordFailure(now: real)
      requires Valid()
      modifies this
      ensures Valid() && history == old(history) + [Failure(now)]
      ensures Value() == CircuitStep(Config(), old(Value()), Failure(now))
    {
      failureCount := failureCount + 1;
      lastFailure := now;
      if failureCount >= failureThreshold && state != Open {
        state := Open;
      }
      Record(Failure(now));
    }

    method Reset()
      requires Valid()
      modifies this
      ensures Valid() && history == old(history) + [CircuitEvent.Reset]
      ensures Value() == CircuitStep(Config(), old(Value()), CircuitEvent.Reset)
    {
      state := Closed;
      failureCount := 0;
      Record(CircuitEvent.Reset);
    }
  }

  // ---------------------------------------------------------------------------------------------
  // The TypeScript breaker
  // ---------------------------------------------------------------------------------------------

  class CircuitBreakerService {
    var state: CircuitState
    var failureCount: int
    var lastFailureTime: real
    const failureThreshold: int
    const resetTimeout: real
    ghost var history: seq<CircuitEvent>

    ghost function Config(): Settings {
      Settings(failureThreshold, resetTimeout)
    }

    ghost function Value(): Circuit
      reads this
    {
      Circuit(state, failureCount, lastFailureTime)
    }

    ghost predicate Valid()
      reads this
    {
      Value() == ForgetfulAfter(Config(), history)
    }

    /** The Go breaker with the same history is in the same state. */
    lemma IsTheGoBreaker()
      requires Valid()
      ensures state == CircuitAfter(Config(), history).state
      ensures failureCount == CircuitAfter(Config(), history).failureCount == Trailing(history)
    {
      ForgettingIsInvisible(Config(), history);
      CircuitIsItsHistory(Config(), history);
    }

    constructor (failureThreshold: int, resetTimeout: real)
      ensures Valid() && history == [] && Value() == INITIAL
      ensures Config() == Settings(failureThreshold, resetTimeout)
    {
      this.failureThreshold, this.resetTimeout := failureThreshold, resetTimeout;
      state, failureCount, lastFailureTime := Closed, 0, 0.0;
      history := [];
    }

    ghost method Record(ev: CircuitEvent)
      modifies `history
      ensures history == old(history) + [ev]
      ensures ForgetfulAfter(Config(), history) == ForgetfulStep(Config(), ForgetfulAfter(Config(), old(history)), ev)
    {
      history := history + [ev];
      assert history[..|history| - 1] == old(history);
    }

    method State(now: real) returns (s: CircuitState)
      requires Valid()
      modifies this
      ensures Valid() && history == old(history) + [Read(now)]
      ensures Value() == ForgetfulStep(Config(), old(Value()), Read(now)) && s == state
    {
      if state == Open && now - lastFailureTime >= resetTimeout {
        state := HalfOpen;
      }
      Record(Read(now));
      return state;
    }

    method RecordSuccess()
      requires Valid()
      modifies this
      ensures Valid() && history == old(history) + [Success]
      ensures Value() == ForgetfulStep(Config(), old(Value()), Success)
    {
      failureCount := 0;
      lastFailureTime := 0.0;
      state := Closed;
      Record(Success);
    }

    method RecordFailure(now: real)
      requires Valid()
      modifies this
      ensures Valid() && history == old(history) + [Failure(now)]
      ensures Value() == ForgetfulStep(Config(), old(Value()), Failure(now))
    {
      failureCount := failureCount + 1;
      lastFailureTime := now;
      if failureCount >= failureThreshold {
        state := Open;
      }
      Record(Failure(now));
    }

    method Reset()
      requires Valid()
      modifies this
      ensures Valid() && history == old(history) + [CircuitEvent.Reset]
      ensures Value() == ForgetfulStep(Config(), old(Value()), CircuitEvent.Reset)
    {
      failureCount := 0;
      lastFailureTime := 0.0;
      state := Closed;
      Record(CircuitEvent.Reset);
    }
  }
}
