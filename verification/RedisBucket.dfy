/**
 The token bucket kept in Redis (go-throttle/throttle/token_bucket_redis.go and its TypeScript
 twin). The Lua script reads the clock of its caller, so `now` may go backwards between calls.
 */
module RedisBucket {
  import opened Numbers
  import opened Sequences
  import opened TokenBucket

  /** What can happen to one key. `Expire` is the server dropping an idle key. */
  datatype KeyEvent =
    | Eval(now: real, cost: int)
    | Seed(level: real, now: real)
    | Expire

  function Lua(rate: real): Params {
    Params(rate, true, Never)
  }

  function KeyStep(rate: real, limit: int, slot: Slot, ev: KeyEvent): Slot {
    match ev
    case Eval(now, cost) => Step(Lua(rate), slot, Call(now, cost, limit))
    case Seed(level, now) => Some(Entry(level, now))
    case Expire => None
  }

  function KeyCharge(rate: real, limit: int, slot: Slot, ev: KeyEvent): int {
    if ev.Eval? then Charge(Lua(rate), slot, Call(ev.now, ev.cost, limit)) else 0
  }

  // ---------------------------------------------------------------------------------------------
  // The store
  // ---------------------------------------------------------------------------------------------

  datatype ConsumeResult = ConsumeResult(allowed: bool, remaining: int, resetAt: real)

  /** What reaches the server: a run of the script, a pipeline that overwrites keys, the server's own
      removal of a key, and time on the server's own clock. */
  datatype Command =
    | Script(id: string, limit: int, rate: real, now: real, cost: int)
    | Write(levels: map<string, real>, now: real)
    | Remove(id: string)
    | Tick(to: real)

  /** What a command makes of one key. */
  function CommandStep(slot: Slot, c: Command, id: string): Slot {
    match c
    case Script(other, limit, rate, now, cost) =>
      if other == id then KeyStep(rate, limit, slot, Eval(now, cost)) else slot
    case Write(levels, now) => if id in levels then Some(Entry(levels[id], now)) else slot
    case Remove(other) => if other == id then None else slot
    case Tick(_) => slot
  }

  function KeyAfter(log: seq<Command>, id: string): Slot {
    if log == [] then None else CommandStep(KeyAfter(Prefix(log), id), Last(log), id)
  }

  function ClockAfter(start: real, log: seq<Command>): real {
    if log == [] then start else if Last(log).Tick? then Last(log).to else ClockAfter(start, Prefix(log))
  }

  /** Every write gives a key an hour. */
  function DeadlineAfter(start: real, log: seq<Command>, id: string): Option<real> {
    if log == [] then None
    else
      var before := DeadlineAfter(start, Prefix(log), id);
      match Last(log)
      case Script(other, _, _, _, _) => if other == id then Some(ClockAfter(start, Prefix(log)) + TTL) else before
      case Write(levels, _) => if id in levels then Some(ClockAfter(start, Prefix(log)) + TTL) else before
      case Remove(other) => if other == id then None else before
      case Tick(_) => before
  }

  /** The server removes a key from its deadline on only, and its clock goes forward. */
  predicate Lawful(start: real, log: seq<Command>) {
    log == [] ||
    (&& Lawful(start, Prefix(log))
     && (Last(log).Remove? ==>
           var deadline := DeadlineAfter(start, Prefix(log), Last(log).id);
           deadline.Some? && deadline.value <= ClockAfter(start, Prefix(log)))
     && (Last(log).Tick? ==> ClockAfter(start, Prefix(log)) <= Last(log).to))
  }

  lemma OneMoreWrite(start: real, log: seq<Command>, levels: map<string, real>, now: real)
    requires Lawful(start, log)
    ensures var longer := log + [Write(levels, now)];
            && Lawful(start, longer) && ClockAfter(start, longer) == ClockAfter(start, log)
            && (forall id ::
                  KeyAfter(longer, id) == if id in levels then Some(Entry(levels[id], now)) else KeyAfter(log, id))
            && (forall id ::
                  DeadlineAfter(start, longer, id)
                  == if id in levels then Some(ClockAfter(start, log) + TTL) else DeadlineAfter(start, log, id))
  {
    assert Prefix(log + [Write(levels, now)]) == log;
  }

  /** The keys all nodes share, and the times of the server's own clock at which they expire. */
  class RedisServer {
    var keys: map<string, Entry>
    var expireAt: map<string, real>
    var clock: real

    ghost const start: real
    ghost var log: seq<Command>

    ghost predicate Valid()
      reads this
    {
      && clock == ClockAfter(start, log) && Lawful(start, log)
      && forall id :: KeyIsLogged(id)
    }

    ghost predicate KeyIsLogged(id: string)
      reads this
    {
      Slot(id) == KeyAfter(log, id) && Deadline(id) == DeadlineAfter(start, log, id)
    }

    ghost function Slot(id: string): Slot
      reads this
    {
      if id in keys then Some(keys[id]) else None
    }

    ghost function Deadline(id: string): Option<real>
      reads this
    {
      if id in expireAt then Some(expireAt[id]) else None
    }

    constructor (clock: real)
      ensures Valid() && keys == map[] && expireAt == map[] && this.clock == clock && log == []
    {
      keys, expireAt := map[], map[];
      this.clock, this.start, this.log := clock, clock, [];
    }

    /** The log of a server whose keys and clock already show what `c` has done. */
    ghost method Record(c: Command)
      requires Lawful(start, log + [c]) && clock == ClockAfter(start, log + [c])
      requires forall id :: Slot(id) == KeyAfter(log + [c], id) && Deadline(id) == DeadlineAfter(start, log + [c], id)
      modifies `log
      ensures Valid() && log == old(log) + [c]
    {
      log := log + [c];
    }

    method Tick(to: real)
      requires Valid() && clock <= to
      modifies `clock, `log
      ensures Valid() && log == old(log) + [Command.Tick(to)] && clock == to
    {
      clock := to;
      assert Prefix(log + [Command.Tick(to)]) == log;
      forall id ensures Slot(id) == KeyAfter(log, id) && Deadline(id) == DeadlineAfter(start, log, id) {
        assert old(KeyIsLogged(id));
      }
      Record(Command.Tick(to));
    }

    /** The server may drop a key at any time from its deadline on. */
    method Drop(id: string)
      requires Valid() && Deadline(id).Some? && Deadline(id).value <= clock
      modifies `keys, `expireAt, `log
      ensures Valid() && log == old(log) + [Remove(id)]
      ensures Slot(id) == KeyStep(0.0, 0, old(Slot(id)), Expire) && Deadline(id) == None
      ensures forall other | other != id :: Slot(other) == old(Slot(other)) && Deadline(other) == old(Deadline(other))
    {
      assert KeyIsLogged(id);
      keys, expireAt := keys - {id}, expireAt - {id};
      assert Prefix(log + [Remove(id)]) == log;
      forall other | other != id
        ensures Slot(other) == KeyAfter(log, other) && Deadline(other) == DeadlineAfter(start, log, other)
      {
        assert old(KeyIsLogged(other));
      }
      Record(Remove(id));
    }

    /** The Lua script, under the caller's clock. */
    method RunScript(id: string, limit: int, refillRate: real, now: real, cost: int)
        returns (allowed: bool, remaining: int)
      requires Valid()
      modifies `keys, `expireAt, `log
      ensures Valid() && log == old(log) + [Script(id, limit, refillRate, now, cost)]
      ensures Slot(id) == KeyStep(refillRate, limit, old(Slot(id)), Eval(now, cost))
      ensures Deadline(id) == Some(clock + 3600000.0)
      ensures forall other | other != id :: Slot(other) == old(Slot(other)) && Deadline(other) == old(Deadline(other))
      ensures allowed == Admits(Lua(refillRate), old(Slot(id)), now, cost, limit)
      ensures id in keys && remaining == keys[id].tokens.Floor
    {
      assert KeyIsLogged(id);
      allowed, remaining := RunLua(id, limit, refillRate, now, cost);
      var c := Script(id, limit, refillRate, now, cost);
      assert Prefix(log + [c]) == log;
      forall other | other != id
        ensures Slot(other) == KeyAfter(log, other) && Deadline(other) == DeadlineAfter(start, log, other)
      {
        assert old(KeyIsLogged(other));
      }
      Record(c);
    }

    method RunLua(id: string, limit: int, refillRate: real, now: real, cost: int)
        returns (allowed: bool, remaining: int)
      modifies `keys, `expireAt
      ensures Slot(id) == KeyStep(refillRate, limit, old(Slot(id)), Eval(now, cost))
      ensures Deadline(id) == Some(clock + 3600000.0)
      ensures forall other | other != id :: Slot(other) == old(Slot(other)) && Deadline(other) == old(Deadline(other))
      ensures allowed == Admits(Lua(refillRate), old(Slot(id)), now, cost, limit)
      ensures id in keys && remaining == keys[id].tokens.Floor
    {
      var tokens, lastRefill := limit as real, now;
      if id in keys {
        tokens, lastRefill := keys[id].tokens, keys[id].lastRefill;
      }
      var elapsed := if now - lastRefill < 0.0 then 0.0 else now - lastRefill;
      tokens := Min(limit as real, tokens + Earned(refillRate, elapsed));
      allowed := false;
      remaining := tokens.Floor;
      if tokens >= cost as real {
        tokens := tokens - cost as real;
        remaining := tokens.Floor;
        allowed := true;
      }
      keys := keys[id := Entry(tokens, now)];
      expireAt := expireAt[id := clock + TTL];
    }

    /** A pipeline that overwrites one key per entity of `levels`. */
    method Overwrite(levels: map<string, real>, now: real)
      requires Valid()
      modifies `keys, `expireAt, `log
      ensures Valid() && log == old(log) + [Write(levels, now)]
      ensures forall id :: Slot(id) == if id in levels then Some(Entry(levels[id], now)) else old(Slot(id))
      ensures forall id :: Deadline(id) == if id in levels then Some(clock + 3600000.0) else old(Deadline(id))
    {
      SetAll(levels, now);
      OneMoreWrite(start, log, levels, now);
      forall id
        ensures Slot(id) == KeyAfter(log + [Write(levels, now)], id)
        ensures Deadline(id) == DeadlineAfter(start, log + [Write(levels, now)], id)
      {
        assert old(KeyIsLogged(id));
      }
      Record(Write(levels, now));
    }

    method SetAll(levels: map<string, real>, now: real)
      modifies `keys, `expireAt
      ensures forall id :: Slot(id) == if id in levels then Some(Entry(levels[id], now)) else old(Slot(id))
      ensures forall id :: Deadline(id) == if id in levels then Some(clock + 3600000.0) else old(Deadline(id))
    {
      var todo := levels.Keys;
      while todo != {}
        invariant todo <= levels.Keys
        invariant forall id ::
                    Slot(id) == if id in levels && id !in todo then Some(Entry(levels[id], now)) else old(Slot(id))
        invariant forall id ::
                    Deadline(id) == if id in levels && id !in todo then Some(clock + 3600000.0) else old(Deadline(id))
        decreases todo
      {
        var id :| id in todo;
        todo := todo - {id};
        keys := keys[id := Entry(levels[id], now)];
        expireAt := expireAt[id := clock + TTL];
      }
    }
  }

  function WholeTokens(snap: map<string, real>): map<string, real> {
    map id | id in snap :: snap[id].Floor as real
  }

  /** The Go client. */
  class RedisTokenBucket {
    const rdb: RedisServer
    const globalLimit: int
    const refillRate: real

    constructor (rdb: RedisServer, globalLimit: int, refillRate: real)
      ensures this.rdb == rdb && this.globalLimit == globalLimit && this.refillRate == refillRate
    {
      this.rdb, this.globalLimit, this.refillRate := rdb, globalLimit, refillRate;
    }

    /** `now` is the time sent to the script, `answered` the time at which its answer is read. */
    method Consume(id: string, cost: int, now: real, answered: real) returns (r: ConsumeResult)
      requires refillRate > 0.0 && rdb.Valid()
      modifies rdb`keys, rdb`expireAt, rdb`log
      ensures rdb.Valid() && rdb.log == old(rdb.log) + [Script(id, globalLimit, refillRate, now, cost)]
      ensures rdb.Slot(id) == KeyStep(refillRate, globalLimit, old(rdb.Slot(id)), Eval(now, cost))
      ensures rdb.Deadline(id) == Some(rdb.clock + 3600000.0)
      ensures forall other | other != id ::
                rdb.Slot(other) == old(rdb.Slot(other)) && rdb.Deadline(other) == old(rdb.Deadline(other))
      ensures r.allowed == Admits(Lua(refillRate), old(rdb.Slot(id)), now, cost, globalLimit)
      ensures id in rdb.keys && r.remaining == rdb.keys[id].tokens.Floor
      ensures r.resetAt == answered + Trunc((globalLimit - r.remaining) as real / refillRate) as real * 1000.0
    {
      var allowed, remaining := rdb.RunScript(id, globalLimit, refillRate, now, cost);
      var tokensNeeded := (globalLimit - remaining) as real;
      r := ConsumeResult(allowed, remaining, answered + Trunc(tokensNeeded / refillRate) as real * 1000.0);
    }

    /** Seeds every entity of the snapshot with its whole tokens. */
    method SeedFromSnapshot(snap: map<string, real>, now: real)
      requires rdb.Valid()
      modifies rdb`keys, rdb`expireAt, rdb`log
      ensures rdb.Valid() && rdb.log == old(rdb.log) + [Write(WholeTokens(snap), now)]
      ensures forall id ::
                rdb.Slot(id) == if id !in snap then old(rdb.Slot(id))
                                else KeyStep(refillRate, globalLimit, old(rdb.Slot(id)),
                                             Seed(snap[id].Floor as real, now))
      ensures forall id :: rdb.Deadline(id) == if id in snap then Some(rdb.clock + 3600000.0) else old(rdb.Deadline(id))
    {
      rdb.Overwrite(WholeTokens(snap), now);
    }
  }

  /** The TypeScript client: one clock reading per call, whole seconds rounded up, and levels seeded
      as they are. */
  class TokenBucketStrategy {
    const redis: RedisServer
    const globalLimit: int
    const refillRate: real

    constructor (redis: RedisServer, globalLimit: int, refillRate: real)
      ensures this.redis == redis && this.globalLimit == globalLimit && this.refillRate == refillRate
    {
      this.redis, this.globalLimit, this.refillRate := redis, globalLimit, refillRate;
    }

    method Consume(id: string, cost: int, now: real) returns (r: ConsumeResult)
      requires refillRate > 0.0 && redis.Valid()
      modifies redis`keys, redis`expireAt, redis`log
      ensures redis.Valid() && redis.log == old(redis.log) + [Script(id, globalLimit, refillRate, now, cost)]
      ensures redis.Slot(id) == KeyStep(refillRate, globalLimit, old(redis.Slot(id)), Eval(now, cost))
      ensures redis.Deadline(id) == Some(redis.clock + 3600000.0)
      ensures forall other | other != id ::
                redis.Slot(other) == old(redis.Slot(other)) && redis.Deadline(other) == old(redis.Deadline(other))
      ensures r.allowed == Admits(Lua(refillRate), old(redis.Slot(id)), now, cost, globalLimit)
      ensures id in redis.keys && r.remaining == redis.keys[id].tokens.Floor
      ensures r.resetAt == now + Ceil((globalLimit - r.remaining) as real / refillRate) as real * 1000.0
    {
      var allowed, remaining := redis.RunScript(id, globalLimit, refillRate, now, cost);
      var tokensNeeded := globalLimit - remaining;
      r := ConsumeResult(allowed, remaining, now + Ceil(tokensNeeded as real / refillRate) as real * 1000.0);
    }

    method SeedFromSnapshot(snapshot: map<string, real>, now: real)
      requires redis.Valid()
      modifies redis`keys, redis`expireAt, redis`log
      ensures redis.Valid() && redis.log == old(redis.log) + [Write(snapshot, now)]
      ensures forall id ::
                redis.Slot(id) == if id !in snapshot then old(redis.Slot(id))
                                  else KeyStep(refillRate, globalLimit, old(redis.Slot(id)), Seed(snapshot[id], now))
      ensures forall id ::
                redis.Deadline(id) == if id in snapshot then Some(redis.clock + 3600000.0) else old(redis.Deadline(id))
    {
      redis.Overwrite(snapshot, now);
    }
  }

  // ---------------------------------------------------------------------------------------------
  // Cost admitted under arbitrary clocks
  // ---------------------------------------------------------------------------------------------

  function Final(rate: real, limit: int, slot: Slot, es: seq<KeyEvent>): Slot {
    if es == [] then slot
    else KeyStep(rate, limit, Final(rate, limit, slot, es[..|es| - 1]), es[|es| - 1])
  }

  function Admitted(rate: real, limit: int, slot: Slot, es: seq<KeyEvent>): int {
    if es == [] then 0
    else Admitted(rate, limit, slot, es[..|es| - 1])
         + KeyCharge(rate, limit, Final(rate, limit, slot, es[..|es| - 1]), es[|es| - 1])
  }

  function Resets(es: seq<KeyEvent>): nat {
    if es == [] then 0 else Resets(es[..|es| - 1]) + if es[|es| - 1].Eval? then 0 else 1
  }

  /** The limit, once more per seeding or expiry. */
  function Supply(limit: int, es: seq<KeyEvent>): int {
    if es == [] then limit else Supply(limit, es[..|es| - 1]) + if es[|es| - 1].Eval? then 0 else limit
  }

  lemma {:induction false} SupplyIsAProduct(limit: int, es: seq<KeyEvent>)
    ensures Supply(limit, es) == limit * (1 + Resets(es))
  {
    if es != [] {
      SupplyIsAProduct(limit, es[..|es| - 1]);
      assert limit * (2 + Resets(es[..|es| - 1])) == limit * (1 + Resets(es[..|es| - 1])) + limit;
    }
  }

  function LastTime(es: seq<KeyEvent>): Option<real> {
    if es == [] then None
    else if es[|es| - 1].Expire? then LastTime(es[..|es| - 1])
    else Some(es[|es| - 1].now)
  }

  /** Sum of the forward steps of the clock readings; steps back count nothing. */
  function ForwardSteps(es: seq<KeyEvent>): real {
    if es == [] then 0.0
    else
      var pre, ev := es[..|es| - 1], es[|es| - 1];
      ForwardSteps(pre)
      + if !ev.Expire? && LastTime(pre).Some? && LastTime(pre).value < ev.now then ev.now - LastTime(pre).value else 0.0
  }

  predicate SaneKeyEvent(limit: int, ev: KeyEvent) {
    match ev
    case Eval(_, cost) => cost >= 0
    case Seed(level, _) => 0.0 <= level <= limit as real
    case Expire => true
  }

  predicate SaneKeyEvents(limit: int, es: seq<KeyEvent>) {
    forall ev | ev in es :: SaneKeyEvent(limit, ev)
  }

  function Available(limit: int, slot: Slot): real {
    if slot.None? then limit as real else slot.value.tokens
  }

  ghost predicate WithinBudget(rate: real, limit: int, slot: Slot, es: seq<KeyEvent>) {
    && Available(limit, Final(rate, limit, slot, es)) >= 0.0
    && Admitted(rate, limit, slot, es) as real + Available(limit, Final(rate, limit, slot, es))
       <= Supply(limit, es) as real + Earned(rate, ForwardSteps(es))
    && (Final(rate, limit, slot, es).Some? ==> LastTime(es) == Some(Final(rate, limit, slot, es).value.lastRefill))
  }

  lemma FirstEventIsWithinBudget(rate: real, limit: int, slot: Slot, ev: KeyEvent)
    requires rate >= 0.0 && limit >= 0 && SaneKeyEvent(limit, ev)
    requires slot.Some? ==> slot.value.tokens >= 0.0
    ensures WithinBudget(rate, limit, slot, [ev])
  {
    assert [ev][..0] == [];
    assert Supply(limit, [ev]) == if ev.Eval? then limit else limit + limit;
    if ev.Eval? && slot.Some? {
      EarnedMonotone(rate, 0.0, Elapsed(Lua(rate), slot.value.lastRefill, ev.now));
    }
  }

  /** A call after `before` earns no more than the clock's forward step. */
  lemma CallIsWithinBudget(rate: real, limit: int, before: Slot, now: real, cost: int, step: real)
    requires rate >= 0.0 && limit >= 0 && cost >= 0 && step >= 0.0 && Available(limit, before) >= 0.0
    requires before.Some? ==> Elapsed(Lua(rate), before.value.lastRefill, now) == step
    ensures var after := KeyStep(rate, limit, before, Eval(now, cost));
            && Available(limit, after) >= 0.0
            && KeyCharge(rate, limit, before, Eval(now, cost)) as real + Available(limit, after)
               <= Available(limit, before) + Earned(rate, step)
  {
    EarnedMonotone(rate, 0.0, step);
  }

  lemma NextCallIsWithinBudget(rate: real, limit: int, slot: Slot, es: seq<KeyEvent>, step: real)
    requires rate >= 0.0 && limit >= 0 && |es| > 1 && es[|es| - 1].Eval? && es[|es| - 1].cost >= 0
    requires WithinBudget(rate, limit, slot, es[..|es| - 1])
    requires step == ForwardSteps(es) - ForwardSteps(es[..|es| - 1]) >= 0.0
    requires Earned(rate, ForwardSteps(es)) == Earned(rate, ForwardSteps(es[..|es| - 1])) + Earned(rate, step)
    ensures WithinBudget(rate, limit, slot, es)
  {
    var before, ev := Final(rate, limit, slot, es[..|es| - 1]), es[|es| - 1];
    CallIsWithinBudget(rate, limit, before, ev.now, ev.cost, step);
  }

  lemma NextResetIsWithinBudget(rate: real, limit: int, slot: Slot, es: seq<KeyEvent>)
    requires rate >= 0.0 && limit >= 0 && |es| > 1 && SaneKeyEvent(limit, es[|es| - 1]) && !es[|es| - 1].Eval?
    requires WithinBudget(rate, limit, slot, es[..|es| - 1])
    requires Earned(rate, ForwardSteps(es)) >= Earned(rate, ForwardSteps(es[..|es| - 1]))
    ensures WithinBudget(rate, limit, slot, es)
  {
  }

  lemma NextEventIsWithinBudget(rate: real, limit: int, slot: Slot, es: seq<KeyEvent>)
    requires rate >= 0.0 && limit >= 0 && |es| > 1 && SaneKeyEvent(limit, es[|es| - 1])
    requires WithinBudget(rate, limit, slot, es[..|es| - 1])
    ensures WithinBudget(rate, limit, slot, es)
  {
    var before := ForwardSteps(es[..|es| - 1]);
    var step := ForwardSteps(es) - before;
    EarnedSum(rate, before, step);
    EarnedMonotone(rate, 0.0, step);
    if es[|es| - 1].Eval? {
      NextCallIsWithinBudget(rate, limit, slot, es, step);
    } else {
      NextResetIsWithinBudget(rate, limit, slot, es);
    }
  }

  /** Whatever the clocks do, a stretch of calls admits at most the limit, once more per seeding or
      expiry, plus what the forward clock steps earn. */
  lemma AdmittedUnderAnyClock(rate: real, limit: int, slot: Slot, es: seq<KeyEvent>)
    requires rate >= 0.0 && limit >= 0 && SaneKeyEvents(limit, es)
    requires slot.Some? ==> slot.value.tokens >= 0.0
    ensures Admitted(rate, limit, slot, es) as real
         <= (limit * (1 + Resets(es))) as real + Earned(rate, ForwardSteps(es))
  {
    SupplyIsAProduct(limit, es);
    if es == [] {
      EarnedSum(rate, 0.0, 0.0);
    } else {
      EveryEventIsWithinBudget(rate, limit, slot, es);
    }
  }

  lemma {:induction false} EveryEventIsWithinBudget(rate: real, limit: int, slot: Slot, es: seq<KeyEvent>)
    requires rate >= 0.0 && limit >= 0 && SaneKeyEvents(limit, es) && es != []
    requires slot.Some? ==> slot.value.tokens >= 0.0
    ensures WithinBudget(rate, limit, slot, es)
  {
    assert es[|es| - 1] in es;
    if |es| == 1 {
      assert es == [es[0]];
      FirstEventIsWithinBudget(rate, limit, slot, es[0]);
    } else {
      EveryEventIsWithinBudget(rate, limit, slot, es[..|es| - 1]);
      NextEventIsWithinBudget(rate, limit, slot, es);
    }
  }

  /** What a command means to one key. */
  function ShareOfKey(c: Command, id: string): seq<KeyEvent> {
    match c
    case Script(other, _, _, now, cost) => if other == id then [Eval(now, cost)] else []
    case Write(levels, now) => if id in levels then [Seed(levels[id], now)] else []
    case Remove(other) => if other == id then [Expire] else []
    case Tick(_) => []
  }

  function EventsOfKey(log: seq<Command>, id: string): seq<KeyEvent> {
    if log == [] then [] else EventsOfKey(Prefix(log), id) + ShareOfKey(Last(log), id)
  }

  /** All clients are configured alike. */
  predicate RunsUnder(rate: real, limit: int, log: seq<Command>) {
    forall c | c in log && c.Script? :: c.rate == rate && c.limit == limit
  }

  function CommandCharge(slot: Slot, c: Command, id: string): int {
    if c.Script? && c.id == id then KeyCharge(c.rate, c.limit, slot, Eval(c.now, c.cost)) else 0
  }

  /** What the server has admitted for an entity. */
  function AdmittedFor(log: seq<Command>, id: string): int {
    if log == [] then 0 else AdmittedFor(Prefix(log), id) + CommandCharge(KeyAfter(Prefix(log), id), Last(log), id)
  }

  lemma CommandIsItsShare(rate: real, limit: int, slot: Slot, c: Command, id: string)
    requires c.Script? ==> c.rate == rate && c.limit == limit
    ensures var share := ShareOfKey(c, id);
            if share == [] then CommandStep(slot, c, id) == slot && CommandCharge(slot, c, id) == 0
            else
              && share == [share[0]] && CommandStep(slot, c, id) == KeyStep(rate, limit, slot, share[0])
              && CommandCharge(slot, c, id) == KeyCharge(rate, limit, slot, share[0])
  {
  }

  lemma {:induction false} KeyFollowsItsEvents(rate: real, limit: int, log: seq<Command>, id: string)
    requires RunsUnder(rate, limit, log)
    ensures Final(rate, limit, None, EventsOfKey(log, id)) == KeyAfter(log, id)
    ensures Admitted(rate, limit, None, EventsOfKey(log, id)) == AdmittedFor(log, id)
  {
    if log != [] {
      assert Last(log) in log;
      KeyFollowsItsEvents(rate, limit, Prefix(log), id);
      var before, share := EventsOfKey(Prefix(log), id), ShareOfKey(Last(log), id);
      CommandIsItsShare(rate, limit, KeyAfter(Prefix(log), id), Last(log), id);
      if share == [] {
        assert before + share == before;
      } else {
        OneMoreKeyEvent(rate, limit, before, share[0]);
      }
    }
  }

  lemma OneMoreKeyEvent(rate: real, limit: int, es: seq<KeyEvent>, ev: KeyEvent)
    ensures Final(rate, limit, None, es + [ev]) == KeyStep(rate, limit, Final(rate, limit, None, es), ev)
    ensures Admitted(rate, limit, None, es + [ev])
         == Admitted(rate, limit, None, es) + KeyCharge(rate, limit, Final(rate, limit, None, es), ev)
  {
    assert (es + [ev])[..|es|] == es;
  }

  /** Whatever the callers' clocks do, a server admits for an entity at most the limit, once more per
      seeding or removal of its key, plus what the forward steps of the readings earn. */
  lemma ServerIsBounded(rate: real, limit: int, log: seq<Command>, id: string)
    requires rate >= 0.0 && limit >= 0 && RunsUnder(rate, limit, log) && SaneKeyEvents(limit, EventsOfKey(log, id))
    ensures var es := EventsOfKey(log, id);
            AdmittedFor(log, id) as real <= (limit * (1 + Resets(es))) as real + Earned(rate, ForwardSteps(es))
  {
    KeyFollowsItsEvents(rate, limit, log, id);
    AdmittedUnderAnyClock(rate, limit, None, EventsOfKey(log, id));
  }

  // ---------------------------------------------------------------------------------------------
  // Two servers whose clocks differ by a constant offset
  // ---------------------------------------------------------------------------------------------

  /** A call made at true time `at` by the first server or by the second, whose clock is `offset`
      ahead (behind when negative). */
  datatype Stamp = Stamp(at: real, second: bool, cost: int)

  function Reading(offset: real, s: Stamp): real {
    if s.second then s.at + offset else s.at
  }

  function Evals(offset: real, ss: seq<Stamp>): seq<KeyEvent> {
    if ss == [] then []
    else Evals(offset, ss[..|ss| - 1]) + [Eval(Reading(offset, ss[|ss| - 1]), ss[|ss| - 1].cost)]
  }

  function Switches(ss: seq<Stamp>): nat {
    if |ss| <= 1 then 0
    else Switches(ss[..|ss| - 1]) + if ss[|ss| - 1].second != ss[|ss| - 2].second then 1 else 0
  }

  predicate OnFastClock(offset: real, s: Stamp) {
    s.second == (offset >= 0.0)
  }

  /** Switches from the slow clock to the fast one. */
  function Jumps(offset: real, ss: seq<Stamp>): nat {
    if |ss| <= 1 then 0
    else Jumps(offset, ss[..|ss| - 1])
         + if OnFastClock(offset, ss[|ss| - 1]) && !OnFastClock(offset, ss[|ss| - 2]) then 1 else 0
  }

  /** Clocks alternate, so at most half of the switches, rounded up, jump forward. */
  lemma {:induction false} JumpsAreHalfTheSwitches(offset: real, ss: seq<Stamp>)
    requires ss != []
    ensures 2 * Jumps(offset, ss) == Switches(ss)
              + (if OnFastClock(offset, ss[|ss| - 1]) then 1 else 0) - (if OnFastClock(offset, ss[0]) then 1 else 0)
  {
    if |ss| > 1 {
      JumpsAreHalfTheSwitches(offset, ss[..|ss| - 1]);
    }
  }

  /** One more call steps the clocks forward by at most the true time and, on a jump, the offset. */
  lemma OneMoreReading(offset: real, a: Stamp, b: Stamp)
    requires a.at <= b.at
    ensures Reading(offset, b) - Reading(offset, a)
         <= b.at - a.at + if OnFastClock(offset, b) && !OnFastClock(offset, a) then Abs(offset) else 0.0
  {
  }

  predicate InOrder(ss: seq<Stamp>) {
    forall i, j | 0 <= i < j < |ss| :: ss[i].at <= ss[j].at
  }

  lemma {:induction false} ForwardStepsOfTwoClocks(offset: real, ss: seq<Stamp>)
    requires ss != [] && InOrder(ss)
    ensures LastTime(Evals(offset, ss)) == Some(Reading(offset, ss[|ss| - 1]))
    ensures ForwardSteps(Evals(offset, ss)) <= ss[|ss| - 1].at - ss[0].at + Times(Jumps(offset, ss), Abs(offset))
    ensures Resets(Evals(offset, ss)) == 0
  {
    var pre := ss[..|ss| - 1];
    var es := Evals(offset, ss);
    assert es[..|es| - 1] == Evals(offset, pre);
    if |ss| > 1 {
      var a, b := ss[|ss| - 2], ss[|ss| - 1];
      ForwardStepsOfTwoClocks(offset, pre);
      OneMoreReading(offset, a, b);
      TimesSucc(Jumps(offset, pre), Abs(offset));
      assert pre[|pre| - 1] == a && pre[0] == ss[0];
    } else {
      assert pre == [] && Evals(offset, pre) == [] && Resets(es) == 0;
    }
  }

  lemma {:induction false} EvalsAreSane(limit: int, offset: real, ss: seq<Stamp>)
    requires forall s | s in ss :: s.cost >= 0
    ensures SaneKeyEvents(limit, Evals(offset, ss))
  {
    if ss != [] {
      assert ss[|ss| - 1] in ss;
      EvalsAreSane(limit, offset, ss[..|ss| - 1]);
    }
  }

  lemma SkewedForwardSteps(offset: real, ss: seq<Stamp>)
    requires ss != [] && InOrder(ss)
    ensures ForwardSteps(Evals(offset, ss)) <= ss[|ss| - 1].at - ss[0].at + Times((Switches(ss) + 1) / 2, Abs(offset))
  {
    ForwardStepsOfTwoClocks(offset, ss);
    JumpsAreAtMostHalf(offset, ss);
    TimesMonotone(Jumps(offset, ss), (Switches(ss) + 1) / 2, Abs(offset));
  }

  lemma JumpsAreAtMostHalf(offset: real, ss: seq<Stamp>)
    requires ss != []
    ensures Jumps(offset, ss) <= (Switches(ss) + 1) / 2
  {
    JumpsAreHalfTheSwitches(offset, ss);
  }

  /** Two servers sharing one key at a constant clock offset, with `s` switches between them over a
      true duration T, admit at most limit + rate * (T + ceil(s / 2) * |offset|). */
  lemma TwoSkewedServers(rate: real, limit: int, slot: Slot, offset: real, ss: seq<Stamp>)
    requires rate >= 0.0 && limit >= 0 && ss != [] && InOrder(ss)
    requires forall s | s in ss :: s.cost >= 0
    requires slot.Some? ==> slot.value.tokens >= 0.0
    ensures Admitted(rate, limit, slot, Evals(offset, ss)) as real
         <= limit as real
            + Earned(rate, ss[|ss| - 1].at - ss[0].at + Times((Switches(ss) + 1) / 2, Abs(offset)))
  {
    var es := Evals(offset, ss);
    EvalsAreSane(limit, offset, ss);
    ForwardStepsOfTwoClocks(offset, ss);
    AdmittedUnderAnyClock(rate, limit, slot, es);
    SkewedForwardSteps(offset, ss);
    EarnedMonotone(rate, ForwardSteps(es), ss[|ss| - 1].at - ss[0].at + Times((Switches(ss) + 1) / 2, Abs(offset)));
  }

  // ---------------------------------------------------------------------------------------------
  // Any offset at all lets the two servers exceed the refill
  // ---------------------------------------------------------------------------------------------

  predicate SaneStamps(ss: seq<Stamp>) {
    ss != [] && InOrder(ss) && forall s | s in ss :: s.cost >= 0
  }

  /** At most the limit and what the run's true duration earns. */
  ghost predicate WithinTheRefill(rate: real, limit: int, slot: Slot, offset: real, ss: seq<Stamp>)
    requires ss != []
  {
    Admitted(rate, limit, slot, Evals(offset, ss)) as real <= limit as real + Earned(rate, ss[|ss| - 1].at - ss[0].at)
  }

  ghost predicate AlwaysWithinTheRefill(rate: real, limit: int, offset: real) {
    forall slot: Slot, ss: seq<Stamp> | SaneStamps(ss) && (slot.Some? ==> slot.value.tokens >= 0.0) ::
      WithinTheRefill(rate, limit, slot, offset, ss)
  }

  /** Two servers stay within the refill if and only if their clocks agree. */
  lemma SkewIsHarmlessExactly(rate: real, limit: int, offset: real)
    requires rate > 0.0 && limit >= 1
    ensures AlwaysWithinTheRefill(rate, limit, offset) <==> offset == 0.0
  {
    if offset == 0.0 {
      forall slot: Slot, ss: seq<Stamp> | SaneStamps(ss) && (slot.Some? ==> slot.value.tokens >= 0.0)
        ensures WithinTheRefill(rate, limit, slot, offset, ss)
      {
        AgreeingClocks(rate, limit, slot, ss);
      }
    } else {
      var ss := SkewAdmitsMore(rate, limit, offset);
    }
  }

  lemma AgreeingClocks(rate: real, limit: int, slot: Slot, ss: seq<Stamp>)
    requires rate > 0.0 && limit >= 1 && SaneStamps(ss) && (slot.Some? ==> slot.value.tokens >= 0.0)
    ensures WithinTheRefill(rate, limit, slot, 0.0, ss)
  {
    TwoSkewedServers(rate, limit, slot, 0.0, ss);
    TimesZero((Switches(ss) + 1) / 2);
  }

  lemma TimesZero(n: int)
    ensures Times(n, Abs(0.0)) == 0.0
  {
  }

  /** A unit call at time zero by the server whose clock is behind, or ahead. */
  function Slow(offset: real): Stamp {
    Stamp(0.0, offset < 0.0, 1)
  }

  function Fast(offset: real): Stamp {
    Stamp(0.0, offset >= 0.0, 1)
  }

  /** The slow server drains the bucket; then the two call in turn. */
  function Bouncing(offset: real, limit: nat, n: nat): (ss: seq<Stamp>)
    ensures forall s | s in ss :: s.at == 0.0 && s.cost == 1
  {
    if n > 0 then Bouncing(offset, limit, n - 1) + [Fast(offset)] + [Slow(offset)]
    else if limit > 0 then Bouncing(offset, limit - 1, 0) + [Slow(offset)]
    else []
  }

  lemma OneMoreCall(rate: real, limit: int, offset: real, ss: seq<Stamp>, s: Stamp)
    ensures var es, eval := Evals(offset, ss), Eval(Reading(offset, s), s.cost);
            && Final(rate, limit, None, Evals(offset, ss + [s]))
               == KeyStep(rate, limit, Final(rate, limit, None, es), eval)
            && Admitted(rate, limit, None, Evals(offset, ss + [s]))
               == Admitted(rate, limit, None, es) + KeyCharge(rate, limit, Final(rate, limit, None, es), eval)
  {
    assert (ss + [s])[..|ss|] == ss;
    assert Evals(offset, ss + [s])[..|Evals(offset, ss)|] == Evals(offset, ss);
  }

  /** What a call finds in the key when `ms` have passed on the clocks since the last one. */
  lemma CallAfter(rate: real, limit: int, tokens: real, since: real, now: real, level: real)
    requires since <= now ==> level == tokens + Earned(rate, now - since)
    requires since > now ==> level == tokens
    requires level <= limit as real
    ensures KeyStep(rate, limit, Some(Entry(tokens, since)), Eval(now, 1))
         == Some(Entry(if level >= 1.0 then level - 1.0 else level, now))
    ensures KeyCharge(rate, limit, Some(Entry(tokens, since)), Eval(now, 1)) == if level >= 1.0 then 1 else 0
  {
    EarnedSum(rate, 0.0, 0.0);
  }

  lemma CallAtOnce(rate: real, limit: int, tokens: int, now: real)
    requires 1 <= tokens <= limit
    ensures KeyStep(rate, limit, Some(Entry(tokens as real, now)), Eval(now, 1))
           == Some(Entry((tokens - 1) as real, now))
    ensures KeyCharge(rate, limit, Some(Entry(tokens as real, now)), Eval(now, 1)) == 1
  {
    EarnedSum(rate, 0.0, 0.0);
    CallAfter(rate, limit, tokens as real, now, now, tokens as real);
  }

  lemma {:induction false} Draining(rate: real, limit: int, offset: real, n: nat)
    requires 1 <= n <= limit
    ensures var es := Evals(offset, Bouncing(offset, n, 0));
            && Final(rate, limit, None, es) == Some(Entry((limit - n) as real, Reading(offset, Slow(offset))))
            && Admitted(rate, limit, None, es) == n
  {
    OneMoreCall(rate, limit, offset, Bouncing(offset, n - 1, 0), Slow(offset));
    if n > 1 {
      Draining(rate, limit, offset, n - 1);
      CallAtOnce(rate, limit, limit - (n - 1), Reading(offset, Slow(offset)));
    }
  }

  /** While nothing more is admitted, every switch to the fast clock adds the same to the level. */
  lemma {:induction false} BouncingEarns(rate: real, limit: int, offset: real, n: nat)
    requires rate > 0.0 && limit >= 1
    ensures var es, earned := Evals(offset, Bouncing(offset, limit, n)), Times(n, Earned(rate, Abs(offset)));
            || Admitted(rate, limit, None, es) > limit
            || (&& Admitted(rate, limit, None, es) == limit && earned < 1.0
                && Final(rate, limit, None, es) == Some(Entry(earned, Reading(offset, Slow(offset)))))
  {
    if n == 0 {
      Draining(rate, limit, offset, limit);
    } else {
      BouncingEarns(rate, limit, offset, n - 1);
      var ss := Bouncing(offset, limit, n - 1);
      OneMoreCall(rate, limit, offset, ss, Fast(offset));
      OneMoreCall(rate, limit, offset, ss + [Fast(offset)], Slow(offset));
      OneBounce(rate, limit, offset, n, Final(rate, limit, None, Evals(offset, ss)));
    }
  }

  lemma OneBounce(rate: real, limit: int, offset: real, n: nat, slot: Slot)
    requires rate > 0.0 && limit >= 1 && n >= 1
    ensures var slow, fast := Reading(offset, Slow(offset)), Reading(offset, Fast(offset));
            var e := Earned(rate, Abs(offset));
            var slot' := KeyStep(rate, limit, slot, Eval(fast, 1));
            slot == Some(Entry(Times(n - 1, e), slow)) ==>
              || KeyCharge(rate, limit, slot, Eval(fast, 1)) == 1
              || (&& Times(n, e) < 1.0 && KeyCharge(rate, limit, slot', Eval(slow, 1)) == 0
                  && KeyStep(rate, limit, slot', Eval(slow, 1)) == Some(Entry(Times(n, e), slow)))
  {
    var slow, fast := Reading(offset, Slow(offset)), Reading(offset, Fast(offset));
    assert fast - slow == Abs(offset);
    var e := Earned(rate, Abs(offset));
    EarnedMonotone(rate, 0.0, Abs(offset));
    EarnedSum(rate, 0.0, 0.0);
    TimesSucc(n - 1, e);
    if Times(n, e) < 1.0 {
      CallAfter(rate, limit, Times(n - 1, e), slow, fast, Times(n, e));
      CallAfter(rate, limit, Times(n, e), fast, slow, Times(n, e));
    }
  }

  /** At one instant, unit calls alone. */
  lemma SkewAdmitsMore(rate: real, limit: int, offset: real) returns (ss: seq<Stamp>)
    requires rate > 0.0 && limit >= 1 && offset != 0.0
    ensures SaneStamps(ss) && forall s | s in ss :: s.at == 0.0 && s.cost == 1
    ensures !WithinTheRefill(rate, limit, None, offset, ss)
  {
    var n := EnoughBounces(rate, offset);
    BouncingEarns(rate, limit, offset, n);
    ss := Bouncing(offset, limit, n);
    assert ss != [] by {
      assert n >= 1;
    }
    EarnedSum(rate, 0.0, 0.0);
    assert ss[|ss| - 1] in ss && ss[0] in ss;
  }

  lemma EnoughBounces(rate: real, offset: real) returns (n: nat)
    requires rate > 0.0 && offset != 0.0
    ensures n >= 1 && Times(n, Earned(rate, Abs(offset))) >= 1.0
  {
    var e := Earned(rate, Abs(offset));
    assert e > 0.0 by {
      assert rate * Abs(offset) > 0.0;
    }
    n := EnoughTimes(e);
  }

  lemma EnoughTimes(e: real) returns (n: nat)
    requires e > 0.0
    ensures n >= 1 && Times(n, e) >= 1.0
  {
    var q := 1.0 / e;
    assert q * e == 1.0;
    assert q > 0.0;
    n := Ceil(q);
    assert (n as real - q) * e >= 0.0;
  }
}
