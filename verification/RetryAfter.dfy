/**
 What a denied client is told to wait (backend/src/throttle/guards/entity-throttle.guard.ts and
 go-throttle/handler/throttle_handler.go), and whether that wait is long enough when the entity has
 no other traffic, merge or mode change.
 */
module RetryAfter {
  import opened Numbers
  import opened TokenBucket
  import GoLocalBucket
  import TsLocalBucket
  import RedisBucket

  lemma EarnedWhole(rate: real, seconds: int)
    ensures Earned(rate, seconds as real * 1000.0) == rate * seconds as real
  {
  }

  // ---------------------------------------------------------------------------------------------
  // TypeScript
  // ---------------------------------------------------------------------------------------------

  function TsRetryAfter(resetAt: real, answered: real): int {
    Ceil((resetAt - answered) / 1000.0)
  }

  /** The client is told the least number of seconds that reaches the reset time. */
  lemma TsRetryAfterIsLeast(resetAt: real, answered: real)
    ensures var seconds := TsRetryAfter(resetAt, answered) as real;
            (seconds - 1.0) * 1000.0 < resetAt - answered <= seconds * 1000.0
  {
  }

  /** Rounding up, `seconds` of refill cover what is needed. */
  lemma RoundedUpEarnsEnough(rate: real, need: real)
    requires rate > 0.0
    ensures Earned(rate, Ceil(need / rate) as real * 1000.0) >= need
  {
    EarnedWhole(rate, Ceil(need / rate));
    QuotientBounds(need, rate, Ceil(need / rate) as real);
  }

  lemma WaitingEarns(p: Params, e: Entry, need: real, at: real, cost: int, limit: int)
    requires p.rate > 0.0 && cost <= limit && cost as real - e.tokens <= need && need > 0.0
    requires at >= e.lastRefill + Ceil(need / p.rate) as real * 1000.0
    ensures Admits(p, Some(e), at, cost, limit)
  {
    RoundedUpEarnsEnough(p.rate, need);
    QuotientBounds(need, p.rate, 0.0);
    EarnedMonotone(p.rate, Ceil(need / p.rate) as real * 1000.0, at - e.lastRefill);
  }

  /** A client denied by the in-memory store or by Redis, in any mode, that waits the seconds it is
      told is admitted: `resetAt` is the store's, `answered` the guard's later clock. */
  lemma TsRetryAfterSuffices(p: Params, slot: Slot, now: real, cost: int, limit: int, resetAt: real, answered: real,
                             retry: real)
    requires p.rate > 0.0 && p.clamped && cost <= limit && !Admits(p, slot, now, cost, limit)
    requires var e := Step(p, slot, Call(now, cost, limit)).value;
             || resetAt == TsLocalBucket.EarnedAt(p.rate, now, cost as real - e.tokens)
             || resetAt == TsLocalBucket.EarnedAt(p.rate, now, (limit - e.tokens.Floor) as real)
    requires retry >= answered + TsRetryAfter(resetAt, answered) as real * 1000.0
    ensures Admits(p, Step(p, slot, Call(now, cost, limit)), retry, cost, limit)
  {
    var e := Step(p, slot, Call(now, cost, limit)).value;
    assert TsRetryAfter(resetAt, answered) as real * 1000.0 >= resetAt - answered;
    if resetAt == TsLocalBucket.EarnedAt(p.rate, now, cost as real - e.tokens) {
      WaitingEarns(p, e, cost as real - e.tokens, retry, cost, limit);
    } else {
      WaitingEarns(p, e, (limit - e.tokens.Floor) as real, retry, cost, limit);
    }
  }

  // ---------------------------------------------------------------------------------------------
  // Go
  // ---------------------------------------------------------------------------------------------

  function GoRetryAfter(resetAt: real, answered: real): int {
    Trunc((resetAt - answered) / 1000.0) + 1
  }

  /** The client is told the least number of seconds that passes the reset time, one when it is due now. */
  lemma GoRetryAfterIsNext(resetAt: real, answered: real)
    requires answered <= resetAt
    ensures var seconds := GoRetryAfter(resetAt, answered) as real;
            (seconds - 1.0) * 1000.0 <= resetAt - answered < seconds * 1000.0
  {
  }

  /** The wait ends strictly after the reset time, and never within a second of it being set. */
  lemma GoWaitIsLong(base: real, seconds: nat, answered: real, retry: real)
    requires base <= answered <= retry
    requires retry >= answered + GoRetryAfter(base + seconds as real * 1000.0, answered) as real * 1000.0
    ensures retry > base + seconds as real * 1000.0 && retry >= base + 1000.0
  {
    var until := (base + seconds as real * 1000.0 - answered) / 1000.0;
    var wait := GoRetryAfter(base + seconds as real * 1000.0, answered);
    if until >= 0.0 {
      assert wait as real > until;
    } else {
      assert wait as real >= until + 1.0;
    }
  }

  /** Truncating loses less than one second of refill. */
  lemma TruncatedEarnsAlmost(rate: real, need: real)
    requires rate > 0.0 && need >= 0.0
    ensures Trunc(need / rate) >= 0
    ensures Earned(rate, Trunc(need / rate) as real * 1000.0) > need - rate
  {
    var seconds := Trunc(need / rate);
    QuotientBounds(need, rate, 0.0);
    QuotientBounds(need, rate, seconds as real + 1.0);
    EarnedWhole(rate, seconds);
    assert (seconds as real + 1.0) * rate == rate * seconds as real + rate;
  }

  lemma GoWaitEarns(p: Params, e: Entry, base: real, need: real, answered: real, retry: real, cost: int, limit: int)
    requires p.rate > 0.0 && cost <= limit && e.tokens >= 0.0 && limit as real - e.tokens <= need && need >= 0.0
    requires (limit - cost) as real >= p.rate || cost as real <= p.rate
    requires e.lastRefill <= base <= answered <= retry
    requires retry >= answered + GoRetryAfter(base + Trunc(need / p.rate) as real * 1000.0, answered) as real * 1000.0
    ensures Admits(p, Some(e), retry, cost, limit)
  {
    TruncatedEarnsAlmost(p.rate, need);
    GoWaitIsLong(base, Trunc(need / p.rate), answered, retry);
    EarnedMonotone(p.rate, Trunc(need / p.rate) as real * 1000.0, retry - e.lastRefill);
    EarnedMonotone(p.rate, 1000.0, retry - e.lastRefill);
    EarnedWhole(p.rate, 1);
  }

  /** The bucket holds `tokens` at `now`; the client is told to wait and comes back at `retry`. */
  predicate WaitedAsTold(rate: real, limit: int, tokens: real, now: real, answered: real, retry: real)
    requires rate > 0.0
  {
    && now <= answered <= retry
    && retry >= answered + GoRetryAfter(GoLocalBucket.FullAgainAt(rate, now, limit, tokens), answered) as real * 1000.0
  }

  ghost predicate GoWaitSuffices(rate: real, limit: int, cost: int)
    requires rate > 0.0
  {
    forall tokens: real, now: real, answered: real, retry: real |
      0.0 <= tokens < cost as real && WaitedAsTold(rate, limit, tokens, now, answered, retry) ::
      Admits(Params(rate, false, Never), Some(Entry(tokens, now)), retry, cost, limit)
  }

  /** A level and a delay for which the wait is too short. */
  lemma TooShortAWait(rate: real, limit: int, cost: int) returns (tokens: real, answered: real, retry: real)
    requires rate > 0.0 && 0 <= cost <= limit && (limit - cost) as real < rate < cost as real
    ensures 0.0 <= tokens < cost as real && WaitedAsTold(rate, limit, tokens, 0.0, answered, retry)
    ensures !Admits(Params(rate, false, Never), Some(Entry(tokens, 0.0)), retry, cost, limit)
  {
    var slack := (limit - cost) as real;
    var room := Min(rate - slack, cost as real - rate);
    var excess := slack + room / 2.0;
    tokens := limit as real - rate - excess;
    var delay := 250.0 * room / rate;
    answered := delay;
    retry := delay + 1000.0;
    OneTruncatedSecond(rate, excess);
    assert Trunc((limit as real - tokens) / rate) == 1;
    DelayIsShort(rate, room);
    assert GoRetryAfter(1000.0, answered) == 1;
    assert Earned(rate, retry) == rate + room / 4.0 by {
      assert rate * delay == 250.0 * room;
    }
  }

  lemma OneTruncatedSecond(rate: real, excess: real)
    requires 0.0 <= excess < rate
    ensures Trunc((rate + excess) / rate) == 1
  {
    QuotientBounds(rate + excess, rate, 1.0);
    QuotientBounds(rate + excess, rate, 2.0);
  }

  lemma DelayIsShort(rate: real, room: real)
    requires 0.0 < room <= rate
    ensures 0.0 < 250.0 * room / rate < 1000.0
    ensures rate * (250.0 * room / rate) == 250.0 * room
  {
    QuotientBounds(250.0 * room, rate, 0.0);
    QuotientBounds(250.0 * room, rate, 1000.0);
  }

  /** The Go wait is long enough for every level and every delay of the answer if and only if the
      limit leaves a second's refill above the cost, or a second's refill covers the cost. */
  lemma GoRetryAfterExactly(rate: real, limit: int, cost: int)
    requires rate > 0.0 && 0 <= cost <= limit
    ensures GoWaitSuffices(rate, limit, cost) <==> (limit - cost) as real >= rate || cost as real <= rate
  {
    if (limit - cost) as real >= rate || cost as real <= rate {
      forall tokens: real, now: real, answered: real, retry: real |
        0.0 <= tokens < cost as real && WaitedAsTold(rate, limit, tokens, now, answered, retry)
        ensures Admits(Params(rate, false, Never), Some(Entry(tokens, now)), retry, cost, limit)
      {
        GoWaitEarns(Params(rate, false, Never), Entry(tokens, now), now, limit as real - tokens, answered, retry, cost,
                    limit);
      }
    } else {
      var tokens, answered, retry := TooShortAWait(rate, limit, cost);
    }
  }

  /** For the unit cost every request carries, it fails only for a limit of one that takes more than
      a second to refill. */
  lemma GoRetryAfterForUnitCost(rate: real, limit: int)
    requires rate > 0.0 && limit >= 1
    ensures GoWaitSuffices(rate, limit, 1) <==> limit >= 2 || rate >= 1.0
  {
    GoRetryAfterExactly(rate, limit, 1);
  }

  // ---------------------------------------------------------------------------------------------
  // Go in REDIS mode: the reset time is computed from the whole tokens remaining and from the clock
  // at Redis's answer
  // ---------------------------------------------------------------------------------------------

  /** Whole seconds until the key is full again, as the client computes them. */
  function SecondsToFull(rate: real, limit: int, remaining: int): int
    requires rate > 0.0
  {
    Trunc((limit - remaining) as real / rate)
  }

  /** The key holds `tokens` at `now`, the answer is read at `base`, the client is told to wait and
      comes back at `retry`. */
  predicate WaitedAsRedisTold(rate: real, limit: int, tokens: real, now: real, base: real, answered: real, retry: real)
    requires rate > 0.0
  {
    && now <= base <= answered <= retry
    && var resetAt := base + SecondsToFull(rate, limit, tokens.Floor) as real * 1000.0;
       retry >= answered + GoRetryAfter(resetAt, answered) as real * 1000.0
  }

  ghost predicate RedisWaitSuffices(rate: real, limit: int, cost: int)
    requires rate > 0.0
  {
    forall tokens: real, now: real, base: real, answered: real, retry: real |
      0.0 <= tokens < cost as real && WaitedAsRedisTold(rate, limit, tokens, now, base, answered, retry) ::
      Admits(RedisBucket.Lua(rate), Some(Entry(tokens, now)), retry, cost, limit)
  }

  /** The shortest wait a key with `remaining` whole tokens can lead to. */
  function ShortestWait(rate: real, limit: int, remaining: int): int
    requires rate > 0.0
  {
    var seconds := SecondsToFull(rate, limit, remaining);
    if seconds < 1 then 1 else seconds
  }

  predicate EveryShortestWaitEarns(rate: real, limit: int, cost: int)
    requires rate > 0.0
  {
    forall whole | 0 <= whole < cost ::
      whole as real + Earned(rate, ShortestWait(rate, limit, whole) as real * 1000.0) >= cost as real
  }

  lemma RedisWaitEarns(rate: real, limit: int, cost: int, tokens: real, now: real, base: real, answered: real,
                       retry: real)
    requires rate > 0.0 && 0 <= cost <= limit && EveryShortestWaitEarns(rate, limit, cost)
    requires 0.0 <= tokens < cost as real && WaitedAsRedisTold(rate, limit, tokens, now, base, answered, retry)
    ensures Admits(RedisBucket.Lua(rate), Some(Entry(tokens, now)), retry, cost, limit)
  {
    var whole := tokens.Floor;
    var seconds, wait := SecondsToFull(rate, limit, whole), ShortestWait(rate, limit, whole);
    QuotientBounds((limit - whole) as real, rate, 0.0);
    GoWaitIsLong(base, seconds, answered, retry);
    EarnedMonotone(rate, wait as real * 1000.0, retry - now);
    assert whole as real + Earned(rate, wait as real * 1000.0) >= cost as real;
  }

  /** A delay of the answer for which the wait is too short. */
  lemma TooShortARedisWait(rate: real, limit: int, cost: int, whole: int) returns (answered: real, retry: real)
    requires rate > 0.0 && 0 <= whole < cost <= limit
    requires whole as real + Earned(rate, ShortestWait(rate, limit, whole) as real * 1000.0) < cost as real
    ensures WaitedAsRedisTold(rate, limit, whole as real, 0.0, 0.0, answered, retry)
    ensures !Admits(RedisBucket.Lua(rate), Some(Entry(whole as real, 0.0)), retry, cost, limit)
  {
    var seconds := SecondsToFull(rate, limit, whole);
    QuotientBounds((limit - whole) as real, rate, 0.0);
    var missing := (cost - whole) as real - Earned(rate, ShortestWait(rate, limit, whole) as real * 1000.0);
    if seconds == 0 {
      answered, retry := 0.0, 1000.0;
      TooLittle(rate, whole as real, retry, cost, limit);
    } else {
      answered := ShortDelay(rate, missing);
      retry := answered + seconds as real * 1000.0;
      DelayedAnswer(rate, seconds, answered);
      TooLittle(rate, whole as real, retry, cost, limit);
    }
  }

  lemma TooLittle(rate: real, tokens: real, retry: real, cost: int, limit: int)
    requires tokens + Earned(rate, retry) < cost as real && retry >= 0.0
    ensures !Admits(RedisBucket.Lua(rate), Some(Entry(tokens, 0.0)), retry, cost, limit)
  {
  }

  lemma DelayedAnswer(rate: real, seconds: int, answered: real)
    requires seconds >= 1 && 0.0 < answered < 1000.0
    ensures GoRetryAfter(seconds as real * 1000.0, answered) == seconds
    ensures Earned(rate, answered + seconds as real * 1000.0)
         == Earned(rate, answered) + Earned(rate, seconds as real * 1000.0)
  {
    EarnedSum(rate, answered, seconds as real * 1000.0);
  }

  lemma ShortDelay(rate: real, missing: real) returns (delay: real)
    requires rate > 0.0 && missing > 0.0
    ensures 0.0 < delay < 1000.0 && Earned(rate, delay) < missing
  {
    delay := Min(500.0, 500.0 * missing / rate);
    QuotientBounds(500.0 * missing, rate, 0.0);
    QuotientBounds(500.0 * missing, rate, delay);
    assert delay * rate <= 500.0 * missing;
  }

  /** In REDIS mode the wait is long enough for every level and every delay if and only if, from each
      number of whole tokens below the cost, the seconds to full, at least one, earn the rest. */
  lemma GoRetryAfterInRedisExactly(rate: real, limit: int, cost: int)
    requires rate > 0.0 && 0 <= cost <= limit
    ensures RedisWaitSuffices(rate, limit, cost) <==> EveryShortestWaitEarns(rate, limit, cost)
  {
    if EveryShortestWaitEarns(rate, limit, cost) {
      forall tokens: real, now: real, base: real, answered: real, retry: real |
        0.0 <= tokens < cost as real && WaitedAsRedisTold(rate, limit, tokens, now, base, answered, retry)
        ensures Admits(RedisBucket.Lua(rate), Some(Entry(tokens, now)), retry, cost, limit)
      {
        RedisWaitEarns(rate, limit, cost, tokens, now, base, answered, retry);
      }
    } else {
      var whole :| 0 <= whole < cost
                   && whole as real + Earned(rate, ShortestWait(rate, limit, whole) as real * 1000.0) < cost as real;
      var answered, retry := TooShortARedisWait(rate, limit, cost, whole);
    }
  }

  lemma ShortestWaitEarns(rate: real, limit: int, cost: int, whole: int)
    requires rate > 0.0 && 0 <= whole < cost <= limit
    requires (limit - cost) as real >= rate || cost as real <= rate
    ensures whole as real + Earned(rate, ShortestWait(rate, limit, whole) as real * 1000.0) >= cost as real
  {
    var seconds := SecondsToFull(rate, limit, whole) as real * 1000.0;
    var wait := ShortestWait(rate, limit, whole) as real * 1000.0;
    TruncatedEarnsAlmost(rate, (limit - whole) as real);
    EarnedMonotone(rate, seconds, wait);
    EarnedMonotone(rate, 1000.0, wait);
    EarnedWhole(rate, 1);
    EnoughIsEarned(rate, Earned(rate, seconds), Earned(rate, wait), whole, cost, limit);
  }

  lemma EnoughIsEarned(rate: real, truncated: real, earned: real, whole: int, cost: int, limit: int)
    requires truncated > (limit - whole) as real - rate && earned >= truncated && earned >= rate && whole >= 0
    requires (limit - cost) as real >= rate || cost as real <= rate
    ensures whole as real + earned >= cost as real
  {
  }

  /** Where the wait suffices in memory, it suffices in REDIS mode. */
  lemma InMemoryConditionSufficesInRedis(rate: real, limit: int, cost: int)
    requires rate > 0.0 && 0 <= cost <= limit && GoWaitSuffices(rate, limit, cost)
    ensures RedisWaitSuffices(rate, limit, cost)
  {
    GoRetryAfterExactly(rate, limit, cost);
    forall whole | 0 <= whole < cost
      ensures whole as real + Earned(rate, ShortestWait(rate, limit, whole) as real * 1000.0) >= cost as real
    {
      ShortestWaitEarns(rate, limit, cost, whole);
    }
    GoRetryAfterInRedisExactly(rate, limit, cost);
  }

  /** For the unit cost every request carries, it fails in REDIS mode only for a limit of one that
      takes more than a second, and not a whole number of seconds, to refill. */
  lemma GoRetryAfterInRedisForUnitCost(rate: real, limit: int)
    requires rate > 0.0 && limit >= 1
    ensures RedisWaitSuffices(rate, limit, 1)
       <==> limit >= 2 || rate >= 1.0 || rate * (1.0 / rate).Floor as real == 1.0
  {
    GoRetryAfterInRedisExactly(rate, limit, 1);
    if limit >= 2 || rate >= 1.0 {
      GoRetryAfterForUnitCost(rate, limit);
      InMemoryConditionSufficesInRedis(rate, limit, 1);
    } else {
      LimitOfOne(rate);
    }
  }

  lemma LimitOfOne(rate: real)
    requires 0.0 < rate < 1.0
    ensures EveryShortestWaitEarns(rate, 1, 1) <==> rate * (1.0 / rate).Floor as real == 1.0
  {
    var seconds := (1.0 / rate).Floor;
    QuotientBounds(1.0, rate, 1.0);
    QuotientBounds(1.0, rate, seconds as real);
    assert ShortestWait(rate, 1, 0) == seconds;
    assert rate * seconds as real <= 1.0;
    EarnedWhole(rate, seconds);
    OneWhole(rate);
  }

  lemma OneWhole(rate: real)
    requires rate > 0.0
    ensures EveryShortestWaitEarns(rate, 1, 1) <==> Earned(rate, ShortestWait(rate, 1, 0) as real * 1000.0) >= 1.0
  {
    if EveryShortestWaitEarns(rate, 1, 1) {
      assert 0 as real + Earned(rate, ShortestWait(rate, 1, 0) as real * 1000.0) >= 1 as real;
    }
  }

  /** The script itself: a client denied in REDIS mode that waits as told is admitted. */
  lemma GoRetryAfterSufficesInRedis(rate: real, slot: Slot, now: real, cost: int, limit: int, base: real,
                                    answered: real, retry: real)
    requires rate > 0.0 && 0 <= cost <= limit && !Admits(RedisBucket.Lua(rate), slot, now, cost, limit)
    requires slot.Some? ==> slot.value.tokens >= 0.0
    requires EveryShortestWaitEarns(rate, limit, cost)
    requires var slot' := RedisBucket.KeyStep(rate, limit, slot, RedisBucket.Eval(now, cost));
             WaitedAsRedisTold(rate, limit, slot'.value.tokens, now, base, answered, retry)
    ensures var slot' := RedisBucket.KeyStep(rate, limit, slot, RedisBucket.Eval(now, cost));
            Admits(RedisBucket.Lua(rate), slot', retry, cost, limit)
  {
    var e := RedisBucket.KeyStep(rate, limit, slot, RedisBucket.Eval(now, cost)).value;
    if slot.Some? {
      EarnedMonotone(rate, 0.0, Elapsed(RedisBucket.Lua(rate), slot.value.lastRefill, now));
    }
    RedisWaitEarns(rate, limit, cost, e.tokens, now, base, answered, retry);
  }
}
