/** The TypeScript in-memory store (backend/src/throttle/fallback/local-bucket.fallback.ts). */
module TsLocalBucket {
  import opened Numbers
  import opened TokenBucket
  import opened BucketStore

  datatype ThrottleResult = ThrottleResult(allowed: bool, remaining: int, resetAt: real)

  /** Whole seconds, rounded up, until `needed` more tokens are earned. */
  function EarnedAt(rate: real, now: real, needed: real): real
    requires rate > 0.0
  {
    now + Ceil(needed / rate) as real * 1000.0
  }

  /** The reset time is the first whole second at which `needed` more tokens are earned. */
  lemma EarnedExactly(rate: real, now: real, needed: real)
    requires rate > 0.0
    ensures var resetAt := EarnedAt(rate, now, needed);
            && WholeSecondsLater(now, resetAt)
            && rate * ((resetAt - now) / 1000.0 - 1.0) < needed <= rate * ((resetAt - now) / 1000.0)
  {
    var seconds := Ceil(needed / rate);
    QuotientBounds(needed, rate, seconds as real);
    QuotientBounds(needed, rate, seconds as real - 1.0);
  }

  /** What a call is told that has left the bucket as `e`: a denied one, the first whole second at which it
      would be admitted; an admitted one, the first at which the bucket is full again. */
  ghost predicate TellsWhen(p: Params, e: Entry, cost: int, limit: int, allowed: bool, resetAt: real) {
    && WholeSecondsLater(e.lastRefill, resetAt)
    && (!allowed && cost <= limit ==>
          Admits(p, Some(e), resetAt, cost, limit) && !Admits(p, Some(e), resetAt - 1000.0, cost, limit))
    && (allowed && cost >= 0 ==>
          && Level(p, Some(e), resetAt, limit) == limit as real
          && (resetAt > e.lastRefill ==> Level(p, Some(e), resetAt - 1000.0, limit) < limit as real))
  }

  lemma ResetIsExact(p: Params, e: Entry, cost: int, limit: int, allowed: bool)
    requires p.rate > 0.0 && p.clamped
    requires if allowed then cost < 0 || e.tokens <= limit as real else e.tokens < cost as real
    ensures TellsWhen(p, e, cost, limit, allowed,
                      EarnedAt(p.rate, e.lastRefill, (if allowed then limit else cost) as real - e.tokens))
  {
    var needed := (if allowed then limit else cost) as real - e.tokens;
    var resetAt := EarnedAt(p.rate, e.lastRefill, needed);
    EarnedExactly(p.rate, e.lastRefill, needed);
    EarnedInSeconds(p.rate, resetAt - e.lastRefill);
    EarnedInSeconds(p.rate, resetAt - 1000.0 - e.lastRefill);
    EarnedInSeconds(p.rate, 0.0);
  }

  lemma EarnedInSeconds(rate: real, ms: real)
    ensures Earned(rate, ms) == rate * (ms / 1000.0)
  {
  }

  /** What an entry has at `now`, by its own date: it refills forwards only. */
  function Available(rate: real, e: Entry, now: real): real {
    e.tokens + if now < e.lastRefill then 0.0 else rate * (now - e.lastRefill) / 1000.0
  }

  lemma LevelIsAvailable(p: Params, e: Entry, now: real, limit: int)
    requires p.clamped
    ensures Level(p, Some(e), now, limit) == Min(limit as real, Available(p.rate, e, now))
  {
    EarnedSum(p.rate, 0.0, 0.0);
  }

  /** The answer to a call, in the words of the run. */
  ghost predicate Answers(p: Params, store: Store, id: string, now: real, cost: int, limit: int, r: ThrottleResult)
    requires p.rate > 0.0
  {
    var after := StoreStep(p, store, StoreEvent.Consume(id, now, cost, limit))[id];
    && r.allowed == Admits(p, Lookup(store, id), now, cost, limit)
    && r.remaining == after.tokens.Floor
    && r.resetAt == EarnedAt(p.rate, now, (if r.allowed then limit else cost) as real - after.tokens)
  }

  /** The same without them: a stored entity is admitted by what it has, a new one up to its limit, and either
      is told exactly when to come back. */
  lemma AnswersMean(p: Params, store: Store, id: string, now: real, cost: int, limit: int, r: ThrottleResult)
    requires p.rate > 0.0 && p.clamped && Answers(p, store, id, now, cost, limit, r)
    ensures r.allowed <==> cost <= limit && (id in store ==> cost as real <= Available(p.rate, store[id], now))
    ensures TellsWhen(p, StoreStep(p, store, StoreEvent.Consume(id, now, cost, limit))[id], cost, limit, r.allowed,
                      r.resetAt)
  {
    if id in store {
      LevelIsAvailable(p, store[id], now, limit);
    }
    ResetIsExact(p, StoreStep(p, store, StoreEvent.Consume(id, now, cost, limit))[id], cost, limit, r.allowed);
  }

  function Refilled(rate: real, bucket: Entry, now: real, limit: int): Entry {
    var elapsed := if now < bucket.lastRefill then 0.0 else now - bucket.lastRefill;
    Entry(Min(limit as real, bucket.tokens + Earned(rate, elapsed)), now)
  }

  /** A new bucket is full, so refilling it changes nothing. */
  lemma RefillIsLevel(p: Params, store: Store, id: string, now: real, limit: int)
    requires p.clamped
    ensures Refilled(p.rate, if id in store then store[id] else Entry(limit as real, now), now, limit)
         == Entry(Level(p, Lookup(store, id), now, limit), now)
  {
    EarnedSum(p.rate, 0.0, 0.0);
  }

  class LocalBucketFallback {
    var buckets: map<string, Entry>
    const refillRate: real
    ghost var log: seq<StoreEvent>

    ghost function P(): Params {
      Params(refillRate, true, IdleAtLeast)
    }

    ghost predicate Valid()
      reads this
    {
      refillRate > 0.0 && buckets == Contents(P(), log)
    }

    constructor (refillRate: real)
      requires refillRate > 0.0
      ensures Valid() && this.refillRate == refillRate && log == [] && buckets == map[]
    {
      this.refillRate := refillRate;
      buckets := map[];
      log := [];
    }

    method Consume(entityId: string, cost: int, limit: int, now: real) returns (r: ThrottleResult)
      requires Valid()
      modifies this
      ensures Valid() && log == old(log) + [StoreEvent.Consume(entityId, now, cost, limit)]
      ensures buckets == StoreStep(P(), old(buckets), StoreEvent.Consume(entityId, now, cost, limit))
      ensures r.allowed == Admits(P(), Lookup(old(buckets), entityId), now, cost, limit)
      ensures entityId in buckets && r.remaining == buckets[entityId].tokens.Floor
      ensures r.resetAt
             == EarnedAt(refillRate, now, (if r.allowed then limit else cost) as real - buckets[entityId].tokens)
      ensures r.allowed <==>
                cost <= limit &&
                (entityId in old(buckets) ==> cost as real <= Available(refillRate, old(buckets)[entityId], now))
      ensures TellsWhen(P(), buckets[entityId], cost, limit, r.allowed, r.resetAt)
    {
      r := Take(entityId, cost, limit, now);
      AnswersMean(P(), old(buckets), entityId, now, cost, limit, r);
    }

    method Take(entityId: string, cost: int, limit: int, now: real) returns (r: ThrottleResult)
      requires Valid()
      modifies this
      ensures Valid() && log == old(log) + [StoreEvent.Consume(entityId, now, cost, limit)]
      ensures buckets == StoreStep(P(), old(buckets), StoreEvent.Consume(entityId, now, cost, limit))
      ensures Answers(P(), old(buckets), entityId, now, cost, limit, r)
    {
      ContentsOfLonger(P(), log, StoreEvent.Consume(entityId, now, cost, limit));
      log := log + [StoreEvent.Consume(entityId, now, cost, limit)];

      var bucket: Entry;
      if entityId in buckets {
        bucket := buckets[entityId];
      } else {
        bucket := Entry(limit as real, now);
      }
      RefillIsLevel(P(), buckets, entityId, now, limit);
      bucket := Refilled(refillRate, bucket, now, limit);
      if bucket.tokens < cost as real {
        buckets := buckets[entityId := bucket];
        return ThrottleResult(false, bucket.tokens.Floor, EarnedAt(refillRate, now, cost as real - bucket.tokens));
      }

      bucket := bucket.(tokens := bucket.tokens - cost as real);
      buckets := buckets[entityId := bucket];
      return ThrottleResult(true, bucket.tokens.Floor, EarnedAt(refillRate, now, limit as real - bucket.tokens));
    }

    method GetSnapshot(now: real) returns (snap: map<string, real>)
      requires Valid()
      modifies this
      ensures Valid() && log == old(log) + [StoreEvent.Snapshot(now)]
      ensures buckets == Fresh(P(), old(buckets), now) && snap == Reported(P(), old(buckets), now)
      ensures forall id :: id in buckets <==> id in old(buckets) && now - old(buckets)[id].lastRefill < 3600000.0
      ensures forall id | id in buckets :: buckets[id] == old(buckets)[id]
      ensures snap.Keys == buckets.Keys && forall id | id in snap :: snap[id] == buckets[id].tokens
    {
      ContentsOfLonger(P(), log, StoreEvent.Snapshot(now));
      log := log + [StoreEvent.Snapshot(now)];

      snap := map[];
      var cutoff := now - TTL;
      var todo := buckets.Keys;
      while todo != {}
        invariant log == old(log) + [StoreEvent.Snapshot(now)] && todo <= old(buckets).Keys
        invariant forall id ::
                    id in buckets <==> id in old(buckets) && (id in todo || !Stale(P(), old(buckets)[id], now))
        invariant forall id :: id in snap <==> id in old(buckets) && id !in todo && !Stale(P(), old(buckets)[id], now)
        invariant forall id | id in buckets :: buckets[id] == old(buckets)[id]
        invariant forall id | id in snap :: snap[id] == old(buckets)[id].tokens
        decreases todo
      {
        var entityId :| entityId in todo;
        todo := todo - {entityId};
        if buckets[entityId].lastRefill > cutoff {
          snap := snap[entityId := buckets[entityId].tokens];
        } else {
          buckets := buckets - {entityId};
        }
      }
      assert buckets == Fresh(P(), old(buckets), now);
    }

    method MergePeerSnapshot(peerSnap: map<string, real>)
      requires Valid()
      modifies this
      ensures Valid() && log == old(log) + [StoreEvent.MergePeer(peerSnap)]
      ensures buckets == Merged(old(buckets), peerSnap)
      ensures buckets.Keys == old(buckets).Keys
      ensures forall id | id in buckets ::
                && buckets[id].lastRefill == old(buckets)[id].lastRefill
                && buckets[id].tokens == if id in peerSnap && peerSnap[id] < old(buckets)[id].tokens
                                         then peerSnap[id] else old(buckets)[id].tokens
    {
      ContentsOfLonger(P(), log, StoreEvent.MergePeer(peerSnap));
      log := log + [StoreEvent.MergePeer(peerSnap)];

      var todo := peerSnap.Keys;
      while todo != {}
        invariant log == old(log) + [StoreEvent.MergePeer(peerSnap)] && todo <= peerSnap.Keys
        invariant buckets.Keys == old(buckets).Keys
        invariant forall id | id in buckets ::
                    buckets[id] == if id in peerSnap && id !in todo
                                   then old(buckets)[id].(tokens := Min(old(buckets)[id].tokens, peerSnap[id]))
                                   else old(buckets)[id]
        decreases todo
      {
        var entityId :| entityId in todo;
        todo := todo - {entityId};
        if entityId in buckets {
          var local := buckets[entityId];
          buckets := buckets[entityId := local.(tokens := Min(local.tokens, peerSnap[entityId]))];
        }
      }
      assert buckets == Merged(old(buckets), peerSnap);
    }
  }
}
