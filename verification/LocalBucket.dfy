/** The Go in-memory store (go-throttle/throttle/local_bucket.go). */
module GoLocalBucket {
  import opened Numbers
  import opened TokenBucket
  import opened BucketStore

  datatype ConsumeResult = ConsumeResult(allowed: bool, remaining: int, resetAt: real)

  /** Whole seconds, truncated, until a bucket holding `tokens` is full again. */
  function FullAgainAt(rate: real, now: real, limit: int, tokens: real): real
    requires rate > 0.0
  {
    now + Trunc((limit as real - tokens) / rate) as real * 1000.0
  }

  /** A new bucket is full, so refilling it changes nothing. */
  lemma RefillIsLevel(p: Params, store: Store, id: string, now: real, limit: int)
    requires !p.clamped
    ensures var e := if id in store then store[id] else Entry(limit as real, now);
            Min(limit as real, e.tokens + Earned(p.rate, now - e.lastRefill)) == Level(p, Lookup(store, id), now, limit)
  {
    EarnedSum(p.rate, 0.0, 0.0);
  }

  /** The reset time is the last whole second at which the bucket is not yet more than full. */
  lemma FullAgainExactly(rate: real, now: real, limit: int, tokens: real)
    requires rate > 0.0 && tokens <= limit as real
    ensures var resetAt := FullAgainAt(rate, now, limit, tokens);
            && WholeSecondsLater(now, resetAt)
            && tokens + rate * ((resetAt - now) / 1000.0) <= limit as real
            && limit as real < tokens + rate * ((resetAt - now) / 1000.0 + 1.0)
  {
    var need := limit as real - tokens;
    var seconds := Trunc(need / rate);
    QuotientBounds(need, rate, 0.0);
    QuotientBounds(need, rate, seconds as real);
    QuotientBounds(need, rate, seconds as real + 1.0);
  }

  /** The decision, without the words of the run: an entry refills by its own date, and a new one is full. */
  lemma AdmitsLiterally(p: Params, store: Store, id: string, now: real, cost: int, limit: int)
    requires !p.clamped
    ensures Admits(p, Lookup(store, id), now, cost, limit) <==> cost <= limit && (id in store ==>
              cost as real <= store[id].tokens + p.rate * (now - store[id].lastRefill) / 1000.0)
  {
  }

  class LocalBucket {
    var buckets: map<string, Entry>
    const refillRate: real
    ghost var log: seq<StoreEvent>

    ghost function P(): Params {
      Params(refillRate, false, IdleOver)
    }

    ghost predicate Valid()
      reads this
    {
      refillRate > 0.0 && buckets == Contents(P(), log)
    }

    constructor (refillRate: real)
      requires refillRate > 0.0
      ensures Valid() && this.refillRate == refillRate && log == [] && buckets == map[]
    {
      this.refillRate := refillRate;
      buckets := map[];
      log := [];
    }

    method Consume(entityID: string, cost: int, limit: int, now: real) returns (r: ConsumeResult)
      requires Valid()
      modifies this
      ensures Valid() && log == old(log) + [StoreEvent.Consume(entityID, now, cost, limit)]
      ensures buckets == StoreStep(P(), old(buckets), StoreEvent.Consume(entityID, now, cost, limit))
      ensures r.allowed == Admits(P(), Lookup(old(buckets), entityID), now, cost, limit)
      ensures entityID in buckets && r.remaining == Trunc(buckets[entityID].tokens)
      ensures r.resetAt == FullAgainAt(refillRate, now, limit, buckets[entityID].tokens)
      ensures r.allowed <==> cost <= limit && (entityID in old(buckets) ==>
                var e := old(buckets)[entityID];
                cost as real <= e.tokens + refillRate * (now - e.lastRefill) / 1000.0)
    {
      AdmitsLiterally(P(), buckets, entityID, now, cost, limit);
      r := Take(entityID, cost, limit, now);
    }

    method Take(entityID: string, cost: int, limit: int, now: real) returns (r: ConsumeResult)
      requires Valid()
      modifies this
      ensures Valid() && log == old(log) + [StoreEvent.Consume(entityID, now, cost, limit)]
      ensures buckets == StoreStep(P(), old(buckets), StoreEvent.Consume(entityID, now, cost, limit))
      ensures r.allowed == Admits(P(), Lookup(old(buckets), entityID), now, cost, limit)
      ensures entityID in buckets && r.remaining == Trunc(buckets[entityID].tokens)
      ensures r.resetAt == FullAgainAt(refillRate, now, limit, buckets[entityID].tokens)
    {
      ContentsOfLonger(P(), log, StoreEvent.Consume(entityID, now, cost, limit));
      log := log + [StoreEvent.Consume(entityID, now, cost, limit)];

      var e := if entityID in buckets then buckets[entityID] else Entry(limit as real, now);
      var elapsed := now - e.lastRefill;
      e := Entry(Min(limit as real, e.tokens + Earned(refillRate, elapsed)), now);
      RefillIsLevel(P(), buckets, entityID, now, limit);
      if e.tokens < cost as real {
        buckets := buckets[entityID := e];
        return ConsumeResult(false, Trunc(e.tokens), FullAgainAt(refillRate, now, limit, e.tokens));
      }

      e := e.(tokens := e.tokens - cost as real);
      buckets := buckets[entityID := e];
      return ConsumeResult(true, Trunc(e.tokens), FullAgainAt(refillRate, now, limit, e.tokens));
    }

    method Snapshot(now: real) returns (snap: map<string, real>)
      requires Valid()
      modifies this
      ensures Valid() && log == old(log) + [StoreEvent.Snapshot(now)]
      ensures buckets == Fresh(P(), old(buckets), now) && snap == Reported(P(), old(buckets), now)
      ensures forall id :: id in buckets <==> id in old(buckets) && now - old(buckets)[id].lastRefill <= 3600000.0
      ensures forall id | id in buckets :: buckets[id] == old(buckets)[id]
      ensures snap.Keys == buckets.Keys && forall id | id in snap :: snap[id] == buckets[id].tokens
    {
      ContentsOfLonger(P(), log, StoreEvent.Snapshot(now));
      log := log + [StoreEvent.Snapshot(now)];

      var cutoff := now - TTL;
      snap := map[];
      var todo := buckets.Keys;
      while todo != {}
        invariant log == old(log) + [StoreEvent.Snapshot(now)] && todo <= old(buckets).Keys
        invariant forall id ::
                    id in buckets <==> id in old(buckets) && (id in todo || !Stale(P(), old(buckets)[id], now))
        invariant forall id :: id in snap <==> id in old(buckets) && id !in todo && !Stale(P(), old(buckets)[id], now)
        invariant forall id | id in buckets :: buckets[id] == old(buckets)[id]
        invariant forall id | id in snap :: snap[id] == old(buckets)[id].tokens
        decreases todo
      {
        var id :| id in todo;
        todo := todo - {id};
        if buckets[id].lastRefill < cutoff {
          buckets := buckets - {id};
        } else {
          snap := snap[id := buckets[id].tokens];
        }
      }
      assert buckets == Fresh(P(), old(buckets), now);
    }

    method MergePeer(peerSnap: map<string, real>)
      requires Valid()
      modifies this
      ensures Valid() && log == old(log) + [StoreEvent.MergePeer(peerSnap)]
      ensures buckets == Merged(old(buckets), peerSnap)
      ensures buckets.Keys == old(buckets).Keys
      ensures forall id | id in buckets ::
                && buckets[id].lastRefill == old(buckets)[id].lastRefill
                && buckets[id].tokens == if id in peerSnap && peerSnap[id] < old(buckets)[id].tokens
                                         then peerSnap[id] else old(buckets)[id].tokens
    {
      ContentsOfLonger(P(), log, StoreEvent.MergePeer(peerSnap));
      log := log + [StoreEvent.MergePeer(peerSnap)];

      var todo := peerSnap.Keys;
      while todo != {}
        invariant log == old(log) + [StoreEvent.MergePeer(peerSnap)] && todo <= peerSnap.Keys
        invariant buckets.Keys == old(buckets).Keys
        invariant forall id | id in buckets ::
                    buckets[id] == if id in peerSnap && id !in todo
                                   then old(buckets)[id].(tokens := Min(old(buckets)[id].tokens, peerSnap[id]))
                                   else old(buckets)[id]
        decreases todo
      {
        var id :| id in todo;
        todo := todo - {id};
        if id in buckets {
          var e := buckets[id];
          buckets := buckets[id := e.(tokens := Min(e.tokens, peerSnap[id]))];
        }
      }
      assert buckets == Merged(old(buckets), peerSnap);
    }
  }
}
