/** The whole-run theorems, read on the log of a store that serves many entities and evicts. */
module StoreRuns {
  import opened Numbers
  import opened Sequences
  import opened TokenBucket
  import opened BucketRuns
  import opened BucketStore
  import RedisBucket

  /** The operations of one entity: sane, on a monotone clock, under limits an idle hour refills. */
  predicate WellTimed(p: Params, log: seq<StoreEvent>, id: string, now: real, limit: int) {
    var tr := Projection(log, id);
    && Sane(tr) && Ordered(tr) && RefilledWithinTTL(p, tr)
    && limit as real <= Earned(p.rate, TTL)
    && UpTo(tr, now)
  }

  /** A store that interleaves entities, merges gossip and evicts idle entries admits a request if
      and only if the entity's own past does: it fits the limit, and every suffix of the entity's
      operations stays within the line its first event drew. */
  lemma StoreDecidesExactly(p: Params, log: seq<StoreEvent>, id: string, now: real, cost: int, limit: int)
    requires p.rate >= 0.0 && WellTimed(p, log, id, now, limit)
    ensures Admits(p, Lookup(Contents(p, log), id), now, cost, limit) <==>
              cost <= limit && EverySuffixFits(Forever(p), Projection(log, id), now, cost)
  {
    var tr := Projection(log, id);
    EntitiesDoNotInterfere(p, log, id);
    EvictionIsInvisible(p, tr, now, limit);
    AdmittedIffEverySuffixFits(Forever(p), tr, now, cost, limit);
  }

  /** The cost such a store admits for an entity from one of its calls on: never more than that
      call's limit plus what the time since earned. */
  lemma StoreIsRegulated(p: Params, log: seq<StoreEvent>, id: string, i: nat)
    requires p.rate >= 0.0 && Sane(Projection(log, id)) && Ordered(Projection(log, id))
    requires RefilledWithinTTL(p, Projection(log, id))
    requires i < |Projection(log, id)| && Projection(log, id)[i].Call?
    ensures var tr := Projection(log, id);
            Fits(p.rate, tr[i].limit as real, LastCall(tr) - tr[i].now, Spent(p, tr, 0) - Spent(p, tr[..i], 0))
  {
    EntityIsRegulated(p, Projection(log, id), i);
  }

  lemma EntityIsRegulated(p: Params, tr: seq<Event>, i: nat)
    requires p.rate >= 0.0 && Sane(tr) && Ordered(tr) && RefilledWithinTTL(p, tr) && i < |tr| && tr[i].Call?
    ensures Fits(p.rate, tr[i].limit as real, LastCall(tr) - tr[i].now, Spent(p, tr, 0) - Spent(p, tr[..i], 0))
  {
    SpentSinceIsUnevicted(p, tr, i);
    AdmittedCostIsRegulated(Forever(p), tr, i);
  }

  lemma SpentSinceIsUnevicted(p: Params, tr: seq<Event>, i: nat)
    requires p.rate >= 0.0 && Sane(tr) && Ordered(tr) && RefilledWithinTTL(p, tr) && i <= |tr|
    ensures Spent(p, tr, 0) - Spent(p, tr[..i], 0) == Spent(Forever(p), tr, i)
  {
    EvictionNeverChangesTheTotal(p, tr);
    PrefixStaysSane(tr, i);
    EvictionNeverChangesTheTotal(p, tr[..i]);
    SpentSplits(Forever(p), tr, i);
  }

  // ---------------------------------------------------------------------------------------------
  // Gossip and optimality
  // ---------------------------------------------------------------------------------------------

  /** What the store has admitted for an entity. */
  function AdmittedFor(p: Params, log: seq<StoreEvent>, id: string): int {
    Spent(p, Projection(log, id), 0)
  }

  /** The same log, had no peer ever been heard. */
  function WithoutMerges(log: seq<StoreEvent>): seq<StoreEvent> {
    if log == [] then [] else WithoutMerges(Prefix(log)) + if Last(log).MergePeer? then [] else [Last(log)]
  }

  lemma ProjectionOfLonger(log: seq<StoreEvent>, ev: StoreEvent, id: string)
    ensures Projection(log + [ev], id) == Projection(log, id) + Share(ev, id)
  {
    assert (log + [ev])[..|log|] == log;
  }

  lemma {:induction false} ProjectionWithoutMerges(log: seq<StoreEvent>, id: string)
    ensures Projection(WithoutMerges(log), id) == Unmerged(Projection(log, id))
  {
    if log != [] {
      var pre, ev := Prefix(log), Last(log);
      ProjectionWithoutMerges(pre, id);
      ShareUnmerged(Projection(pre, id), ev, id);
      if ev.MergePeer? {
        assert WithoutMerges(log) == WithoutMerges(pre);
      } else {
        ProjectionOfLonger(WithoutMerges(pre), ev, id);
      }
    }
  }

  lemma ShareUnmerged(tr: seq<Event>, ev: StoreEvent, id: string)
    ensures Unmerged(tr + Share(ev, id)) == Unmerged(tr) + if ev.MergePeer? then [] else Share(ev, id)
  {
    if Share(ev, id) == [] {
      assert tr + [] == tr;
    } else {
      assert Prefix(tr + Share(ev, id)) == tr;
    }
  }

  /** A store that hears its peers, evicts and serves other entities in between never admits more for
      an entity whose calls share a cost than the same store that hears no peer, under any clock. */
  lemma GossipNeverAdmitsMore(p: Params, log: seq<StoreEvent>, id: string, c: int)
    requires c >= 0 && CommonCost(Projection(log, id), c)
    ensures AdmittedFor(p, log, id) <= AdmittedFor(p, WithoutMerges(log), id)
  {
    ProjectionWithoutMerges(log, id);
    MergingNeverAdmitsMore(p, Projection(log, id), c);
  }

  /** Without gossip, no selection of the entity's unit calls that respects every window admits more
      than such a store does, whatever it evicts. */
  lemma StoreAdmitsMost(p: Params, log: seq<StoreEvent>, id: string, d: seq<bool>)
    requires WithoutMerges(log) == log
    requires var calls := CallsOf(Projection(log, id));
             && UnitCalls(calls) && |d| == |calls| && Feasible(Forever(p), calls, d)
             && (p.clamped ==> MonotoneCalls(calls))
    ensures Picked(d, 0) <= AdmittedFor(p, log, id)
  {
    var tr := Projection(log, id);
    ProjectionWithoutMerges(log, id);
    UnmergedKeepsTheCalls(tr);
    UnitCallsShareCost(tr);
    KeepingNeverAdmitsMore(p, tr, 1);
    SweepsCostNothing(Forever(p), tr);
    BucketAdmitsMost(Forever(p), CallsOf(tr), d);
  }

  // ---------------------------------------------------------------------------------------------
  // The Redis server is such a store too
  // ---------------------------------------------------------------------------------------------

  function RedisParams(rate: real): Params {
    Params(rate, true, IdleAtLeast)
  }

  /** What the server's log means to one entity's bucket: removals are sweeps on the server's clock. */
  function TraceOfKey(start: real, log: seq<RedisBucket.Command>, id: string): seq<Event> {
    if log == [] then []
    else
      TraceOfKey(start, Prefix(log), id)
      + match Last(log)
        case Script(other, limit, _, now, cost) => if other == id then [Call(now, cost, limit)] else []
        case Remove(other) => if other == id then [Sweep(RedisBucket.ClockAfter(start, Prefix(log)))] else []
        case _ => []
  }

  /** The callers read the server's clock, all at one rate, and no key is seeded. */
  predicate InStep(start: real, rate: real, log: seq<RedisBucket.Command>) {
    log == [] ||
    (&& InStep(start, rate, Prefix(log)) && !Last(log).Write?
     && (Last(log).Script? ==>
           Last(log).rate == rate && Last(log).now == RedisBucket.ClockAfter(start, Prefix(log))))
  }

  /** A key then is the bucket that drops entries idle for an hour. */
  lemma {:induction false} KeyIsABucket(start: real, rate: real, log: seq<RedisBucket.Command>, id: string)
    requires RedisBucket.Lawful(start, log) && InStep(start, rate, log)
    ensures RedisBucket.KeyAfter(log, id) == Run(RedisParams(rate), TraceOfKey(start, log, id))
    ensures var slot, deadline := RedisBucket.KeyAfter(log, id), RedisBucket.DeadlineAfter(start, log, id);
            (slot.Some? <==> deadline.Some?) && (slot.Some? ==> deadline.value == slot.value.lastRefill + TTL)
  {
    if log != [] {
      KeyIsABucket(start, rate, Prefix(log), id);
      var before, tr := TraceOfKey(start, Prefix(log), id), TraceOfKey(start, log, id);
      if tr != before {
        assert Prefix(tr) == before;
      }
    }
  }

  /** The Redis server and an in-memory store that have seen the same calls for an entity offer its next
      call the same level, each with its own evictions and whatever they did for other entities. */
  lemma RedisAgreesWithTheStore(p: Params, start: real, redis: seq<RedisBucket.Command>, log: seq<StoreEvent>,
                                id: string,
                                now: real, limit: int)
    requires p.rate >= 0.0 && RedisBucket.Lawful(start, redis) && InStep(start, p.rate, redis)
    requires var tr, tr' := TraceOfKey(start, redis, id), Projection(log, id);
             && CallsOf(tr) == CallsOf(tr') && MergeFree(tr) && MergeFree(tr')
             && Sane(tr) && Ordered(tr) && RefilledWithinTTL(p, tr) && UpTo(tr, now)
             && Sane(tr') && Ordered(tr') && RefilledWithinTTL(p, tr') && UpTo(tr', now)
    requires limit as real <= Earned(p.rate, TTL)
    ensures Level(RedisBucket.Lua(p.rate), RedisBucket.KeyAfter(redis, id), now, limit)
         == Level(p, Lookup(Contents(p, log), id), now, limit)
  {
    KeyIsABucket(start, p.rate, redis, id);
    EntitiesDoNotInterfere(p, log, id);
    StoresAgree(RedisParams(p.rate), p, TraceOfKey(start, redis, id), Projection(log, id), now, limit);
  }
}
