/** The Go manager and its peer-sync loop (go-throttle/throttle/manager.go, peer_sync.go). */
module Manager {
  import opened Numbers
  import opened Sequences
  import opened CircuitBreaker
  import opened ManagerModel
  import TokenBucket
  import BucketStore
  import GoLocalBucket
  import RedisBucket
  import MySQLFlush

  datatype CheckResult = CheckResult(allowed: bool, remaining: int, resetAt: real, mode: ThrottleMode, entityID: string)

  /** What Redis does with one call. A failed call may still have run the script. */
  datatype Outcome = Answered | FailedBefore | FailedAfter

  /** Whether the script runs for a check: not when the circuit is open or another mode is on. */
  predicate ScriptRuns(cfg: Config, s: State, ev: Event, outcome: Outcome)
    requires ev.Check?
  {
    s.mode.Redis? && !ReadFirst(cfg, s, ev).state.Open? && !outcome.FailedBefore?
  }

  /** The entities whose keys a pipeline writes: all, or where it fails, those that have landed. */
  function Part(snap: map<string, real>, all: bool, ids: set<string>): map<string, real> {
    map id | id in snap && (all || id in ids) :: snap[id]
  }

  /** The result of a call to the in-memory bucket that turned `before` into `after`. */
  ghost predicate FromBucket(r: CheckResult, p: TokenBucket.Params, before: TokenBucket.Slot, after: TokenBucket.Slot,
                             now: real, cost: int, limit: int) {
    && p.rate > 0.0
    && after == TokenBucket.Step(p, before, TokenBucket.Call(now, cost, limit))
    && r.allowed == TokenBucket.Admits(p, before, now, cost, limit)
    && r.remaining == Trunc(after.value.tokens)
    && r.resetAt == GoLocalBucket.FullAgainAt(p.rate, now, limit, after.value.tokens)
  }

  /** The result of a call to Redis that turned the key's value `before` into `after`. */
  ghost predicate FromKey(r: CheckResult, rate: real, limit: int, before: TokenBucket.Slot, after: TokenBucket.Slot,
                          now: real, cost: int, answered: real) {
    && rate > 0.0
    && after == RedisBucket.KeyStep(rate, limit, before, RedisBucket.Eval(now, cost))
    && r.allowed == TokenBucket.Admits(RedisBucket.Lua(rate), before, now, cost, limit)
    && r.remaining == after.value.tokens.Floor
    && r.resetAt == answered + Trunc((limit - r.remaining) as real / rate) as real * 1000.0
  }

  /** A local answer: the decision on what the bucket holds, and the whole tokens that are left in it. */
  lemma LocalAnswerIsTrue(r: CheckResult, p: TokenBucket.Params, before: TokenBucket.Slot, after: TokenBucket.Slot,
                          now: real, cost: int, limit: int)
    requires FromBucket(r, p, before, after, now, cost, limit) && cost >= 0
    ensures var level := TokenBucket.Level(p, before, now, limit);
            && (r.allowed <==> cost as real <= level)
            && after == Some(TokenBucket.Entry(if r.allowed then level - cost as real else level, now))
            && (level >= 0.0 ==> r.remaining as real <= after.value.tokens < r.remaining as real + 1.0)
            && WholeSecondsLater(now, r.resetAt)
            && after.value.tokens + p.rate * ((r.resetAt - now) / 1000.0) <= limit as real
            && limit as real < after.value.tokens + p.rate * ((r.resetAt - now) / 1000.0 + 1.0)
  {
    GoLocalBucket.FullAgainExactly(p.rate, now, limit, after.value.tokens);
  }

  /** An answer from Redis: the same on the shared key. */
  lemma RedisAnswerIsTrue(r: CheckResult, rate: real, limit: int, before: TokenBucket.Slot, after: TokenBucket.Slot,
                          now: real, cost: int, answered: real)
    requires FromKey(r, rate, limit, before, after, now, cost, answered) && cost >= 0
    ensures var level := TokenBucket.Level(RedisBucket.Lua(rate), before, now, limit);
            && (r.allowed <==> cost as real <= level)
            && after == Some(TokenBucket.Entry(if r.allowed then level - cost as real else level, now))
            && r.remaining as real <= after.value.tokens < r.remaining as real + 1.0
            && WholeSecondsLater(answered, r.resetAt)
            && r.remaining as real + rate * ((r.resetAt - answered) / 1000.0) <= limit as real
            && limit as real < r.remaining as real + rate * ((r.resetAt - answered) / 1000.0 + 1.0)
  {
    GoLocalBucket.FullAgainExactly(rate, answered, limit, r.remaining as real);
  }

  /** What a recovered Redis offers an entity that a node has seeded from its entry `e`: less than one token
      less than the node held, and never more than the node itself would offer. */
  lemma RecoveryGrantsNothing(rate: real, e: TokenBucket.Entry, seedNow: real, at: real, limit: int)
    requires rate >= 0.0 && e.lastRefill <= seedNow <= at
    ensures var key := Some(TokenBucket.Entry(e.tokens.Floor as real, seedNow));
            && TokenBucket.Level(RedisBucket.Lua(rate), key, at, limit)
               <= TokenBucket.Level(TokenBucket.Params(rate, false, TokenBucket.IdleOver), Some(e), at, limit)
            && (e.tokens <= limit as real ==>
                  TokenBucket.Level(RedisBucket.Lua(rate), key, at, limit) > Min(limit as real, e.tokens) - 1.0)
  {
    EarnedMonotone(rate, at - seedNow, at - e.lastRefill);
    EarnedMonotone(rate, 0.0, at - seedNow);
  }

  class ThrottleManager {
    var mode: ThrottleMode
    var peerFailures: int
    const globalLimit: int
    const nodeCount: int
    const circuit: CircuitBreaker
    const redis: RedisBucket.RedisTokenBucket
    const local: GoLocalBucket.LocalBucket
    const mysql: MySQLFlush.MySQLFlusher?

    /** What has happened to this manager. */
    ghost var events: seq<Event>

    ghost function Cfg(): Config {
      Config(circuit.Config(), mysql != null, globalLimit, nodeCount)
    }

    ghost function Now(): State
      reads this, circuit, mysql
    {
      State(mode, peerFailures, circuit.Value(), mysql != null && mysql.running)
    }

    ghost predicate Wired()
      reads this, circuit, local, redis.rdb
    {
      && nodeCount > 0 && redis.refillRate > 0.0 && redis.globalLimit == globalLimit
      && circuit.Valid() && local.Valid() && redis.rdb.Valid()
    }

    ghost predicate Valid()
      reads this, circuit, local, redis.rdb, mysql
    {
      Wired() && Now() == After(Cfg(), START, events)
    }

    /** The invariant of the state machine, on the fields. */
    lemma InvariantHolds()
      requires Valid() && TripsArePrompt(Cfg(), events)
      ensures mode == Redis <==> circuit.Value().state == Closed
      ensures mode == Redis <==> RedisFailures(Cfg(), events) < Tripping(circuit.Config())
      ensures mode == Local ==> peerFailures >= PEER_FAILURE_LIMIT
      ensures mysql != null ==> (mysql.running <==> mode == Local)
    {
      InvariantOfEveryRun(Cfg(), events);
    }

    ghost method Record(ev: Event)
      requires Wired() && Now() == Step(Cfg(), After(Cfg(), START, events), ev)
      modifies `events
      ensures Valid() && events == old(events) + [ev]
    {
      assert (events + [ev])[..|events|] == events;
      events := events + [ev];
    }

    ghost function Key(id: string): TokenBucket.Slot
      reads redis.rdb
    {
      redis.rdb.Slot(id)
    }

    ghost function Bucket(id: string): TokenBucket.Slot
      reads local
    {
      BucketStore.Lookup(local.buckets, id)
    }

    constructor (globalLimit: int, nodeCount: int, circuit: CircuitBreaker, redis: RedisBucket.RedisTokenBucket,
                 local: GoLocalBucket.LocalBucket, mysql: MySQLFlush.MySQLFlusher?)
      requires nodeCount > 0 && circuit.Valid() && circuit.Value() == INITIAL && local.Valid()
      requires redis.refillRate > 0.0 && redis.globalLimit == globalLimit && redis.rdb.Valid()
      requires mysql != null ==> !mysql.running
      ensures Valid() && Now() == START && events == []
      ensures this.circuit == circuit && this.redis == redis && this.local == local && this.mysql == mysql
      ensures this.globalLimit == globalLimit && this.nodeCount == nodeCount
    {
      this.mode, this.peerFailures, this.events := Redis, 0, [];
      this.globalLimit, this.nodeCount := globalLimit, nodeCount;
      this.circuit, this.redis, this.local, this.mysql := circuit, redis, local, mysql;
    }

    method TransitionTo(newMode: ThrottleMode)
      modifies `mode, mysql
      ensures Now() == ManagerModel.TransitionTo(Cfg(), old(Now()), newMode)
    {
      if mode == newMode {
        return;
      }
      mode := newMode;
      if mysql != null {
        if newMode == Local {
          mysql.Start();
        } else {
          mysql.Stop();
        }
      }
    }

    method CheckLocal(entityID: string, cost: int, limit: int, now: real) returns (r: CheckResult)
      requires Wired()
      modifies local
      ensures Wired() && local.log == old(local.log) + [BucketStore.Consume(entityID, now, cost, limit)]
      ensures FromBucket(r, local.P(), old(Bucket(entityID)), Bucket(entityID), now, cost, limit)
      ensures r.mode == mode && r.entityID == entityID
    {
      var result := local.Consume(entityID, cost, limit, now);
      return CheckResult(result.allowed, result.remaining, result.resetAt, mode, entityID);
    }

    /** Serves one request. Redis's behaviour and every clock reading come from the environment:
        `ev` holds the circuit's readings, `now` the store's, `answered` the one at Redis's answer. */
    method Check(entityID: string, cost: int, ev: Event, outcome: Outcome, now: real, answered: real)
        returns (r: CheckResult)
      requires Valid() && ev.Check? && ev.answered == outcome.Answered?
      modifies this, circuit, redis.rdb`keys, redis.rdb`expireAt, redis.rdb`log, local, mysql
      ensures Valid() && events == old(events) + [ev]
      ensures Now() == ManagerModel.Step(Cfg(), old(Now()), ev) && r.entityID == entityID
      ensures match RouteOf(Cfg(), old(Now()), ev)
              case ViaRedis =>
                && r.mode == Redis && local.log == old(local.log)
                && FromKey(r, redis.refillRate, globalLimit, old(Key(entityID)), Key(entityID), now, cost, answered)
              case ViaLocal(limit) =>
                && r.mode == mode && local.log == old(local.log) + [BucketStore.Consume(entityID, now, cost, limit)]
                && FromBucket(r, local.P(), old(Bucket(entityID)), Bucket(entityID), now, cost, limit)
      ensures old(mode) == Peer ==>
                local.log == old(local.log) + [BucketStore.Consume(entityID, now, cost, globalLimit)]
      ensures old(mode) == Local ==>
                local.log == old(local.log) + [BucketStore.Consume(entityID, now, cost, globalLimit / nodeCount)]
      ensures old(mode) == Redis && r.mode != Redis ==>
                local.log == old(local.log) + [BucketStore.Consume(entityID, now, cost, globalLimit)]
      ensures forall id :: Key(id) == if id == entityID && ScriptRuns(Cfg(), old(Now()), ev, outcome)
                                      then RedisBucket.KeyStep(redis.refillRate, globalLimit, old(Key(id)),
                                                               RedisBucket.Eval(now, cost))
                                      else old(Key(id))
    {
      match mode {
        case Redis => r := CheckRedis(entityID, cost, ev, outcome, now, answered);
        case Peer => r := CheckLocal(entityID, cost, globalLimit, now);
        case Local =>
          var limit := globalLimit / nodeCount;
          r := CheckLocal(entityID, cost, limit, now);
      }
      Record(ev);
    }

    method CheckRedis(entityID: string, cost: int, ev: Event, outcome: Outcome, now: real, answered: real)
        returns (r: CheckResult)
      requires Wired() && mode == Redis && ev.Check? && ev.answered == outcome.Answered?
      modifies `mode, `peerFailures, circuit, redis.rdb`keys, redis.rdb`expireAt, redis.rdb`log, local, mysql
      ensures Wired() && Now() == ManagerModel.Step(Cfg(), old(Now()), ev) && r.entityID == entityID
      ensures if RouteOf(Cfg(), old(Now()), ev).ViaRedis? then
                && r.mode == Redis && local.log == old(local.log)
                && FromKey(r, redis.refillRate, globalLimit, old(Key(entityID)), Key(entityID), now, cost, answered)
              else
                && r.mode == mode
                && local.log == old(local.log) + [BucketStore.Consume(entityID, now, cost, globalLimit)]
                && FromBucket(r, local.P(), old(Bucket(entityID)), Bucket(entityID), now, cost, globalLimit)
      ensures forall id :: Key(id) == if id == entityID && ScriptRuns(Cfg(), old(Now()), ev, outcome)
                                      then RedisBucket.KeyStep(redis.refillRate, globalLimit, old(Key(id)),
                                                               RedisBucket.Eval(now, cost))
                                      else old(Key(id))
    {
      var state := circuit.State(ev.read);
      if state == Open {
        TransitionTo(Peer);
        r := CheckLocal(entityID, cost, globalLimit, now);
        return;
      }

      var answer := CallRedis(entityID, cost, outcome, now, answered);
      if answer.None? {
        HandleRedisError(ev);
        r := CheckLocal(entityID, cost, globalLimit, now);
        return;
      }

      var result := answer.value;
      circuit.RecordSuccess();
      peerFailures := 0;
      return CheckResult(result.allowed, result.remaining, result.resetAt, Redis, entityID);
    }

    /** A call to Redis, which may fail before or after the script has run. */
    method CallRedis(entityID: string, cost: int, outcome: Outcome, now: real, answered: real)
        returns (r: Option<RedisBucket.ConsumeResult>)
      requires redis.refillRate > 0.0 && redis.rdb.Valid()
      modifies redis.rdb`keys, redis.rdb`expireAt, redis.rdb`log
      ensures redis.rdb.Valid() && (r.Some? <==> outcome.Answered?)
      ensures r.Some? ==>
                FromKey(CheckResult(r.value.allowed, r.value.remaining, r.value.resetAt, Redis, entityID),
                        redis.refillRate, redis.globalLimit, old(Key(entityID)), Key(entityID), now, cost, answered)
      ensures forall id ::
                Key(id) == if id != entityID || outcome.FailedBefore? then old(Key(id))
                           else RedisBucket.KeyStep(redis.refillRate, redis.globalLimit, old(Key(id)),
                                                    RedisBucket.Eval(now, cost))
    {
      match outcome {
        case FailedBefore => r := None;
        case FailedAfter =>
          var _, _ := redis.rdb.RunScript(entityID, redis.globalLimit, redis.refillRate, now, cost);
          r := None;
        case Answered =>
          var result := redis.Consume(entityID, cost, now, answered);
          r := Some(result);
      }
    }

    /** The circuit counts a failed call, and may take the node to PEER mode. */
    method HandleRedisError(ev: Event)
      requires circuit.Valid() && ev.Check? && !ev.answered
      modifies `mode, circuit, mysql
      ensures circuit.Valid() && Now() == ManagerModel.Resolve(Cfg(), old(Now()), ev)
    {
      circuit.RecordFailure(ev.failed);
      var state := circuit.State(ev.reread);
      if state == Open {
        TransitionTo(Peer);
      }
    }

    method RecordPeerFailure()
      requires Valid()
      modifies this, mysql
      ensures Valid() && events == old(events) + [PeerFailure]
      ensures Now() == ManagerModel.Step(Cfg(), old(Now()), PeerFailure)
    {
      peerFailures := peerFailures + 1;
      if peerFailures >= PEER_FAILURE_LIMIT && mode == Peer {
        TransitionTo(Local);
      }
      Record(PeerFailure);
    }

    method RecordPeerSuccess()
      requires Valid()
      modifies this, mysql
      ensures Valid() && events == old(events) + [PeerSuccess]
      ensures Now() == ManagerModel.Step(Cfg(), old(Now()), PeerSuccess)
    {
      peerFailures := 0;
      if mode == Local {
        TransitionTo(Peer);
      }
      Record(PeerSuccess);
    }

    /** `pinged` and `seeded`: whether the ping and the pipeline succeed; a pipeline that fails may
        still have written the keys of `landed`. `seedNow`: the clock after the jitter. */
    method ProbeRedis(pinged: bool, seeded: bool, landed: set<string>, now: real, seedNow: real)
      requires Valid()
      modifies this, circuit, redis.rdb`keys, redis.rdb`expireAt, redis.rdb`log, local, mysql
      ensures Valid() && events == old(events) + [Probe(pinged && seeded)]
      ensures Now() == ManagerModel.Step(Cfg(), old(Now()), Probe(pinged && seeded))
      ensures old(mode) == Redis || !pinged ==> unchanged(redis.rdb) && unchanged(local)
      ensures old(mode) != Redis && pinged ==> local.log == old(local.log) + [BucketStore.Snapshot(now)]
      ensures forall id ::
                Key(id) == if && old(mode) != Redis && pinged && (seeded || id in landed) && id in old(local.buckets)
                              && now - old(local.buckets)[id].lastRefill <= 3600000.0
                           then Some(TokenBucket.Entry(old(local.buckets)[id].tokens.Floor as real, seedNow))
                           else old(Key(id))
    {
      if mode == Redis || !pinged {
        Record(Probe(pinged && seeded));
        return;
      }
      WarmUpRedis(seeded, landed, now, seedNow);
      if seeded {
        circuit.Reset();
        TransitionTo(Redis);
      }
      Record(Probe(pinged && seeded));
    }

    method WarmUpRedis(seeded: bool, landed: set<string>, now: real, seedNow: real)
      requires Wired()
      modifies redis.rdb`keys, redis.rdb`expireAt, redis.rdb`log, local
      ensures Wired() && local.log == old(local.log) + [BucketStore.Snapshot(now)]
      ensures forall id ::
                Key(id) == if && (seeded || id in landed) && id in old(local.buckets)
                              && now - old(local.buckets)[id].lastRefill <= 3600000.0
                           then Some(TokenBucket.Entry(old(local.buckets)[id].tokens.Floor as real, seedNow))
                           else old(Key(id))
    {
      var snap := local.Snapshot(now);
      redis.SeedFromSnapshot(Part(snap, seeded, landed), seedNow);
    }
  }

  /** The bodies that a round's peers have answered with, in order. */
  function Bodies(replies: seq<Option<map<string, real>>>): seq<map<string, real>> {
    if replies == [] then []
    else Bodies(Prefix(replies)) + if Last(replies).Some? then [Last(replies).value] else []
  }

  lemma {:induction false} BodiesAreTheAnswers(replies: seq<Option<map<string, real>>>, body: map<string, real>)
    ensures body in Bodies(replies) <==> exists i :: 0 <= i < |replies| && replies[i] == Some(body)
  {
    if replies != [] {
      BodiesAreTheAnswers(Prefix(replies), body);
      assert replies[|replies| - 1] == Last(replies);
      forall i | 0 <= i < |replies| && replies[i] == Some(body) ensures body in Bodies(replies) {
        assert i < |replies| - 1 ==> Prefix(replies)[i] == Some(body);
      }
      if body in Bodies(Prefix(replies)) {
        var i :| 0 <= i < |Prefix(replies)| && Prefix(replies)[i] == Some(body);
        assert replies[i] == Some(body);
      }
    }
  }

  /** `level` is the lowest of the own level and of what the peers that answer say. */
  predicate LowestAnswer(level: real, own: real, replies: seq<Option<map<string, real>>>, id: string) {
    && level <= own
    && (forall i | 0 <= i < |replies| && replies[i].Some? && id in replies[i].value :: level <= replies[i].value[id])
    && (level == own ||
        exists i :: 0 <= i < |replies| && replies[i].Some? && id in replies[i].value && level == replies[i].value[id])
  }

  lemma LowestOfBodies(level: real, own: real, replies: seq<Option<map<string, real>>>, id: string)
    requires BucketStore.IsLowest(level, own, Bodies(replies), id)
    ensures LowestAnswer(level, own, replies, id)
  {
    var bodies := Bodies(replies);
    forall i | 0 <= i < |replies| && replies[i].Some? && id in replies[i].value ensures level <= replies[i].value[id] {
      BodiesAreTheAnswers(replies, replies[i].value);
      var k :| 0 <= k < |bodies| && bodies[k] == replies[i].value;
    }
    if level != own {
      var k :| 0 <= k < |bodies| && id in bodies[k] && level == bodies[k][id];
      BodiesAreTheAnswers(replies, bodies[k]);
      var i :| 0 <= i < |replies| && replies[i] == Some(bodies[k]);
      assert replies[i].Some? && id in replies[i].value && level == replies[i].value[id];
    }
  }

  /** The first `n` peer calls have been reported to the manager, in order. */
  predicate Reports(before: seq<Event>, after: seq<Event>, replies: seq<Option<map<string, real>>>, n: nat)
    requires n <= |replies|
  {
    && |after| == |before| + n && after[..|before|] == before
    && forall i | 0 <= i < n :: after[|before| + i] == if replies[i].Some? then PeerSuccess else PeerFailure
  }

  lemma OneMoreReport(before: seq<Event>, after: seq<Event>, replies: seq<Option<map<string, real>>>, n: nat)
    requires n < |replies| && Reports(before, after, replies, n)
    ensures Reports(before, after + [if replies[n].Some? then PeerSuccess else PeerFailure], replies, n + 1)
  {
  }

  function LogAfter(log: seq<BucketStore.StoreEvent>, replies: seq<Option<map<string, real>>>,
                    n: nat): seq<BucketStore.StoreEvent>
    requires n <= |replies|
  {
    log + Merges(Bodies(replies[..n]))
  }

  function StoreAfter(store: BucketStore.Store, replies: seq<Option<map<string, real>>>, n: nat): BucketStore.Store
    requires n <= |replies|
  {
    BucketStore.MergedAll(store, Bodies(replies[..n]))
  }

  function Merges(bodies: seq<map<string, real>>): seq<BucketStore.StoreEvent> {
    if bodies == [] then [] else Merges(Prefix(bodies)) + [BucketStore.MergePeer(Last(bodies))]
  }

  class PeerSync {
    const local: GoLocalBucket.LocalBucket
    const manager: ThrottleManager

    constructor (manager: ThrottleManager)
      ensures this.manager == manager && this.local == manager.local
    {
      this.manager, this.local := manager, manager.local;
    }

    method HandleReply(reply: Option<map<string, real>>)
      requires manager.Valid() && local == manager.local
      modifies manager, local, manager.mysql
      ensures manager.Valid()
      ensures local.log == old(local.log) + if reply.Some? then [BucketStore.MergePeer(reply.value)] else []
      ensures local.buckets
           == if reply.Some? then BucketStore.Merged(old(local.buckets), reply.value) else old(local.buckets)
      ensures manager.events == old(manager.events) + [if reply.Some? then PeerSuccess else PeerFailure]
    {
      match reply {
        case None =>
          manager.RecordPeerFailure();
        case Some(peerSnap) =>
          local.MergePeer(peerSnap);
          manager.RecordPeerSuccess();
      }
    }

    method CallPeers(replies: seq<Option<map<string, real>>>)
      requires manager.Valid() && local == manager.local
      modifies manager, local, manager.mysql
      ensures manager.Valid()
      ensures local.log == old(local.log) + Merges(Bodies(replies))
      ensures local.buckets == BucketStore.MergedAll(old(local.buckets), Bodies(replies))
      ensures Reports(old(manager.events), manager.events, replies, |replies|)
    {
      var i := 0;
      while i < |replies|
        invariant 0 <= i <= |replies| && manager.Valid()
        invariant local.log == LogAfter(old(local.log), replies, i)
        invariant local.buckets == StoreAfter(old(local.buckets), replies, i)
        invariant Reports(old(manager.events), manager.events, replies, i)
      {
        OneMoreBody(old(local.log), old(local.buckets), replies, i);
        OneMoreReport(old(manager.events), manager.events, replies, i);
        HandleReply(replies[i]);
        i := i + 1;
      }
      assert replies[..i] == replies;
    }

    /** One round: `replies[i]` is what the i-th peer answers, if it does. */
    method SyncOnce(now: real, replies: seq<Option<map<string, real>>>) returns (body: map<string, real>)
      requires manager.Valid() && local == manager.local
      modifies manager, local, manager.mysql
      ensures manager.Valid()
      ensures body == BucketStore.Reported(local.P(), old(local.buckets), now)
      ensures local.log == old(local.log) + [BucketStore.Snapshot(now)] + Merges(Bodies(replies))
      ensures local.buckets
           == BucketStore.MergedAll(BucketStore.Fresh(local.P(), old(local.buckets), now), Bodies(replies))
      ensures forall id ::
                id in local.buckets <==>
                id in old(local.buckets) && now - old(local.buckets)[id].lastRefill <= 3600000.0
      ensures forall id | id in local.buckets ::
                && local.buckets[id].lastRefill == old(local.buckets)[id].lastRefill
                && LowestAnswer(local.buckets[id].tokens, old(local.buckets)[id].tokens, replies, id)
      ensures body.Keys == local.buckets.Keys && forall id | id in body :: body[id] == old(local.buckets)[id].tokens
      ensures Reports(old(manager.events), manager.events, replies, |replies|)
    {
      body := local.Snapshot(now);
      ghost var kept := local.buckets;
      CallPeers(replies);
      forall id
        ensures local.buckets.Keys == kept.Keys
        ensures id in kept ==>
                  && local.buckets[id].lastRefill == kept[id].lastRefill
                  && LowestAnswer(local.buckets[id].tokens, kept[id].tokens, replies, id)
      {
        RoundLeaves(kept, replies, id);
      }
    }
  }

  lemma OneMoreBody(log: seq<BucketStore.StoreEvent>, store: BucketStore.Store, replies: seq<Option<map<string, real>>>,
                    i: nat)
    requires i < |replies|
    ensures LogAfter(log, replies, i + 1)
         == LogAfter(log, replies, i) + if replies[i].Some? then [BucketStore.MergePeer(replies[i].value)] else []
    ensures StoreAfter(store, replies, i + 1)
         == var before := StoreAfter(store, replies, i);
            if replies[i].Some? then BucketStore.Merged(before, replies[i].value) else before
  {
    var before, after := Bodies(replies[..i]), Bodies(replies[..i + 1]);
    assert Prefix(replies[..i + 1]) == replies[..i];
    if replies[i].Some? {
      assert Prefix(after) == before && Last(after) == replies[i].value;
    } else {
      assert after == before;
    }
  }

  lemma RoundLeaves(store: BucketStore.Store, replies: seq<Option<map<string, real>>>, id: string)
    ensures var after := BucketStore.MergedAll(store, Bodies(replies));
            && after.Keys == store.Keys
            && (id in store ==>
                  && after[id].lastRefill == store[id].lastRefill
                  && LowestAnswer(after[id].tokens, store[id].tokens, replies, id))
  {
    BucketStore.MergedAllIsLowest(store, Bodies(replies), id);
    if id in store {
      LowestOfBodies(BucketStore.MergedAll(store, Bodies(replies))[id].tokens, store[id].tokens, replies, id);
    }
  }

  /** The handler of a peer's push: merge what it sent, then answer with the own snapshot. */
  method InternalSync(local: GoLocalBucket.LocalBucket, authorized: bool, peerSnap: map<string, real>, now: real)
    returns (reply: Option<map<string, real>>)
    requires local.Valid()
    modifies local
    ensures local.Valid()
    ensures local.log == old(local.log)
                         + if authorized then [BucketStore.MergePeer(peerSnap), BucketStore.Snapshot(now)] else []
    ensures reply == if authorized
                     then Some(BucketStore.Reported(local.P(), BucketStore.Merged(old(local.buckets), peerSnap), now))
                     else None
  {
    if !authorized {
      return None;
    }
    local.MergePeer(peerSnap);
    var snap := local.Snapshot(now);
    return Some(snap);
  }
}
