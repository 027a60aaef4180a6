/** The cluster's events are what the managers do: each operation of a manager moves any cluster that the
    manager is a node of, as seen from any entity, by the event that stands for it. */
module ClusterNodes {
  import opened Numbers
  import TokenBucket
  import BucketStore
  import RedisBucket
  import ManagerModel
  import Manager
  import Cluster

  ghost function ConfigOf(m: Manager.ThrottleManager): Cluster.Config {
    Cluster.Config(m.Cfg(), m.redis.refillRate)
  }

  /** `m` is node `i` of `s`, as seen from the entity `id`; both stores refill at one rate. */
  ghost predicate IsNode(m: Manager.ThrottleManager, id: string, s: Cluster.State, i: nat)
    reads m, m.circuit, m.local, m.redis.rdb, m.mysql
  {
    && m.Valid() && m.local.refillRate == m.redis.refillRate
    && i < |s.nodes| && s.nodes[i].manager == m.Now() && s.nodes[i].slot == m.Bucket(id) && s.redis == m.Key(id)
  }

  function CheckEvent(i: nat, id: string, served: string, check: ManagerModel.Event, cost: int,
                      outcome: Manager.Outcome, now: real): Cluster.Event {
    if id == served then Cluster.Request(i, now, check, cost, outcome.FailedAfter?)
    else Cluster.Elsewhere(i, now, check)
  }

  /** A check is a request of the entity it serves, and traffic elsewhere to any other; the cluster counts what
      the client is told it was granted. */
  method Check(m: Manager.ThrottleManager, served: string, cost: int, check: ManagerModel.Event,
               outcome: Manager.Outcome, now: real, answered: real, ghost id: string, ghost s: Cluster.State,
               ghost i: nat)
    returns (r: Manager.CheckResult)
    requires IsNode(m, id, s, i) && s.clock <= now && cost >= 0
    requires check.Check? && check.answered == outcome.Answered?
    modifies m, m.circuit, m.redis.rdb`keys, m.redis.rdb`expireAt, m.redis.rdb`log, m.local, m.mysql
    ensures Cluster.Possible(s, CheckEvent(i, id, served, check, cost, outcome, now))
    ensures var s' := Cluster.ClusterStep(ConfigOf(m), s, CheckEvent(i, id, served, check, cost, outcome, now));
            && IsNode(m, id, s', i)
            && s'.admitted == s.admitted + if id == served && r.allowed then cost else 0
  {
    ghost var route := ManagerModel.RouteOf(m.Cfg(), m.Now(), check);
    assert RedisBucket.Lua(m.redis.refillRate) == RedisBucket.Lua(ConfigOf(m).rate);
    r := m.Check(served, cost, check, outcome, now, answered);
  }

  /** A probe outside REDIS mode whose ping succeeds is a warm-up, from its snapshot to its seeding. */
  method ProbeRedis(m: Manager.ThrottleManager, seeded: bool, landed: set<string>, now: real, seedNow: real,
                    ghost id: string, ghost s: Cluster.State, ghost i: nat)
    requires IsNode(m, id, s, i) && s.clock <= now <= seedNow && m.mode != ManagerModel.Redis
    modifies m, m.circuit, m.redis.rdb`keys, m.redis.rdb`expireAt, m.redis.rdb`log, m.local, m.mysql
    ensures var begun := Cluster.ClusterStep(ConfigOf(m), s, Cluster.BeginWarmUp(i, now));
            var ended := Cluster.EndWarmUp(i, seedNow, id in landed, seeded);
            IsNode(m, id, Cluster.ClusterStep(ConfigOf(m), begun, ended), i)
  {
    m.ProbeRedis(true, seeded, landed, now, seedNow);
  }

  /** A peer's answer is one merge and one successful call; no answer is a missed call. */
  method HandleReply(sync: Manager.PeerSync, reply: Option<map<string, real>>, ghost now: real, ghost id: string,
                     ghost s: Cluster.State, ghost i: nat)
    requires IsNode(sync.manager, id, s, i) && s.clock <= now && sync.local == sync.manager.local
    requires reply.Some? && id in reply.value ==> reply.value[id] >= 0.0
    modifies sync.manager, sync.local, sync.manager.mysql
    ensures var cfg := ConfigOf(sync.manager);
            var merged := if reply.Some? && id in reply.value
                          then Cluster.ClusterStep(cfg, s, Cluster.Gossip(i, now, reply.value[id])) else s;
            IsNode(sync.manager, id, Cluster.ClusterStep(cfg, merged, Cluster.PeerCall(i, now, reply.Some?)), i)
  {
    sync.HandleReply(reply);
  }

  /** The snapshot of a round or of a flush is a sweep of the node. */
  method Snapshot(m: Manager.ThrottleManager, now: real, ghost id: string, ghost s: Cluster.State, ghost i: nat)
    returns (snap: map<string, real>)
    requires IsNode(m, id, s, i) && s.clock <= now
    modifies m.local
    ensures var s' := Cluster.ClusterStep(ConfigOf(m), s, Cluster.SweepNode(i, now));
            && IsNode(m, id, s', i)
            && (id in snap <==> s'.nodes[i].slot.Some?)
            && (id in snap ==> snap[id] == s'.nodes[i].slot.value.tokens)
  {
    snap := m.local.Snapshot(now);
  }

  /** Where the key was last written with the server's own time, its removal is the cluster's expiry. */
  method DropKey(m: Manager.ThrottleManager, id: string, ghost s: Cluster.State, ghost i: nat)
    requires IsNode(m, id, s, i) && s.redis.Some? && s.clock <= m.redis.rdb.clock
    requires m.redis.rdb.Deadline(id) == Some(s.redis.value.lastRefill + 3600000.0)
    requires m.redis.rdb.Deadline(id).value <= m.redis.rdb.clock
    modifies m.redis.rdb`keys, m.redis.rdb`expireAt, m.redis.rdb`log
    ensures IsNode(m, id, Cluster.ClusterStep(ConfigOf(m), s, Cluster.ExpireKey(m.redis.rdb.clock)), i)
    ensures m.Key(id) == None
  {
    m.redis.rdb.Drop(id);
  }
}
