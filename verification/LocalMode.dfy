/** What nodes in LOCAL mode admit, exactly: their caps are attained. */
module LocalMode {
  import opened Numbers
  import opened Sequences
  import opened GossipRounds
  import opened GossipOverTime
  import TokenBucket
  import ManagerModel
  import CircuitBreaker
  import Cluster
  import GossipBounds

  function Share(cfg: Cluster.Config): int
    requires cfg.manager.nodeCount > 0
  {
    cfg.manager.globalLimit / cfg.manager.nodeCount
  }

  predicate Startable(cfg: Cluster.Config) {
    GossipBounds.Startable(cfg) && Share(cfg) >= 0
  }

  function SetupOf(cfg: Cluster.Config): Setup
    requires Startable(cfg)
  {
    Setup(Cluster.Bucket(cfg), Share(cfg))
  }

  /** All nodes are in LOCAL mode and hold the given entries. */
  ghost predicate InLocalMode(s: Cluster.State, slots: seq<TokenBucket.Slot>) {
    |s.nodes| == |slots| && forall i | 0 <= i < |slots| :: NodeInLocalMode(s.nodes[i], slots[i])
  }

  predicate NodeInLocalMode(node: Cluster.Node, slot: TokenBucket.Slot) {
    node.manager.mode.Local? && node.slot == slot
  }

  // ---------------------------------------------------------------------------------------------
  // From an outage into LOCAL mode: no node reaches its peers
  // ---------------------------------------------------------------------------------------------

  function Miss(i: nat): Cluster.Event {
    Cluster.PeerCall(i, 0.0, false)
  }

  /** A node after an outage and `k` missed peer calls, at most five. */
  function MissedNode(cfg: Cluster.Config, k: nat): Cluster.Node {
    var node := GossipBounds.FailedNode(cfg, CircuitBreaker.Tripping(cfg.manager.circuit));
    var manager := node.manager.(peerFailures := k);
    node.(manager := if k < 5 then manager
                     else manager.(mode := ManagerModel.Local, flushing := cfg.manager.hasMySQL))
  }

  lemma FirstAndLastMiss(cfg: Cluster.Config)
    ensures MissedNode(cfg, 0) == GossipBounds.FailedNode(cfg, CircuitBreaker.Tripping(cfg.manager.circuit))
    ensures NodeInLocalMode(MissedNode(cfg, 5), None)
  {
  }

  lemma OneMiss(cfg: Cluster.Config, s: Cluster.State, i: nat, k: nat)
    requires Startable(cfg) && i < |s.nodes| && s.clock == 0.0 && k < 5
    ensures Cluster.Possible(GossipBounds.WithNode(s, i, MissedNode(cfg, k)), Miss(i))
    ensures Cluster.ClusterStep(cfg, GossipBounds.WithNode(s, i, MissedNode(cfg, k)), Miss(i))
         == GossipBounds.WithNode(s, i, MissedNode(cfg, k + 1))
  {
    var s' := Cluster.ClusterStep(cfg, GossipBounds.WithNode(s, i, MissedNode(cfg, k)), Miss(i));
    assert CircuitBreaker.Tripping(cfg.manager.circuit) >= 1;
    assert s'.nodes[i] == MissedNode(cfg, k + 1);
    assert s'.nodes == s.nodes[i := MissedNode(cfg, k + 1)];
  }

  ghost predicate LeadsTo(cfg: Cluster.Config, s: Cluster.State, evs: seq<Cluster.Event>, s': Cluster.State) {
    && cfg.manager.nodeCount > 0 && (forall ev | ev in evs :: ev.PeerCall?)
    && Cluster.Runs(cfg, s, evs) && Cluster.Reached(cfg, s, evs) == s'
  }

  lemma OneMissMore(cfg: Cluster.Config, start: Cluster.State, evs: seq<Cluster.Event>, s: Cluster.State, i: nat,
                    k: nat)
    requires Startable(cfg) && i < |s.nodes| && s.clock == 0.0 && k < 5
    requires LeadsTo(cfg, start, evs, GossipBounds.WithNode(s, i, MissedNode(cfg, k)))
    ensures LeadsTo(cfg, start, evs + [Miss(i)], GossipBounds.WithNode(s, i, MissedNode(cfg, k + 1)))
  {
    OneMiss(cfg, s, i, k);
    GossipBounds.OneMore(cfg, start, evs, Miss(i));
  }

  lemma {:induction false} NodeMisses(cfg: Cluster.Config, start: Cluster.State, before: seq<Cluster.Event>,
                                      s: Cluster.State, i: nat, k: nat)
    returns (evs: seq<Cluster.Event>)
    requires Startable(cfg) && k <= 5 && LeadsTo(cfg, start, before, s)
    requires i < |s.nodes| && s.clock == 0.0 && s.nodes[i] == MissedNode(cfg, 0)
    ensures LeadsTo(cfg, start, evs, GossipBounds.WithNode(s, i, MissedNode(cfg, k)))
  {
    if k == 0 {
      evs := before;
      assert GossipBounds.WithNode(s, i, MissedNode(cfg, 0)).nodes == s.nodes;
    } else {
      evs := NodeMisses(cfg, start, before, s, i, k - 1);
      OneMissMore(cfg, start, evs, s, i, k - 1);
      evs := evs + [Miss(i)];
    }
  }

  /** The first `k` nodes have missed five calls. */
  function Missed(cfg: Cluster.Config, n: nat, k: nat): Cluster.State {
    GossipBounds.AfterOutage(cfg, n).(nodes := seq(n, i => MissedNode(cfg, if i < k then 5 else 0)))
  }

  lemma {:induction false} NodesMiss(cfg: Cluster.Config, n: nat, k: nat) returns (evs: seq<Cluster.Event>)
    requires Startable(cfg) && k <= n
    ensures LeadsTo(cfg, GossipBounds.AfterOutage(cfg, n), evs, Missed(cfg, n, k))
  {
    FirstAndLastMiss(cfg);
    if k == 0 {
      evs := [];
      assert Missed(cfg, n, 0).nodes == GossipBounds.AfterOutage(cfg, n).nodes;
    } else {
      evs := NodesMiss(cfg, n, k - 1);
      evs := NodeMisses(cfg, GossipBounds.AfterOutage(cfg, n), evs, Missed(cfg, n, k - 1), k - 1, 5);
      assert Missed(cfg, n, k - 1).nodes[k - 1 := MissedNode(cfg, 5)] == Missed(cfg, n, k).nodes;
    }
  }

  /** An outage after which no node reaches its peers leads, by five missed calls at each, to LOCAL mode
      everywhere, with no node storing the entity. */
  lemma LocalIsReachable(cfg: Cluster.Config, n: nat) returns (evs: seq<Cluster.Event>)
    requires Startable(cfg)
    ensures LeadsTo(cfg, GossipBounds.AfterOutage(cfg, n), evs, Missed(cfg, n, n))
    ensures InLocalMode(Missed(cfg, n, n), NoEntries(n)) && Missed(cfg, n, n).clock == 0.0
  {
    evs := NodesMiss(cfg, n, n);
    FirstAndLastMiss(cfg);
  }

  // ---------------------------------------------------------------------------------------------
  // Unit requests at one instant
  // ---------------------------------------------------------------------------------------------

  lemma OneServe(cfg: Cluster.Config, s: Cluster.State, slots: seq<TokenBucket.Slot>, i: nat)
    requires Startable(cfg) && InLocalMode(s, slots) && i < |slots|
    ensures var ev := Cluster.Request(i, s.clock, GossipBounds.CHECK, 1, false);
            && Cluster.Possible(s, ev)
            && var s' := Cluster.ClusterStep(cfg, s, ev);
               && s'.clock == s.clock && InLocalMode(s', SlotsAfter(SetupOf(cfg), slots, Serve(i, s.clock)))
               && s'.admitted == s.admitted + GrantOf(SetupOf(cfg), slots, Serve(i, s.clock))
  {
    assert NodeInLocalMode(s.nodes[i], slots[i]);
    var s' := Cluster.ClusterStep(cfg, s, Cluster.Request(i, s.clock, GossipBounds.CHECK, 1, false));
    var after := SlotsAfter(SetupOf(cfg), slots, Serve(i, s.clock));
    forall j | 0 <= j < |after| ensures NodeInLocalMode(s'.nodes[j], after[j]) {
      assert NodeInLocalMode(s.nodes[j], slots[j]);
    }
  }

  predicate AreServesAt(n: nat, at: real, serves: seq<Move>) {
    forall m | m in serves :: m.Serve? && m.now == at && m.node < n
  }

  function EventsOf(n: nat, at: real, serves: seq<Move>): seq<Cluster.Event>
    requires AreServesAt(n, at, serves)
  {
    if serves == [] then []
    else
      assert Last(serves) in serves;
      EventsOf(n, at, Prefix(serves)) + [Cluster.Request(Last(serves).node, at, GossipBounds.CHECK, 1, false)]
  }

  lemma {:induction false} ClusterFollowsTheServes(cfg: Cluster.Config, s: Cluster.State, slots: seq<TokenBucket.Slot>,
                                                   serves: seq<Move>)
    requires Startable(cfg) && InLocalMode(s, slots) && AreServesAt(|slots|, s.clock, serves)
    ensures AllAmong(|slots|, serves) && Cluster.Runs(cfg, s, EventsOf(|slots|, s.clock, serves))
    ensures var s' := Cluster.Reached(cfg, s, EventsOf(|slots|, s.clock, serves));
            && s'.clock == s.clock && InLocalMode(s', Played(SetupOf(cfg), slots, serves))
            && s'.admitted == s.admitted + Granted(SetupOf(cfg), slots, serves)
  {
    if serves != [] {
      var pre, m := Prefix(serves), Last(serves);
      assert m in serves;
      ClusterFollowsTheServes(cfg, s, slots, pre);
      var evs := EventsOf(|slots|, s.clock, pre);
      OneServe(cfg, Cluster.Reached(cfg, s, evs), Played(SetupOf(cfg), slots, pre), m.node);
      GossipBounds.OneMore(cfg, s, evs, Cluster.Request(m.node, s.clock, GossipBounds.CHECK, 1, false));
    }
  }

  function Capped(n: nat, share: nat, serves: seq<Move>): (x: seq<nat>)
    ensures |x| == n
  {
    seq(n, i requires 0 <= i < n => Lower(share, Requests(serves, i)))
  }

  /** Of unit requests at one instant, each node in LOCAL mode that does not store the entity admits exactly
      its share: `globalLimit / nodeCount`, or as many as it is asked. */
  lemma LocalModeIsExact(cfg: Cluster.Config, s: Cluster.State, n: nat, serves: seq<Move>)
    requires Startable(cfg) && InLocalMode(s, NoEntries(n)) && AreServesAt(n, s.clock, serves)
    ensures Cluster.Runs(cfg, s, EventsOf(n, s.clock, serves))
    ensures Cluster.Reached(cfg, s, EventsOf(n, s.clock, serves)).admitted - s.admitted
         == Sum(Capped(n, cfg.manager.globalLimit / cfg.manager.nodeCount, serves))
  {
    var h := Holding({}, Share(cfg));
    assert Holds(Share(cfg), s.clock, NoEntries(n), h);
    ClusterFollowsTheServes(cfg, s, NoEntries(n), serves);
    ServingDrains(SetupOf(cfg), NoEntries(n), h, s.clock, serves);
    assert Grants(n, Share(cfg), h, serves) == Capped(n, Share(cfg), serves);
  }

  lemma {:induction false} SumOfEqual(x: seq<nat>, v: nat)
    requires forall i | 0 <= i < |x| :: x[i] == v
    ensures Sum(x) == |x| * v
  {
    if x != [] {
      SumOfEqual(Prefix(x), v);
      assert |x| * v == (|x| - 1) * v + v;
    }
  }

  /** The cap of LOCAL mode is attained: asked at least so often, the nodes together admit their shares. */
  lemma LocalModeCapIsAttained(cfg: Cluster.Config, s: Cluster.State, n: nat, serves: seq<Move>)
    requires Startable(cfg) && InLocalMode(s, NoEntries(n)) && AreServesAt(n, s.clock, serves)
    requires forall i: nat | i < n :: Requests(serves, i) >= cfg.manager.globalLimit / cfg.manager.nodeCount
    ensures Cluster.Runs(cfg, s, EventsOf(n, s.clock, serves))
    ensures Cluster.Reached(cfg, s, EventsOf(n, s.clock, serves)).admitted - s.admitted
         == n * (cfg.manager.globalLimit / cfg.manager.nodeCount)
  {
    LocalModeIsExact(cfg, s, n, serves);
    SumOfEqual(Capped(n, Share(cfg), serves), Share(cfg));
  }
}
