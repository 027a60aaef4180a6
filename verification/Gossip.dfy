/**
 Gossip between nodes while nobody consumes (go-throttle/throttle/peer_sync.go and the handler in
 go-throttle/handler/throttle_handler.go). A sync round takes one snapshot and then calls every
 peer; deliveries, answers and merges of all nodes interleave freely, and any of them may be lost
 or repeated.
 */
module Gossip {
  import opened Numbers
  import opened Sequences
  import opened TokenBucket
  import opened BucketStore

  datatype Message = Message(from: nat, to: nat)

  datatype Push = Push(from: nat, body: map<string, real>)

  datatype Reply = Reply(m: Message, body: map<string, real>)

  /** `pushes` are the bodies of all rounds so far and `replies` all answers `m.to` gave to `m.from`: any
      of them, however old, may still arrive, more than once or never. `heard` are the pairs such
      that `to` has merged what `from` held at some time. */
  datatype Net = Net(stores: seq<Store>, pushes: seq<Push>, replies: seq<Reply>, heard: set<Message>)

  datatype GossipEvent =
    | Begin(node: nat, now: real)
    | Deliver(push: nat, to: nat)
    | Answer(m: Message, now: real)
    | Apply(reply: nat)

  predicate Possible(net: Net, ev: GossipEvent) {
    match ev
    case Begin(node, _) => node < |net.stores|
    case Deliver(push, to) => push < |net.pushes| && net.pushes[push].from < |net.stores| && to < |net.stores|
    case Answer(m, _) => m.from < |net.stores| && m.to < |net.stores|
    case Apply(reply) => reply < |net.replies| && net.replies[reply].m.from < |net.stores|
  }

  function GossipStep(p: Params, net: Net, ev: GossipEvent): (net': Net)
    requires Possible(net, ev)
    ensures |net'.stores| == |net.stores|
  {
    match ev
    case Begin(node, now) =>
      net.(pushes := net.pushes + [Push(node, Reported(p, net.stores[node], now))],
           stores := net.stores[node := Fresh(p, net.stores[node], now)])
    case Deliver(push, to) => Hear(net, net.pushes[push].from, to, net.pushes[push].body)
    case Answer(m, now) =>
      net.(replies := net.replies + [Reply(m, Reported(p, net.stores[m.to], now))],
           stores := net.stores[m.to := Fresh(p, net.stores[m.to], now)])
    case Apply(reply) =>
      var m := net.replies[reply].m;
      Hear(net, m.to, m.from, net.replies[reply].body)
  }

  /** `to` merges what `from` has sent. */
  function Hear(net: Net, from: nat, to: nat, body: map<string, real>): Net
    requires to < |net.stores|
  {
    net.(stores := net.stores[to := Merged(net.stores[to], body)], heard := net.heard + {Message(from, to)})
  }

  function Start(stores: seq<Store>): Net {
    Net(stores, [], [], {})
  }

  /** The net after an interleaving, if every event of it was possible. */
  function NetAfter(p: Params, stores: seq<Store>, evs: seq<GossipEvent>): (net: Option<Net>)
    ensures net.Some? ==> |net.value.stores| == |stores|
  {
    if evs == [] then Some(Start(stores))
    else
      var pre, ev := NetAfter(p, stores, evs[..|evs| - 1]), evs[|evs| - 1];
      if pre.Some? && Possible(pre.value, ev) then Some(GossipStep(p, pre.value, ev)) else None
  }

  /** Snapshots are taken before any entry has been idle for the time to live. */
  predicate NothingGoesStale(p: Params, stores: seq<Store>, evs: seq<GossipEvent>) {
    forall ev, k, id | ev in evs && (ev.Begin? || ev.Answer?) && 0 <= k < |stores| && id in stores[k] ::
      !Stale(p, stores[k][id], ev.now)
  }

  predicate HeldEverywhere(stores: seq<Store>, id: string) {
    forall k | 0 <= k < |stores| :: id in stores[k]
  }

  predicate AtLeast(stores: seq<Store>, id: string, low: real)
    requires HeldEverywhere(stores, id)
  {
    forall k | 0 <= k < |stores| :: low <= stores[k][id].tokens
  }

  /** A body sent by node `a`. */
  predicate BodyKept(stores: seq<Store>, a: nat, body: map<string, real>, id: string, low: real)
    requires HeldEverywhere(stores, id)
  {
    a < |stores| && id in body && low <= body[id] <= stores[a][id].tokens
  }

  /** What gossip keeps: the entities and refill times of every store; levels between the initial
      minimum and the own initial level; and, for every pair heard, the sender's initial level. */
  ghost predicate Kept(stores: seq<Store>, net: Net, id: string, low: real)
    requires HeldEverywhere(stores, id)
  {
    && |net.stores| == |stores|
    && (forall k | 0 <= k < |stores| :: StoreKept(stores[k], net.stores[k], id, low))
    && (forall k | 0 <= k < |net.pushes| :: BodyKept(stores, net.pushes[k].from, net.pushes[k].body, id, low))
    && (forall k | 0 <= k < |net.replies| :: BodyKept(stores, net.replies[k].m.to, net.replies[k].body, id, low))
    && (forall m | m in net.heard :: HeardKept(stores, net, id, m))
  }

  ghost predicate HeardKept(stores: seq<Store>, net: Net, id: string, m: Message)
    requires HeldEverywhere(stores, id) && |net.stores| == |stores|
  {
    && m.to < |stores| && m.from < |stores|
    && id in net.stores[m.to] && net.stores[m.to][id].tokens <= stores[m.from][id].tokens
  }

  ghost predicate StoreKept(store: Store, now: Store, id: string, low: real)
    requires id in store
  {
    && now.Keys == store.Keys
    && (forall e | e in store :: now[e].lastRefill == store[e].lastRefill)
    && low <= now[id].tokens <= store[id].tokens
  }

  lemma FreshKeepsAll(p: Params, store: Store, current: Store, id: string, low: real, now: real)
    requires id in store && StoreKept(store, current, id, low)
    requires forall e | e in store :: !Stale(p, store[e], now)
    ensures Fresh(p, current, now) == current
    ensures id in Reported(p, current, now) && Reported(p, current, now)[id] == current[id].tokens
  {
    forall e | e in current ensures !Stale(p, current[e], now) {
      assert e in store && !Stale(p, store[e], now);
    }
  }

  lemma StepKeeps(p: Params, stores: seq<Store>, net: Net, ev: GossipEvent, id: string, low: real)
    requires HeldEverywhere(stores, id) && Kept(stores, net, id, low) && Possible(net, ev)
    requires NothingGoesStale(p, stores, [ev])
    ensures Kept(stores, GossipStep(p, net, ev), id, low)
  {
    assert ev in [ev];
    match ev
    case Begin(node, now) => SnapshotKeeps(p, stores, net, node, now, id, low);
    case Deliver(push, to) => HearKeeps(stores, net, net.pushes[push].from, to, net.pushes[push].body, id, low);
    case Answer(m, now) => SnapshotKeeps(p, stores, net, m.to, now, id, low);
    case Apply(reply) =>
      var m := net.replies[reply].m;
      HearKeeps(stores, net, m.to, m.from, net.replies[reply].body, id, low);
  }

  lemma SnapshotKeeps(p: Params, stores: seq<Store>, net: Net, at: nat, now: real, id: string, low: real)
    requires HeldEverywhere(stores, id) && Kept(stores, net, id, low) && at < |stores|
    requires forall e | e in stores[at] :: !Stale(p, stores[at][e], now)
    ensures net.stores[at := Fresh(p, net.stores[at], now)] == net.stores
    ensures id in Reported(p, net.stores[at], now)
         && low <= Reported(p, net.stores[at], now)[id] <= stores[at][id].tokens
  {
    assert StoreKept(stores[at], net.stores[at], id, low);
    FreshKeepsAll(p, stores[at], net.stores[at], id, low, now);
  }

  lemma HearKeeps(stores: seq<Store>, net: Net, from: nat, to: nat, body: map<string, real>, id: string, low: real)
    requires HeldEverywhere(stores, id) && Kept(stores, net, id, low) && to < |stores|
    requires BodyKept(stores, from, body, id, low)
    ensures Kept(stores, Hear(net, from, to, body), id, low)
  {
    var net' := Hear(net, from, to, body);
    assert StoreKept(stores[to], net.stores[to], id, low);
    assert StoreKept(stores[to], Merged(net.stores[to], body), id, low);
    forall m | m in net'.heard ensures HeardKept(stores, net', id, m) {
      if m in net.heard {
        assert HeardKept(stores, net, id, m);
      }
    }
  }

  lemma {:induction false} GossipKeeps(p: Params, stores: seq<Store>, evs: seq<GossipEvent>, id: string, low: real)
    requires HeldEverywhere(stores, id) && AtLeast(stores, id, low) && NothingGoesStale(p, stores, evs)
    requires NetAfter(p, stores, evs).Some?
    ensures Kept(stores, NetAfter(p, stores, evs).value, id, low)
  {
    if evs != [] {
      var pre, ev := evs[..|evs| - 1], evs[|evs| - 1];
      GossipKeeps(p, stores, pre, id, low);
      StepKeeps(p, stores, NetAfter(p, stores, pre).value, ev, id, low);
    }
  }

  /** Node `a` has completed a sync round: it has pushed to every peer and merged every answer. */
  predicate Completed(net: Net, a: nat) {
    forall b | 0 <= b < |net.stores| && b != a :: Message(a, b) in net.heard && Message(b, a) in net.heard
  }

  /** In a full mesh, once every node but perhaps one has completed a round, in whatever
      interleaving, every node holds the initial minimum: no level has fallen below it, and no
      entity has been created or lost on the way. */
  lemma GossipConverges(p: Params, stores: seq<Store>, evs: seq<GossipEvent>, id: string, low: nat, spare: nat)
    requires HeldEverywhere(stores, id) && NothingGoesStale(p, stores, evs)
    requires low < |stores| && AtLeast(stores, id, stores[low][id].tokens)
    requires NetAfter(p, stores, evs).Some?
    requires forall a: nat | a < |stores| && a != spare :: Completed(NetAfter(p, stores, evs).value, a)
    ensures var net := NetAfter(p, stores, evs).value;
            forall b | 0 <= b < |stores| ::
              && net.stores[b].Keys == stores[b].Keys
              && net.stores[b][id].tokens == stores[low][id].tokens
  {
    var net := NetAfter(p, stores, evs).value;
    var level := stores[low][id].tokens;
    GossipKeeps(p, stores, evs, id, level);
    forall b: nat | b < |stores|
      ensures net.stores[b].Keys == stores[b].Keys && net.stores[b][id].tokens == level
    {
      assert StoreKept(stores[b], net.stores[b], id, level);
      if b != low {
        assert Completed(net, if b != spare then b else low);
        assert Message(low, b) in net.heard && HeardKept(stores, net, id, Message(low, b));
      }
    }
  }

  // ---------------------------------------------------------------------------------------------
  // A node's sync round is such gossip
  // ---------------------------------------------------------------------------------------------

  lemma OneMoreEvent(p: Params, stores: seq<Store>, evs: seq<GossipEvent>, ev: GossipEvent)
    requires NetAfter(p, stores, evs).Some? && Possible(NetAfter(p, stores, evs).value, ev)
    ensures NetAfter(p, stores, evs + [ev]) == Some(GossipStep(p, NetAfter(p, stores, evs).value, ev))
  {
    assert (evs + [ev])[..|evs|] == evs;
  }

  /** The node merges the answers with these numbers, in order. */
  function Applies(ks: seq<nat>): seq<GossipEvent> {
    if ks == [] then [] else Applies(Prefix(ks)) + [Apply(Last(ks))]
  }

  predicate AnswersTo(net: Net, node: nat, ks: seq<nat>) {
    forall k | k in ks :: k < |net.replies| && net.replies[k].m.from == node
  }

  function BodiesOf(net: Net, ks: seq<nat>): seq<map<string, real>>
    requires forall k | k in ks :: k < |net.replies|
  {
    if ks == [] then []
    else
      assert Last(ks) in ks && forall k | k in Prefix(ks) :: k in ks;
      BodiesOf(net, Prefix(ks)) + [net.replies[Last(ks)].body]
  }

  /** The node has taken its snapshot and merged the answers, and nothing else has changed but what it
      has heard. */
  ghost predicate RoundDone(p: Params, before: Net, after: Net, node: nat, now: real, ks: seq<nat>)
    requires node < |before.stores| && AnswersTo(before, node, ks)
  {
    && after.stores == before.stores[node := MergedAll(Fresh(p, before.stores[node], now), BodiesOf(before, ks))]
    && after.pushes == before.pushes + [Push(node, Reported(p, before.stores[node], now))]
    && after.replies == before.replies
    && forall k | k in ks :: Message(before.replies[k].m.to, node) in after.heard
  }

  /** A sync round: one snapshot, and the answers merged in turn. In the net it leaves a node exactly the
      store that the round of the peer-sync object leaves, so that whatever holds of every interleaving
      holds of rounds. */
  lemma {:induction false} RoundInTheNet(p: Params, stores: seq<Store>, evs: seq<GossipEvent>, node: nat, now: real,
                                         ks: seq<nat>)
    requires NetAfter(p, stores, evs).Some? && node < |stores| && AnswersTo(NetAfter(p, stores, evs).value, node, ks)
    ensures var net' := NetAfter(p, stores, evs + [Begin(node, now)] + Applies(ks));
            net'.Some? && RoundDone(p, NetAfter(p, stores, evs).value, net'.value, node, now, ks)
  {
    var net := NetAfter(p, stores, evs).value;
    if ks == [] {
      OneMoreEvent(p, stores, evs, Begin(node, now));
      assert evs + [Begin(node, now)] + [] == evs + [Begin(node, now)];
    } else {
      var k := Last(ks);
      assert k in ks;
      RoundInTheNet(p, stores, evs, node, now, Prefix(ks));
      var so := evs + [Begin(node, now)] + Applies(Prefix(ks));
      OneMoreEvent(p, stores, so, Apply(k));
      assert evs + [Begin(node, now)] + Applies(ks) == so + [Apply(k)];
      OneMoreAnswer(p, net, NetAfter(p, stores, so).value, node, now, ks);
    }
  }

  lemma OneMoreAnswer(p: Params, before: Net, net: Net, node: nat, now: real, ks: seq<nat>)
    requires ks != [] && node < |before.stores| && AnswersTo(before, node, ks)
    requires RoundDone(p, before, net, node, now, Prefix(ks))
    ensures Possible(net, Apply(Last(ks)))
    ensures RoundDone(p, before, GossipStep(p, net, Apply(Last(ks))), node, now, ks)
  {
    assert Last(ks) in ks;
    assert Prefix(BodiesOf(before, ks)) == BodiesOf(before, Prefix(ks));
    assert forall k | k in ks :: k in Prefix(ks) || k == Last(ks);
  }
}
