/** A store of token buckets keyed by entity: the map-level meaning of the in-memory stores. */
module BucketStore {
  import opened Numbers
  import opened Sequences
  import opened TokenBucket

  type Store = map<string, Entry>

  datatype StoreEvent =
    | Consume(id: string, now: real, cost: int, limit: int)
    | Snapshot(now: real)
    | MergePeer(peer: map<string, real>)

  function Lookup(store: Store, id: string): Slot {
    if id in store then Some(store[id]) else None
  }

  /** What a snapshot taken at `now` leaves in the store: everything that is not stale. */
  function Fresh(p: Params, store: Store, now: real): Store {
    map id | id in store && !Stale(p, store[id], now) :: store[id]
  }

  /** What that snapshot reports. */
  function Reported(p: Params, store: Store, now: real): map<string, real> {
    map id | id in store && !Stale(p, store[id], now) :: store[id].tokens
  }

  /** Minimum wins; entities known only to the peer are not created. */
  function Merged(store: Store, peer: map<string, real>): Store {
    map id | id in store ::
      if id in peer then store[id].(tokens := Min(store[id].tokens, peer[id])) else store[id]
  }

  function StoreStep(p: Params, store: Store, ev: StoreEvent): Store {
    match ev
    case Consume(id, now, cost, limit) =>
      store[id := Step(p, Lookup(store, id), Call(now, cost, limit)).value]
    case Snapshot(now) => Fresh(p, store, now)
    case MergePeer(peer) => Merged(store, peer)
  }

  /** The store after a whole log, starting empty. */
  function Contents(p: Params, log: seq<StoreEvent>): Store {
    if log == [] then map[] else StoreStep(p, Contents(p, log[..|log| - 1]), log[|log| - 1])
  }

  lemma ContentsOfLonger(p: Params, log: seq<StoreEvent>, ev: StoreEvent)
    ensures Contents(p, log + [ev]) == StoreStep(p, Contents(p, log), ev)
  {
    assert (log + [ev])[..|log|] == log;
  }

  // ---------------------------------------------------------------------------------------------
  // Entities do not interfere
  // ---------------------------------------------------------------------------------------------

  /** What one event of the log means to one entity. */
  function Share(ev: StoreEvent, id: string): (share: seq<Event>)
    ensures |share| <= 1
  {
    match ev
    case Consume(other, now, cost, limit) => if other == id then [Call(now, cost, limit)] else []
    case Snapshot(now) => [Sweep(now)]
    case MergePeer(peer) => if id in peer then [Merge(peer[id])] else []
  }

  function Projection(log: seq<StoreEvent>, id: string): seq<Event> {
    if log == [] then [] else Projection(log[..|log| - 1], id) + Share(log[|log| - 1], id)
  }

  /** An entity's bucket in any interleaved run is the bucket of its own operations alone. */
  lemma {:induction false} EntitiesDoNotInterfere(p: Params, log: seq<StoreEvent>, id: string)
    ensures Lookup(Contents(p, log), id) == Run(p, Projection(log, id))
  {
    if log != [] {
      var pre, ev := log[..|log| - 1], log[|log| - 1];
      EntitiesDoNotInterfere(p, pre, id);
      EventSharesOut(p, Contents(p, pre), ev, id);
      RunOfLonger(p, Projection(pre, id), Share(ev, id));
    }
  }

  lemma RunOfLonger(p: Params, tr: seq<Event>, share: seq<Event>)
    requires |share| <= 1
    ensures Run(p, tr + share) == if share == [] then Run(p, tr) else Step(p, Run(p, tr), share[0])
  {
    if share == [] {
      assert tr + share == tr;
    } else {
      assert Prefix(tr + share) == tr;
    }
  }

  lemma EventSharesOut(p: Params, store: Store, ev: StoreEvent, id: string)
    ensures Lookup(StoreStep(p, store, ev), id)
         == if Share(ev, id) == [] then Lookup(store, id) else Step(p, Lookup(store, id), Share(ev, id)[0])
  {
  }

  /** Two runs that agree on one entity's operations leave it the same bucket, hence the same next
      decision, and the same entry in the next snapshot, whatever the other entities did. */
  lemma OnlyOwnOperationsMatter(p: Params, log: seq<StoreEvent>, log': seq<StoreEvent>, id: string, now: real)
    requires Projection(log, id) == Projection(log', id)
    ensures Lookup(Contents(p, log), id) == Lookup(Contents(p, log'), id)
    ensures ReportedEntry(p, Contents(p, log), id, now) == ReportedEntry(p, Contents(p, log'), id, now)
  {
    EntitiesDoNotInterfere(p, log, id);
    EntitiesDoNotInterfere(p, log', id);
    assert ReportedEntry(p, Contents(p, log), id, now) == EntryOfSlot(p, Lookup(Contents(p, log), id), now);
    assert ReportedEntry(p, Contents(p, log'), id, now) == EntryOfSlot(p, Lookup(Contents(p, log'), id), now);
  }

  function ReportedEntry(p: Params, store: Store, id: string, now: real): Option<real> {
    if id in Reported(p, store, now) then Some(Reported(p, store, now)[id]) else None
  }

  function EntryOfSlot(p: Params, slot: Slot, now: real): Option<real> {
    if slot.Some? && !Stale(p, slot.value, now) then Some(slot.value.tokens) else None
  }

  // ---------------------------------------------------------------------------------------------
  // Several merges in a row
  // ---------------------------------------------------------------------------------------------

  function MergedAll(store: Store, peers: seq<map<string, real>>): Store {
    if peers == [] then store else Merged(MergedAll(store, Prefix(peers)), Last(peers))
  }

  /** `level` is the lowest of the own level and of what the peers say. */
  predicate IsLowest(level: real, own: real, peers: seq<map<string, real>>, id: string) {
    && level <= own && (forall i | 0 <= i < |peers| && id in peers[i] :: level <= peers[i][id])
    && (level == own || exists i :: 0 <= i < |peers| && id in peers[i] && level == peers[i][id])
  }

  /** Merges keep the entities and their dates, and leave each the lowest level said. */
  lemma {:induction false} MergedAllIsLowest(store: Store, peers: seq<map<string, real>>, id: string)
    ensures MergedAll(store, peers).Keys == store.Keys
    ensures id in store ==>
              var entry := MergedAll(store, peers)[id];
              entry.lastRefill == store[id].lastRefill && IsLowest(entry.tokens, store[id].tokens, peers, id)
  {
    if peers != [] {
      MergedAllIsLowest(store, Prefix(peers), id);
      if id in store {
        LowestOfOneMore(MergedAll(store, Prefix(peers))[id].tokens, store[id].tokens, peers, id);
      }
    }
  }

  lemma LowestOfOneMore(level: real, own: real, peers: seq<map<string, real>>, id: string)
    requires peers != [] && IsLowest(level, own, Prefix(peers), id)
    ensures IsLowest(if id in Last(peers) then Min(level, Last(peers)[id]) else level, own, peers, id)
  {
    assert forall i | 0 <= i < |peers| - 1 :: Prefix(peers)[i] == peers[i];
    assert peers[|peers| - 1] == Last(peers);
    if level != own {
      var i :| 0 <= i < |Prefix(peers)| && id in Prefix(peers)[i] && level == Prefix(peers)[i][id];
      assert id in peers[i] && level == peers[i][id];
    }
  }
}
