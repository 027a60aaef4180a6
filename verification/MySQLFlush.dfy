/** The flusher that persists the in-memory store to MySQL (go-throttle/throttle/mysql_flush.go). */
module MySQLFlush {
  import opened Numbers
  import opened Sequences
  import opened TokenBucket
  import opened BucketStore
  import opened GoLocalBucket

  datatype Row = Row(usedTokens: int, updatedAt: real)

  type Rows = map<string, Row>

  /** Rows by the minute in which they were flushed, then by entity: the table's unique key. */
  type Table = map<int, Rows>

  function WindowStart(now: real): int {
    (now / 60000.0).Floor
  }

  function AtLeastZero(n: int): int {
    if n < 0 then 0 else n
  }

  function Used(nodeLimit: int, tokens: real): int {
    AtLeastZero(nodeLimit - Trunc(tokens))
  }

  function RowsOf(table: Table, windowStart: int): Rows {
    if windowStart in table then table[windowStart] else map[]
  }

  /** Every entity of the snapshot whose upsert succeeds gets its row of this minute. */
  function Upserted(rows: Rows, nodeLimit: int, snap: map<string, real>, now: real, failing: set<string>): Rows {
    map id | id in rows.Keys + (snap.Keys - failing) ::
      if id in snap && id !in failing then Row(Used(nodeLimit, snap[id]), now) else rows[id]
  }

  /** Rows of the current minute updated in the last two minutes. */
  function LiveRows(table: Table, now: real): Rows {
    map id | id in RowsOf(table, WindowStart(now)) && RowsOf(table, WindowStart(now))[id].updatedAt > now - 120000.0
      :: RowsOf(table, WindowStart(now))[id]
  }

  function SeededEntry(p: Params, store: Store, nodeLimit: int, id: string, row: Row, now: real): Entry {
    Step(p, Lookup(store, id), Call(now, 0, AtLeastZero(nodeLimit - row.usedTokens))).value
  }

  /** Consuming nothing under the remaining tokens as limit. */
  function Seeded(p: Params, store: Store, nodeLimit: int, rows: Rows, now: real): Store {
    map id | id in store.Keys + rows.Keys ::
      if id in rows then SeededEntry(p, store, nodeLimit, id, rows[id], now) else store[id]
  }

  // ---------------------------------------------------------------------------------------------
  // The table that all nodes share: its key names no node
  // ---------------------------------------------------------------------------------------------

  /** One flush of some node; `failing`: entities whose upsert the database refuses. */
  datatype Written = Written(nodeLimit: int, snap: map<string, real>, now: real, failing: set<string>)

  function Flushed(table: Table, f: Written): Table {
    table[WindowStart(f.now) := Upserted(RowsOf(table, WindowStart(f.now)), f.nodeLimit, f.snap, f.now, f.failing)]
  }

  function TableAfter(table: Table, fs: seq<Written>): Table {
    if fs == [] then table else Flushed(TableAfter(table, Prefix(fs)), Last(fs))
  }

  lemma SameRowsFlushed(a: Table, b: Table, f: Written)
    requires forall w :: RowsOf(a, w) == RowsOf(b, w)
    ensures forall w :: RowsOf(Flushed(a, f), w) == RowsOf(Flushed(b, f), w)
  {
    forall w ensures RowsOf(Flushed(a, f), w) == RowsOf(Flushed(b, f), w) {
      assert RowsOf(a, w) == RowsOf(b, w);
    }
  }

  predicate Writes(f: Written, minute: int, id: string) {
    WindowStart(f.now) == minute && id in f.snap && id !in f.failing
  }

  /** The latest successful flush of the entity in that minute, by whichever node. */
  function LastWrite(fs: seq<Written>, minute: int, id: string): (f: Option<Written>)
    ensures f.Some? ==> f.value in fs && Writes(f.value, minute, id)
  {
    if fs == [] then None
    else if Writes(Last(fs), minute, id) then Some(Last(fs))
    else LastWrite(Prefix(fs), minute, id)
  }

  predicate SaneFlushes(nodeLimit: int, fs: seq<Written>) {
    forall f | f in fs :: f.nodeLimit == nodeLimit && forall id | id in f.snap :: f.snap[id] >= 0.0
  }

  lemma {:induction false} RowIsTheLastWrite(table: Table, fs: seq<Written>, minute: int, id: string)
    ensures var rows := RowsOf(TableAfter(table, fs), minute);
            match LastWrite(fs, minute, id)
            case Some(f) =>
              id in rows && rows[id] == Row(Used(f.nodeLimit, f.snap[id]), f.now)
            case None =>
              && (id in rows <==> id in RowsOf(table, minute))
              && (id in rows ==> rows[id] == RowsOf(table, minute)[id])
  {
    if fs != [] {
      RowIsTheLastWrite(table, Prefix(fs), minute, id);
    }
  }

  /** What a node holds after it has restarted with an empty memory and seeded. */
  function Restored(p: Params, nodeLimit: int, table: Table, later: real): Store {
    Seeded(p, map[], nodeLimit, LiveRows(table, later), later)
  }

  /** The tokens it restores for an entity: the whole tokens that the latest flush of the restart's minute
      has written, at most the node limit; failing that, an older row of that minute. */
  function RestoredTokens(nodeLimit: int, table: Table, fs: seq<Written>, later: real, id: string): Option<int> {
    match LastWrite(fs, WindowStart(later), id)
    case Some(f) => Some(if f.snap[id].Floor <= nodeLimit then f.snap[id].Floor else nodeLimit)
    case None =>
      if id in LiveRows(table, later)
      then Some(AtLeastZero(nodeLimit - LiveRows(table, later)[id].usedTokens))
      else None
  }

  /** Whatever nodes have flushed before, a restart restores exactly the latest flush of its minute. */
  lemma RestartRestoresTheLastWrite(p: Params, nodeLimit: int, table: Table, fs: seq<Written>, later: real, id: string)
    requires nodeLimit >= 0 && SaneFlushes(nodeLimit, fs)
    ensures Lookup(Restored(p, nodeLimit, TableAfter(table, fs), later), id)
         == match RestoredTokens(nodeLimit, table, fs, later, id)
            case Some(tokens) => Some(Entry(tokens as real, later))
            case None => None
  {
    var live := LiveRows(TableAfter(table, fs), later);
    LiveIsTheLastWrite(table, fs, later, id);
    if id in live {
      SeededFromNothing(p, nodeLimit, id, live[id], later);
    }
  }

  lemma LiveIsTheLastWrite(table: Table, fs: seq<Written>, later: real, id: string)
    ensures var live := LiveRows(TableAfter(table, fs), later);
            match LastWrite(fs, WindowStart(later), id)
            case Some(f) => id in live && live[id] == Row(Used(f.nodeLimit, f.snap[id]), f.now)
            case None =>
              && (id in live <==> id in LiveRows(table, later))
              && (id in live ==> live[id] == LiveRows(table, later)[id])
  {
    RowIsTheLastWrite(table, fs, WindowStart(later), id);
    var last := LastWrite(fs, WindowStart(later), id);
    if last.Some? {
      SameMinuteIsRecent(last.value.now, later);
    }
  }

  lemma SeededFromNothing(p: Params, nodeLimit: int, id: string, row: Row, now: real)
    ensures SeededEntry(p, map[], nodeLimit, id, row, now)
         == Entry(AtLeastZero(nodeLimit - row.usedTokens) as real, now)
  {
  }

  /** Where no older row of the minute is left, an entity survives a restart if and only if some node has
      flushed it in the minute of the restart: at the turn of the minute every bucket starts full again. */
  lemma SurvivesOnlyWithinTheMinute(p: Params, nodeLimit: int, table: Table, fs: seq<Written>, later: real, id: string)
    requires nodeLimit >= 0 && SaneFlushes(nodeLimit, fs) && id !in LiveRows(table, later)
    ensures id in Restored(p, nodeLimit, TableAfter(table, fs), later)
       <==> exists k :: 0 <= k < |fs| && Writes(fs[k], WindowStart(later), id)
  {
    RestartRestoresTheLastWrite(p, nodeLimit, table, fs, later, id);
    SomeoneWrote(fs, WindowStart(later), id);
  }

  lemma {:induction false} SomeoneWrote(fs: seq<Written>, minute: int, id: string)
    ensures LastWrite(fs, minute, id).Some? <==> exists k :: 0 <= k < |fs| && Writes(fs[k], minute, id)
  {
    if fs != [] {
      SomeoneWrote(Prefix(fs), minute, id);
      if Writes(Last(fs), minute, id) {
        assert Writes(fs[|fs| - 1], minute, id);
      }
      forall k | 0 <= k < |fs| && Writes(fs[k], minute, id) ensures LastWrite(fs, minute, id).Some? {
        if k < |fs| - 1 {
          assert Writes(Prefix(fs)[k], minute, id);
        }
      }
      if LastWrite(Prefix(fs), minute, id).Some? {
        var k :| 0 <= k < |Prefix(fs)| && Writes(Prefix(fs)[k], minute, id);
        assert Writes(fs[k], minute, id);
      }
    }
  }

  /** The restarted node never has more for the next call than the crashed one, which held `own`, had. */
  ghost predicate GrantsNothing(p: Params, own: Slot, restored: Slot, later: real, limit: int) {
    forall at | later <= at :: Level(p, restored, at, limit) <= Level(p, own, at, limit)
  }

  /** What a restored entity offers a call at once: the limit where it starts full. */
  function Offered(tokens: Option<int>, limit: int): real {
    match tokens
    case Some(n) => Min(limit as real, n as real)
    case None => limit as real
  }

  /** A restart grants nothing if and only if what it restores is at most what the crashed node had. */
  lemma RestartGrantsNothingExactly(p: Params, nodeLimit: int, table: Table, fs: seq<Written>, own: Slot, later: real,
                                    id: string, limit: int)
    requires p.rate >= 0.0 && nodeLimit >= 0 && SaneFlushes(nodeLimit, fs)
    requires own.Some? ==> own.value.lastRefill <= later
    ensures GrantsNothing(p, own, Lookup(Restored(p, nodeLimit, TableAfter(table, fs), later), id), later, limit)
       <==> Offered(RestoredTokens(nodeLimit, table, fs, later, id), limit) <= Level(p, own, later, limit)
  {
    var restored := Lookup(Restored(p, nodeLimit, TableAfter(table, fs), later), id);
    RestartRestoresTheLastWrite(p, nodeLimit, table, fs, later, id);
    EarnedSum(p.rate, 0.0, 0.0);
    assert Level(p, restored, later, limit) == Offered(RestoredTokens(nodeLimit, table, fs, later, id), limit);
    if Level(p, restored, later, limit) <= Level(p, own, later, limit) {
      forall at | later <= at ensures Level(p, restored, at, limit) <= Level(p, own, at, limit) {
        LowerStaysLower(p, restored, own, later, at, limit);
      }
    }
  }

  lemma LowerStaysLower(p: Params, a: Slot, b: Slot, now: real, later: real, limit: int)
    requires p.rate >= 0.0 && now <= later && Level(p, a, now, limit) <= Level(p, b, now, limit)
    requires a.Some? ==> a.value.lastRefill <= now
    requires b.Some? ==> b.value.lastRefill <= now
    ensures Level(p, a, later, limit) <= Level(p, b, later, limit)
  {
    EarnedMonotone(p.rate, 0.0, later - now);
    if a.Some? {
      EarnedSum(p.rate, now - a.value.lastRefill, later - now);
      assert (now - a.value.lastRefill) + (later - now) == later - a.value.lastRefill;
    }
    if b.Some? {
      EarnedSum(p.rate, now - b.value.lastRefill, later - now);
      assert (now - b.value.lastRefill) + (later - now) == later - b.value.lastRefill;
    }
  }

  /** A node's own flush, a crash and a restart in the same minute, with no other flush in between: every
      flushed entity is back at its whole tokens, at most the node limit, so that the restart grants
      nothing and loses less than one token. */
  lemma FlushCrashSeed(p: Params, store: Store, nodeLimit: int, table: Table, fs: seq<Written>, now: real,
                       failing: set<string>, later: real, id: string)
    requires nodeLimit >= 0 && SaneFlushes(nodeLimit, fs) && WindowStart(now) == WindowStart(later)
    requires forall other | other in store :: store[other].tokens >= 0.0
    requires id in Reported(p, store, now) && id !in failing
    ensures var level := Reported(p, store, now)[id];
            var mine := Written(nodeLimit, Reported(p, store, now), now, failing);
            var restored := Lookup(Restored(p, nodeLimit, TableAfter(table, fs + [mine]), later), id);
            && restored == Some(Entry(Min(nodeLimit as real, level.Floor as real), later))
            && restored.value.tokens <= level
            && (level <= nodeLimit as real ==> level - 1.0 < restored.value.tokens)
  {
    var mine := Written(nodeLimit, Reported(p, store, now), now, failing);
    assert Last(fs + [mine]) == mine;
    RestartRestoresTheLastWrite(p, nodeLimit, table, fs + [mine], later, id);
  }

  /** Another node's flush in between may grant: a drained node restarts with the other node's level. */
  lemma AnotherFlushMayGrant(p: Params, nodeLimit: int, table: Table, drained: map<string, real>, id: string)
    requires p.rate >= 0.0 && nodeLimit >= 1 && id in drained && drained[id] == 0.0
    requires forall other | other in drained :: drained[other] >= 0.0
    ensures var other := drained[id := nodeLimit as real];
            var fs := [Written(nodeLimit, drained, 0.0, {}), Written(nodeLimit, other, 1000.0, {})];
            && Lookup(Restored(p, nodeLimit, TableAfter(table, fs), 2000.0), id)
               == Some(Entry(nodeLimit as real, 2000.0))
            && Level(p, Some(Entry(0.0, 2000.0)), 2000.0, nodeLimit) == 0.0
  {
    var other := drained[id := nodeLimit as real];
    var fs := [Written(nodeLimit, drained, 0.0, {}), Written(nodeLimit, other, 1000.0, {})];
    RestartRestoresTheLastWrite(p, nodeLimit, table, fs, 2000.0, id);
    EarnedSum(p.rate, 0.0, 0.0);
  }

  lemma SameMinuteIsRecent(now: real, later: real)
    requires WindowStart(now) == WindowStart(later)
    ensures now > later - 120000.0
  {
    assert later / 60000.0 - now / 60000.0 < 1.0;
  }

  /** A row belongs to the minute from one multiple of 60 seconds to the next. */
  lemma MinuteTurns(now: real, minute: int)
    ensures WindowStart(now) == minute <==> minute as real * 60000.0 <= now < (minute + 1) as real * 60000.0
  {
  }

  /** A row of the minute counts for less than two minutes after its update. */
  lemma LiveForTwoMinutes(table: Table, now: real, id: string)
    ensures id in LiveRows(table, now)
       <==> id in RowsOf(table, WindowStart(now)) && now - RowsOf(table, WindowStart(now))[id].updatedAt < 120000.0
  {
  }

  /** On a store that is not empty, seeding keeps what it has no row for, and lowers the rest to what the row
      leaves of the node limit, where the entry's own refill would be above it. */
  lemma SeedingOnlyLowers(p: Params, store: Store, nodeLimit: int, rows: Rows, now: real, id: string)
    requires !p.clamped
    ensures var after := Seeded(p, store, nodeLimit, rows, now);
            && (id in after <==> id in store || id in rows)
            && (id in store && id !in rows ==> after[id] == store[id])
            && (id in rows ==>
                  var left := if nodeLimit < rows[id].usedTokens then 0 else nodeLimit - rows[id].usedTokens;
                  && after[id].lastRefill == now
                  && after[id].tokens
                     == if id in store
                        then Min(left as real, store[id].tokens + p.rate * (now - store[id].lastRefill) / 1000.0)
                        else left as real)
  {
  }

  // ---------------------------------------------------------------------------------------------
  // The flusher
  // ---------------------------------------------------------------------------------------------

  /** The database, shared by all nodes, with the flushes that have reached it. */
  class MySQLServer {
    var table: Table
    ghost const initial: Table
    ghost var flushes: seq<Written>

    ghost predicate Valid()
      reads this
    {
      forall w :: RowsOf(table, w) == RowsOf(TableAfter(initial, flushes), w)
    }

    constructor (table: Table)
      ensures Valid() && this.table == table && initial == table && flushes == []
    {
      this.table, this.initial, this.flushes := table, table, [];
    }

    method Upsert(entityID: string, usedTokens: int, windowStart: int, now: real)
      modifies `table
      ensures RowsOf(table, windowStart) == RowsOf(old(table), windowStart)[entityID := Row(usedTokens, now)]
      ensures forall w | w != windowStart :: RowsOf(table, w) == RowsOf(old(table), w)
    {
      table := table[windowStart := RowsOf(table, windowStart)[entityID := Row(usedTokens, now)]];
    }

    ghost method Record(before: Table, f: Written)
      requires forall w :: RowsOf(before, w) == RowsOf(TableAfter(initial, flushes), w)
      requires forall w :: RowsOf(table, w) == RowsOf(Flushed(before, f), w)
      modifies `flushes
      ensures Valid() && flushes == old(flushes) + [f]
    {
      SameRowsFlushed(before, TableAfter(initial, flushes), f);
      flushes := flushes + [f];
      assert Prefix(flushes) == old(flushes) && Last(flushes) == f;
    }
  }

  class MySQLFlusher {
    const local: LocalBucket
    const db: MySQLServer
    const globalLimit: int
    const nodeCount: int
    var running: bool

    ghost predicate Valid()
      reads this, local, db
    {
      nodeCount > 0 && globalLimit >= 0 && local.Valid() && db.Valid()
    }

    constructor (local: LocalBucket, db: MySQLServer, globalLimit: int, nodeCount: int)
      requires nodeCount > 0 && globalLimit >= 0 && local.Valid() && db.Valid()
      ensures Valid() && !running && this.local == local && this.db == db
      ensures this.globalLimit == globalLimit && this.nodeCount == nodeCount
    {
      this.local, this.db, this.globalLimit, this.nodeCount := local, db, globalLimit, nodeCount;
      running := false;
    }

    method Start()
      modifies `running
      ensures running
    {
      if running {
        return;
      }
      running := true;
    }

    method Stop()
      modifies `running
      ensures !running
    {
      if !running {
        return;
      }
      running := false;
    }

    /** `failing`: entities whose upsert the database refuses. */
    method Flush(now: real, failing: set<string>)
      requires Valid()
      modifies db, local
      ensures Valid() && local.log == old(local.log) + [StoreEvent.Snapshot(now)]
      ensures var snap := Reported(local.P(), old(local.buckets), now);
              db.flushes == old(db.flushes) + [Written(globalLimit / nodeCount, snap, now, failing)]
    {
      var snap := local.Snapshot(now);
      var nodeLimit := globalLimit / nodeCount;
      WriteAll(nodeLimit, snap, now, failing);
      db.Record(old(db.table), Written(nodeLimit, snap, now, failing));
    }

    method WriteAll(nodeLimit: int, snap: map<string, real>, now: real, failing: set<string>)
      modifies db`table
      ensures forall w ::
                RowsOf(db.table, w) == RowsOf(Flushed(old(db.table), Written(nodeLimit, snap, now, failing)), w)
    {
      if snap == map[] {
        NothingToUpsert(RowsOf(db.table, WindowStart(now)), nodeLimit, now, failing);
        return;
      }
      var windowStart := WindowStart(now);
      ghost var rows := RowsOf(db.table, windowStart);
      var todo := snap.Keys;
      NothingToUpsert(rows, nodeLimit, now, failing);
      assert snap - todo == map[];
      while todo != {}
        invariant todo <= snap.Keys
        invariant RowsOf(db.table, windowStart) == Upserted(rows, nodeLimit, snap - todo, now, failing)
        invariant forall w | w != windowStart :: RowsOf(db.table, w) == RowsOf(old(db.table), w)
        modifies db`table
        decreases todo
      {
        var entityID :| entityID in todo;
        assert todo == todo - {entityID} + {entityID};
        todo := todo - {entityID};
        var usedTokens := nodeLimit - Trunc(snap[entityID]);
        if usedTokens < 0 {
          usedTokens := 0;
        }
        if entityID !in failing {
          db.Upsert(entityID, usedTokens, windowStart, now);
        }
        UpsertOneMore(rows, nodeLimit, snap, now, failing, todo, entityID);
      }
      assert snap - {} == snap;
    }

    /** Reloads the store from the rows of the current minute. */
    method Seed(now: real)
      requires Valid()
      modifies local
      ensures Valid()
      ensures local.buckets
             == Seeded(local.P(), old(local.buckets), globalLimit / nodeCount, LiveRows(db.table, now), now)
    {
      var nodeLimit := globalLimit / nodeCount;
      var rows := LiveRows(db.table, now);
      var todo := rows.Keys;
      while todo != {}
        invariant todo <= rows.Keys && Valid()
        invariant local.buckets == Seeded(local.P(), old(local.buckets), nodeLimit, rows - todo, now)
        decreases todo
      {
        var entityID :| entityID in todo;
        var remaining := nodeLimit - rows[entityID].usedTokens;
        if remaining < 0 {
          remaining := 0;
        }
        var _ := local.Consume(entityID, 0, remaining, now);
        SeedOneMore(local.P(), old(local.buckets), nodeLimit, rows, now, todo, entityID);
        todo := todo - {entityID};
      }
      assert rows - {} == rows;
    }
  }

  lemma NothingToUpsert(rows: Rows, nodeLimit: int, now: real, failing: set<string>)
    ensures Upserted(rows, nodeLimit, map[], now, failing) == rows
  {
  }

  /** `todo` no longer holds `id`. */
  lemma UpsertOneMore(rows: Rows, nodeLimit: int, snap: map<string, real>, now: real, failing: set<string>,
                      todo: set<string>, id: string)
    requires id in snap && id !in todo
    ensures Upserted(rows, nodeLimit, snap - todo, now, failing)
         == var before := Upserted(rows, nodeLimit, snap - (todo + {id}), now, failing);
            if id in failing then before else before[id := Row(Used(nodeLimit, snap[id]), now)]
  {
  }

  lemma SeedOneMore(p: Params, store: Store, nodeLimit: int, rows: Rows, now: real, todo: set<string>, id: string)
    requires id in rows && id in todo
    ensures Seeded(p, store, nodeLimit, rows - (todo - {id}), now)
         == Seeded(p, store, nodeLimit, rows - todo, now)[id := SeededEntry(p, store, nodeLimit, id, rows[id], now)]
    ensures Lookup(Seeded(p, store, nodeLimit, rows - todo, now), id) == Lookup(store, id)
  {
  }
}
