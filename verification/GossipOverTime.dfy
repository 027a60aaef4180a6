/**
 The same nodes over time, with a full exchange after every single request: merging keeps each node's own
 refill date, so that every node refills for the same stretch of time once more.
 */
module GossipOverTime {
  import opened Numbers
  import opened Sequences
  import opened TokenBucket
  import opened GossipRounds

  /** One request, then a full exchange. */
  predicate IsHit(n: nat, r: Round) {
    IsRound(n, r) && |r.serves| == 1
  }

  predicate AreHits(n: nat, rounds: seq<Round>) {
    forall r | r in rounds :: IsHit(n, r)
  }

  function HitTime(r: Round): real {
    if r.serves != [] && r.serves[0].Serve? then r.serves[0].now else 0.0
  }

  /** The time of the latest request, `clock` when there is none. */
  function EndOf(clock: real, rounds: seq<Round>): real {
    if rounds == [] then clock else HitTime(Last(rounds))
  }

  predicate InTime(clock: real, rounds: seq<Round>) {
    rounds == [] || (InTime(clock, Prefix(rounds)) && EndOf(clock, Prefix(rounds)) <= HitTime(Last(rounds)))
  }

  predicate AnyStored(slots: seq<Slot>) {
    exists i :: 0 <= i < |slots| && slots[i].Some?
  }

  predicate EntryInCommon(slot: Slot, level: real, since: real, clock: real) {
    slot.Some? ==> slot.value.tokens == level && since <= slot.value.lastRefill <= clock
  }

  /** All nodes that store the entity hold `level`, the whole limit while none does. */
  predicate Common(c: Setup, slots: seq<Slot>, level: real, since: real, clock: real) {
    && 0.0 <= level <= c.limit as real
    && (!AnyStored(slots) ==> level == c.limit as real)
    && forall i | 0 <= i < |slots| :: EntryInCommon(slots[i], level, since, clock)
  }

  /** What the nodes' own refill dates have earned since `since`, all together. */
  function Refills(rate: real, slots: seq<Slot>, since: real): real {
    if slots == [] then 0.0 else Refills(rate, Prefix(slots), since) + RefillOf(rate, Last(slots), since)
  }

  function RefillOf(rate: real, slot: Slot, since: real): real {
    if slot.None? then 0.0 else Earned(rate, slot.value.lastRefill - since)
  }

  lemma {:induction false} RefillsAfterUpdate(rate: real, slots: seq<Slot>, since: real, i: nat, slot: Slot)
    requires i < |slots|
    ensures Refills(rate, slots[i := slot], since)
         == Refills(rate, slots, since) - RefillOf(rate, slots[i], since) + RefillOf(rate, slot, since)
  {
    var slots' := slots[i := slot];
    if i == |slots| - 1 {
      assert Prefix(slots') == Prefix(slots);
    } else {
      RefillsAfterUpdate(rate, Prefix(slots), since, i, slot);
      assert Prefix(slots') == Prefix(slots)[i := slot];
    }
  }

  lemma {:induction false} RefillsOfLevelled(rate: real, slots: seq<Slot>, since: real, level: real)
    ensures Refills(rate, AllAtLevel(slots, level), since) == Refills(rate, slots, since)
  {
    if slots != [] {
      RefillsOfLevelled(rate, Prefix(slots), since, level);
      assert Prefix(AllAtLevel(slots, level)) == AllAtLevel(Prefix(slots), level);
    }
  }

  predicate DatedWithin(slots: seq<Slot>, since: real, clock: real) {
    forall i | 0 <= i < |slots| && slots[i].Some? :: since <= slots[i].value.lastRefill <= clock
  }

  lemma {:induction false} RefillsAreBounded(rate: real, slots: seq<Slot>, since: real, clock: real)
    requires rate >= 0.0 && since <= clock && DatedWithin(slots, since, clock)
    ensures 0.0 <= Refills(rate, slots, since) <= Times(|slots|, Earned(rate, clock - since))
  {
    if slots != [] {
      RefillsAreBounded(rate, Prefix(slots), since, clock);
      EarnedMonotone(rate, 0.0, clock - since);
      if Last(slots).Some? {
        EarnedMonotone(rate, 0.0, Last(slots).value.lastRefill - since);
        EarnedMonotone(rate, Last(slots).value.lastRefill - since, clock - since);
      }
      TimesSucc(|slots| - 1, Earned(rate, clock - since));
    }
  }

  // ---------------------------------------------------------------------------------------------
  // One request and its exchange
  // ---------------------------------------------------------------------------------------------

  /** The entry that a request leaves. */
  function Hit(c: Setup, slots: seq<Slot>, i: nat, now: real): Slot
    requires i < |slots|
  {
    Step(c.p, slots[i], Call(now, 1, c.limit))
  }

  /** Everyone's level after the exchange. */
  function LevelAfter(c: Setup, slots: seq<Slot>, level: real, i: nat, now: real): real
    requires i < |slots|
  {
    var left := Hit(c, slots, i, now).value.tokens;
    if OthersStored(slots, i) then Min(level, left) else left
  }

  predicate OthersStored(slots: seq<Slot>, i: nat) {
    exists j :: 0 <= j < |slots| && j != i && slots[j].Some?
  }

  lemma HitLeaves(c: Setup, slots: seq<Slot>, level: real, since: real, clock: real, i: nat, now: real)
    requires c.p.rate >= 0.0 && i < |slots| && Common(c, slots, level, since, clock) && since <= clock <= now
    ensures var left := Hit(c, slots, i, now).value.tokens;
            && 0.0 <= left <= c.limit as real
            && left + (if Admits(c.p, slots[i], now, 1, c.limit) then 1.0 else 0.0)
               <= if slots[i].None? then c.limit as real else level + Earned(c.p.rate, now - slots[i].value.lastRefill)
  {
    assert EntryInCommon(slots[i], level, since, clock);
    if slots[i].Some? {
      EarnedMonotone(c.p.rate, 0.0, now - slots[i].value.lastRefill);
    }
  }

  lemma HitThenExchange(c: Setup, slots: seq<Slot>, level: real, since: real, clock: real, r: Round)
    requires c.p.rate >= 0.0 && Common(c, slots, level, since, clock) && IsHit(|slots|, r)
    requires since <= clock <= HitTime(r)
    ensures AllAmong(|slots|, r.serves + r.tells) && r.serves[0].Serve? && r.serves[0].node < |slots|
    ensures var i, now := r.serves[0].node, r.serves[0].now;
            var level' := LevelAfter(c, slots, level, i, now);
            && Played(c, slots, r.serves + r.tells) == AllAtLevel(slots[i := Hit(c, slots, i, now)], level')
            && Common(c, Played(c, slots, r.serves + r.tells), level', since, now)
            && Granted(c, slots, r.serves + r.tells) == if Admits(c.p, slots[i], now, 1, c.limit) then 1 else 0
  {
    var m := r.serves[0];
    assert m in r.serves && r.serves == [m];
    var served := slots[m.node := Hit(c, slots, m.node, m.now)];
    HitLeaves(c, slots, level, since, clock, m.node, m.now);
    OneServed(c, slots, m);
    PlayedInTurn(c, slots, r.serves, r.tells);
    var lowest := LowestAfterHit(c, slots, level, since, clock, m.node, m.now);
    Exchanging(c, served, r.tells, lowest);
    CommonAgain(c, slots, level, since, clock, m.node, m.now);
  }

  lemma OneServed(c: Setup, slots: seq<Slot>, m: Move)
    requires m.Serve? && m.node < |slots|
    ensures AllAmong(|slots|, [m]) && Played(c, slots, [m]) == slots[m.node := Hit(c, slots, m.node, m.now)]
    ensures Granted(c, slots, [m]) == if Admits(c.p, slots[m.node], m.now, 1, c.limit) then 1 else 0
  {
    assert Prefix([m]) == [];
    assert Last([m]) == m;
  }

  lemma LowestAfterHit(c: Setup, slots: seq<Slot>, level: real, since: real, clock: real, i: nat, now: real)
    returns (lowest: nat)
    requires i < |slots| && Common(c, slots, level, since, clock)
    ensures var served := slots[i := Hit(c, slots, i, now)];
            && lowest < |slots| && served[lowest].Some?
            && served[lowest].value.tokens == LevelAfter(c, slots, level, i, now)
            && NoneBelow(served, served[lowest].value.tokens)
  {
    var served := slots[i := Hit(c, slots, i, now)];
    lowest := i;
    if OthersStored(slots, i) && level < Hit(c, slots, i, now).value.tokens {
      lowest :| lowest < |slots| && lowest != i && slots[lowest].Some?;
    }
    forall j: nat | j < |slots| && served[j].Some?
      ensures LevelAfter(c, slots, level, i, now) <= served[j].value.tokens
    {
      assert EntryInCommon(slots[j], level, since, clock);
    }
    assert EntryInCommon(slots[lowest], level, since, clock);
  }

  lemma CommonAgain(c: Setup, slots: seq<Slot>, level: real, since: real, clock: real, i: nat, now: real)
    requires i < |slots| && Common(c, slots, level, since, clock) && since <= clock <= now
    requires 0.0 <= Hit(c, slots, i, now).value.tokens <= c.limit as real
    ensures var level' := LevelAfter(c, slots, level, i, now);
            Common(c, AllAtLevel(slots[i := Hit(c, slots, i, now)], level'), level', since, now)
  {
    var level' := LevelAfter(c, slots, level, i, now);
    var after := AllAtLevel(slots[i := Hit(c, slots, i, now)], level');
    assert after[i].Some?;
    forall j | 0 <= j < |after| ensures EntryInCommon(after[j], level', since, now) {
      assert EntryInCommon(slots[j], level, since, clock);
    }
  }

  /** A node makes an entry although another one already holds one. */
  predicate Creates(slots: seq<Slot>, r: Round) {
    && r.serves != [] && r.serves[0].Serve? && r.serves[0].node < |slots|
    && slots[r.serves[0].node].None? && AnyStored(slots)
  }

  ghost predicate PaidHit(c: Setup, slots: seq<Slot>, since: real, r: Round, level: real, level': real)
    requires AllAmong(|slots|, r.serves + r.tells)
  {
    Granted(c, slots, r.serves + r.tells) as real + level'
    <= level + Refills(c.p.rate, Played(c, slots, r.serves + r.tells), since) - Refills(c.p.rate, slots, since)
       + if Creates(slots, r) then c.limit as real else 0.0
  }

  /** One request pays for what it is granted from the common level, from what its node's own date earns,
      and from a whole limit where it makes a late entry. */
  lemma HitPays(c: Setup, slots: seq<Slot>, level: real, since: real, clock: real, r: Round)
    requires c.p.rate >= 0.0 && Common(c, slots, level, since, clock) && IsHit(|slots|, r)
    requires since <= clock <= HitTime(r)
    ensures AllAmong(|slots|, r.serves + r.tells) && r.serves[0].Serve? && r.serves[0].node < |slots|
    ensures PaidHit(c, slots, since, r, level, LevelAfter(c, slots, level, r.serves[0].node, r.serves[0].now))
  {
    HitThenExchange(c, slots, level, since, clock, r);
    var i, now := r.serves[0].node, r.serves[0].now;
    var hit := Hit(c, slots, i, now);
    HitLeaves(c, slots, level, since, clock, i, now);
    RefillsAfterUpdate(c.p.rate, slots, since, i, hit);
    RefillsOfLevelled(c.p.rate, slots[i := hit], since, LevelAfter(c, slots, level, i, now));
    HitRefills(c.p.rate, slots[i], hit, since, now);
  }

  lemma HitRefills(rate: real, slot: Slot, hit: Slot, since: real, now: real)
    requires rate >= 0.0 && since <= now && hit.Some? && hit.value.lastRefill == now
    ensures slot.Some? ==>
              RefillOf(rate, hit, since) - RefillOf(rate, slot, since) == Earned(rate, now - slot.value.lastRefill)
    ensures slot.None? ==> RefillOf(rate, hit, since) - RefillOf(rate, slot, since) >= 0.0
  {
    if slot.Some? {
      EarnedSum(rate, slot.value.lastRefill - since, now - slot.value.lastRefill);
      assert (slot.value.lastRefill - since) + (now - slot.value.lastRefill) == now - since;
    } else {
      EarnedMonotone(rate, 0.0, now - since);
    }
  }

  // ---------------------------------------------------------------------------------------------
  // Runs
  // ---------------------------------------------------------------------------------------------

  /** Number of nodes that make an entry after another node has made one. */
  function LateEntries(c: Setup, slots: seq<Slot>, rounds: seq<Round>): nat
    requires AreHits(|slots|, rounds)
  {
    if rounds == [] then 0
    else
      assert Last(rounds) in rounds;
      MovesAreAmong(|slots|, Prefix(rounds));
      LateEntries(c, slots, Prefix(rounds))
      + if Creates(Played(c, slots, Moves(Prefix(rounds))), Last(rounds)) then 1 else 0
  }

  lemma {:induction false} MovesAreAmong(n: nat, rounds: seq<Round>)
    requires AreHits(n, rounds)
    ensures AllAmong(n, Moves(rounds))
  {
    if rounds != [] {
      assert Last(rounds) in rounds;
      MovesAreAmong(n, Prefix(rounds));
    }
  }

  /** What the nodes admit and still hold in common is paid for. */
  ghost predicate Paid(c: Setup, slots: seq<Slot>, since: real, rounds: seq<Round>, start: real, level: real)
    requires AreHits(|slots|, rounds) && AllAmong(|slots|, Moves(rounds))
  {
    Granted(c, slots, Moves(rounds)) as real + level
    <= start + Refills(c.p.rate, Played(c, slots, Moves(rounds)), since) - Refills(c.p.rate, slots, since)
       + Times(LateEntries(c, slots, rounds), c.limit as real)
  }

  /** What the last round adds to a run. */
  lemma LastRound(c: Setup, slots: seq<Slot>, rounds: seq<Round>)
    requires AreHits(|slots|, rounds) && rounds != []
    ensures AllAmong(|slots|, Moves(rounds)) && AllAmong(|slots|, Moves(Prefix(rounds))) && IsHit(|slots|, Last(rounds))
    ensures var held, moves := Played(c, slots, Moves(Prefix(rounds))), Last(rounds).serves + Last(rounds).tells;
            && AllAmong(|slots|, moves) && Played(c, slots, Moves(rounds)) == Played(c, held, moves)
            && Granted(c, slots, Moves(rounds)) == Granted(c, slots, Moves(Prefix(rounds))) + Granted(c, held, moves)
            && LateEntries(c, slots, rounds)
               == LateEntries(c, slots, Prefix(rounds)) + if Creates(held, Last(rounds)) then 1 else 0
  {
    assert Last(rounds) in rounds;
    MovesAreAmong(|slots|, Prefix(rounds));
    PlayedInTurn(c, slots, Moves(Prefix(rounds)), Last(rounds).serves + Last(rounds).tells);
  }

  lemma {:induction false} HitsPay(c: Setup, slots: seq<Slot>, start: real, since: real, clock: real,
                                   rounds: seq<Round>)
    returns (level: real)
    requires c.p.rate >= 0.0 && Common(c, slots, start, since, clock) && since <= clock
    requires AreHits(|slots|, rounds) && InTime(clock, rounds)
    ensures AllAmong(|slots|, Moves(rounds)) && clock <= EndOf(clock, rounds)
    ensures Common(c, Played(c, slots, Moves(rounds)), level, since, EndOf(clock, rounds))
    ensures Paid(c, slots, since, rounds, start, level)
  {
    if rounds == [] {
      level := start;
    } else {
      var before := HitsPay(c, slots, start, since, clock, Prefix(rounds));
      LastRound(c, slots, rounds);
      HitThenExchange(c, Played(c, slots, Moves(Prefix(rounds))), before, since, EndOf(clock, Prefix(rounds)),
                      Last(rounds));
      level := OneMorePays(c, slots, since, rounds, start, before, EndOf(clock, Prefix(rounds)));
    }
  }

  lemma OneMorePays(c: Setup, slots: seq<Slot>, since: real, rounds: seq<Round>, start: real, before: real, clock: real)
    returns (level: real)
    requires AreHits(|slots|, rounds) && rounds != [] && AllAmong(|slots|, Moves(rounds))
    requires AllAmong(|slots|, Moves(Prefix(rounds))) && Paid(c, slots, since, Prefix(rounds), start, before)
    requires IsHit(|slots|, Last(rounds)) && c.p.rate >= 0.0 && since <= clock <= HitTime(Last(rounds))
    requires Common(c, Played(c, slots, Moves(Prefix(rounds))), before, since, clock)
    ensures var held, m := Played(c, slots, Moves(Prefix(rounds))), Last(rounds).serves[0];
            m.Serve? && m.node < |slots| && level == LevelAfter(c, held, before, m.node, m.now)
    ensures Paid(c, slots, since, rounds, start, level)
  {
    var held := Played(c, slots, Moves(Prefix(rounds)));
    HitPays(c, held, before, since, clock, Last(rounds));
    level := LevelAfter(c, held, before, Last(rounds).serves[0].node, Last(rounds).serves[0].now);
    PaymentsAddUp(c, slots, since, rounds, start, before, level);
  }

  lemma PaymentsAddUp(c: Setup, slots: seq<Slot>, since: real, rounds: seq<Round>, start: real, before: real,
                      level: real)
    requires AreHits(|slots|, rounds) && rounds != [] && AllAmong(|slots|, Moves(rounds))
    requires AllAmong(|slots|, Moves(Prefix(rounds))) && Paid(c, slots, since, Prefix(rounds), start, before)
    requires AllAmong(|slots|, Last(rounds).serves + Last(rounds).tells)
    requires PaidHit(c, Played(c, slots, Moves(Prefix(rounds))), since, Last(rounds), before, level)
    ensures Paid(c, slots, since, rounds, start, level)
  {
    LastRound(c, slots, rounds);
    TimesSucc(LateEntries(c, slots, Prefix(rounds)), c.limit as real);
  }

  /** With an exchange after every request, N nodes that start from a common level admit at most that
      level, a whole limit for each node that makes its entry late, and N times the refill. */
  lemma HitsAreBounded(c: Setup, slots: seq<Slot>, start: real, since: real, clock: real, rounds: seq<Round>)
    requires c.p.rate >= 0.0 && Common(c, slots, start, since, clock) && since <= clock
    requires AreHits(|slots|, rounds) && InTime(clock, rounds)
    ensures AllAmong(|slots|, Moves(rounds))
    ensures Granted(c, slots, Moves(rounds)) as real
         <= start + Times(LateEntries(c, slots, rounds), c.limit as real)
            + Times(|slots|, Earned(c.p.rate, EndOf(clock, rounds) - since))
  {
    var level := HitsBalance(c, slots, start, since, clock, rounds);
    Settled(c, slots, since, rounds, start, level, Times(|slots|, Earned(c.p.rate, EndOf(clock, rounds) - since)));
  }

  lemma HitsBalance(c: Setup, slots: seq<Slot>, start: real, since: real, clock: real, rounds: seq<Round>)
    returns (level: real)
    requires c.p.rate >= 0.0 && Common(c, slots, start, since, clock) && since <= clock
    requires AreHits(|slots|, rounds) && InTime(clock, rounds)
    ensures AllAmong(|slots|, Moves(rounds)) && Paid(c, slots, since, rounds, start, level) && level >= 0.0
    ensures Refills(c.p.rate, slots, since) >= 0.0
    ensures Refills(c.p.rate, Played(c, slots, Moves(rounds)), since)
         <= Times(|slots|, Earned(c.p.rate, EndOf(clock, rounds) - since))
  {
    level := HitsPay(c, slots, start, since, clock, rounds);
    RefillsOfCommon(c, slots, start, since, clock);
    RefillsOfCommon(c, Played(c, slots, Moves(rounds)), level, since, EndOf(clock, rounds));
  }

  lemma Settled(c: Setup, slots: seq<Slot>, since: real, rounds: seq<Round>, start: real, level: real, refill: real)
    requires AreHits(|slots|, rounds) && AllAmong(|slots|, Moves(rounds))
    requires Paid(c, slots, since, rounds, start, level) && level >= 0.0
    requires Refills(c.p.rate, slots, since) >= 0.0
    requires Refills(c.p.rate, Played(c, slots, Moves(rounds)), since) <= refill
    ensures Granted(c, slots, Moves(rounds)) as real
         <= start + Times(LateEntries(c, slots, rounds), c.limit as real) + refill
  {
  }

  lemma RefillsOfCommon(c: Setup, slots: seq<Slot>, level: real, since: real, clock: real)
    requires c.p.rate >= 0.0 && Common(c, slots, level, since, clock) && since <= clock
    ensures 0.0 <= Refills(c.p.rate, slots, since) <= Times(|slots|, Earned(c.p.rate, clock - since))
  {
    forall i | 0 <= i < |slots| && slots[i].Some? ensures since <= slots[i].value.lastRefill <= clock {
      assert EntryInCommon(slots[i], level, since, clock);
    }
    RefillsAreBounded(c.p.rate, slots, since, clock);
  }

  // ---------------------------------------------------------------------------------------------
  // Every node refills for the same time once more
  // ---------------------------------------------------------------------------------------------

  /** All nodes store the entity, at one level and one date. */
  function Everywhere(n: nat, level: real, at: real): (slots: seq<Slot>)
    ensures |slots| == n
  {
    seq(n, _ => Some(Entry(level, at)))
  }

  lemma {:induction false} NoLateEntries(c: Setup, slots: seq<Slot>, rounds: seq<Round>)
    requires AreHits(|slots|, rounds) && forall i | 0 <= i < |slots| :: slots[i].Some?
    ensures AllAmong(|slots|, Moves(rounds)) && LateEntries(c, slots, rounds) == 0
    ensures forall i | 0 <= i < |slots| :: Played(c, slots, Moves(rounds))[i].Some?
  {
    if rounds != [] {
      NoLateEntries(c, slots, Prefix(rounds));
      LastRound(c, slots, rounds);
      StoredStays(c, Played(c, slots, Moves(Prefix(rounds))), Last(rounds).serves + Last(rounds).tells);
    }
  }

  lemma {:induction false} StoredStays(c: Setup, slots: seq<Slot>, moves: seq<Move>)
    requires AllAmong(|slots|, moves) && forall i | 0 <= i < |slots| :: slots[i].Some?
    ensures forall i | 0 <= i < |slots| :: Played(c, slots, moves)[i].Some?
  {
    if moves != [] {
      assert Last(moves) in moves;
      StoredStays(c, slots, Prefix(moves));
    }
  }

  /** Where all nodes store the entity, they admit at most the level and N times the refill. */
  lemma StoredNodesAreBounded(c: Setup, n: nat, level: real, at: real, rounds: seq<Round>)
    requires c.p.rate >= 0.0 && 0.0 <= level <= c.limit as real && (n == 0 ==> level == c.limit as real)
    requires AreHits(n, rounds) && InTime(at, rounds)
    ensures AllAmong(n, Moves(rounds))
    ensures Granted(c, Everywhere(n, level, at), Moves(rounds)) as real
         <= level + Times(n, Earned(c.p.rate, EndOf(at, rounds) - at))
  {
    EveryoneIsCommon(c, n, level, at);
    HitsAreBounded(c, Everywhere(n, level, at), level, at, at, rounds);
    NoLateEntries(c, Everywhere(n, level, at), rounds);
    NoTimes(c.limit as real);
  }

  lemma EveryoneIsCommon(c: Setup, n: nat, level: real, at: real)
    requires 0.0 <= level <= c.limit as real && (n == 0 ==> level == c.limit as real)
    ensures Common(c, Everywhere(n, level, at), level, at, at)
  {
    assert n > 0 ==> Everywhere(n, level, at)[0].Some?;
  }

  lemma NoTimes(x: real)
    ensures Times(0, x) == 0.0
  {
  }

  /** At most the level and one refill. */
  predicate PaidFor(granted: int, level: real, rate: real, time: real) {
    granted as real <= level + Earned(rate, time)
  }

  ghost predicate StaysWithin(c: Setup, slots: seq<Slot>, level: real, at: real, rounds: seq<Round>)
    requires AreHits(|slots|, rounds)
  {
    MovesAreAmong(|slots|, rounds);
    PaidFor(Granted(c, slots, Moves(rounds)), level, c.p.rate, EndOf(at, rounds) - at)
  }

  /** All such runs of the nodes admit at most their common level and one refill. */
  ghost predicate AlwaysWithinTheRefill(c: Setup, n: nat, level: real, at: real) {
    forall rounds | AreHits(n, rounds) && InTime(at, rounds) ::
      StaysWithin(c, Everywhere(n, level, at), level, at, rounds)
  }

  /** With an exchange after every request, nodes that all store the entity stay within the common level
      and one refill if and only if there is at most one of them. */
  lemma RefillIsSharedExactly(c: Setup, n: nat, level: real, at: real)
    requires c.p.rate > 0.0 && c.limit >= 1 && 0.0 <= level <= c.limit as real
    ensures AlwaysWithinTheRefill(c, n, level, at) <==> n <= 1
  {
    if n <= 1 {
      forall rounds | AreHits(n, rounds) && InTime(at, rounds)
        ensures StaysWithin(c, Everywhere(n, level, at), level, at, rounds)
      {
        OneNodeStaysWithin(c, n, level, at, rounds);
      }
    } else {
      var rounds := EveryNodeRefills(c, n, level, at);
      assert !StaysWithin(c, Everywhere(n, level, at), level, at, rounds);
    }
  }

  lemma OneNodeStaysWithin(c: Setup, n: nat, level: real, at: real, rounds: seq<Round>)
    requires c.p.rate > 0.0 && 0.0 <= level <= c.limit as real && n <= 1
    requires AreHits(n, rounds) && InTime(at, rounds)
    ensures StaysWithin(c, Everywhere(n, level, at), level, at, rounds)
  {
    if n == 1 {
      StoredNodesAreBounded(c, n, level, at, rounds);
      TimesSucc(0, Earned(c.p.rate, EndOf(at, rounds) - at));
    } else if rounds == [] {
      EarnedSum(c.p.rate, 0.0, 0.0);
    } else {
      var r := Last(rounds);
      assert r in rounds && r.serves[0] in r.serves;
    }
  }

  lemma AHit(n: nat, i: nat, now: real) returns (r: Round)
    requires i < n
    ensures IsHit(n, r) && r.serves == [Serve(i, now)]
  {
    var tells := AnExchange(n);
    r := Round([Serve(i, now)], tells);
  }

  /** The rounds lead to `after` at `clock`, and admit `granted`. */
  ghost predicate Leads(c: Setup, slots: seq<Slot>, at: real, rounds: seq<Round>, after: seq<Slot>, granted: int,
                        clock: real) {
    && AreHits(|slots|, rounds) && AllAmong(|slots|, Moves(rounds)) && InTime(at, rounds) && EndOf(at, rounds) == clock
    && Played(c, slots, Moves(rounds)) == after && Granted(c, slots, Moves(rounds)) == granted
  }

  lemma OneMoreHit(c: Setup, slots: seq<Slot>, at: real, rounds: seq<Round>, held: seq<Slot>, granted: int, clock: real,
                   level: real, i: nat, now: real)
    returns (longer: seq<Round>)
    requires Leads(c, slots, at, rounds, held, granted, clock) && i < |slots| && at <= clock <= now
    requires c.p.rate >= 0.0 && Common(c, held, level, at, clock) && Admits(c.p, held[i], now, 1, c.limit)
    ensures Leads(c, slots, at, longer,
                  AllAtLevel(held[i := Hit(c, held, i, now)], LevelAfter(c, held, level, i, now)), granted + 1, now)
  {
    var r := AHit(|slots|, i, now);
    longer := rounds + [r];
    assert Prefix(longer) == rounds && Last(longer) == r;
    LastRound(c, slots, longer);
    HitThenExchange(c, held, level, at, clock, r);
  }

  lemma DrainOne(c: Setup, n: nat, level: real, at: real)
    requires n > 0 && 1.0 <= level <= c.limit as real
    ensures var held := Everywhere(n, level, at);
            && Common(c, held, level, at, at) && Admits(c.p, held[0], at, 1, c.limit)
            && AllAtLevel(held[0 := Hit(c, held, 0, at)], LevelAfter(c, held, level, 0, at))
               == Everywhere(n, level - 1.0, at)
  {
    EarnedSum(c.p.rate, 0.0, 0.0);
    assert Everywhere(n, level, at)[0].Some?;
  }

  lemma NoRounds(c: Setup, slots: seq<Slot>, at: real)
    ensures Leads(c, slots, at, [], slots, 0, at)
  {
  }

  lemma {:induction false} Draining(c: Setup, n: nat, level: real, at: real, k: nat) returns (rounds: seq<Round>)
    requires c.p.rate >= 0.0 && n > 0 && k as real <= level <= c.limit as real
    ensures Leads(c, Everywhere(n, level, at), at, rounds, Everywhere(n, level - k as real, at), k, at)
  {
    if k == 0 {
      NoRounds(c, Everywhere(n, level, at), at);
      rounds := [];
      assert level - k as real == level;
    } else {
      var before := level - (k - 1) as real;
      rounds := Draining(c, n, level, at, k - 1);
      DrainOne(c, n, before, at);
      rounds := OneMoreHit(c, Everywhere(n, level, at), at, rounds, Everywhere(n, before, at), k - 1, at, before, 0,
                           at);
      assert before - 1.0 == level - k as real;
    }
  }

  /** The first `j` nodes have refilled at `now`, the others last at `at`; all hold `level`. */
  function Stairs(n: nat, level: real, at: real, now: real, j: nat): (slots: seq<Slot>)
    ensures |slots| == n
  {
    seq(n, i => Some(Entry(level, if i < j then now else at)))
  }

  /** A node that last refilled when one token's time ago admits, and leaves the common level no higher. */
  lemma OneStep(c: Setup, n: nat, level: real, at: real, now: real, j: nat)
    requires c.p.rate > 0.0 && c.limit >= 1 && j < n && 0.0 <= level <= c.limit as real
    requires at <= now && Earned(c.p.rate, now - at) == 1.0
    ensures var held := Stairs(n, level, at, now, j);
            var level' := LevelAfter(c, held, level, j, now);
            && Common(c, held, level, at, if j == 0 then at else now) && Admits(c.p, held[j], now, 1, c.limit)
            && 0.0 <= level' <= c.limit as real
            && AllAtLevel(held[j := Hit(c, held, j, now)], level') == Stairs(n, level', at, now, j + 1)
  {
    var held := Stairs(n, level, at, now, j);
    assert held[j].Some?;
    assert Elapsed(c.p, at, now) == now - at;
  }

  lemma {:induction false} EachRefills(c: Setup, n: nat, level: real, at: real, k: nat, now: real, j: nat)
    returns (left: real, rounds: seq<Round>)
    requires c.p.rate > 0.0 && c.limit >= 1 && 0 < n && j <= n && k as real <= level <= c.limit as real
    requires at <= now && Earned(c.p.rate, now - at) == 1.0
    ensures 0.0 <= left <= c.limit as real
    ensures Leads(c, Everywhere(n, level, at), at, rounds, Stairs(n, left, at, now, j), k + j,
                  if j == 0 then at else now)
  {
    if j == 0 {
      rounds := Draining(c, n, level, at, k);
      left := level - k as real;
      assert Everywhere(n, left, at) == Stairs(n, left, at, now, 0);
    } else {
      left, rounds := EachRefills(c, n, level, at, k, now, j - 1);
      left, rounds := OneMoreRefills(c, n, Everywhere(n, level, at), left, at, k + j - 1, now, j - 1, rounds);
    }
  }

  lemma OneMoreRefills(c: Setup, n: nat, slots: seq<Slot>, before: real, at: real, granted: int, now: real, j: nat,
                       rounds: seq<Round>)
    returns (left: real, longer: seq<Round>)
    requires c.p.rate > 0.0 && c.limit >= 1 && j < n == |slots| && 0.0 <= before <= c.limit as real
    requires at <= now && Earned(c.p.rate, now - at) == 1.0
    requires Leads(c, slots, at, rounds, Stairs(n, before, at, now, j), granted, if j == 0 then at else now)
    ensures 0.0 <= left <= c.limit as real
    ensures Leads(c, slots, at, longer, Stairs(n, left, at, now, j + 1), granted + 1, now)
  {
    OneStep(c, n, before, at, now, j);
    var held := Stairs(n, before, at, now, j);
    longer := OneMoreHit(c, slots, at, rounds, held, granted, if j == 0 then at else now, before, j, now);
    left := LevelAfter(c, held, before, j, now);
  }

  /** The level drained at one node, then one token's time later a request at each: all are admitted. */
  lemma EveryNodeRefills(c: Setup, n: nat, level: real, at: real) returns (rounds: seq<Round>)
    requires c.p.rate > 0.0 && c.limit >= 1 && n >= 1 && 0.0 <= level <= c.limit as real
    ensures AreHits(n, rounds) && InTime(at, rounds) && AllAmong(n, Moves(rounds))
    ensures Earned(c.p.rate, EndOf(at, rounds) - at) == 1.0
    ensures Granted(c, Everywhere(n, level, at), Moves(rounds)) == level.Floor + n
  {
    var wait := TimeOfAToken(c.p.rate);
    var now := at + wait;
    assert now - at == wait;
    var left;
    left, rounds := EachRefills(c, n, level, at, level.Floor, now, n);
  }

  lemma TimeOfAToken(rate: real) returns (wait: real)
    requires rate > 0.0
    ensures wait > 0.0 && Earned(rate, wait) == 1.0
  {
    wait := 1000.0 / rate;
    assert rate * wait == 1000.0;
  }

  // ---------------------------------------------------------------------------------------------
  // Every node starts full once more
  // ---------------------------------------------------------------------------------------------

  function NoEntries(n: nat): (slots: seq<Slot>)
    ensures |slots| == n
  {
    seq(n, _ => None)
  }

  /** With an exchange after every request, nodes that do not store the entity yet stay within the limit and
      one refill if and only if there is at most one of them. */
  lemma LimitIsSharedFromScratchExactly(c: Setup, n: nat, at: real)
    requires c.p.rate >= 0.0 && c.limit >= 1
    ensures (forall rounds | AreHits(n, rounds) && InTime(at, rounds) ::
               StaysWithin(c, NoEntries(n), c.limit as real, at, rounds))
       <==> n <= 1
  {
    if n <= 1 {
      forall rounds | AreHits(n, rounds) && InTime(at, rounds)
        ensures StaysWithin(c, NoEntries(n), c.limit as real, at, rounds)
      {
        OneNodeFromScratch(c, n, at, rounds);
      }
    } else {
      var rounds := LateEntryExceeds(c, n, at);
      assert !StaysWithin(c, NoEntries(n), c.limit as real, at, rounds);
    }
  }

  lemma OneNodeFromScratch(c: Setup, n: nat, at: real, rounds: seq<Round>)
    requires c.p.rate >= 0.0 && n <= 1 && AreHits(n, rounds) && InTime(at, rounds)
    ensures StaysWithin(c, NoEntries(n), c.limit as real, at, rounds)
  {
    NobodyIsCommon(c, n, at);
    HitsAreBounded(c, NoEntries(n), c.limit as real, at, at, rounds);
    OneNodeIsNeverLate(c, NoEntries(n), rounds);
    TimeGoesOn(at, rounds);
    OnceAtMost(n, c.p.rate, EndOf(at, rounds) - at, c.limit);
  }

  lemma NobodyIsCommon(c: Setup, n: nat, at: real)
    ensures Common(c, NoEntries(n), c.limit as real, at, at)
  {
  }

  lemma {:induction false} TimeGoesOn(clock: real, rounds: seq<Round>)
    requires InTime(clock, rounds)
    ensures clock <= EndOf(clock, rounds)
  {
    if rounds != [] {
      TimeGoesOn(clock, Prefix(rounds));
    }
  }

  lemma OnceAtMost(n: nat, rate: real, time: real, limit: nat)
    requires n <= 1 && rate >= 0.0 && time >= 0.0
    ensures Times(n, Earned(rate, time)) <= Earned(rate, time) && Times(0, limit as real) == 0.0
  {
    EarnedMonotone(rate, 0.0, time);
    TimesSucc(0, Earned(rate, time));
  }

  lemma {:induction false} OneNodeIsNeverLate(c: Setup, slots: seq<Slot>, rounds: seq<Round>)
    requires |slots| <= 1 && AreHits(|slots|, rounds)
    ensures LateEntries(c, slots, rounds) == 0
  {
    if rounds != [] {
      OneNodeIsNeverLate(c, slots, Prefix(rounds));
      LastRound(c, slots, rounds);
    }
  }

  /** The first node alone stores the entity. */
  function OnlyFirst(n: nat, level: real, at: real): (slots: seq<Slot>)
    ensures |slots| == n
  {
    seq(n, i => if i == 0 then Some(Entry(level, at)) else None)
  }

  lemma FirstEntry(c: Setup, n: nat, at: real)
    requires n > 0 && c.limit >= 1
    ensures var held := NoEntries(n);
            && Common(c, held, c.limit as real, at, at) && Admits(c.p, held[0], at, 1, c.limit)
            && AllAtLevel(held[0 := Hit(c, held, 0, at)], LevelAfter(c, held, c.limit as real, 0, at))
               == OnlyFirst(n, (c.limit - 1) as real, at)
  {
  }

  lemma FirstAgain(c: Setup, n: nat, level: nat, at: real)
    requires n > 0 && 1 <= level <= c.limit
    ensures var held := OnlyFirst(n, level as real, at);
            && Common(c, held, level as real, at, at) && Admits(c.p, held[0], at, 1, c.limit)
            && AllAtLevel(held[0 := Hit(c, held, 0, at)], LevelAfter(c, held, level as real, 0, at))
               == OnlyFirst(n, (level - 1) as real, at)
  {
    EarnedSum(c.p.rate, 0.0, 0.0);
    assert OnlyFirst(n, level as real, at)[0].Some?;
  }

  lemma {:induction false} FirstNodeDrains(c: Setup, n: nat, at: real, k: nat) returns (rounds: seq<Round>)
    requires c.p.rate >= 0.0 && n > 0 && 1 <= k <= c.limit
    ensures Leads(c, NoEntries(n), at, rounds, OnlyFirst(n, (c.limit - k) as real, at), k, at)
  {
    if k == 1 {
      NoRounds(c, NoEntries(n), at);
      FirstEntry(c, n, at);
      rounds := OneMoreHit(c, NoEntries(n), at, [], NoEntries(n), 0, at, c.limit as real, 0, at);
    } else {
      rounds := FirstNodeDrains(c, n, at, k - 1);
      rounds := FirstNodeDrainsOne(c, n, at, c.limit - (k - 1), k - 1, rounds);
    }
  }

  lemma FirstNodeDrainsOne(c: Setup, n: nat, at: real, level: nat, granted: nat, rounds: seq<Round>)
    returns (longer: seq<Round>)
    requires c.p.rate >= 0.0 && n > 0 && 1 <= level <= c.limit
    requires Leads(c, NoEntries(n), at, rounds, OnlyFirst(n, level as real, at), granted, at)
    ensures Leads(c, NoEntries(n), at, longer, OnlyFirst(n, (level - 1) as real, at), granted + 1, at)
  {
    FirstAgain(c, n, level, at);
    longer := OneMoreHit(c, NoEntries(n), at, rounds, OnlyFirst(n, level as real, at), granted, at, level as real, 0,
                         at);
  }

  /** The limit drained at one node, then one request at another: it is admitted at the same instant. */
  lemma LateEntryExceeds(c: Setup, n: nat, at: real) returns (rounds: seq<Round>)
    requires c.p.rate >= 0.0 && n >= 2 && c.limit >= 1
    ensures AreHits(n, rounds) && InTime(at, rounds) && AllAmong(n, Moves(rounds)) && EndOf(at, rounds) == at
    ensures Granted(c, NoEntries(n), Moves(rounds)) == c.limit + 1
    ensures Earned(c.p.rate, EndOf(at, rounds) - at) == 0.0
  {
    rounds := FirstNodeDrains(c, n, at, c.limit);
    var held := OnlyFirst(n, 0.0, at);
    assert held[0].Some?;
    rounds := OneMoreHit(c, NoEntries(n), at, rounds, held, c.limit, at, 0.0, 1, at);
    EarnedSum(c.p.rate, 0.0, 0.0);
  }
}
