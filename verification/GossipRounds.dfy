/**
 Nodes in PEER mode that serve unit requests for one entity and exchange their levels in between
 (go-throttle/throttle/peer_sync.go): by how much they overshoot the limit, exactly at one instant and
 at most over time.
 */
module GossipRounds {
  import opened Numbers
  import opened Sequences
  import opened TokenBucket

  datatype Setup = Setup(p: Params, limit: nat)

  /** `Serve`: a unit request reaches the node. `Tell`: `to` merges the level that `from` holds, if any. */
  datatype Move = Serve(node: nat, now: real) | Tell(to: nat, from: nat)

  predicate Among(n: nat, m: Move) {
    match m
    case Serve(i, _) => i < n
    case Tell(to, from) => to < n && from < n
  }

  predicate AllAmong(n: nat, moves: seq<Move>) {
    forall m | m in moves :: Among(n, m)
  }

  function SlotsAfter(c: Setup, slots: seq<Slot>, m: Move): (after: seq<Slot>)
    requires Among(|slots|, m)
    ensures |after| == |slots|
  {
    match m
    case Serve(i, now) => slots[i := Step(c.p, slots[i], Call(now, 1, c.limit))]
    case Tell(to, from) =>
      if slots[from].None? then slots else slots[to := Step(c.p, slots[to], Merge(slots[from].value.tokens))]
  }

  function GrantOf(c: Setup, slots: seq<Slot>, m: Move): nat
    requires Among(|slots|, m)
  {
    if m.Serve? && Admits(c.p, slots[m.node], m.now, 1, c.limit) then 1 else 0
  }

  function Played(c: Setup, slots: seq<Slot>, moves: seq<Move>): (after: seq<Slot>)
    requires AllAmong(|slots|, moves)
    ensures |after| == |slots|
  {
    if moves == [] then slots
    else
      assert Last(moves) in moves;
      SlotsAfter(c, Played(c, slots, Prefix(moves)), Last(moves))
  }

  /** Requests admitted. */
  function Granted(c: Setup, slots: seq<Slot>, moves: seq<Move>): nat
    requires AllAmong(|slots|, moves)
  {
    if moves == [] then 0
    else
      assert Last(moves) in moves;
      Granted(c, slots, Prefix(moves)) + GrantOf(c, Played(c, slots, Prefix(moves)), Last(moves))
  }

  lemma {:induction false} PlayedInTurn(c: Setup, slots: seq<Slot>, a: seq<Move>, b: seq<Move>)
    requires AllAmong(|slots|, a) && AllAmong(|slots|, b)
    ensures AllAmong(|slots|, a + b)
    ensures Played(c, slots, a + b) == Played(c, Played(c, slots, a), b)
    ensures Granted(c, slots, a + b) == Granted(c, slots, a) + Granted(c, Played(c, slots, a), b)
  {
    if b == [] {
      assert a + b == a;
    } else {
      PlayedInTurn(c, slots, a, Prefix(b));
      assert Prefix(a + b) == a + Prefix(b);
    }
  }

  // ---------------------------------------------------------------------------------------------
  // A full exchange
  // ---------------------------------------------------------------------------------------------

  /** Every node hears from every other, in any order and any number of times. */
  predicate IsExchange(n: nat, tells: seq<Move>) {
    && AllAmong(n, tells) && (forall m | m in tells :: m.Tell?)
    && (forall to: nat, from: nat | to < n && from < n && to != from :: Tell(to, from) in tells)
  }

  predicate NoneBelow(slots: seq<Slot>, low: real) {
    forall i | 0 <= i < |slots| && slots[i].Some? :: low <= slots[i].value.tokens
  }

  predicate OnlyLower(slots: seq<Slot>, after: seq<Slot>)
    requires |after| == |slots|
  {
    forall i | 0 <= i < |slots| ::
      && (after[i].Some? <==> slots[i].Some?)
      && (slots[i].Some? ==>
            after[i].value.lastRefill == slots[i].value.lastRefill && after[i].value.tokens <= slots[i].value.tokens)
  }

  /** Telling creates no entry, dates none anew, and brings a level down to each level it hears of. */
  lemma {:induction false} TellingLowers(c: Setup, slots: seq<Slot>, tells: seq<Move>, low: real)
    requires AllAmong(|slots|, tells) && (forall m | m in tells :: m.Tell?) && NoneBelow(slots, low)
    ensures var after := Played(c, slots, tells);
            && NoneBelow(after, low) && OnlyLower(slots, after)
            && (forall m | m in tells && slots[m.to].Some? && slots[m.from].Some? ::
                  after[m.to].value.tokens <= slots[m.from].value.tokens)
    ensures Granted(c, slots, tells) == 0
  {
    if tells != [] {
      TellingLowers(c, slots, Prefix(tells), low);
      assert Last(tells) in tells;
      assert forall m | m in tells :: m in Prefix(tells) || m == Last(tells);
    }
  }

  function AtLevel(slot: Slot, level: real): Slot {
    if slot.None? then None else Some(Entry(level, slot.value.lastRefill))
  }

  function AllAtLevel(slots: seq<Slot>, level: real): (after: seq<Slot>)
    ensures |after| == |slots|
  {
    seq(|slots|, i requires 0 <= i < |slots| => AtLevel(slots[i], level))
  }

  /** After a full exchange every node that stores the entity holds the lowest level. */
  lemma Exchanging(c: Setup, slots: seq<Slot>, tells: seq<Move>, lowest: nat)
    requires IsExchange(|slots|, tells) && lowest < |slots| && slots[lowest].Some?
    requires NoneBelow(slots, slots[lowest].value.tokens)
    ensures Played(c, slots, tells) == AllAtLevel(slots, slots[lowest].value.tokens)
    ensures Granted(c, slots, tells) == 0
  {
    var low := slots[lowest].value.tokens;
    forall i: nat | i < |slots| ensures Played(c, slots, tells)[i] == AtLevel(slots[i], low) {
      HearsTheLowest(c, slots, tells, lowest, i);
    }
    TellingLowers(c, slots, tells, low);
  }

  lemma HearsTheLowest(c: Setup, slots: seq<Slot>, tells: seq<Move>, lowest: nat, i: nat)
    requires IsExchange(|slots|, tells) && lowest < |slots| && slots[lowest].Some? && i < |slots|
    requires NoneBelow(slots, slots[lowest].value.tokens)
    ensures Played(c, slots, tells)[i] == AtLevel(slots[i], slots[lowest].value.tokens)
  {
    TellingLowers(c, slots, tells, slots[lowest].value.tokens);
    if i != lowest {
      assert Tell(i, lowest) in tells;
    }
    assert slots[i].Some? ==> Played(c, slots, tells)[i].value.tokens <= slots[lowest].value.tokens;
  }

  lemma NothingToExchange(c: Setup, slots: seq<Slot>, tells: seq<Move>)
    requires IsExchange(|slots|, tells) && forall i | 0 <= i < |slots| :: slots[i].None?
    ensures Played(c, slots, tells) == slots && Granted(c, slots, tells) == 0
  {
    TellingLowers(c, slots, tells, 0.0);
  }

  function TellsTo(to: nat, n: nat): seq<Move> {
    if n == 0 then [] else TellsTo(to, n - 1) + [Tell(to, n - 1)]
  }

  function AllTells(k: nat, n: nat): seq<Move> {
    if k == 0 then [] else AllTells(k - 1, n) + TellsTo(k - 1, n)
  }

  predicate AreTells(tells: seq<Move>, k: nat, n: nat) {
    forall m | m in tells :: m.Tell? && m.to < k && m.from < n
  }

  lemma {:induction false} TellsToAreTells(to: nat, n: nat)
    ensures AreTells(TellsTo(to, n), to + 1, n)
  {
    if n > 0 {
      TellsToAreTells(to, n - 1);
    }
  }

  lemma {:induction false} ToldBy(to: nat, n: nat, from: nat)
    requires from < n
    ensures Tell(to, from) in TellsTo(to, n)
  {
    if from < n - 1 {
      ToldBy(to, n - 1, from);
    }
  }

  lemma MoreTells(a: seq<Move>, b: seq<Move>, k: nat, n: nat)
    requires AreTells(a, k, n) && AreTells(b, k + 1, n)
    ensures AreTells(a + b, k + 1, n)
  {
  }

  lemma {:induction false} AllAreTells(k: nat, n: nat)
    ensures AreTells(AllTells(k, n), k, n)
  {
    if k > 0 {
      AllAreTells(k - 1, n);
      TellsToAreTells(k - 1, n);
      MoreTells(AllTells(k - 1, n), TellsTo(k - 1, n), k - 1, n);
    }
  }

  lemma InEither(a: seq<Move>, b: seq<Move>, m: Move)
    requires m in a || m in b
    ensures m in a + b
  {
  }

  lemma {:induction false} EachIsTold(k: nat, n: nat, to: nat, from: nat)
    requires to < k && from < n
    ensures Tell(to, from) in AllTells(k, n)
  {
    if to < k - 1 {
      EachIsTold(k - 1, n, to, from);
    } else {
      ToldBy(to, n, from);
    }
    InEither(AllTells(k - 1, n), TellsTo(k - 1, n), Tell(to, from));
  }

  lemma AnExchange(n: nat) returns (tells: seq<Move>)
    ensures IsExchange(n, tells)
  {
    tells := AllTells(n, n);
    AllAreTells(n, n);
    forall to: nat, from: nat | to < n && from < n ensures Tell(to, from) in AllTells(n, n) {
      EachIsTold(n, n, to, from);
    }
  }

  // ---------------------------------------------------------------------------------------------
  // One round at one instant: requests anywhere, then a full exchange
  // ---------------------------------------------------------------------------------------------

  datatype Round = Round(serves: seq<Move>, tells: seq<Move>)

  predicate IsRound(n: nat, r: Round) {
    AllAmong(n, r.serves) && (forall m | m in r.serves :: m.Serve?) && IsExchange(n, r.tells)
  }

  predicate IsRoundAt(n: nat, at: real, r: Round) {
    IsRound(n, r) && forall m | m in r.serves :: m.now == at
  }

  /** The nodes that store the entity, and the level they all hold: the whole limit while none does. */
  datatype Holding = Holding(stored: set<nat>, level: nat)

  predicate IsHolding(n: nat, limit: nat, h: Holding) {
    && h.level <= limit && (forall i | i in h.stored :: i < n)
    && (h.stored == {} ==> h.level == limit)
  }

  predicate Holds(limit: nat, at: real, slots: seq<Slot>, h: Holding) {
    && IsHolding(|slots|, limit, h)
    && forall i: nat | i < |slots| ::
         slots[i] == if i in h.stored then Some(Entry(h.level as real, at)) else None
  }

  function Requests(serves: seq<Move>, i: nat): nat {
    if serves == [] then 0
    else Requests(Prefix(serves), i) + if Last(serves).Serve? && Last(serves).node == i then 1 else 0
  }

  function Lower(a: nat, b: nat): nat {
    if a <= b then a else b
  }

  /** What a request at node `i` finds: a node without an entry starts full. */
  function Found(limit: nat, h: Holding, i: nat): nat {
    if i in h.stored then h.level else limit
  }

  /** What each node admits of a round. */
  function Grants(n: nat, limit: nat, h: Holding, serves: seq<Move>): (x: seq<nat>)
    ensures |x| == n
  {
    seq(n, i requires 0 <= i < n => Lower(Found(limit, h, i), Requests(serves, i)))
  }

  /** How far below the common level that takes each node: a node that starts full first has to come
      down to it. */
  function Drop(limit: nat, h: Holding, i: nat, x: nat): nat
    requires h.level <= limit
  {
    if i in h.stored then x else if x > limit - h.level then x - (limit - h.level) else 0
  }

  function Drops(limit: nat, h: Holding, x: seq<nat>): (d: seq<nat>)
    requires h.level <= limit
    ensures |d| == |x|
  {
    seq(|x|, i requires 0 <= i < |x| => Drop(limit, h, i, x[i]))
  }

  function Stored(n: nat, h: Holding, serves: seq<Move>): set<nat> {
    h.stored + set i: nat | i < n && Requests(serves, i) > 0
  }

  function HoldingAfter(n: nat, limit: nat, h: Holding, r: Round): Holding
    requires h.level <= limit
  {
    var drop := Most(Drops(limit, h, Grants(n, limit, h, r.serves)));
    Holding(Stored(n, h, r.serves), if drop <= h.level then h.level - drop else 0)
  }

  function Sum(x: seq<nat>): nat {
    if x == [] then 0 else Sum(Prefix(x)) + Last(x)
  }

  function Most(x: seq<nat>): (m: nat)
    ensures forall i | 0 <= i < |x| :: x[i] <= m
    ensures m > 0 ==> m in x
  {
    if x == [] then 0 else if Last(x) > Most(Prefix(x)) then Last(x) else Most(Prefix(x))
  }

  lemma {:induction false} SumAfterUpdate(x: seq<nat>, i: nat, v: nat)
    requires i < |x|
    ensures Sum(x[i := v]) == Sum(x) - x[i] + v
  {
    var x' := x[i := v];
    if i == |x| - 1 {
      assert Prefix(x') == Prefix(x);
    } else {
      SumAfterUpdate(Prefix(x), i, v);
      assert Prefix(x') == Prefix(x)[i := v];
    }
  }

  predicate AllZero(x: seq<nat>) {
    forall i | 0 <= i < |x| :: x[i] == 0
  }

  lemma {:induction false} SumOfZeros(x: seq<nat>)
    requires AllZero(x)
    ensures Sum(x) == 0
  {
    if x != [] {
      SumOfZeros(Prefix(x));
    }
  }

  lemma GrantsOfOneMore(n: nat, limit: nat, h: Holding, serves: seq<Move>)
    requires serves != [] && Last(serves).Serve? && Last(serves).node < n
    ensures var x, y, i := Grants(n, limit, h, serves), Grants(n, limit, h, Prefix(serves)), Last(serves).node;
            && x[i] == Lower(Found(limit, h, i), Requests(Prefix(serves), i) + 1)
            && (forall j | 0 <= j < n && j != i :: x[j] == y[j])
            && Sum(x) == Sum(y) + x[i] - y[i]
  {
    var x, y, i := Grants(n, limit, h, serves), Grants(n, limit, h, Prefix(serves)), Last(serves).node;
    assert x == y[i := x[i]];
    SumAfterUpdate(y, i, x[i]);
  }

  /** A node's slot after it has been asked `requests` times. */
  function ServedSlot(limit: nat, h: Holding, at: real, i: nat, requests: nat): Slot {
    if i in h.stored || requests > 0
    then Some(Entry((Found(limit, h, i) - Lower(Found(limit, h, i), requests)) as real, at))
    else None
  }

  lemma OneServe(c: Setup, h: Holding, at: real, i: nat, requests: nat)
    requires h.level <= c.limit
    ensures var before, after := ServedSlot(c.limit, h, at, i, requests), ServedSlot(c.limit, h, at, i, requests + 1);
            && Step(c.p, before, Call(at, 1, c.limit)) == after
            && (Admits(c.p, before, at, 1, c.limit) <==> requests < Found(c.limit, h, i))
  {
    EarnedSum(c.p.rate, 0.0, 0.0);
  }

  lemma {:induction false} ServingDrains(c: Setup, slots: seq<Slot>, h: Holding, at: real, serves: seq<Move>)
    requires Holds(c.limit, at, slots, h) && AllAmong(|slots|, serves)
    requires forall m | m in serves :: m.Serve? && m.now == at
    ensures forall i: nat | i < |slots| ::
              Played(c, slots, serves)[i] == ServedSlot(c.limit, h, at, i, Requests(serves, i))
    ensures Granted(c, slots, serves) == Sum(Grants(|slots|, c.limit, h, serves))
  {
    var n := |slots|;
    if serves == [] {
      SumOfZeros(Grants(n, c.limit, h, serves));
    } else {
      var pre, m := Prefix(serves), Last(serves);
      ServingDrains(c, slots, h, at, pre);
      assert m in serves;
      OneServe(c, h, at, m.node, Requests(pre, m.node));
      GrantsOfOneMore(n, c.limit, h, serves);
      forall i: nat | i < n
        ensures Played(c, slots, serves)[i] == ServedSlot(c.limit, h, at, i, Requests(serves, i))
      {
        assert i != m.node ==> Requests(serves, i) == Requests(pre, i);
      }
    }
  }

  /** The node that ends a round lowest. */
  lemma Busiest(n: nat, limit: nat, h: Holding, serves: seq<Move>) returns (i: nat)
    requires IsHolding(n, limit, h) && Stored(n, h, serves) != {}
    ensures Lowest(limit, n, h, serves, i)
    ensures var x := Grants(n, limit, h, serves);
            forall j: nat | j in Stored(n, h, serves) :: Found(limit, h, i) - x[i] <= Found(limit, h, j) - x[j]
  {
    var x := Grants(n, limit, h, serves);
    var d := Drops(limit, h, x);
    if Most(d) > 0 {
      i :| i < n && d[i] == Most(d);
    } else if h.stored != {} {
      i :| i in h.stored;
    } else {
      i :| i in Stored(n, h, serves);
    }
    assert d[i] == Most(d);
    forall j: nat | j in Stored(n, h, serves)
      ensures Found(limit, h, i) - x[i] <= Found(limit, h, j) - x[j]
    {
      assert d[j] <= Most(d);
    }
  }

  /** A round at one instant: what it admits, and what it leaves the nodes. */
  lemma OneRound(c: Setup, slots: seq<Slot>, h: Holding, at: real, r: Round)
    requires Holds(c.limit, at, slots, h) && IsRoundAt(|slots|, at, r)
    ensures AllAmong(|slots|, r.serves + r.tells)
    ensures Most(Drops(c.limit, h, Grants(|slots|, c.limit, h, r.serves))) <= h.level
    ensures Holds(c.limit, at, Played(c, slots, r.serves + r.tells), HoldingAfter(|slots|, c.limit, h, r))
    ensures Granted(c, slots, r.serves + r.tells) == Sum(Grants(|slots|, c.limit, h, r.serves))
  {
    var n, served := |slots|, Played(c, slots, r.serves);
    ServingDrains(c, slots, h, at, r.serves);
    PlayedInTurn(c, slots, r.serves, r.tells);
    if Stored(n, h, r.serves) == {} {
      NothingServed(n, c.limit, h, r.serves);
      NothingToExchange(c, served, r.tells);
    } else {
      LowestIsTheNewLevel(c.limit, served, h, at, r);
      var i := Busiest(n, c.limit, h, r.serves);
      Exchanging(c, served, r.tells, i);
    }
  }

  lemma LowestIsTheNewLevel(limit: nat, served: seq<Slot>, h: Holding, at: real, r: Round)
    requires IsHolding(|served|, limit, h) && Stored(|served|, h, r.serves) != {}
    requires forall i: nat | i < |served| :: served[i] == ServedSlot(limit, h, at, i, Requests(r.serves, i))
    ensures var after := HoldingAfter(|served|, limit, h, r);
            && Most(Drops(limit, h, Grants(|served|, limit, h, r.serves))) <= h.level
            && NoneBelow(served, after.level as real)
            && Holds(limit, at, AllAtLevel(served, after.level as real), after)
            && forall i: nat | Lowest(limit, |served|, h, r.serves, i) ::
                 served[i].Some? && served[i].value.tokens == after.level as real
  {
    var n, after := |served|, HoldingAfter(|served|, limit, h, r);
    var busiest := Busiest(n, limit, h, r.serves);
    forall i: nat | i < n
      ensures served[i].Some? ==> after.level as real <= served[i].value.tokens
      ensures AtLevel(served[i], after.level as real)
         == if i in after.stored then Some(Entry(after.level as real, at)) else None
    {
      NodeAfterRound(n, limit, h, at, r, busiest, i);
    }
  }

  lemma NodeAfterRound(n: nat, limit: nat, h: Holding, at: real, r: Round, busiest: nat, i: nat)
    requires IsHolding(n, limit, h) && i < n && Lowest(limit, n, h, r.serves, busiest)
    requires var x := Grants(n, limit, h, r.serves);
             forall j: nat | j in Stored(n, h, r.serves) ::
               Found(limit, h, busiest) - x[busiest] <= Found(limit, h, j) - x[j]
    ensures var slot, after := ServedSlot(limit, h, at, i, Requests(r.serves, i)), HoldingAfter(n, limit, h, r);
            && (slot.Some? ==> after.level as real <= slot.value.tokens)
            && AtLevel(slot, after.level as real)
               == if i in after.stored then Some(Entry(after.level as real, at)) else None
  {
    assert i in Stored(n, h, r.serves) <==> i in h.stored || Requests(r.serves, i) > 0;
  }

  predicate Lowest(limit: nat, n: nat, h: Holding, serves: seq<Move>, i: nat)
    requires h.level <= limit
  {
    var x := Grants(n, limit, h, serves);
    && i in Stored(n, h, serves) && i < n
    && Found(limit, h, i) - x[i] == h.level - Most(Drops(limit, h, x))
  }

  lemma NothingServed(n: nat, limit: nat, h: Holding, serves: seq<Move>)
    requires IsHolding(n, limit, h) && Stored(n, h, serves) == {}
    ensures h.stored == {} && Most(Drops(limit, h, Grants(n, limit, h, serves))) == 0
  {
    assert forall i: nat | i < n :: i !in Stored(n, h, serves);
    assert AllZero(Drops(limit, h, Grants(n, limit, h, serves)));
  }

  // ---------------------------------------------------------------------------------------------
  // Runs of rounds at one instant
  // ---------------------------------------------------------------------------------------------

  predicate AreRoundsAt(n: nat, at: real, rounds: seq<Round>) {
    forall r | r in rounds :: IsRoundAt(n, at, r)
  }

  function Moves(rounds: seq<Round>): seq<Move> {
    if rounds == [] then [] else Moves(Prefix(rounds)) + (Last(rounds).serves + Last(rounds).tells)
  }

  function Held(n: nat, limit: nat, h: Holding, rounds: seq<Round>): (after: Holding)
    requires h.level <= limit
    ensures after.level <= limit
  {
    if rounds == [] then h else HoldingAfter(n, limit, Held(n, limit, h, Prefix(rounds)), Last(rounds))
  }

  function GrantsOfLast(n: nat, limit: nat, h: Holding, rounds: seq<Round>): (x: seq<nat>)
    requires rounds != [] && h.level <= limit
    ensures |x| == n
  {
    Grants(n, limit, Held(n, limit, h, Prefix(rounds)), Last(rounds).serves)
  }

  /** What a round admits beyond what it takes off the common level. */
  function Excess(limit: nat, h: Holding, x: seq<nat>): int
    requires h.level <= limit
  {
    Sum(x) - Most(Drops(limit, h, x))
  }

  function Overshoot(n: nat, limit: nat, h: Holding, rounds: seq<Round>): int
    requires h.level <= limit
  {
    if rounds == [] then 0
    else Overshoot(n, limit, h, Prefix(rounds))
         + Excess(limit, Held(n, limit, h, Prefix(rounds)), GrantsOfLast(n, limit, h, rounds))
  }

  /** Rounds admit what the common level has dropped by and, in each round, what exceeds its drop. */
  lemma {:induction false} RoundsOvershootExactly(c: Setup, slots: seq<Slot>, h: Holding, at: real, rounds: seq<Round>)
    requires Holds(c.limit, at, slots, h) && AreRoundsAt(|slots|, at, rounds)
    ensures AllAmong(|slots|, Moves(rounds))
    ensures Holds(c.limit, at, Played(c, slots, Moves(rounds)), Held(|slots|, c.limit, h, rounds))
    ensures Granted(c, slots, Moves(rounds))
         == h.level - Held(|slots|, c.limit, h, rounds).level + Overshoot(|slots|, c.limit, h, rounds)
  {
    if rounds != [] {
      var pre, r := Prefix(rounds), Last(rounds);
      assert r in rounds;
      RoundsOvershootExactly(c, slots, h, at, pre);
      OneRound(c, Played(c, slots, Moves(pre)), Held(|slots|, c.limit, h, pre), at, r);
      PlayedInTurn(c, slots, Moves(pre), r.serves + r.tells);
    }
  }

  // ---------------------------------------------------------------------------------------------
  // When nothing is overshot
  // ---------------------------------------------------------------------------------------------

  predicate OneServes(x: seq<nat>) {
    forall i, j | 0 <= i < |x| && 0 <= j < |x| && x[i] > 0 && x[j] > 0 :: i == j
  }

  /** A node without an entry admits something only while the common level is still the whole limit. */
  predicate NewcomersStartFirst(limit: nat, h: Holding, x: seq<nat>) {
    forall i: nat | i < |x| && x[i] > 0 :: i in h.stored || h.level == limit
  }

  lemma OneMoreServes(x: seq<nat>)
    requires x != []
    ensures OneServes(x) <==> OneServes(Prefix(x)) && (Last(x) == 0 || AllZero(Prefix(x)))
  {
    assert forall i | 0 <= i < |x| - 1 :: Prefix(x)[i] == x[i];
  }

  lemma {:induction false} SumIsMostExactly(x: seq<nat>)
    ensures Sum(x) >= Most(x)
    ensures Sum(x) == Most(x) <==> OneServes(x)
  {
    if x != [] {
      SumIsMostExactly(Prefix(x));
      OneMoreServes(x);
      if AllZero(Prefix(x)) {
        SumOfZeros(Prefix(x));
      }
    }
  }

  lemma ExcessIsZeroExactly(limit: nat, h: Holding, x: seq<nat>)
    requires h.level <= limit
    ensures Excess(limit, h, x) >= 0
    ensures Excess(limit, h, x) == 0 <==> OneServes(x) && NewcomersStartFirst(limit, h, x)
  {
    var d := Drops(limit, h, x);
    SumIsMostExactly(x);
    assert Most(d) <= Most(x) by {
      if Most(d) > 0 {
        var i :| 0 <= i < |d| && d[i] == Most(d);
        assert d[i] <= x[i] <= Most(x);
      }
    }
    if OneServes(x) {
      MostOfOne(limit, h, x);
    }
  }

  lemma MostOfOne(limit: nat, h: Holding, x: seq<nat>)
    requires h.level <= limit && OneServes(x)
    ensures Most(Drops(limit, h, x)) == Most(x) <==> NewcomersStartFirst(limit, h, x)
  {
    var d := Drops(limit, h, x);
    if Most(x) > 0 {
      var i: nat :| i < |x| && x[i] == Most(x);
      assert forall j | 0 <= j < |x| && j != i :: x[j] == 0;
      assert forall j | 0 <= j < |d| && j != i :: d[j] == 0;
      assert Most(d) == d[i];
    } else {
      assert forall j | 0 <= j < |x| :: x[j] == 0;
      assert forall j | 0 <= j < |d| :: d[j] == 0;
      assert Most(d) == 0;
    }
  }

  /** In every round at most one node admits anything, and one without an entry only as the first of all. */
  predicate OneServesPerRound(n: nat, limit: nat, h: Holding, rounds: seq<Round>)
    requires h.level <= limit
  {
    rounds == [] ||
    (&& OneServesPerRound(n, limit, h, Prefix(rounds))
     && OneServes(GrantsOfLast(n, limit, h, rounds))
     && NewcomersStartFirst(limit, Held(n, limit, h, Prefix(rounds)), GrantsOfLast(n, limit, h, rounds)))
  }

  lemma {:induction false} OvershootIsZeroExactly(n: nat, limit: nat, h: Holding, rounds: seq<Round>)
    requires h.level <= limit
    ensures Overshoot(n, limit, h, rounds) >= 0
    ensures Overshoot(n, limit, h, rounds) == 0 <==> OneServesPerRound(n, limit, h, rounds)
  {
    if rounds != [] {
      OvershootIsZeroExactly(n, limit, h, Prefix(rounds));
      ExcessIsZeroExactly(limit, Held(n, limit, h, Prefix(rounds)), GrantsOfLast(n, limit, h, rounds));
    }
  }

  /** An exchange after every single request is enough at one instant where all nodes store the entity. */
  lemma {:induction false} OneRequestPerRound(n: nat, limit: nat, h: Holding, rounds: seq<Round>)
    requires h.level <= limit && forall i: nat | i < n :: i in h.stored
    requires forall r | r in rounds :: |r.serves| <= 1
    ensures OneServesPerRound(n, limit, h, rounds)
    ensures forall i: nat | i < n :: i in Held(n, limit, h, rounds).stored
  {
    if rounds != [] {
      OneRequestPerRound(n, limit, h, Prefix(rounds));
      assert Last(rounds) in rounds;
      OneRequestOneServer(n, limit, Held(n, limit, h, Prefix(rounds)), Last(rounds).serves);
    }
  }

  lemma OneRequestOneServer(n: nat, limit: nat, h: Holding, serves: seq<Move>)
    requires |serves| <= 1
    ensures OneServes(Grants(n, limit, h, serves))
  {
    assert serves != [] ==> Prefix(serves) == [];
    var x := Grants(n, limit, h, serves);
    forall i | 0 <= i < n && x[i] > 0 ensures serves != [] && Last(serves).Serve? && Last(serves).node == i {
      assert Requests(serves, i) > 0;
    }
  }

  // ---------------------------------------------------------------------------------------------
  // Using up what is left
  // ---------------------------------------------------------------------------------------------

  function Repeated(m: Move, k: nat): (moves: seq<Move>)
    ensures forall m' | m' in moves :: m' == m
  {
    if k == 0 then [] else Repeated(m, k - 1) + [m]
  }

  lemma {:induction false} RequestsOfRepeated(i: nat, at: real, k: nat, j: nat)
    ensures Requests(Repeated(Serve(i, at), k), j) == if j == i then k else 0
  {
    if k > 0 {
      RequestsOfRepeated(i, at, k - 1, j);
      assert Prefix(Repeated(Serve(i, at), k)) == Repeated(Serve(i, at), k - 1);
    }
  }

  /** The rounds, and then requests at one node for the level that is left. */
  function RunOut(n: nat, limit: nat, h: Holding, at: real, rounds: seq<Round>, i: nat): seq<Move>
    requires h.level <= limit
  {
    Moves(rounds) + Repeated(Serve(i, at), Held(n, limit, h, rounds).level)
  }

  lemma RunOutAdmits(c: Setup, slots: seq<Slot>, h: Holding, at: real, rounds: seq<Round>, i: nat)
    requires Holds(c.limit, at, slots, h) && AreRoundsAt(|slots|, at, rounds) && i < |slots|
    ensures AllAmong(|slots|, RunOut(|slots|, c.limit, h, at, rounds, i))
    ensures Granted(c, slots, RunOut(|slots|, c.limit, h, at, rounds, i))
         == h.level + Overshoot(|slots|, c.limit, h, rounds)
  {
    RoundsOvershootExactly(c, slots, h, at, rounds);
    var after, held := Played(c, slots, Moves(rounds)), Held(|slots|, c.limit, h, rounds);
    var more := Repeated(Serve(i, at), held.level);
    ServingDrains(c, after, held, at, more);
    OneNodeGrants(|slots|, c.limit, held, at, i);
    PlayedInTurn(c, slots, Moves(rounds), more);
  }

  lemma OneNodeGrants(n: nat, limit: nat, h: Holding, at: real, i: nat)
    requires i < n && h.level <= limit
    ensures Sum(Grants(n, limit, h, Repeated(Serve(i, at), h.level))) == h.level
  {
    var x := Grants(n, limit, h, Repeated(Serve(i, at), h.level));
    forall j: nat | j < n ensures x[j] == if j == i then h.level else 0 {
      RequestsOfRepeated(i, at, h.level, j);
    }
    SumOfZeros(x[i := 0]);
    SumAfterUpdate(x, i, 0);
  }

  /** The nodes, one of them using up what is left, stay within the common level they start from if and
      only if in every round at most one node admits anything, and none without an entry after another
      has admitted. */
  lemma LimitIsSharedExactly(c: Setup, slots: seq<Slot>, h: Holding, at: real, rounds: seq<Round>, i: nat)
    requires Holds(c.limit, at, slots, h) && AreRoundsAt(|slots|, at, rounds) && i < |slots|
    ensures AllAmong(|slots|, RunOut(|slots|, c.limit, h, at, rounds, i))
    ensures Granted(c, slots, RunOut(|slots|, c.limit, h, at, rounds, i)) <= h.level
       <==> OneServesPerRound(|slots|, c.limit, h, rounds)
  {
    RunOutAdmits(c, slots, h, at, rounds, i);
    OvershootIsZeroExactly(|slots|, c.limit, h, rounds);
  }
}
